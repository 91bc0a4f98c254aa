/**
 * What the service emits: MQTT publishes (a topic and a payload that is either
 * plain text or a `JSON.stringify`d object) and outbound emails.
 */
module Messages {
  import opened Wrappers
  import opened Js

  datatype JsonValue = JStr(s: string) | JInt(i: int)

  /** A published payload: a bare string, or an object's entries in key order. */
  datatype Body = Text(text: string) | Object(entries: seq<(string, JsonValue)>)

  datatype Publish = Publish(topic: string, body: Body)

  /** One call of the email helper: recipient, subject and text. */
  datatype Mail = Mail(to: Option<string>, subject: string, text: string)

  /** The reply topic `${base}/${id}` built from a correlation field. */
  function ReplyTopic(base: string, id: Option<string>): string {
    base + "/" + Interpolate(id)
  }

  /** `JSON.stringify` drops the entries whose value is `undefined`. */
  function Present(fields: seq<(string, Option<JsonValue>)>): (r: seq<(string, JsonValue)>)
    ensures |r| <= |fields|
    ensures forall e :: e in r ==> (e.0, Some(e.1)) in fields
    ensures forall i :: 0 <= i < |fields| && fields[i].1.Some? ==> (fields[i].0, fields[i].1.value) in r
  {
    if fields == [] then []
    else
      var rest := Present(fields[1..]);
      assert forall e :: e in fields[1..] ==> e in fields;
      if fields[0].1.Some? then [(fields[0].0, fields[0].1.value)] + rest else rest
  }

  /** Order: the defined entries of a concatenation are those of each part, in the same order. */
  lemma {:induction false} PresentAppend(f: seq<(string, Option<JsonValue>)>, g: seq<(string, Option<JsonValue>)>)
    ensures Present(f + g) == Present(f) + Present(g)
    decreases |f|
  {
    if f == [] {
      assert f + g == g;
    } else {
      assert (f + g)[0] == f[0] && (f + g)[1..] == f[1..] + g;
      var head := if f[0].1.Some? then [(f[0].0, f[0].1.value)] else [];
      assert Present(f + g) == head + Present(f[1..] + g);
      assert Present(f) == head + Present(f[1..]);
      PresentAppend(f[1..], g);
    }
  }

  /** A single field is kept, as its key and value, exactly when its value is defined. */
  lemma PresentSingle(key: string, v: Option<JsonValue>)
    ensures Present([(key, v)]) == if v.Some? then [(key, v.value)] else []
  {
    assert [(key, v)][1..] == [];
  }

  function Stringify(fields: seq<(string, Option<JsonValue>)>): Body {
    Object(Present(fields))
  }

  /** An object reports `key` with value `v` when `v` is defined, and has no such key otherwise. */
  predicate Carries(b: Body, key: string, v: Option<JsonValue>) {
    && b.Object?
    && (v.Some? ==> (key, v.value) in b.entries)
    && (v.None? ==> forall e :: e in b.entries ==> e.0 != key)
  }

  /** The keys of a published object (none for plain text). */
  function Keys(b: Body): set<string> {
    match b
    case Text(_) => {}
    case Object(entries) => set e | e in entries :: e.0
  }

  /** Every key of a stringified object was one of the fields handed to it. */
  lemma StringifyKeys(fields: seq<(string, Option<JsonValue>)>, key: string)
    requires key in Keys(Stringify(fields))
    ensures exists i :: 0 <= i < |fields| && fields[i].0 == key
  {
    var e :| e in Present(fields) && e.0 == key;
    assert (e.0, Some(e.1)) in fields;
  }

  /** Each field of an object literal is reported with its value, or left out when it is undefined. */
  lemma StringifyCarries(fields: seq<(string, Option<JsonValue>)>, i: int)
    requires 0 <= i < |fields|
    requires fields[i].1.None? ==> forall j :: 0 <= j < |fields| && j != i ==> fields[j].0 != fields[i].0
    ensures Carries(Stringify(fields), fields[i].0, fields[i].1)
  {
  }

  /** No two fields handed to `JSON.stringify` share a key, as in an object literal. */
  predicate DistinctKeys(fields: seq<(string, Option<JsonValue>)>) {
    forall j, l :: 0 <= j < l < |fields| ==> fields[j].0 != fields[l].0
  }

  /** An object literal with distinct keys reports every field: its value when defined, no key otherwise. */
  lemma StringifyReports(fields: seq<(string, Option<JsonValue>)>)
    requires DistinctKeys(fields)
    ensures forall i :: 0 <= i < |fields| ==> Carries(Stringify(fields), fields[i].0, fields[i].1)
  {
    forall i | 0 <= i < |fields| ensures Carries(Stringify(fields), fields[i].0, fields[i].1) {
      StringifyCarries(fields, i);
    }
  }

  /** A stringified object has only keys from the fields it was built from. */
  lemma StringifyKeysWithin(fields: seq<(string, Option<JsonValue>)>, allowed: set<string>)
    requires forall i :: 0 <= i < |fields| ==> fields[i].0 in allowed
    ensures Keys(Stringify(fields)) <= allowed
  {
    forall key | key in Keys(Stringify(fields)) ensures key in allowed {
      StringifyKeys(fields, key);
    }
  }

  function StrField(x: Option<string>): Option<JsonValue> {
    if x.Some? then Some(JStr(x.value)) else None
  }

  function IntField(x: Option<int>): Option<JsonValue> {
    if x.Some? then Some(JInt(x.value)) else None
  }
}
