/**
 * The two document collections and the ODM operations the handlers use:
 * `findOne` (first match in natural order), `save` of a new document, and an
 * in-place update of one document. The unique index on `email`
 * (src/models/dentist.js:7) refuses any write that would give a second
 * document of the same collection the same email.
 */
module Store {
  import opened Wrappers
  import opened Accounts

  /** A `findOne` filter: by email, or by `userId` / `dentistId`. */
  datatype Filter = ByEmail(email: Option<string>) | ById(id: nat)

  predicate Matches(a: Account, f: Filter) {
    match f
    case ByEmail(e) => a.email == e
    case ById(n) => a.id == n
  }

  /** The position of the first document that matches the filter. */
  function FindIndex(coll: seq<Account>, f: Filter): (r: Option<nat>)
    ensures r.Some? ==> r.value < |coll| && Matches(coll[r.value], f)
    ensures r.Some? ==> forall j :: 0 <= j < r.value ==> !Matches(coll[j], f)
    ensures r.None? <==> forall j :: 0 <= j < |coll| ==> !Matches(coll[j], f)
  {
    if coll == [] then None
    else if Matches(coll[0], f) then Some(0)
    else
      match FindIndex(coll[1..], f)
      case None => None
      case Some(i) => Some(i + 1)
  }

  /** `Model.findOne(filter)`: the first matching document, or null when none matches. */
  function FindOne(coll: seq<Account>, f: Filter): (r: Option<Account>)
    ensures r.Some? ==> r.value in coll && Matches(r.value, f)
    ensures r.None? <==> forall a :: a in coll ==> !Matches(a, f)
  {
    var i := FindIndex(coll, f);
    if i.Some? then Some(coll[i.value]) else None
  }

  ghost predicate UniqueEmails(coll: seq<Account>) {
    forall i, j :: 0 <= i < j < |coll| ==> coll[i].email != coll[j].email
  }

  ghost predicate UniqueIds(coll: seq<Account>) {
    forall i, j :: 0 <= i < j < |coll| ==> coll[i].id != coll[j].id
  }

  /** Appending a document whose id no document holds keeps the ids unique. */
  lemma AppendFreshId(coll: seq<Account>, a: Account)
    requires UniqueIds(coll)
    requires forall b :: b in coll ==> b.id != a.id
    ensures UniqueIds(coll + [a])
  {
    var c := coll + [a];
    forall i, j | 0 <= i < j < |c|
      ensures c[i].id != c[j].id
    {
      if j == |coll| {
        assert c[i] in coll;
      }
    }
  }

  /** Some document other than the one at position `i` already holds `email`. */
  predicate EmailHeldByOther(coll: seq<Account>, i: int, email: Option<string>) {
    exists j :: 0 <= j < |coll| && j != i && coll[j].email == email
  }

  /** The collection of the given kind, out of the User and the Dentist collection. */
  function Select(users: seq<Account>, dentists: seq<Account>, kind: Kind): seq<Account> {
    if kind == UserKind then users else dentists
  }

  function Other(kind: Kind): Kind {
    if kind == UserKind then DentistKind else UserKind
  }

  class Database {
    var users: seq<Account>
    var dentists: seq<Account>

    /** The unique email index holds in both collections. */
    ghost predicate Valid()
      reads this
    {
      UniqueEmails(users) && UniqueEmails(dentists)
    }

    constructor ()
      ensures Valid() && users == [] && dentists == []
    {
      users, dentists := [], [];
    }

    function Collection(kind: Kind): seq<Account>
      reads this
    {
      Select(users, dentists, kind)
    }

    /** `new Model(doc).save()`: appends the document unless its email is taken. */
    method Insert(kind: Kind, a: Account) returns (ok: bool)
      requires Valid()
      modifies this
      ensures Valid()
      ensures ok <==> !EmailHeldByOther(old(Collection(kind)), -1, a.email)
      ensures Collection(kind) == if ok then old(Collection(kind)) + [a] else old(Collection(kind))
      ensures Collection(Other(kind)) == old(Collection(Other(kind)))
    {
      ok := !EmailHeldByOther(Collection(kind), -1, a.email);
      if ok {
        if kind == UserKind {
          users := users + [a];
        } else {
          dentists := dentists + [a];
        }
      }
    }

    /** An update of the document at position `i`, refused when its new email is taken by another. */
    method Replace(kind: Kind, i: nat, a: Account) returns (ok: bool)
      requires Valid()
      requires i < |Collection(kind)|
      modifies this
      ensures Valid()
      ensures ok <==> !EmailHeldByOther(old(Collection(kind)), i, a.email)
      ensures Collection(kind) == if ok then old(Collection(kind))[i := a] else old(Collection(kind))
      ensures Collection(Other(kind)) == old(Collection(Other(kind)))
    {
      ok := !EmailHeldByOther(Collection(kind), i, a.email);
      if ok {
        if kind == UserKind {
          users := users[i := a];
        } else {
          dentists := dentists[i := a];
        }
      }
    }
  }
}
