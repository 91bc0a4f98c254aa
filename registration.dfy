/**
 * `registerUser` from src/registrationHandler.js: an early-exit validation
 * pipeline, a uniqueness check in the routed collection, the insert of one new
 * account with a generated id, and the success replies.
 */
module Registration {
  import opened Wrappers
  import opened Js
  import opened Messages
  import opened Accounts
  import opened Store
  import opened FindUser
  import opened GenerateId
  import opened JwtHandler
  import Topics

  const OfficeRequired := "Office is required"
  const AllFieldsRequired := "All fields are required"
  const InvalidEmail := "Invalid email address"
  const PasswordsDiffer := "Passwords do not match"
  const PasswordTooShort := "Password must be longer than 8 characters long"
  const EmailInUse := "Email is already in use"

  /** Digits of a generated `userId` / `dentistId`. */
  const IdLength := 10

  /** The collection a registration inserts into. */
  function RegisterKind(topic: string): Kind {
    if topic == Topics.RegisterDentist then DentistKind else UserKind
  }

  /** The office check: only the dentist topic needs a (non-zero) office. */
  predicate OfficeGiven(topic: string, req: Request) {
    topic == Topics.RegisterDentist ==> TruthyNumber(req.officeId)
  }

  /** The presence check on the five text fields. */
  predicate AllPresent(req: Request) {
    Truthy(req.firstName) && Truthy(req.lastName) && Truthy(req.email) && Truthy(req.password) && Truthy(req.passwordCheck)
  }

  /** The field checks, all passed: office (dentists only), presence, email syntax, confirmation, length. */
  predicate FieldsValid(k: Primitives, topic: string, req: Request) {
    && OfficeGiven(topic, req) && AllPresent(req)
    && k.emailValid(req.email.value)
    && req.password == req.passwordCheck
    && |req.password.value| >= 8
  }

  /** The text of the first check the request fails, in the handler's order; None when it passes all of them. */
  function RegistrationError(k: Primitives, users: seq<Account>, dentists: seq<Account>, topic: string, req: Request)
    : (err: Option<string>)
    ensures err == Some(OfficeRequired) <==> !OfficeGiven(topic, req)
    ensures err == Some(AllFieldsRequired) <==> OfficeGiven(topic, req) && !AllPresent(req)
    ensures err == Some(InvalidEmail) <==>
      OfficeGiven(topic, req) && AllPresent(req) && !k.emailValid(req.email.value)
    ensures err == Some(PasswordsDiffer) <==>
      OfficeGiven(topic, req) && AllPresent(req) && k.emailValid(req.email.value) && req.password != req.passwordCheck
    ensures err == Some(PasswordTooShort) <==>
      && OfficeGiven(topic, req) && AllPresent(req) && k.emailValid(req.email.value)
      && req.password == req.passwordCheck && |req.password.value| < 8
    ensures err == Some(EmailInUse) <==>
      FieldsValid(k, topic, req) && FindUserByEmail(users, dentists, topic, req.email).Some?
    ensures err.None? <==>
      FieldsValid(k, topic, req) && FindUserByEmail(users, dentists, topic, req.email).None?
  {
    if !OfficeGiven(topic, req) then Some(OfficeRequired)
    else if !AllPresent(req) then Some(AllFieldsRequired)
    else if !k.emailValid(req.email.value) then Some(InvalidEmail)
    else if req.password != req.passwordCheck then Some(PasswordsDiffer)
    else if |req.password.value| < 8 then Some(PasswordTooShort)
    else if FindUserByEmail(users, dentists, topic, req.email).Some? then Some(EmailInUse)
    else None
  }

  /** The document `registerUser` saves: request names and email, the password's hash, and the
      office for dentists; no reset code. */
  function NewAccount(topic: string, req: Request, id: nat, digest: string): (a: Account)
    ensures a.id == id && a.password == Some(digest) && a.code.None?
    ensures a.firstName == req.firstName && a.lastName == req.lastName && a.email == req.email
    ensures a.officeId == if topic == Topics.RegisterDentist then req.officeId else None
  {
    Account(id, req.firstName, req.lastName, req.email, Some(digest),
            if topic == Topics.RegisterDentist then req.officeId else None, None)
  }

  /** The success publishes: for a dentist the office notification and then the reply, for anyone
      else the user reply; the reply always carries the token `signJWT` issues for the topic. */
  function RegistrationReplies(k: Primitives, topic: string, a: Account, requestId: Option<string>)
    : (out: seq<Publish>)
    ensures topic == Topics.RegisterDentist ==>
      && |out| == 2 && out[0].topic == Topics.AddDentist
      && out[0].body.Object? && ("dentistId", JInt(a.id)) in out[0].body.entries
      && (a.officeId.Some? ==> ("officeId", JInt(a.officeId.value)) in out[0].body.entries)
      && out[1].topic == ReplyTopic(Topics.RegisterDentist, requestId)
    ensures topic != Topics.RegisterDentist ==> |out| == 1 && out[0].topic == ReplyTopic(Topics.RegisterUser, requestId)
    ensures out[|out| - 1].body.Object?
    ensures ("idToken", JStr(SignJWT(k, a, Some(topic)))) in out[|out| - 1].body.entries
    ensures ("status", JStr("success")) in out[|out| - 1].body.entries
  {
    var token := Some(JStr(SignJWT(k, a, Some(topic))));
    if topic == Topics.RegisterDentist then
      var fields := [("status", Some(JStr("success"))), ("firstName", StrField(a.firstName)),
                     ("lastName", StrField(a.lastName)), ("email", StrField(a.email)),
                     ("officeId", IntField(a.officeId)), ("idToken", token)];
      var office := [("officeId", IntField(a.officeId)), ("dentistId", Some(JInt(a.id)))];
      assert fields[5].1.Some? && fields[0].1.Some? && office[1].1.Some?;
      assert a.officeId.Some? ==> office[0].1.Some?;
      [ Publish(Topics.AddDentist, Stringify(office)),
        Publish(ReplyTopic(Topics.RegisterDentist, requestId), Stringify(fields)) ]
    else
      var fields := [("status", Some(JStr("success"))), ("firstName", StrField(a.firstName)),
                     ("lastName", StrField(a.lastName)), ("email", StrField(a.email)), ("idToken", token)];
      assert fields[4].1.Some? && fields[0].1.Some?;
      [ Publish(ReplyTopic(Topics.RegisterUser, requestId), Stringify(fields)) ]
  }

  /** The success reply reports the new account's profile: each name, the email and (for dentists) the
      office when defined, and no such key otherwise; the office notification reports the office likewise. */
  lemma RegistrationRepliesProfile(k: Primitives, topic: string, a: Account, requestId: Option<string>)
    ensures var out := RegistrationReplies(k, topic, a, requestId);
      var b := out[|out| - 1].body;
      && Carries(b, "firstName", StrField(a.firstName)) && Carries(b, "lastName", StrField(a.lastName))
      && Carries(b, "email", StrField(a.email))
      && (topic == Topics.RegisterDentist ==>
            Carries(b, "officeId", IntField(a.officeId)) && Carries(out[0].body, "officeId", IntField(a.officeId)))
  {
    var token := Some(JStr(SignJWT(k, a, Some(topic))));
    if topic == Topics.RegisterDentist {
      var fields := [("status", Some(JStr("success"))), ("firstName", StrField(a.firstName)),
                     ("lastName", StrField(a.lastName)), ("email", StrField(a.email)),
                     ("officeId", IntField(a.officeId)), ("idToken", token)];
      var office := [("officeId", IntField(a.officeId)), ("dentistId", Some(JInt(a.id)))];
      StringifyReports(fields);
      StringifyReports(office);
      assert fields[1].0 == "firstName" && fields[2].0 == "lastName" && fields[3].0 == "email";
      assert fields[4].0 == "officeId" && office[0].0 == "officeId";
    } else {
      var fields := [("status", Some(JStr("success"))), ("firstName", StrField(a.firstName)),
                     ("lastName", StrField(a.lastName)), ("email", StrField(a.email)), ("idToken", token)];
      StringifyReports(fields);
      assert fields[1].0 == "firstName" && fields[2].0 == "lastName" && fields[3].0 == "email";
    }
  }

  /**
   * What one registration request does, given the store before (`users`, `dentists`) and after
   * (`users'`, `dentists'`): the first failed check is answered on the error topic with no change;
   * running out of id draws or a refused insert publishes nothing and changes nothing; otherwise
   * exactly one account is appended to the routed collection and the success replies go out.
   */
  predicate RegisterOutcome(k: Primitives, topic: string, payload: Option<Request>, draws: seq<Draw>,
                            users: seq<Account>, dentists: seq<Account>,
                            users': seq<Account>, dentists': seq<Account>, replies: seq<Publish>)
  {
    match payload
    case None => replies == [] && users' == users && dentists' == dentists
    case Some(req) =>
      var err := RegistrationError(k, users, dentists, topic, req);
      var kind := RegisterKind(topic);
      var id := GenerateUniqueUserId(IdLength, topic == Topics.RegisterDentist, users, dentists, draws);
      if err.Some? then
        && replies == [Publish(ReplyTopic(Topics.RegisterError, req.requestId), Text(err.value))]
        && users' == users && dentists' == dentists
      else if id.None? || EmailHeldByOther(Select(users, dentists, kind), -1, req.email) then
        replies == [] && users' == users && dentists' == dentists
      else
        var a := NewAccount(topic, req, id.value, k.hash(req.password.value));
        && Select(users', dentists', kind) == Select(users, dentists, kind) + [a]
        && Select(users', dentists', Other(kind)) == Select(users, dentists, Other(kind))
        && replies == RegistrationReplies(k, topic, a, req.requestId)
  }

  method RegisterUser(db: Database, k: Primitives, topic: string, payload: Option<Request>, draws: seq<Draw>)
    returns (replies: seq<Publish>)
    requires db.Valid()
    modifies db
    ensures db.Valid()
    ensures UniqueIds(old(db.users)) ==> UniqueIds(db.users)
    ensures UniqueIds(old(db.dentists)) ==> UniqueIds(db.dentists)
    ensures RegisterOutcome(k, topic, payload, draws, old(db.users), old(db.dentists), db.users, db.dentists, replies)
  {
    if payload.None? {
      return [];
    }
    var req := payload.value;
    // The validation chain answers with the first failed check on the error topic.
    var err := RegistrationError(k, db.users, db.dentists, topic, req);
    if err.Some? {
      return [Publish(ReplyTopic(Topics.RegisterError, req.requestId), Text(err.value))];
    }
    var digest := k.hash(req.password.value);
    var id := GenerateUniqueUserId(IdLength, topic == Topics.RegisterDentist, db.users, db.dentists, draws);
    if id.None? {
      return [];
    }
    var kind := RegisterKind(topic);
    var a := NewAccount(topic, req, id.value, digest);
    ghost var before := db.Collection(kind);
    var saved := db.Insert(kind, a);
    if !saved {
      return [];
    }
    if UniqueIds(before) {
      AppendFreshId(before, a);
    }
    replies := RegistrationReplies(k, topic, a, req.requestId);
  }

  /** On the two registration topics the uniqueness check and the insert use the same collection, so a
      request that passes every check is always inserted. */
  lemma RegistrationCheckCoversInsert(k: Primitives, users: seq<Account>, dentists: seq<Account>, topic: string,
                                      req: Request)
    requires topic == Topics.RegisterUser || topic == Topics.RegisterDentist
    requires RegistrationError(k, users, dentists, topic, req).None?
    ensures !EmailHeldByOther(Select(users, dentists, RegisterKind(topic)), -1, req.email)
  {
    assert EmailKind(topic) == RegisterKind(topic);
  }

  /** The success replies carry only public fields and the token, never a password. */
  lemma RegistrationRepliesHidePassword(k: Primitives, topic: string, a: Account, requestId: Option<string>)
    ensures forall p :: p in RegistrationReplies(k, topic, a, requestId) ==>
      Keys(p.body) <= {"status", "firstName", "lastName", "email", "officeId", "idToken", "dentistId"}
    ensures var out := RegistrationReplies(k, topic, a, requestId);
      topic == Topics.RegisterDentist ==>
        && Keys(out[0].body) <= {"officeId", "dentistId"}
        && Keys(out[1].body) <= {"status", "firstName", "lastName", "email", "officeId", "idToken"}
    ensures var out := RegistrationReplies(k, topic, a, requestId);
      topic != Topics.RegisterDentist ==> Keys(out[0].body) <= {"status", "firstName", "lastName", "email", "idToken"}
  {
    var token := Some(JStr(SignJWT(k, a, Some(topic))));
    if topic == Topics.RegisterDentist {
      StringifyKeysWithin([("officeId", IntField(a.officeId)), ("dentistId", Some(JInt(a.id)))], {"officeId", "dentistId"});
      StringifyKeysWithin([("status", Some(JStr("success"))), ("firstName", StrField(a.firstName)),
                           ("lastName", StrField(a.lastName)), ("email", StrField(a.email)),
                           ("officeId", IntField(a.officeId)), ("idToken", token)],
                          {"status", "firstName", "lastName", "email", "officeId", "idToken"});
    } else {
      StringifyKeysWithin([("status", Some(JStr("success"))), ("firstName", StrField(a.firstName)),
                           ("lastName", StrField(a.lastName)), ("email", StrField(a.email)), ("idToken", token)],
                          {"status", "firstName", "lastName", "email", "idToken"});
    }
  }

}
