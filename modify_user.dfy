/**
 * `modifyUser` from src/modifyUser.js: authenticate the caller by session token,
 * locate the account by the token's audience and role, check the old password,
 * and overwrite the profile fields with the request's values.
 */
module ModifyUser {
  import opened Wrappers
  import opened Js
  import opened Messages
  import opened Accounts
  import opened Store
  import opened FindUser
  import opened JwtHandler
  import Topics

  const IdTokenRequired := "idToken is required"
  const UserNotFound := "User not found"
  const PasswordTooShort := "Password must be longer than 8 characters"
  const PasswordIncorrect := "Password is incorrect"
  const UpdateSuccessful := "Update successful"

  /** `verifyIdToken`: the decoded claims and the user id they carry (the audience); None when
      verification throws. */
  function VerifyIdToken(k: Primitives, idToken: string): (r: Option<(Claims, string)>)
    ensures r.Some? <==> k.verify(idToken).Some?
    ensures r.Some? ==> r.value.0 == k.verify(idToken).value && r.value.1 == r.value.0.audience
  {
    match k.verify(idToken)
    case None => None
    case Some(decoded) => Some((decoded, decoded.audience))
  }

  /** With an ideal signature, a session token from `signJWT` leads `modifyUser` to the collection of
      the topic's kind and to the account's own id. */
  lemma SignedTokenLocatesAccount(k: Primitives, a: Account, topic: Option<string>)
    requires IdealSigning(k)
    ensures VerifyIdToken(k, SignJWT(k, a, topic)).Some?
    ensures var (decoded, userId) := VerifyIdToken(k, SignJWT(k, a, topic)).value;
      && CastToId(userId) == Some(a.id)
      && (RoleKind(decoded.role) == DentistKind <==>
            topic == Some(Topics.RegisterDentist) || topic == Some(Topics.LoginDentist))
  {
    SignJWTVerifies(k, a, topic);
  }

  /** `comparePasswords(hash, password)`: None when either argument is missing (the compare throws),
      otherwise whether the password hashes to the stored digest. */
  function ComparePasswords(k: Primitives, digest: Option<string>, password: Option<string>): (r: Option<bool>)
    ensures r.None? <==> digest.None? || password.None?
    ensures r == Some(true) <==> digest.Some? && password.Some? && Compare(k, password.value, digest.value)
  {
    if digest.None? || password.None? then None else Some(Compare(k, password.value, digest.value))
  }

  /** The document after `findOneAndUpdate`: names, email and password taken from the request as they
      are (absent ones included), the office too for dentists; id and code untouched. */
  function UpdatedAccount(a: Account, req: Request, kind: Kind, digest: Option<string>): (b: Account)
    ensures b.id == a.id && b.code == a.code
    ensures b.firstName == req.firstName && b.lastName == req.lastName && b.email == req.email
    ensures b.password == digest
    ensures b.officeId == if kind == DentistKind then req.officeId else a.officeId
  {
    a.(firstName := req.firstName, lastName := req.lastName, email := req.email, password := digest,
       officeId := if kind == DentistKind then req.officeId else a.officeId)
  }

  /** The password hash the update writes: the new password's hash, or nothing when none is given. */
  function NewDigest(k: Primitives, newPassword: Option<string>): (digest: Option<string>)
    ensures digest.Some? <==> Truthy(newPassword)
    ensures digest.Some? ==> Compare(k, newPassword.value, digest.value)
  {
    if Truthy(newPassword) then Some(k.hash(newPassword.value)) else None
  }

  /** The success reply, on the modify-user topic keyed by the token, reporting the updated document. */
  function ModifyReply(b: Account, idToken: string): (p: Publish)
    ensures p.topic == Topics.ModifyUser + "/" + idToken
    ensures p.body.Object? && ("updateStatus", JStr(UpdateSuccessful)) in p.body.entries
    ensures b.email.Some? ==> ("email", JStr(b.email.value)) in p.body.entries
  {
    var fields := [("updateStatus", Some(JStr(UpdateSuccessful))), ("firstName", StrField(b.firstName)),
                   ("lastName", StrField(b.lastName)), ("email", StrField(b.email)),
                   ("officeId", IntField(b.officeId))];
    assert fields[0].1.Some? && (b.email.Some? ==> fields[3].1.Some?);
    Publish(Topics.ModifyUser + "/" + idToken, Stringify(fields))
  }

  /** The success reply reports the updated profile: each name, the email and the office when defined,
      and no such key otherwise. */
  lemma ModifyReplyProfile(b: Account, idToken: string)
    ensures var body := ModifyReply(b, idToken).body;
      && Carries(body, "firstName", StrField(b.firstName)) && Carries(body, "lastName", StrField(b.lastName))
      && Carries(body, "email", StrField(b.email)) && Carries(body, "officeId", IntField(b.officeId))
  {
    var fields := [("updateStatus", Some(JStr(UpdateSuccessful))), ("firstName", StrField(b.firstName)),
                   ("lastName", StrField(b.lastName)), ("email", StrField(b.email)),
                   ("officeId", IntField(b.officeId))];
    StringifyReports(fields);
    assert fields[1].0 == "firstName" && fields[2].0 == "lastName" && fields[3].0 == "email";
    assert fields[4].0 == "officeId";
  }

  /** The success reply reports the profile and never a password. */
  lemma ModifyReplyHidesPassword(b: Account, idToken: string)
    ensures Keys(ModifyReply(b, idToken).body) <= {"updateStatus", "firstName", "lastName", "email", "officeId"}
  {
    StringifyKeysWithin([("updateStatus", Some(JStr(UpdateSuccessful))), ("firstName", StrField(b.firstName)),
                         ("lastName", StrField(b.lastName)), ("email", StrField(b.email)),
                         ("officeId", IntField(b.officeId))],
                        {"updateStatus", "firstName", "lastName", "email", "officeId"});
  }

  /**
   * What one profile update does to the store (`users`, `dentists` before, primed after): a missing
   * token is reported; a token that fails verification, an audience the ODM cannot cast, or a missing
   * password argument to the compare publish nothing; an unknown account, a short new password and a
   * wrong old password are reported; each of these leaves the store unchanged. Otherwise only the
   * account changes, unless its new email is taken, and the reply goes to the token's topic.
   */
  predicate ModifyOutcome(k: Primitives, payload: Option<Request>, users: seq<Account>, dentists: seq<Account>,
                          users': seq<Account>, dentists': seq<Account>, replies: seq<Publish>)
  {
    match payload
    case None => replies == [] && users' == users && dentists' == dentists
    case Some(req) =>
      var errorTopic := ReplyTopic(Topics.ModifyUserError, req.idToken);
      if !Truthy(req.idToken) then
        replies == [Publish(errorTopic, Text(IdTokenRequired))] && users' == users && dentists' == dentists
      else if k.verify(req.idToken.value).None? || CastToId(k.verify(req.idToken.value).value.audience).None? then
        replies == [] && users' == users && dentists' == dentists
      else
        var decoded := k.verify(req.idToken.value).value;
        var kind := RoleKind(decoded.role);
        var coll := Select(users, dentists, kind);
        var i := FindIndex(coll, ById(CastToId(decoded.audience).value));
        if i.None? then
          replies == [Publish(errorTopic, Text(UserNotFound))] && users' == users && dentists' == dentists
        else if Truthy(req.newPassword) && |req.newPassword.value| < 8 then
          replies == [Publish(errorTopic, Text(PasswordTooShort))] && users' == users && dentists' == dentists
        else if ComparePasswords(k, coll[i.value].password, req.oldPassword).None? then
          replies == [] && users' == users && dentists' == dentists
        else if ComparePasswords(k, coll[i.value].password, req.oldPassword) == Some(false) then
          replies == [Publish(errorTopic, Text(PasswordIncorrect))] && users' == users && dentists' == dentists
        else
          var b := UpdatedAccount(coll[i.value], req, kind, NewDigest(k, req.newPassword));
          if EmailHeldByOther(coll, i.value, b.email) then
            replies == [] && users' == users && dentists' == dentists
          else
            && Select(users', dentists', kind) == coll[i.value := b]
            && Select(users', dentists', Other(kind)) == Select(users, dentists, Other(kind))
            && replies == [ModifyReply(b, req.idToken.value)]
  }

  method ModifyUser(db: Database, k: Primitives, payload: Option<Request>) returns (replies: seq<Publish>)
    requires db.Valid()
    modifies db
    ensures db.Valid()
    ensures ModifyOutcome(k, payload, old(db.users), old(db.dentists), db.users, db.dentists, replies)
  {
    if payload.None? {
      return [];
    }
    var req := payload.value;
    var errorTopic := ReplyTopic(Topics.ModifyUserError, req.idToken);
    if !Truthy(req.idToken) {
      return [Publish(errorTopic, Text(IdTokenRequired))];
    }
    var verified := VerifyIdToken(k, req.idToken.value);
    if verified.None? {
      // 'Invalid idToken' is thrown and only logged.
      return [];
    }
    var (decoded, userId) := verified.value;
    var id := CastToId(userId);
    if id.None? {
      // The ODM cannot cast the audience to a numeric id and throws.
      return [];
    }
    var kind := RoleKind(decoded.role);
    var user := FindUserById(db.users, db.dentists, id.value, decoded.role);
    if user.None? {
      return [Publish(errorTopic, Text(UserNotFound))];
    }
    if Truthy(req.newPassword) && |req.newPassword.value| < 8 {
      return [Publish(errorTopic, Text(PasswordTooShort))];
    }
    var isMatch := ComparePasswords(k, user.value.password, req.oldPassword);
    if isMatch.None? {
      return [];
    }
    if !isMatch.value {
      return [Publish(errorTopic, Text(PasswordIncorrect))];
    }
    var i := FindIndex(db.Collection(kind), ById(id.value));
    var updated := UpdatedAccount(db.Collection(kind)[i.value], req, kind, NewDigest(k, req.newPassword));
    var saved := db.Replace(kind, i.value, updated);
    if !saved {
      // The unique email index refuses the update; the error is only logged.
      return [];
    }
    replies := [ModifyReply(updated, req.idToken.value)];
  }
}
