/**
 * `login` from src/loginHandler.js, the newer version: the same checks as
 * src/login.js, but the token comes from `signJWT`, and the reply names it `idToken`.
 */
module LoginHandler {
  import opened Wrappers
  import opened Js
  import opened Messages
  import opened Accounts
  import Wired = Login
  import opened FindUser
  import opened JwtHandler
  import Topics

  /** The user branch calls `signJWT(user)` without a topic; the dentist branch passes its topic. */
  function LoginToken(k: Primitives, a: Account, topic: string): (t: string)
    ensures IdealSigning(k) && Wired.IsLoginTopic(topic) ==>
      k.verify(t) == Some(SignedClaims(a, Some(topic)))
  {
    if topic == Topics.LoginUser then SignJWT(k, a, None) else SignJWT(k, a, Some(topic))
  }

  function LoginReply(k: Primitives, a: Account, topic: string): (b: Body)
    ensures b.Object? && ("idToken", JStr(LoginToken(k, a, topic))) in b.entries
    ensures topic == Topics.LoginUser ==> ("userId", JInt(a.id)) in b.entries
    ensures topic != Topics.LoginUser ==> ("dentistId", JInt(a.id)) in b.entries
  {
    var token := Some(JStr(LoginToken(k, a, topic)));
    if topic == Topics.LoginUser then
      var fields := [("idToken", token), ("firstName", StrField(a.firstName)), ("lastName", StrField(a.lastName)),
                     ("email", StrField(a.email)), ("userId", Some(JInt(a.id)))];
      assert fields[0].1.Some? && fields[4].1.Some?;
      Stringify(fields)
    else
      var fields := [("idToken", token), ("firstName", StrField(a.firstName)), ("lastName", StrField(a.lastName)),
                     ("email", StrField(a.email)), ("officeId", IntField(a.officeId)), ("dentistId", Some(JInt(a.id)))];
      assert fields[0].1.Some? && fields[5].1.Some?;
      Stringify(fields)
  }

  /** The newer success payload reports the account's profile: each name and the email when the account has one, no such
      key when it has none, and for dentists the office likewise. */
  lemma LoginReplyProfile(k: Primitives, a: Account, topic: string)
    ensures var b := LoginReply(k, a, topic);
      && Carries(b, "firstName", StrField(a.firstName)) && Carries(b, "lastName", StrField(a.lastName))
      && Carries(b, "email", StrField(a.email))
      && (topic != Topics.LoginUser ==> Carries(b, "officeId", IntField(a.officeId)))
  {
    var token := Some(JStr(LoginToken(k, a, topic)));
    if topic == Topics.LoginUser {
      var fields := [("idToken", token), ("firstName", StrField(a.firstName)), ("lastName", StrField(a.lastName)),
                     ("email", StrField(a.email)), ("userId", Some(JInt(a.id)))];
      StringifyReports(fields);
      assert fields[1].0 == "firstName" && fields[2].0 == "lastName" && fields[3].0 == "email";
    } else {
      var fields := [("idToken", token), ("firstName", StrField(a.firstName)), ("lastName", StrField(a.lastName)),
                     ("email", StrField(a.email)), ("officeId", IntField(a.officeId)), ("dentistId", Some(JInt(a.id)))];
      StringifyReports(fields);
      assert fields[1].0 == "firstName" && fields[2].0 == "lastName" && fields[3].0 == "email";
      assert fields[4].0 == "officeId";
    }
  }

  function Login(k: Primitives, users: seq<Account>, dentists: seq<Account>, topic: string, payload: Option<Request>)
    : (out: seq<Publish>)
    ensures payload.None? ==> out == []
    ensures |out| <= 1
    ensures payload.Some? && !(Truthy(payload.value.email) && Truthy(payload.value.password)) ==>
      out == [Publish(ReplyTopic(Topics.LoginError, payload.value.requestId), Text(Wired.AllFieldsRequired))]
    ensures payload.Some? && Truthy(payload.value.email) && Truthy(payload.value.password) && Wired.IsLoginTopic(topic)
      && FindUserByEmail(users, dentists, topic, payload.value.email).Some?
      && FindUserByEmail(users, dentists, topic, payload.value.email).value.password.None?
      ==> out == []
    ensures payload.Some? && !Wired.IsLoginTopic(topic) && Truthy(payload.value.email) && Truthy(payload.value.password)
      ==> out == []
    ensures out != [] ==>
      || (out[0].topic == ReplyTopic(Topics.LoginError, payload.value.requestId)
          && out[0].body.Text? && out[0].body.text in {Wired.AllFieldsRequired, Wired.BadCredentials})
      || (Wired.IsLoginTopic(topic) && out[0].topic == ReplyTopic(topic, payload.value.requestId) && out[0].body.Object?)
  {
    match payload
    case None => []
    case Some(req) =>
      match Wired.CheckCredentials(k, users, dentists, topic, req)
      case Reject(m) => [Publish(ReplyTopic(Topics.LoginError, req.requestId), Text(m))]
      case Silent => []
      case Accept(user) => [Publish(ReplyTopic(topic, req.requestId), LoginReply(k, user, topic))]
  }

  /** An unknown email and a wrong password get byte-identical replies on the same topic. */
  lemma LoginEnumerationResistant(k: Primitives, users: seq<Account>, dentists: seq<Account>, topic: string,
                                  unknown: Request, wrong: Request)
    requires Wired.IsLoginTopic(topic) && unknown.requestId == wrong.requestId
    requires Truthy(unknown.email) && Truthy(unknown.password) && Truthy(wrong.email) && Truthy(wrong.password)
    requires FindUserByEmail(users, dentists, topic, unknown.email).None?
    requires var a := FindUserByEmail(users, dentists, topic, wrong.email);
      a.Some? && a.value.password.Some? && !Compare(k, wrong.password.value, a.value.password.value)
    ensures Login(k, users, dentists, topic, Some(unknown)) == Login(k, users, dentists, topic, Some(wrong))
         == [Publish(ReplyTopic(Topics.LoginError, wrong.requestId), Text(Wired.BadCredentials))]
  {
  }

  /** The newer login's token verifies to role User on the user topic and Dentist on the dentist topic,
      with the account's id as audience and the `signJWT` lifetime. */
  lemma LoginTokenRole(k: Primitives, a: Account, topic: string)
    requires IdealSigning(k)
    requires Wired.IsLoginTopic(topic)
    ensures var c := k.verify(LoginToken(k, a, topic));
      && c.Some? && c.value.role == (if topic == Topics.LoginUser then "User" else "Dentist")
      && CastToId(c.value.audience) == Some(a.id) && c.value.expiresIn == SignLifetime
  {
    if topic == Topics.LoginUser {
      SignJWTVerifies(k, a, None);
    } else {
      SignJWTVerifies(k, a, Some(topic));
    }
  }

  /** Each branch's payload has no key beyond that branch's fields; with the reply's contract, its keys
      are exactly the fields whose value is defined, and never a password. */
  lemma LoginReplyHidesPassword(k: Primitives, a: Account, topic: string)
    ensures topic == Topics.LoginUser ==>
      Keys(LoginReply(k, a, topic)) <= {"idToken", "firstName", "lastName", "email", "userId"}
    ensures topic != Topics.LoginUser ==>
      Keys(LoginReply(k, a, topic)) <= {"idToken", "firstName", "lastName", "email", "officeId", "dentistId"}
    ensures "password" !in Keys(LoginReply(k, a, topic))
  {
    var token := Some(JStr(LoginToken(k, a, topic)));
    if topic == Topics.LoginUser {
      StringifyKeysWithin([("idToken", token), ("firstName", StrField(a.firstName)), ("lastName", StrField(a.lastName)),
                           ("email", StrField(a.email)), ("userId", Some(JInt(a.id)))],
                          {"idToken", "firstName", "lastName", "email", "userId"});
    } else {
      StringifyKeysWithin([("idToken", token), ("firstName", StrField(a.firstName)), ("lastName", StrField(a.lastName)),
                           ("email", StrField(a.email)), ("officeId", IntField(a.officeId)), ("dentistId", Some(JInt(a.id)))],
                          {"idToken", "firstName", "lastName", "email", "officeId", "dentistId"});
    }
  }

  /** Present fields, a login topic, a found account with a hash and a matching password: the answer
      is this version's success payload for that account on the topic's own reply topic. */
  lemma LoginSuccess(k: Primitives, users: seq<Account>, dentists: seq<Account>, topic: string, req: Request)
    requires Truthy(req.email) && Truthy(req.password) && Wired.IsLoginTopic(topic)
    requires var found := FindUserByEmail(users, dentists, topic, req.email);
      found.Some? && found.value.password.Some? && Compare(k, req.password.value, found.value.password.value)
    ensures var a := FindUserByEmail(users, dentists, topic, req.email).value;
      Login(k, users, dentists, topic, Some(req)) == [Publish(ReplyTopic(topic, req.requestId), LoginReply(k, a, topic))]
      && "password" !in Keys(LoginReply(k, a, topic))
  {
    var a := FindUserByEmail(users, dentists, topic, req.email).value;
    LoginReplyHidesPassword(k, a, topic);
    Wired.CredentialsAccepted(k, users, dentists, topic, req);
  }
}
