/**
 * `login` from src/login.js, the version the dispatcher calls. Read-only: the
 * only effect is at most one reply. The credential check is shared with the
 * newer src/loginHandler.js.
 */
module Login {
  import opened Wrappers
  import opened Js
  import opened Messages
  import opened Accounts
  import opened FindUser
  import JwtHandler
  import Topics

  const AllFieldsRequired := "All fields are required"

  /** The one text for both an unknown email and a wrong password. */
  const BadCredentials := "User name or password incorrect"

  /** Token lifetime passed as `expiresIn` by this version. */
  const LoginLifetime := 3600

  /** Where the credential check ends: an error text to publish, a throw that publishes nothing, or the account. */
  datatype Verdict = Reject(message: string) | Silent | Accept(account: Account)

  predicate IsLoginTopic(topic: string) {
    topic == Topics.LoginUser || topic == Topics.LoginDentist
  }

  /**
   * Field presence, then (only on the two login topics) the email lookup and
   * `bcrypt.compare`. A stored account without a password hash makes the
   * compare throw, which is caught and logged.
   */
  function CheckCredentials(k: Primitives, users: seq<Account>, dentists: seq<Account>, topic: string, req: Request)
    : (v: Verdict)
    ensures v == Reject(AllFieldsRequired) <==> !(Truthy(req.email) && Truthy(req.password))
    ensures v == Reject(BadCredentials) <==>
      && Truthy(req.email) && Truthy(req.password) && IsLoginTopic(topic)
      && var found := FindUserByEmail(users, dentists, topic, req.email);
         (found.None? || (found.value.password.Some? && !Compare(k, req.password.value, found.value.password.value)))
    ensures v.Accept? <==>
      && Truthy(req.email) && Truthy(req.password) && IsLoginTopic(topic)
      && var found := FindUserByEmail(users, dentists, topic, req.email);
         found.Some? && found.value.password.Some? && Compare(k, req.password.value, found.value.password.value)
    ensures v.Accept? ==> Some(v.account) == FindUserByEmail(users, dentists, topic, req.email)
    ensures v.Silent? <==>
      && Truthy(req.email) && Truthy(req.password)
      && (!IsLoginTopic(topic) || var found := FindUserByEmail(users, dentists, topic, req.email);
                                 found.Some? && found.value.password.None?)
    ensures v.Reject? ==> v.message in {AllFieldsRequired, BadCredentials}
  {
    if !(Truthy(req.email) && Truthy(req.password)) then Reject(AllFieldsRequired)
    else if !IsLoginTopic(topic) then Silent
    else
      match FindUserByEmail(users, dentists, topic, req.email)
      case None => Reject(BadCredentials)
      case Some(user) =>
        if user.password.None? then Silent
        else if !Compare(k, req.password.value, user.password.value) then Reject(BadCredentials)
        else Accept(user)
  }

  /** The claims this version signs inline: role from the topic, audience the id, lifetime 3600. */
  function LoginClaims(a: Account, topic: string): (c: Claims)
    ensures c.role == (if topic == Topics.LoginUser then "User" else "Dentist")
    ensures c.issuer == JwtHandler.Issuer && c.expiresIn == LoginLifetime
    ensures c.email == a.email && c.firstName == a.firstName && c.lastName == a.lastName
    ensures c.audience == NumberToString(a.id) && CastToId(c.audience) == Some(a.id)
  {
    CastToIdOfNumberToString(a.id);
    var role := if topic == Topics.LoginUser then "User" else "Dentist";
    Claims(a.email, a.firstName, a.lastName, role, JwtHandler.Issuer, NumberToString(a.id), LoginLifetime)
  }

  /** The success payload: the token, the public fields and the id, never the password. */
  function LoginReply(k: Primitives, a: Account, topic: string): (b: Body)
    ensures b.Object? && ("IdToken", JStr(k.sign(LoginClaims(a, topic)))) in b.entries
    ensures topic == Topics.LoginUser ==> ("userId", JInt(a.id)) in b.entries
    ensures topic != Topics.LoginUser ==> ("dentistId", JInt(a.id)) in b.entries
  {
    var token := Some(JStr(k.sign(LoginClaims(a, topic))));
    if topic == Topics.LoginUser then
      var fields := [("IdToken", token), ("firstName", StrField(a.firstName)), ("lastName", StrField(a.lastName)),
                     ("email", StrField(a.email)), ("userId", Some(JInt(a.id)))];
      assert fields[0].1.Some? && fields[4].1.Some?;
      Stringify(fields)
    else
      var fields := [("IdToken", token), ("firstName", StrField(a.firstName)), ("lastName", StrField(a.lastName)),
                     ("email", StrField(a.email)), ("officeId", IntField(a.officeId)), ("dentistId", Some(JInt(a.id)))];
      assert fields[0].1.Some? && fields[5].1.Some?;
      Stringify(fields)
  }

  /** The success payload reports the account's profile: each name and the email when the account has one, no such
      key when it has none, and for dentists the office likewise. */
  lemma LoginReplyProfile(k: Primitives, a: Account, topic: string)
    ensures var b := LoginReply(k, a, topic);
      && Carries(b, "firstName", StrField(a.firstName)) && Carries(b, "lastName", StrField(a.lastName))
      && Carries(b, "email", StrField(a.email))
      && (topic != Topics.LoginUser ==> Carries(b, "officeId", IntField(a.officeId)))
  {
    var token := Some(JStr(k.sign(LoginClaims(a, topic))));
    if topic == Topics.LoginUser {
      var fields := [("IdToken", token), ("firstName", StrField(a.firstName)), ("lastName", StrField(a.lastName)),
                     ("email", StrField(a.email)), ("userId", Some(JInt(a.id)))];
      StringifyReports(fields);
      assert fields[1].0 == "firstName" && fields[2].0 == "lastName" && fields[3].0 == "email";
    } else {
      var fields := [("IdToken", token), ("firstName", StrField(a.firstName)), ("lastName", StrField(a.lastName)),
                     ("email", StrField(a.email)), ("officeId", IntField(a.officeId)), ("dentistId", Some(JInt(a.id)))];
      StringifyReports(fields);
      assert fields[1].0 == "firstName" && fields[2].0 == "lastName" && fields[3].0 == "email";
      assert fields[4].0 == "officeId";
    }
  }

  function Login(k: Primitives, users: seq<Account>, dentists: seq<Account>, topic: string, payload: Option<Request>)
    : (out: seq<Publish>)
    ensures payload.None? ==> out == []
    ensures |out| <= 1
    ensures payload.Some? && !(Truthy(payload.value.email) && Truthy(payload.value.password)) ==>
      out == [Publish(ReplyTopic(Topics.LoginError, payload.value.requestId), Text(AllFieldsRequired))]
    ensures payload.Some? && Truthy(payload.value.email) && Truthy(payload.value.password) && IsLoginTopic(topic)
      && FindUserByEmail(users, dentists, topic, payload.value.email).Some?
      && FindUserByEmail(users, dentists, topic, payload.value.email).value.password.None?
      ==> out == []
    ensures payload.Some? && !IsLoginTopic(topic) && Truthy(payload.value.email) && Truthy(payload.value.password)
      ==> out == []
    ensures out != [] ==>
      || (out[0].topic == ReplyTopic(Topics.LoginError, payload.value.requestId)
          && out[0].body.Text? && out[0].body.text in {AllFieldsRequired, BadCredentials})
      || (IsLoginTopic(topic) && out[0].topic == ReplyTopic(topic, payload.value.requestId) && out[0].body.Object?)
  {
    match payload
    case None => []
    case Some(req) =>
      match CheckCredentials(k, users, dentists, topic, req)
      case Reject(m) => [Publish(ReplyTopic(Topics.LoginError, req.requestId), Text(m))]
      case Silent => []
      case Accept(user) => [Publish(ReplyTopic(topic, req.requestId), LoginReply(k, user, topic))]
  }

  /** Present fields, a login topic and a routed account whose hash the password matches: accepted, as that account. */
  lemma CredentialsAccepted(k: Primitives, users: seq<Account>, dentists: seq<Account>, topic: string, req: Request)
    requires Truthy(req.email) && Truthy(req.password) && IsLoginTopic(topic)
    requires var found := FindUserByEmail(users, dentists, topic, req.email);
      found.Some? && found.value.password.Some? && Compare(k, req.password.value, found.value.password.value)
    ensures CheckCredentials(k, users, dentists, topic, req) == Accept(FindUserByEmail(users, dentists, topic, req.email).value)
  {
  }

  /** An unknown email and a wrong password get byte-identical replies on the same topic. */
  lemma LoginEnumerationResistant(k: Primitives, users: seq<Account>, dentists: seq<Account>, topic: string,
                                  unknown: Request, wrong: Request)
    requires IsLoginTopic(topic) && unknown.requestId == wrong.requestId
    requires Truthy(unknown.email) && Truthy(unknown.password) && Truthy(wrong.email) && Truthy(wrong.password)
    requires FindUserByEmail(users, dentists, topic, unknown.email).None?
    requires var a := FindUserByEmail(users, dentists, topic, wrong.email);
      a.Some? && a.value.password.Some? && !Compare(k, wrong.password.value, a.value.password.value)
    ensures Login(k, users, dentists, topic, Some(unknown)) == Login(k, users, dentists, topic, Some(wrong))
         == [Publish(ReplyTopic(Topics.LoginError, wrong.requestId), Text(BadCredentials))]
  {
  }

  /** Each branch's payload has no key beyond that branch's fields; with the reply's contract, its keys
      are exactly the fields whose value is defined, and never a password. */
  lemma LoginReplyHidesPassword(k: Primitives, a: Account, topic: string)
    ensures topic == Topics.LoginUser ==>
      Keys(LoginReply(k, a, topic)) <= {"IdToken", "firstName", "lastName", "email", "userId"}
    ensures topic != Topics.LoginUser ==>
      Keys(LoginReply(k, a, topic)) <= {"IdToken", "firstName", "lastName", "email", "officeId", "dentistId"}
    ensures "password" !in Keys(LoginReply(k, a, topic))
  {
    var token := Some(JStr(k.sign(LoginClaims(a, topic))));
    if topic == Topics.LoginUser {
      StringifyKeysWithin([("IdToken", token), ("firstName", StrField(a.firstName)), ("lastName", StrField(a.lastName)),
                           ("email", StrField(a.email)), ("userId", Some(JInt(a.id)))],
                          {"IdToken", "firstName", "lastName", "email", "userId"});
    } else {
      StringifyKeysWithin([("IdToken", token), ("firstName", StrField(a.firstName)), ("lastName", StrField(a.lastName)),
                           ("email", StrField(a.email)), ("officeId", IntField(a.officeId)), ("dentistId", Some(JInt(a.id)))],
                          {"IdToken", "firstName", "lastName", "email", "officeId", "dentistId"});
    }
  }

  /** The token this version signs verifies to the topic's role, the decimal text of the account's id as audience
      and a 3600 lifetime. */
  lemma LoginTokenVerifies(k: Primitives, a: Account, topic: string)
    requires IdealSigning(k)
    ensures var c := k.verify(k.sign(LoginClaims(a, topic)));
      c.Some? && c.value.role == (if topic == Topics.LoginUser then "User" else "Dentist")
      && c.value.audience == NumberToString(a.id) && CastToId(c.value.audience) == Some(a.id)
      && c.value.expiresIn == LoginLifetime
  {
    CastToIdOfNumberToString(a.id);
  }

  /** Present fields, a login topic, a found account with a hash and a matching password: the answer
      is the success payload of that account on the topic's own reply topic, without the password. */
  lemma LoginSuccess(k: Primitives, users: seq<Account>, dentists: seq<Account>, topic: string, req: Request)
    requires Truthy(req.email) && Truthy(req.password) && IsLoginTopic(topic)
    requires var found := FindUserByEmail(users, dentists, topic, req.email);
      found.Some? && found.value.password.Some? && Compare(k, req.password.value, found.value.password.value)
    ensures var a := FindUserByEmail(users, dentists, topic, req.email).value;
      Login(k, users, dentists, topic, Some(req)) == [Publish(ReplyTopic(topic, req.requestId), LoginReply(k, a, topic))]
      && "password" !in Keys(LoginReply(k, a, topic))
  {
    var a := FindUserByEmail(users, dentists, topic, req.email).value;
    LoginReplyHidesPassword(k, a, topic);
    CredentialsAccepted(k, users, dentists, topic, req);
  }
}
