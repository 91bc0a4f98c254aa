/**
 * The newer token helpers: `signJWT` builds the claims from an account and the
 * request topic and signs them; `handleVerifyIdTokenRequest` answers a token
 * verification request on one fixed topic.
 */
module JwtHandler {
  import opened Wrappers
  import opened Js
  import opened Messages
  import opened Accounts
  import Topics

  const Issuer := "Dentistimo-User-Management"

  /** Token lifetime passed as `expiresIn` by `signJWT`. */
  const SignLifetime := 360000

  /** `jwt.verify` on an optional token field: a missing token fails like a bad one. */
  function VerifyToken(k: Primitives, token: Option<string>): (r: Option<Claims>)
    ensures token.None? ==> r.None?
    ensures token.Some? ==> r == k.verify(token.value)
  {
    if token.Some? then k.verify(token.value) else None
  }

  /** The role `signJWT` puts in a token: Dentist for the two dentist topics, User for every other topic or none. */
  function TopicRole(topic: Option<string>): (role: string)
    ensures role == "Dentist" <==> topic == Some(Topics.RegisterDentist) || topic == Some(Topics.LoginDentist)
    ensures role == "User" <==> !(topic == Some(Topics.RegisterDentist) || topic == Some(Topics.LoginDentist))
  {
    if topic == Some(Topics.RegisterDentist) || topic == Some(Topics.LoginDentist) then "Dentist" else "User"
  }

  /** The claims `signJWT(user, topic)` signs; the account's password hash is not among them. */
  function SignedClaims(a: Account, topic: Option<string>): (c: Claims)
    ensures c.email == a.email && c.firstName == a.firstName && c.lastName == a.lastName
    ensures c.role == TopicRole(topic) && c.issuer == Issuer && c.expiresIn == SignLifetime
    ensures c.audience == NumberToString(a.id) && CastToId(c.audience) == Some(a.id)
  {
    CastToIdOfNumberToString(a.id);
    Claims(a.email, a.firstName, a.lastName, TopicRole(topic), Issuer, NumberToString(a.id), SignLifetime)
  }

  /** With an ideal signature the token reads back as exactly the claims built for the account. */
  function SignJWT(k: Primitives, a: Account, topic: Option<string>): (t: string)
    ensures IdealSigning(k) ==> k.verify(t) == Some(SignedClaims(a, topic))
  {
    k.sign(SignedClaims(a, topic))
  }

  /** With an ideal signature, a token from `signJWT` verifies to the account's names and email,
      the topic's role, the service as issuer, and an audience that reads back as the account's id. */
  lemma SignJWTVerifies(k: Primitives, a: Account, topic: Option<string>)
    requires IdealSigning(k)
    ensures k.verify(SignJWT(k, a, topic)).Some?
    ensures var c := k.verify(SignJWT(k, a, topic)).value;
      && c.email == a.email && c.firstName == a.firstName && c.lastName == a.lastName
      && c.role == TopicRole(topic) && c.issuer == Issuer && c.expiresIn == SignLifetime
      && c.audience == NumberToString(a.id) && CastToId(c.audience) == Some(a.id)
  {
    CastToIdOfNumberToString(a.id);
  }

  function Authorized(id: string, role: string): Body {
    Object([("status", JStr("Authorized")), ("id", JStr(id)), ("role", JStr(role))])
  }

  const Unauthorized := Object([("status", JStr("Unauthorized"))])

  /**
   * `handleVerifyIdTokenRequest`. A payload that is not JSON throws before the
   * `try`, so nothing is published; otherwise exactly one reply goes out.
   */
  function HandleVerifyIdTokenRequest(k: Primitives, payload: Option<Request>): (out: seq<Publish>)
    ensures payload.None? ==> out == []
    ensures payload.Some? ==> |out| == 1 && out[0].topic == Topics.AuthenticationResponse
    ensures payload.Some? ==>
      var c := VerifyToken(k, payload.value.idToken);
      if c.Some? && (c.value.role == "User" || c.value.role == "Dentist")
      then out[0].body == Authorized(c.value.audience, c.value.role)
      else out[0].body == Unauthorized
  {
    match payload
    case None => []
    case Some(req) =>
      var body :=
        match VerifyToken(k, req.idToken)
        case None => Unauthorized
        case Some(decoded) =>
          if decoded.role == "User" then Authorized(decoded.audience, "User")
          else if decoded.role == "Dentist" then Authorized(decoded.audience, "Dentist")
          else Unauthorized;
      [Publish(Topics.AuthenticationResponse, body)]
  }

  /** Round trip: a request carrying a token from `signJWT` is answered Authorized with the
      account's id and the role of the topic the token was signed for. */
  lemma {:induction false} VerifySignedToken(k: Primitives, a: Account, topic: Option<string>, req: Request)
    requires IdealSigning(k)
    requires req.idToken == Some(SignJWT(k, a, topic))
    ensures HandleVerifyIdTokenRequest(k, Some(req))
         == [Publish(Topics.AuthenticationResponse, Authorized(NumberToString(a.id), TopicRole(topic)))]
  {
    SignJWTVerifies(k, a, topic);
  }
}
