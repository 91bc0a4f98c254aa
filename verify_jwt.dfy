/**
 * The older `handleVerifyIdTokenRequest`, the one the dispatcher calls: the
 * request names a role, and the token is accepted when its role equals it.
 */
module VerifyJwt {
  import opened Wrappers
  import opened Js
  import opened Messages
  import opened Accounts
  import opened JwtHandler
  import Topics

  /**
   * The Authorized reply echoes `decoded.ID`, a claim no token of this service
   * carries; `JSON.stringify` drops the undefined value, leaving only the status.
   */
  function AuthorizedWithoutId(decoded: Claims): (b: Body)
    ensures b == AuthorizedStatusOnly
    ensures Keys(b) == {"status"}
  {
    var fields := [("status", Some(JStr("Authorized"))), ("ID", None)];
    assert Present(fields[1..][1..]) == [];
    assert Present(fields[1..]) == [];
    assert Keys(AuthorizedStatusOnly) == {"status"} by {
      assert ("status", JStr("Authorized")) in AuthorizedStatusOnly.entries;
    }
    Stringify(fields)
  }

  /** What the subscriber actually receives on success: the status and nothing else. */
  const AuthorizedStatusOnly := Object([("status", JStr("Authorized"))])

  function HandleVerifyIdTokenRequest(k: Primitives, payload: Option<Request>): (out: seq<Publish>)
    ensures payload.None? ==> out == []
    ensures payload.Some? ==> |out| == 1 && out[0].topic == Topics.AuthenticationResponse
    ensures payload.Some? ==>
      var c := VerifyToken(k, payload.value.idToken);
      out[0].body == (if c.Some? && payload.value.role == Some(c.value.role) then AuthorizedStatusOnly else Unauthorized)
    ensures payload.Some? && out[0].body != Unauthorized ==> Keys(out[0].body) == {"status"}
  {
    match payload
    case None => []
    case Some(req) =>
      var body :=
        match VerifyToken(k, req.idToken)
        case None => Unauthorized
        case Some(decoded) =>
          if req.role == Some(decoded.role) then AuthorizedWithoutId(decoded) else Unauthorized;
      [Publish(Topics.AuthenticationResponse, body)]
  }

  /** A token from `signJWT` is authorized exactly when the request names the role it was signed with,
      and the authorization carries no account id: the subscriber learns the status and nothing else. */
  lemma {:induction false} VerifySignedTokenWithRole(k: Primitives, a: Account, topic: Option<string>, req: Request)
    requires IdealSigning(k)
    requires req.idToken == Some(SignJWT(k, a, topic))
    ensures HandleVerifyIdTokenRequest(k, Some(req))
         == [Publish(Topics.AuthenticationResponse,
                     if req.role == Some(TopicRole(topic)) then AuthorizedStatusOnly else Unauthorized)]
    ensures var out := HandleVerifyIdTokenRequest(k, Some(req));
      "id" !in Keys(out[0].body) && "ID" !in Keys(out[0].body)
  {
    SignJWTVerifies(k, a, topic);
  }
}
