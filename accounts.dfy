/**
 * Account records, parsed requests, token claims, and the foreign primitives
 * (password hashing, token signing, email validation) the handlers call.
 */
module Accounts {
  import opened Wrappers
  import opened Js

  /** The two collections: patients (`User`) and dentists (`Dentist`). */
  datatype Kind = UserKind | DentistKind

  /**
   * A stored document of either collection. `id` is `userId` or `dentistId`;
   * `password` holds the hash; `officeId` is only ever set on dentists; `code`
   * is the one-time reset code. Fields a profile update may clear are optional.
   */
  datatype Account = Account(
    id: nat,
    firstName: Option<string>,
    lastName: Option<string>,
    email: Option<string>,
    password: Option<string>,
    officeId: Option<int>,
    code: Option<string>)

  /**
   * A payload that parsed as a JSON object: every field some handler reads.
   * A missing field and `null` are both None.
   */
  datatype Request = Request(
    firstName: Option<string>,
    lastName: Option<string>,
    email: Option<string>,
    password: Option<string>,
    passwordCheck: Option<string>,
    requestId: Option<string>,
    officeId: Option<int>,
    idToken: Option<string>,
    role: Option<string>,
    oldPassword: Option<string>,
    newPassword: Option<string>,
    userCode: JsValue)

  /** The claims of a session token: payload fields plus issuer, audience and lifetime. */
  datatype Claims = Claims(
    email: Option<string>,
    firstName: Option<string>,
    lastName: Option<string>,
    role: string,
    issuer: string,
    audience: string,
    expiresIn: nat)

  /**
   * The foreign primitives as functions: the password hash, token signing and
   * verification (None is any verification failure), and email syntax validation.
   */
  datatype Primitives = Primitives(
    hash: string -> string,
    sign: Claims -> string,
    verify: string -> Option<Claims>,
    emailValid: string -> bool)

  /** The password check: a plain password matches a digest exactly when it hashes to it. */
  predicate Compare(k: Primitives, plain: string, digest: string) {
    digest == k.hash(plain)
  }

  /** An ideal signature: a signed token verifies to its claims, and nothing else verifies. */
  ghost predicate IdealSigning(k: Primitives) {
    && (forall c :: k.verify(k.sign(c)) == Some(c))
    && (forall t :: k.verify(t).Some? ==> k.sign(k.verify(t).value) == t)
  }
}
