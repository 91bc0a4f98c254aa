/**
 * `resetPassword` and `sendEmailCode` from src/resetPassword.js (the same logic
 * as src/resetPasswordHandler.js): a six-digit code is mailed to a known
 * address and stored on the account; a reset request that presents the stored
 * code replaces the password hash and clears the code.
 */
module ResetPassword {
  import opened Wrappers
  import opened Js
  import opened Messages
  import opened Accounts
  import opened Store
  import opened FindUser
  import opened GenerateId
  import Topics

  const InvalidEmail := "Invalid email"
  const InvalidCode := "Invalid code"
  const PasswordTooShort := "Password must be longer than 8 characters long"
  const ResetFailed := "Reset failed"
  const DentistResetReply := "Reset successful"
  const UserResetReply := "{\"status\": \"reset successful\"}"
  const CodeSent := "An email has been sent if there is an account associated with that email"
  const MailSubject := "Reset password"
  const MailPrefix := "Heres the code for resetting your password:"

  /** Number of digits in a reset code. */
  const CodeLength := 6

  /** `parseInt(Math.random() * 10)`: one decimal digit. */
  function CodeDigit(r: Draw): (c: char)
    ensures IsDigit(c)
  {
    DigitChar(ScaledDrawFloor(r, 10))
  }

  /** The code built from a run of draws, one digit per draw, in draw order. */
  function CodeOf(draws: seq<Draw>): (code: string)
    ensures |code| == |draws| && AllDigits(code)
    ensures forall i :: 0 <= i < |draws| ==> code[i] == CodeDigit(draws[i])
  {
    if draws == [] then "" else CodeOf(draws[..|draws| - 1]) + [CodeDigit(draws[|draws| - 1])]
  }

  /** The loop of `sendEmailCode` that appends six random digits to an empty string. */
  method GenerateCode(draws: seq<Draw>) returns (code: string)
    requires |draws| >= CodeLength
    ensures code == CodeOf(draws[..CodeLength])
  {
    code := "";
    for i := 0 to CodeLength
      invariant code == CodeOf(draws[..i])
    {
      assert draws[..i + 1][..i] == draws[..i];
      code := code + [CodeDigit(draws[i])];
    }
  }

  /** A stored code is matched by the same string, by the number its digits spell (leading zeros
      dropped), by `true` or `false` when that number is 1 or 0, and by nothing else. */
  lemma IssuedCodeMatches(draws: seq<Draw>, v: JsValue)
    ensures LooseEquals(Some(CodeOf(draws)), v) <==>
      || v == Str(CodeOf(draws))
      || v == Num(DigitsValue(CodeOf(draws)))
      || (v.Bool? && DigitsValue(CodeOf(draws)) == (if v.b then 1 else 0))
  {
  }

  /** An account whose code has been cleared (or was never issued) is matched by a request that
      leaves `userCode` out or sends null, and by no other value. */
  lemma ResetWithoutIssuedCode(v: JsValue)
    ensures LooseEquals(None, v) <==> v == Undefined || v == Null
  {
  }

  predicate IsResetTopic(topic: string) {
    topic == Topics.ResetPasswordDentist || topic == Topics.ResetPasswordUser
  }

  /** The success reply: plain text on the dentist topic, a JSON text on the user topic. */
  function ResetReply(topic: string, requestId: Option<string>): (p: Publish)
    requires IsResetTopic(topic)
    ensures p.topic == ReplyTopic(topic, requestId)
    ensures p.body == Text(if topic == Topics.ResetPasswordDentist then DentistResetReply else UserResetReply)
  {
    if topic == Topics.ResetPasswordDentist then Publish(ReplyTopic(Topics.ResetPasswordDentist, requestId), Text(DentistResetReply))
    else Publish(ReplyTopic(Topics.ResetPasswordUser, requestId), Text(UserResetReply))
  }

  /** The account after a reset: the new hash, and no code left to reuse. */
  function AfterReset(a: Account, digest: string): (b: Account)
    ensures b.id == a.id && b.email == a.email && b.firstName == a.firstName && b.lastName == a.lastName
    ensures b.officeId == a.officeId && b.password == Some(digest) && b.code.None?
  {
    a.(password := Some(digest), code := None)
  }

  /** In a collection with unique emails, rewriting a document without changing its email never clashes. */
  lemma OwnEmailNotHeldByOther(coll: seq<Account>, i: nat)
    requires UniqueEmails(coll) && i < |coll|
    ensures !EmailHeldByOther(coll, i, coll[i].email)
  {
  }

  /**
   * What one reset request does to the store (`users`, `dentists` before, primed after): unknown
   * email, then code mismatch, then a missing new password (nothing published), then a short one,
   * then a topic that is neither reset topic, each leave the store unchanged; otherwise only the
   * found account changes, to the new hash and no code.
   */
  predicate ResetOutcome(k: Primitives, topic: string, payload: Option<Request>,
                         users: seq<Account>, dentists: seq<Account>,
                         users': seq<Account>, dentists': seq<Account>, replies: seq<Publish>)
  {
    match payload
    case None => replies == [] && users' == users && dentists' == dentists
    case Some(req) =>
      var kind := EmailKind(topic);
      var coll := Select(users, dentists, kind);
      var i := FindIndex(coll, ByEmail(req.email));
      var errorTopic := ReplyTopic(Topics.ResetPasswordError, req.requestId);
      if i.None? then
        replies == [Publish(errorTopic, Text(InvalidEmail))] && users' == users && dentists' == dentists
      else if !LooseEquals(coll[i.value].code, req.userCode) then
        replies == [Publish(errorTopic, Text(InvalidCode))] && users' == users && dentists' == dentists
      else if req.newPassword.None? then
        replies == [] && users' == users && dentists' == dentists
      else if |req.newPassword.value| < 8 then
        replies == [Publish(errorTopic, Text(PasswordTooShort))] && users' == users && dentists' == dentists
      else if !IsResetTopic(topic) then
        replies == [Publish(errorTopic, Text(ResetFailed))] && users' == users && dentists' == dentists
      else
        && Select(users', dentists', kind) == coll[i.value := AfterReset(coll[i.value], k.hash(req.newPassword.value))]
        && Select(users', dentists', Other(kind)) == Select(users, dentists, Other(kind))
        && replies == [ResetReply(topic, req.requestId)]
  }

  method ResetPassword(db: Database, k: Primitives, topic: string, payload: Option<Request>)
    returns (replies: seq<Publish>)
    requires db.Valid()
    modifies db
    ensures db.Valid()
    ensures ResetOutcome(k, topic, payload, old(db.users), old(db.dentists), db.users, db.dentists, replies)
  {
    if payload.None? {
      return [];
    }
    var req := payload.value;
    var errorTopic := ReplyTopic(Topics.ResetPasswordError, req.requestId);
    var kind := EmailKind(topic);
    var i := FindIndex(db.Collection(kind), ByEmail(req.email));
    if i.None? {
      return [Publish(errorTopic, Text(InvalidEmail))];
    }
    var account := db.Collection(kind)[i.value];
    if !LooseEquals(account.code, req.userCode) {
      return [Publish(errorTopic, Text(InvalidCode))];
    }
    if req.newPassword.None? {
      // `newPassword.length` throws; the handler logs the error and publishes nothing.
      return [];
    }
    if |req.newPassword.value| < 8 {
      return [Publish(errorTopic, Text(PasswordTooShort))];
    }
    if !IsResetTopic(topic) {
      return [Publish(errorTopic, Text(ResetFailed))];
    }
    var digest := k.hash(req.newPassword.value);
    OwnEmailNotHeldByOther(db.Collection(kind), i.value);
    var saved := db.Replace(kind, i.value, AfterReset(account, digest));
    replies := [ResetReply(topic, req.requestId)];
  }

  /** Where the neutral answer goes: the dentist reply topic for the dentist request topic, else the user one. */
  function CodeReplyTopic(topic: string, requestId: Option<string>): (t: string)
    ensures topic == Topics.SendEmailCodeDentist ==> t == ReplyTopic(Topics.SendEmailCodeDentist, requestId)
    ensures topic != Topics.SendEmailCodeDentist ==> t == ReplyTopic(Topics.SendEmailCodeUser, requestId)
  {
    if topic == Topics.SendEmailCodeDentist then ReplyTopic(Topics.SendEmailCodeDentist, requestId)
    else ReplyTopic(Topics.SendEmailCodeUser, requestId)
  }

  /** The collection `sendEmailCode` writes the code into. */
  function CodeKind(topic: string): (kind: Kind)
    ensures kind == DentistKind <==> topic == Topics.SendEmailCodeDentist
  {
    if topic == Topics.SendEmailCodeDentist then DentistKind else UserKind
  }

  /**
   * What one send-code request does: the neutral answer whenever the payload parses; for an email the
   * lookup does not know, no mail and no change; for a known one, the code mailed to that address and
   * written into the first document of the written collection holding the email, and nothing else.
   */
  predicate SendCodeOutcome(topic: string, payload: Option<Request>, draws: seq<Draw>,
                            users: seq<Account>, dentists: seq<Account>,
                            users': seq<Account>, dentists': seq<Account>, replies: seq<Publish>, mails: seq<Mail>)
    requires |draws| >= CodeLength
  {
    match payload
    case None => replies == [] && mails == [] && users' == users && dentists' == dentists
    case Some(req) =>
      var code := CodeOf(draws[..CodeLength]);
      var kind := CodeKind(topic);
      var coll := Select(users, dentists, kind);
      var j := FindIndex(coll, ByEmail(req.email));
      && replies == [Publish(CodeReplyTopic(topic, req.requestId), Text(CodeSent))]
      && if FindUserByEmail(users, dentists, topic, req.email).None? then
           mails == [] && users' == users && dentists' == dentists
         else
           && mails == [Mail(req.email, MailSubject, MailPrefix + code)]
           && Select(users', dentists', Other(kind)) == Select(users, dentists, Other(kind))
           && Select(users', dentists', kind) == if j.Some? then coll[j.value := coll[j.value].(code := Some(code))] else coll
  }

  method SendEmailCode(db: Database, topic: string, payload: Option<Request>, draws: seq<Draw>)
    returns (replies: seq<Publish>, mails: seq<Mail>)
    requires db.Valid()
    requires |draws| >= CodeLength
    modifies db
    ensures db.Valid()
    ensures SendCodeOutcome(topic, payload, draws, old(db.users), old(db.dentists), db.users, db.dentists, replies, mails)
  {
    mails := [];
    if payload.None? {
      return [], [];
    }
    var req := payload.value;
    var found := FindUserByEmail(db.users, db.dentists, topic, req.email);
    if found.None? {
      return [Publish(CodeReplyTopic(topic, req.requestId), Text(CodeSent))], [];
    }
    var code := GenerateCode(draws);
    mails := [Mail(req.email, MailSubject, MailPrefix + code)];
    var kind := CodeKind(topic);
    var j := FindIndex(db.Collection(kind), ByEmail(req.email));
    if j.Some? {
      var account := db.Collection(kind)[j.value];
      OwnEmailNotHeldByOther(db.Collection(kind), j.value);
      var saved := db.Replace(kind, j.value, account.(code := Some(code)));
    }
    replies := [Publish(CodeReplyTopic(topic, req.requestId), Text(CodeSent))];
  }

  /** On both send-code topics the account the lookup finds is the one the code is written to. */
  lemma CodeStoredOnFoundAccount(users: seq<Account>, dentists: seq<Account>, topic: string, email: Option<string>)
    requires topic == Topics.SendEmailCodeDentist || topic == Topics.SendEmailCode || topic == Topics.SendEmailCodeUser
    requires FindUserByEmail(users, dentists, topic, email).Some?
    ensures FindIndex(Select(users, dentists, CodeKind(topic)), ByEmail(email)).Some?
  {
    assert EmailKind(topic) == CodeKind(topic);
  }
}
