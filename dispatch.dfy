/**
 * `handleRequest` from src/index.js: the switch from the topic of an incoming
 * message to the one handler that serves it, over the topics the service
 * subscribes to. Connection set-up and the circuit breaker around the switch
 * are outside the model; the breaker's settings are recorded as constants.
 */
module Dispatch {
  import opened Wrappers
  import opened Messages
  import opened Accounts
  import opened Store
  import opened FindUser
  import opened GenerateId
  import Topics
  import Login
  import VerifyJwt
  import Registration
  import ResetPassword
  import ModifyUser

  /** The circuit breaker opens at 75% failures, closes again after 30 s, and times a call out after 7.5 s. */
  const ErrorThresholdPercentage := 75
  const ResetTimeoutMillis := 30000
  const CallTimeoutMillis := 7500

  datatype Handler = RegisterHandler | LoginHandler | ModifyUserHandler | ResetPasswordHandler
                   | SendEmailCodeHandler | AuthenticationHandler

  /** The topics subscribed to on connect, in subscription order. */
  const SubscribedTopics: seq<string> := [
    Topics.RegisterUser, Topics.RegisterDentist, Topics.LoginUser, Topics.LoginDentist, Topics.ModifyUser,
    Topics.ResetPasswordDentist, Topics.ResetPasswordUser, Topics.SendEmailCode, Topics.Authentication]

  /** The switch: one handler for each subscribed topic, none for any other topic. */
  function Route(topic: string): (h: Option<Handler>)
    ensures h.Some? <==> topic in SubscribedTopics
    ensures h == Some(RegisterHandler) <==> topic == Topics.RegisterDentist || topic == Topics.RegisterUser
    ensures h == Some(LoginHandler) <==> topic == Topics.LoginDentist || topic == Topics.LoginUser
    ensures h == Some(ModifyUserHandler) <==> topic == Topics.ModifyUser
    ensures h == Some(ResetPasswordHandler) <==> topic == Topics.ResetPasswordDentist || topic == Topics.ResetPasswordUser
    ensures h == Some(SendEmailCodeHandler) <==> topic == Topics.SendEmailCode
    ensures h == Some(AuthenticationHandler) <==> topic == Topics.Authentication
  {
    if topic == Topics.RegisterDentist || topic == Topics.RegisterUser then Some(RegisterHandler)
    else if topic == Topics.LoginDentist || topic == Topics.LoginUser then Some(LoginHandler)
    else if topic == Topics.ModifyUser then Some(ModifyUserHandler)
    else if topic == Topics.ResetPasswordDentist || topic == Topics.ResetPasswordUser then Some(ResetPasswordHandler)
    else if topic == Topics.SendEmailCode then Some(SendEmailCodeHandler)
    else if topic == Topics.Authentication then Some(AuthenticationHandler)
    else None
  }

  /** One incoming message: the routed handler runs once; an unknown topic publishes nothing and
      changes nothing. Only the send-code handler sends mail, and only the three writing handlers
      may change the store. */
  method HandleRequest(db: Database, k: Primitives, topic: string, payload: Option<Request>, draws: seq<Draw>)
    returns (replies: seq<Publish>, mails: seq<Mail>)
    requires db.Valid()
    requires topic == Topics.SendEmailCode ==> |draws| >= ResetPassword.CodeLength
    modifies db
    ensures db.Valid()
    ensures Route(topic).None? ==> replies == [] && mails == []
    ensures Route(topic) != Some(SendEmailCodeHandler) ==> mails == []
    ensures Route(topic) !in {Some(RegisterHandler), Some(ModifyUserHandler), Some(ResetPasswordHandler),
                              Some(SendEmailCodeHandler)} ==>
      db.users == old(db.users) && db.dentists == old(db.dentists)
    ensures Route(topic) == Some(LoginHandler) ==> replies == Login.Login(k, old(db.users), old(db.dentists), topic, payload)
    ensures Route(topic) == Some(AuthenticationHandler) ==> replies == VerifyJwt.HandleVerifyIdTokenRequest(k, payload)
    ensures Route(topic) == Some(RegisterHandler) ==>
      Registration.RegisterOutcome(k, topic, payload, draws, old(db.users), old(db.dentists), db.users, db.dentists, replies)
    ensures Route(topic) == Some(ModifyUserHandler) ==>
      ModifyUser.ModifyOutcome(k, payload, old(db.users), old(db.dentists), db.users, db.dentists, replies)
    ensures Route(topic) == Some(ResetPasswordHandler) ==>
      ResetPassword.ResetOutcome(k, topic, payload, old(db.users), old(db.dentists), db.users, db.dentists, replies)
    ensures Route(topic) == Some(SendEmailCodeHandler) ==>
      ResetPassword.SendCodeOutcome(topic, payload, draws, old(db.users), old(db.dentists), db.users, db.dentists,
                                    replies, mails)
    ensures Route(topic) == Some(SendEmailCodeHandler) && payload.Some? ==>
      replies == [Publish(ReplyTopic(Topics.SendEmailCodeUser, payload.value.requestId), Text(ResetPassword.CodeSent))]
  {
    mails := [];
    match Route(topic)
    case None =>
      replies := [];
    case Some(RegisterHandler) =>
      replies := Registration.RegisterUser(db, k, topic, payload, draws);
    case Some(LoginHandler) =>
      replies := Login.Login(k, db.users, db.dentists, topic, payload);
    case Some(ModifyUserHandler) =>
      replies := ModifyUser.ModifyUser(db, k, payload);
    case Some(ResetPasswordHandler) =>
      replies := ResetPassword.ResetPassword(db, k, topic, payload);
    case Some(SendEmailCodeHandler) =>
      replies, mails := ResetPassword.SendEmailCode(db, topic, payload, draws);
    case Some(AuthenticationHandler) =>
      replies := VerifyJwt.HandleVerifyIdTokenRequest(k, payload);
  }

  /** No topic is subscribed twice: the nine topics differ in length except the user-registration
      and dentist-login topics, which differ at the first character after the prefix. */
  lemma SubscribedTopicsDistinct()
    ensures forall i, j :: 0 <= i < j < |SubscribedTopics| ==> SubscribedTopics[i] != SubscribedTopics[j]
  {
    var s := SubscribedTopics;
    assert |s[0]| == 24 && |s[1]| == 27 && |s[2]| == 21 && |s[3]| == 24 && |s[4]| == 22;
    assert |s[5]| == 33 && |s[6]| == 30 && |s[7]| == 26 && |s[8]| == 25;
    assert s[0][11] == 'r' && s[3][11] == 'l';
  }

  /** A subscribed topic the switch hands to `h`: its position in the subscription list. */
  function HandlerTopicIndex(h: Handler): (i: nat)
    ensures i < |SubscribedTopics| && Route(SubscribedTopics[i]) == Some(h)
  {
    match h
    case RegisterHandler => 0
    case LoginHandler => 2
    case ModifyUserHandler => 4
    case ResetPasswordHandler => 5
    case SendEmailCodeHandler => 7
    case AuthenticationHandler => 8
  }

  /** The subscription list and the switch agree: nine distinct topics, each served, and every
      handler reachable from some subscribed topic. */
  lemma SubscriptionsMatchSwitch()
    ensures |SubscribedTopics| == 9
    ensures forall i, j :: 0 <= i < j < |SubscribedTopics| ==> SubscribedTopics[i] != SubscribedTopics[j]
    ensures forall t :: t in SubscribedTopics ==> Route(t).Some?
    ensures forall h: Handler :: exists i :: 0 <= i < |SubscribedTopics| && Route(SubscribedTopics[i]) == Some(h)
  {
    SubscribedTopicsDistinct();
    assert Route(SubscribedTopics[0]) == Some(RegisterHandler);
    assert Route(SubscribedTopics[2]) == Some(LoginHandler);
    assert Route(SubscribedTopics[4]) == Some(ModifyUserHandler);
    assert Route(SubscribedTopics[5]) == Some(ResetPasswordHandler);
    assert Route(SubscribedTopics[7]) == Some(SendEmailCodeHandler);
    assert Route(SubscribedTopics[8]) == Some(AuthenticationHandler);
    forall h: Handler
      ensures exists i :: 0 <= i < |SubscribedTopics| && Route(SubscribedTopics[i]) == Some(h)
    {
      var i := HandlerTopicIndex(h);
      assert 0 <= i < |SubscribedTopics| && Route(SubscribedTopics[i]) == Some(h);
    }
  }

  /** The send-code topic carries no account kind: the lookup, the stored code and the answer all use
      the User collection and the user reply topic, so a dentist can never receive a reset code. */
  lemma SendEmailCodeServesUsersOnly(users: seq<Account>, dentists: seq<Account>, email: Option<string>,
                                     requestId: Option<string>)
    ensures EmailKind(Topics.SendEmailCode) == UserKind
    ensures ResetPassword.CodeKind(Topics.SendEmailCode) == UserKind
    ensures ResetPassword.CodeReplyTopic(Topics.SendEmailCode, requestId) == ReplyTopic(Topics.SendEmailCodeUser, requestId)
    ensures FindUserByEmail(users, dentists, Topics.SendEmailCode, email) == FindOne(users, ByEmail(email))
  {
  }
}
