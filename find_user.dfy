/**
 * Which collection a lookup goes to: by the request topic for email lookups,
 * by the token's role for id lookups. Both are read-only, and "not found" is
 * an absent result rather than an error.
 */
module FindUser {
  import opened Wrappers
  import opened Accounts
  import opened Store
  import Topics

  /** Email lookups go to Dentist exactly for the four dentist request topics. */
  function EmailKind(topic: string): (kind: Kind)
    ensures kind == DentistKind <==>
      topic in {Topics.RegisterDentist, Topics.LoginDentist, Topics.ResetPasswordDentist, Topics.SendEmailCodeDentist}
  {
    if topic == Topics.RegisterDentist || topic == Topics.LoginDentist
      || topic == Topics.ResetPasswordDentist || topic == Topics.SendEmailCodeDentist
    then DentistKind
    else UserKind
  }

  /** Id lookups go to User only for the role string "User"; any other role means Dentist. */
  function RoleKind(role: string): (kind: Kind)
    ensures kind == UserKind <==> role == "User"
  {
    if role == "User" then UserKind else DentistKind
  }

  /** `findUserByEmail(topic, email)`. */
  function FindUserByEmail(users: seq<Account>, dentists: seq<Account>, topic: string, email: Option<string>)
    : (r: Option<Account>)
    ensures r.Some? ==> r.value.email == email && r.value in Select(users, dentists, EmailKind(topic))
    ensures r.None? <==> forall a :: a in Select(users, dentists, EmailKind(topic)) ==> a.email != email
  {
    FindOne(Select(users, dentists, EmailKind(topic)), ByEmail(email))
  }

  /** `findUserById(userId, role)`. */
  function FindUserById(users: seq<Account>, dentists: seq<Account>, userId: nat, role: string)
    : (r: Option<Account>)
    ensures r.Some? ==> r.value.id == userId && r.value in Select(users, dentists, RoleKind(role))
    ensures r.None? <==> forall a :: a in Select(users, dentists, RoleKind(role)) ==> a.id != userId
  {
    FindOne(Select(users, dentists, RoleKind(role)), ById(userId))
  }

  /** The two kinds are separate namespaces: an email lookup never sees the other collection. */
  lemma EmailLookupIgnoresOtherKind(users: seq<Account>, dentists: seq<Account>, users': seq<Account>,
                                    dentists': seq<Account>, topic: string, email: Option<string>)
    requires EmailKind(topic) == UserKind ==> users == users'
    requires EmailKind(topic) == DentistKind ==> dentists == dentists'
    ensures FindUserByEmail(users, dentists, topic, email) == FindUserByEmail(users', dentists', topic, email)
  {
  }

  /** In a collection with unique emails the lookup finds the one document holding the email. */
  lemma FindByEmailUnique(coll: seq<Account>, i: nat, email: Option<string>)
    requires UniqueEmails(coll)
    requires i < |coll| && coll[i].email == email
    ensures FindIndex(coll, ByEmail(email)) == Some(i)
  {
  }
}
