/** `UsersService`: sign-up inserts a user only when the email is unused; log-in looks the
    user up by email and asks a password check. The check (a bcrypt comparison against a
    stored hash) is a parameter. */
module Users {
  import opened Common
  import opened Entities

  const EmailTaken := "There is a user with that email already"
  const WrongPassword := "Check your email and password"
  const CannotLogIn := "Couln't log in user"
  const TestToken := "Test token"

  /** The outcome of `user.checkPassword(password)`: the comparison rejects (it throws, for
      instance when no hash was loaded with the user) or it answers whether the password
      matches. */
  datatype PasswordCheck = CheckFailed | Checked(correct: bool)

  /** Some stored user already has this email. */
  predicate EmailInUse(users: seq<User>, email: string)
  {
    exists k :: 0 <= k < |users| && users[k].email == email
  }

  /** The unique constraint the sign-up check maintains. */
  ghost predicate UniqueEmails(users: seq<User>)
  {
    forall i, j :: 0 <= i < j < |users| ==> users[i].email != users[j].email
  }

  /** `login({ email, password })`: an unknown email makes `user.checkPassword` throw, and so
      does a check that rejects; the `catch` turns both into the generic message. A check
      that answers is told apart as wrong credentials or the fixed placeholder token. */
  function Login(users: seq<User>, email: string, password: string, checkPassword: (User, string) -> PasswordCheck): (r: Result<string>)
    ensures !EmailInUse(users, email) ==> r == Err(CannotLogIn)
    ensures r.Ok? ==> r.value == TestToken
    ensures r.Ok? <==> EmailInUse(users, email) && checkPassword(FindUserByEmail(users, email).value, password) == Checked(true)
    ensures r == Err(WrongPassword) <==>
      EmailInUse(users, email) && checkPassword(FindUserByEmail(users, email).value, password) == Checked(false)
    ensures r.Err? ==> r.error == CannotLogIn || r.error == WrongPassword
  {
    match FindUserByEmail(users, email)
    case None => Err(CannotLogIn)
    case Some(user) =>
      match checkPassword(user, password)
      case CheckFailed => Err(CannotLogIn)
      case Checked(correct) => if !correct then Err(WrongPassword) else Ok(TestToken)
  }

  /** With unique emails, `findOne({ email })` is the one user stored with that email. */
  lemma {:induction false} FindUserUnique(users: seq<User>, k: nat)
    requires UniqueEmails(users) && k < |users|
    ensures FindUserByEmail(users, users[k].email) == Some(users[k])
  {
    var found := FindFirst(users, (u: User) => u.email == users[k].email);
    assert found.Some?;
  }

  /** Signing up and then logging in with the same credentials succeeds, provided the
      password check accepts the password the user was created with. */
  lemma LoginAfterSignUp(users: seq<User>, user: User, checkPassword: (User, string) -> PasswordCheck)
    requires !EmailInUse(users, user.email)
    requires checkPassword(user, user.password) == Checked(true)
    ensures Login(users + [user], user.email, user.password, checkPassword) == Ok(TestToken)
  {
    var all := users + [user];
    assert all[|users|] == user;
    var found := FindFirst(all, (u: User) => u.email == user.email);
    assert found == Some(|users|) by {
      forall j | 0 <= j < |users|
        ensures all[j].email != user.email
      {
        assert all[j] == users[j];
      }
    }
  }

  /** A known user with a password the check refuses gets the credentials message, never
      the generic one. */
  lemma WrongPasswordMessage(users: seq<User>, k: nat, password: string, checkPassword: (User, string) -> PasswordCheck)
    requires UniqueEmails(users) && k < |users|
    requires checkPassword(users[k], password) == Checked(false)
    ensures Login(users, users[k].email, password, checkPassword) == Err(WrongPassword)
  {
    FindUserUnique(users, k);
  }

  /** When the comparison rejects for every stored user, as it does when the stored hash is
      not loaded with the user, no login succeeds and every answer is the generic message. */
  lemma FailingCheckRefusesAll(users: seq<User>, email: string, password: string, checkPassword: (User, string) -> PasswordCheck)
    requires forall u, w :: checkPassword(u, w) == CheckFailed
    ensures Login(users, email, password, checkPassword) == Err(CannotLogIn)
  {
  }

  /** Appending a user whose email is unused keeps emails unique. */
  lemma InsertKeepsEmailsUnique(users: seq<User>, user: User)
    requires UniqueEmails(users) && !EmailInUse(users, user.email)
    ensures UniqueEmails(users + [user])
  {
    var all := users + [user];
    forall i, j | 0 <= i < j < |all|
      ensures all[i].email != all[j].email
    {
      assert all[i] == users[i];
      if j < |users| {
        assert all[j] == users[j];
      }
    }
  }

  class UsersService {
    var users: seq<User>
    var nextUserId: nat

    /** Emails are unique and ids are below the next generated one. */
    ghost predicate Valid()
      reads this
    {
      && UniqueEmails(users)
      && (forall k :: 0 <= k < |users| ==> users[k].id < nextUserId)
    }

    constructor ()
      ensures Valid() && users == []
    {
      users := [];
      nextUserId := 1;
    }

    /** `createUser({ email, password, role })`: refused when the email is in use, otherwise
        one row is appended. Either way the email is in use afterwards. */
    method CreateUser(email: string, password: string, role: UserRole) returns (r: CoreOutput)
      requires Valid()
      modifies this
      ensures Valid()
      ensures EmailInUse(old(users), email) ==> r == Failure(EmailTaken) && users == old(users)
      ensures !EmailInUse(old(users), email) ==>
        r == Success() && users == old(users) + [User(old(nextUserId), email, password, role)]
      ensures EmailInUse(users, email)
    {
      var existing := FindUserByEmail(users, email);
      if existing.Some? {
        return Failure(EmailTaken);
      }
      var newUser := User(nextUserId, email, password, role);
      InsertKeepsEmailsUnique(users, newUser);
      users := users + [newUser];
      nextUserId := nextUserId + 1;
      assert users[|users| - 1] == newUser;
      r := Success();
    }
  }

  /** Signing up the same email twice: whatever the first call answers, the second is
      refused and leaves the table as the first call left it. */
  method SignUpTwice(service: UsersService, email: string, password: string, role: UserRole)
    returns (first: CoreOutput, second: CoreOutput)
    requires service.Valid()
    modifies service
    ensures second == Failure(EmailTaken)
    ensures !EmailInUse(old(service.users), email) ==>
      first == Success() && service.users == old(service.users) + [User(old(service.nextUserId), email, password, role)]
    ensures EmailInUse(old(service.users), email) ==> first == Failure(EmailTaken) && service.users == old(service.users)
  {
    first := service.CreateUser(email, password, role);
    second := service.CreateUser(email, password, role);
  }
}
