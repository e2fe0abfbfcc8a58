/** The authentication routes: signup, login, forgot-password and reset-password
    over an in-memory user store (routes/auth.js). */
module Auth {
  import opened Base
  import opened Crypto

  /** A user document: the password only ever as a bcrypt hash, and the
      SHA-256 digest of an outstanding reset token with its expiry time (ms). */
  datatype User = User(email: string, password: PasswordHash, resetToken: Option<Digest>, resetExpires: Option<int>)

  /** `{ id, email }` as sent back by signup and login. */
  datatype Summary = Summary(id: Id, email: string)

  /** The part of a signup or login reply beside its message. */
  datatype Session = Session(user: Summary, token: string)

  /** A reset e-mail: the recipient and the raw token embedded in its link. */
  datatype Mail = Mail(to: string, rawToken: string)

  /** A reset token stays usable for one hour. */
  const ResetWindow: int := 60 * 60 * 1000

  const MissingCredentials := "Please provide email and password"
  const EmailTaken := "Email already registered"
  const InvalidCredentials := "Invalid credentials"
  const MissingEmail := "Please provide an email"
  const ResetLinkSent := "If that email exists, a reset link has been sent"
  const MissingNewPassword := "Please provide a new password"
  const InvalidToken := "Invalid or expired token"

  /** `User.findOne({ email })` finds something. */
  predicate Registered(users: map<Id, User>, email: string) {
    exists id :: id in users && users[id].email == email
  }

  /** `user` has this email and `password` passes bcrypt's compare against the stored hash. */
  predicate Authenticates(user: User, email: string, password: string) {
    user.email == email && PwVerify(password, user.password)
  }

  /** The reset-password query: the stored digest is `digest` and its expiry is
      strictly later than `now`. */
  predicate ResetMatches(user: User, digest: Digest, now: int) {
    user.resetToken == Some(digest) && user.resetExpires.Some? && user.resetExpires.value > now
  }

  /** At most one user per email. */
  ghost predicate EmailsUnique(users: map<Id, User>) {
    forall a, b :: a in users && b in users && users[a].email == users[b].email ==> a == b
  }

  /** At most one user per outstanding reset digest. */
  ghost predicate ResetTokensUnique(users: map<Id, User>) {
    forall a, b :: a in users && b in users && users[a].resetToken.Some? && users[a].resetToken == users[b].resetToken ==> a == b
  }

  /** The two reset fields are set together and cleared together. */
  ghost predicate ResetFieldsPaired(user: User) {
    user.resetToken.Some? <==> user.resetExpires.Some?
  }

  /** The store invariant: ids lie below the next id to hand out, emails and
      outstanding reset digests are unique, the two reset fields go together,
      and every stored digest was issued. */
  ghost predicate UsersValid(users: map<Id, User>, nextId: Id, issued: set<Digest>) {
    && (forall id :: id in users ==> id < nextId)
    && EmailsUnique(users)
    && ResetTokensUnique(users)
    && (forall id :: id in users ==> ResetFieldsPaired(users[id]))
    && (forall id :: id in users && users[id].resetToken.Some? ==> users[id].resetToken.value in issued)
  }

  /** Adding a user with a new email and no reset token under the next id keeps the invariant. */
  lemma AddUserKeepsValid(users: map<Id, User>, nextId: Id, issued: set<Digest>, user: User)
    requires UsersValid(users, nextId, issued)
    requires !Registered(users, user.email) && user.resetToken.None? && user.resetExpires.None?
    ensures nextId !in users
    ensures UsersValid(users[nextId := user], nextId + 1, issued)
  {
  }

  /** Giving user `id` a freshly issued digest keeps the invariant, and the
      digest that user held before is then held by nobody. */
  lemma SetResetKeepsValid(users: map<Id, User>, nextId: Id, issued: set<Digest>, id: Id, digest: Digest, expires: int)
    requires UsersValid(users, nextId, issued)
    requires id in users && digest !in issued
    ensures var users' := users[id := users[id].(resetToken := Some(digest), resetExpires := Some(expires))];
              && UsersValid(users', nextId, issued + {digest})
              && (users[id].resetToken.Some? ==> forall other :: other in users' ==> users'[other].resetToken != users[id].resetToken)
  {
  }

  /** Clearing both reset fields of user `id` (and changing the password) keeps
      the invariant, and the digest that user held is then held by nobody. */
  lemma ClearResetKeepsValid(users: map<Id, User>, nextId: Id, issued: set<Digest>, id: Id, password: PasswordHash)
    requires UsersValid(users, nextId, issued)
    requires id in users
    ensures var users' := users[id := users[id].(password := password, resetToken := None, resetExpires := None)];
              && UsersValid(users', nextId, issued)
              && forall other :: other in users' ==> users'[other].resetToken != users[id].resetToken || users[id].resetToken.None?
  {
  }

  class AuthStore {
    var users: map<Id, User>
    var nextId: Id
    /** Digests of every reset token ever handed out. */
    ghost var issued: set<Digest>
    /** Reset e-mails sent so far, oldest first. */
    ghost var outbox: seq<Mail>
    /** `jwt.sign({ id }, JWT_SECRET, { expiresIn })` for a user id. */
    const sign: Id -> string

    ghost predicate Valid()
      reads this
    {
      UsersValid(users, nextId, issued)
    }

    constructor (sign: Id -> string)
      ensures Valid()
      ensures users == map[] && nextId == 0 && issued == {} && outbox == []
      ensures this.sign == sign
    {
      this.sign := sign;
      users, nextId := map[], 0;
      issued, outbox := {}, [];
    }

    /** POST /signup */
    method Signup(email: Option<string>, password: Option<string>, salt: Salt) returns (r: Reply<Session>)
      requires Valid()
      modifies this
      ensures Valid()
      ensures issued == old(issued) && outbox == old(outbox)
      ensures !Given(email) || !Given(password) ==>
                r == Plain(400, MissingCredentials) && users == old(users) && nextId == old(nextId)
      ensures Given(email) && Given(password) && Registered(old(users), email.value) ==>
                r == Plain(400, EmailTaken) && users == old(users) && nextId == old(nextId)
      ensures Given(email) && Given(password) && !Registered(old(users), email.value) ==>
                && old(nextId) !in old(users)
                && users == old(users)[old(nextId) := User(email.value, PwHash(password.value, salt), None, None)]
                && nextId == old(nextId) + 1
                && r == Reply(201, Some("User created"), Some(Session(Summary(old(nextId), email.value), sign(old(nextId)))))
    {
      if !Given(email) || !Given(password) {
        return Plain(400, MissingCredentials);
      }
      if Registered(users, email.value) {
        return Plain(400, EmailTaken);
      }
      var id := nextId;
      var user := User(email.value, PwHash(password.value, salt), None, None);
      AddUserKeepsValid(users, nextId, issued, user);
      users := users[id := user];
      nextId := nextId + 1;
      r := Reply(201, Some("User created"), Some(Session(Summary(id, user.email), sign(id))));
    }

    /** POST /login. An unknown email and a wrong password get the same reply. */
    method Login(email: Option<string>, password: Option<string>) returns (r: Reply<Session>)
      requires Valid()
      ensures !Given(email) || !Given(password) ==> r == Plain(400, MissingCredentials)
      ensures Given(email) && Given(password) && !Registered(users, email.value) ==>
                r == Plain(400, InvalidCredentials)
      ensures Given(email) && Given(password) ==>
                forall id :: id in users && users[id].email == email.value && !PwVerify(password.value, users[id].password) ==>
                  r == Plain(400, InvalidCredentials)
      ensures Given(email) && Given(password) ==>
                forall id :: id in users && Authenticates(users[id], email.value, password.value) ==>
                  r == Reply(200, Some("Logged in"), Some(Session(Summary(id, users[id].email), sign(id))))
      ensures r.status == 200 || r.status == 400
    {
      if !Given(email) || !Given(password) {
        return Plain(400, MissingCredentials);
      }
      if !Registered(users, email.value) {
        return Plain(400, InvalidCredentials);
      }
      var id :| id in users && users[id].email == email.value;
      if !PwVerify(password.value, users[id].password) {
        return Plain(400, InvalidCredentials);
      }
      r := Reply(200, Some("Logged in"), Some(Session(Summary(id, users[id].email), sign(id))));
    }

    /** Signing up with an email not yet registered and then logging in with
        the same credentials succeeds, on any valid store, and both replies
        name the new user; an email already registered is refused and
        nothing changes. */
    method SignupThenLogin(email: string, password: string, salt: Salt)
      returns (created: Reply<Session>, loggedIn: Reply<Session>)
      requires Valid() && email != "" && password != ""
      modifies this
      ensures Valid()
      ensures !Registered(old(users), email) ==>
                && created == Reply(201, Some("User created"), Some(Session(Summary(old(nextId), email), sign(old(nextId)))))
                && loggedIn == Reply(200, Some("Logged in"), Some(Session(Summary(old(nextId), email), sign(old(nextId)))))
      ensures Registered(old(users), email) ==> created == Plain(400, EmailTaken) && users == old(users)
    {
      created := Signup(Some(email), Some(password), salt);
      PwVerifyHash(password, password, salt);
      loggedIn := Login(Some(email), Some(password));
    }

    /** POST /forgot-password. `raw` is the fresh random token
        (`crypto.randomBytes(32)` in hex), `now` is `Date.now()`, and `delivered`
        says whether sending the e-mail succeeded. */
    method ForgotPassword(email: Option<string>, raw: string, now: int, delivered: bool) returns (r: Reply<()>)
      requires Valid()
      requires Given(email) && Registered(users, email.value) ==> Sha(raw) !in issued
      modifies this
      ensures Valid()
      ensures nextId == old(nextId)
      ensures !Given(email) ==>
                r == Plain(400, MissingEmail) && users == old(users) && issued == old(issued) && outbox == old(outbox)
      ensures Given(email) && !Registered(old(users), email.value) ==>
                r == Plain(200, ResetLinkSent) && users == old(users) && issued == old(issued) && outbox == old(outbox)
      ensures Given(email) && Registered(old(users), email.value) ==>
                && r == (if delivered then Plain(200, ResetLinkSent) else Plain(500, ServerError))
                && issued == old(issued) + {Sha(raw)}
                && forall id :: id in old(users) && old(users)[id].email == email.value ==>
                     && users == old(users)[id := old(users)[id].(resetToken := Some(Sha(raw)), resetExpires := Some(now + ResetWindow))]
                     && outbox == old(outbox) + (if delivered then [Mail(old(users)[id].email, raw)] else [])
                     // the token this user was sent before now matches nobody
                     && (old(users)[id].resetToken.Some? ==>
                           forall other :: other in users ==> users[other].resetToken != old(users)[id].resetToken)
    {
      if !Given(email) {
        return Plain(400, MissingEmail);
      }
      if !Registered(users, email.value) {
        return Plain(200, ResetLinkSent);
      }
      var id :| id in users && users[id].email == email.value;
      var digest := Sha(raw);
      var user := users[id].(resetToken := Some(digest), resetExpires := Some(now + ResetWindow));
      SetResetKeepsValid(users, nextId, issued, id, digest, now + ResetWindow);
      users := users[id := user];
      issued := issued + {digest};
      if !delivered {
        return Plain(500, ServerError);
      }
      outbox := outbox + [Mail(user.email, raw)];
      r := Plain(200, ResetLinkSent);
    }

    /** POST /reset-password/:token, with `raw` the token from the link and
        `now` the time of the request. */
    method ResetPassword(raw: string, password: Option<string>, now: int, salt: Salt) returns (r: Reply<()>)
      requires Valid()
      modifies this
      ensures Valid()
      ensures nextId == old(nextId) && issued == old(issued) && outbox == old(outbox)
      ensures !Given(password) ==> r == Plain(400, MissingNewPassword) && users == old(users)
      ensures Given(password) && (forall id :: id in old(users) ==> !ResetMatches(old(users)[id], Sha(raw), now)) ==>
                r == Plain(400, InvalidToken) && users == old(users)
      ensures Given(password) ==>
                forall id :: id in old(users) && ResetMatches(old(users)[id], Sha(raw), now) ==>
                  && r == Plain(200, "Password reset successful")
                  && users == old(users)[id := old(users)[id].(password := PwHash(password.value, salt), resetToken := None, resetExpires := None)]
      // a used token matches nobody afterwards, at any time
      ensures r.status == 200 ==> forall id :: id in users ==> users[id].resetToken != Some(Sha(raw))
    {
      if !Given(password) {
        return Plain(400, MissingNewPassword);
      }
      var digest := Sha(raw);
      if forall id :: id in users ==> !ResetMatches(users[id], digest, now) {
        return Plain(400, InvalidToken);
      }
      var id :| id in users && ResetMatches(users[id], digest, now);
      ClearResetKeepsValid(users, nextId, issued, id, PwHash(password.value, salt));
      users := users[id := users[id].(password := PwHash(password.value, salt), resetToken := None, resetExpires := None)];
      r := Plain(200, "Password reset successful");
    }
  }

  /** A new store after one signup and one forgot-password request for that
      user: the user has id 0, holds the digest of `raw` due to expire in an
      hour, and the reset e-mail carrying `raw` has gone out. */
  method RegisteredWithToken(sign: Id -> string, email: string, password: string, raw: string, now: int, salt: Salt)
    returns (store: AuthStore)
    requires email != "" && password != ""
    ensures fresh(store) && store.Valid() && store.sign == sign
    ensures store.users == map[0 := User(email, PwHash(password, salt), Some(Sha(raw)), Some(now + ResetWindow))]
    ensures store.outbox == [Mail(email, raw)]
  {
    store := new AuthStore(sign);
    var created := store.Signup(Some(email), Some(password), salt);
    assert store.users == map[0 := User(email, PwHash(password, salt), None, None)];
    assert Registered(store.users, email) && 0 in store.users && store.users[0].email == email;
    var sent := store.ForgotPassword(Some(email), raw, now, true);
  }

  /** The reset flow: forgot-password mails the raw token; resetting with it
      inside the hour replaces the password, so the old one is refused and
      the new one accepted; the same token cannot be used a second time. */
  method PasswordResetFlow(sign: Id -> string, email: string, oldPassword: string, newPassword: string,
                           raw: string, now: int, later: int, salt1: Salt, salt2: Salt)
    returns (reset: Reply<()>, oldLogin: Reply<Session>, newLogin: Reply<Session>, replay: Reply<()>)
    requires email != "" && oldPassword != "" && newPassword != ""
    requires BcryptKey(oldPassword) != BcryptKey(newPassword)
    requires later < now + ResetWindow
    ensures reset == Plain(200, "Password reset successful")
    ensures oldLogin == Plain(400, InvalidCredentials)
    ensures newLogin.status == 200
    ensures replay == Plain(400, InvalidToken)
  {
    var store := RegisteredWithToken(sign, email, oldPassword, raw, now, salt1);
    assert 0 in store.users && ResetMatches(store.users[0], Sha(raw), later);
    reset := store.ResetPassword(raw, Some(newPassword), later, salt2);
    assert store.users == map[0 := User(email, PwHash(newPassword, salt2), None, None)];
    PwVerifyHash(oldPassword, newPassword, salt2);
    PwVerifyHash(newPassword, newPassword, salt2);
    assert 0 in store.users && store.users[0].email == email;
    assert !PwVerify(oldPassword, store.users[0].password);
    assert Authenticates(store.users[0], email, newPassword);
    oldLogin := store.Login(Some(email), Some(oldPassword));
    newLogin := store.Login(Some(email), Some(newPassword));
    replay := store.ResetPassword(raw, Some(newPassword), later, salt2);
  }

  /** A second forgot-password request replaces the first token: the first no
      longer resets anything, the second does. A token is also refused once its
      hour is over. */
  method SecondRequestSupersedesFirst(sign: Id -> string, email: string, password: string,
                                      first: string, second: string, now: int, salt: Salt)
    returns (stale: Reply<()>, expired: Reply<()>, current: Reply<()>)
    requires email != "" && password != "" && first != second
    ensures stale == Plain(400, InvalidToken)
    ensures expired == Plain(400, InvalidToken)
    ensures current == Plain(200, "Password reset successful")
  {
    var store := new AuthStore(sign);
    var created := store.Signup(Some(email), Some(password), salt);
    assert store.users == map[0 := User(email, PwHash(password, salt), None, None)];
    var sent1 := store.ForgotPassword(Some(email), first, now, true);
    assert store.issued == {Sha(first)};
    var sent2 := store.ForgotPassword(Some(email), second, now, true);
    assert store.users == map[0 := User(email, PwHash(password, salt), Some(Sha(second)), Some(now + ResetWindow))];
    stale := store.ResetPassword(first, Some(password), now, salt);
    expired := store.ResetPassword(second, Some(password), now + ResetWindow, salt);
    current := store.ResetPassword(second, Some(password), now, salt);
  }
}
