/** The session guard `protect` (middleware/authMiddleware.js): from the
    `Authorization` header to either a 401 reply or the user to attach to the
    request before the protected handler runs. It only reads the store, so it
    is a function of the header, the token verifier and the users. */
module Guard {
  import opened Base
  import opened Crypto
  import opened Text
  import opened Auth

  /** `User.findById(id).select('-password')`: every field but the password hash. */
  datatype SafeUser = SafeUser(id: Id, email: string, resetToken: Option<Digest>, resetExpires: Option<int>)

  /** Either `next()` runs with `req.user` set, or the request ends with a reply. */
  datatype Outcome = Next(user: SafeUser) | Reject(status: nat, message: string)

  const BearerPrefix := "Bearer "
  const TokenMissing := "Not authorized, token missing"
  const NotAuthorized := "Not authorized"
  const UserNotFound := "User not found"

  function WithoutPassword(id: Id, user: User): SafeUser
  {
    SafeUser(id, user.email, user.resetToken, user.resetExpires)
  }

  /** `authHeader.split(' ')[1]`. The header starts with "Bearer ", so it holds a
      space and the split has a second field, possibly empty. */
  function BearerToken(header: string): string
    requires StartsWith(header, BearerPrefix)
  {
    assert header[6] == ' ';
    Split(header, ' ')[1]
  }

  /** `protect`. `verify` is `jwt.verify` under the server's secret at the time
      of the request, giving the `id` claim of a valid token and None where
      verification throws. */
  function Protect(header: Option<string>, verify: string -> Option<Id>, users: map<Id, User>): (r: Outcome)
    ensures header.None? || !StartsWith(header.value, BearerPrefix) ==> r == Reject(401, TokenMissing)
    ensures header.Some? && StartsWith(header.value, BearerPrefix) ==>
              match verify(BearerToken(header.value))
              case None => r == Reject(401, NotAuthorized)
              case Some(id) => r == (if id in users then Next(WithoutPassword(id, users[id])) else Reject(401, UserNotFound))
    ensures r.Reject? ==> r.status == 401
  {
    if header.None? || !StartsWith(header.value, BearerPrefix) then
      Reject(401, TokenMissing)
    else
      match verify(BearerToken(header.value))
      case None => Reject(401, NotAuthorized)
      case Some(id) =>
        if id in users then Next(WithoutPassword(id, users[id])) else Reject(401, UserNotFound)
  }

  /** The token checked is the header's text after "Bearer " up to the next space. */
  lemma BearerTokenIsSecondField(rest: string)
    ensures StartsWith(BearerPrefix + rest, BearerPrefix)
    ensures BearerToken(BearerPrefix + rest) == Split(rest, ' ')[0]
  {
    assert BearerPrefix + rest == "Bearer" + [' '] + rest;
    SplitField("Bearer", ' ', rest);
  }

  /** A header made from a token without spaces hands exactly that token to `verify`. */
  lemma BearerTokenOf(token: string)
    requires ' ' !in token
    ensures StartsWith(BearerPrefix + token, BearerPrefix)
    ensures BearerToken(BearerPrefix + token) == token
  {
    BearerTokenIsSecondField(token);
    SplitWhole(token, ' ');
  }

  /** The guard lets a request through only for a stored user, and the user it
      attaches is the one the token names, without the password. */
  lemma ProtectBindsUser(header: Option<string>, verify: string -> Option<Id>, users: map<Id, User>)
    requires Protect(header, verify, users).Next?
    ensures header.Some? && StartsWith(header.value, BearerPrefix)
    ensures var id := Protect(header, verify, users).user.id;
              && verify(BearerToken(header.value)) == Some(id)
              && id in users
              && Protect(header, verify, users).user == WithoutPassword(id, users[id])
  {
  }

  /** A token that `sign` issued for a stored user, which `verify` accepts and
      which holds no space (JWTs never do), authorizes that user and no other:
      this is what a signup or login reply's token does on a protected route. */
  lemma SignedTokenAuthorizes(sign: Id -> string, verify: string -> Option<Id>, users: map<Id, User>, id: Id)
    requires verify(sign(id)) == Some(id) && ' ' !in sign(id)
    ensures Protect(Some(BearerPrefix + sign(id)), verify, users) ==
              if id in users then Next(WithoutPassword(id, users[id])) else Reject(401, UserNotFound)
  {
    BearerTokenOf(sign(id));
  }

  /** The password hash never reaches the attached user: users that differ
      only in it are attached the same way. */
  lemma PasswordNeverAttached(id: Id, user: User, p: PasswordHash)
    ensures WithoutPassword(id, user.(password := p)) == WithoutPassword(id, user)
  {
  }

  /** The guard's outcome does not depend on any stored password hash. */
  lemma ProtectIgnoresPasswords(header: Option<string>, verify: string -> Option<Id>, users: map<Id, User>, id: Id, p: PasswordHash)
    requires id in users
    ensures Protect(header, verify, users[id := users[id].(password := p)]) == Protect(header, verify, users)
  {
  }

  /** A token passed without the "Bearer " prefix (a bare token) is refused as missing. */
  lemma BareTokenRefused(token: string, verify: string -> Option<Id>, users: map<Id, User>)
    requires ' ' !in token
    ensures Protect(Some(token), verify, users) == Reject(401, TokenMissing)
  {
    assert BearerPrefix[6] == ' ';
  }
}
