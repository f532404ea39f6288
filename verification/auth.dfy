/**
 * The session guard, login, signup validation and profile lookup of the server. Password hashing
 * and token signing are parameters: `matches(password, hash)` stands for the hash comparison,
 * `sign` and `verify` for token issue and verification.
 */
module Auth {

  import opened Common
  import opened Schema

  /** `String.prototype.split` on a one-character separator. */
  function Split(s: string, sep: char): (parts: seq<string>)
    ensures |parts| >= 1
    ensures forall i :: 0 <= i < |parts| ==> sep !in parts[i]
    ensures Join(parts, sep) == s
  {
    if s == [] then [""]
    else
      var rest := Split(s[1..], sep);
      if s[0] == sep then
        assert ([""] + rest)[1..] == rest;
        [""] + rest
      else
        var parts := [[s[0]] + rest[0]] + rest[1..];
        assert parts[1..] == rest[1..];
        assert Join(parts, sep) == [s[0]] + Join(rest, sep);
        parts
  }

  /** The parts, with the separator between consecutive ones. */
  function Join(parts: seq<string>, sep: char): string
    requires |parts| >= 1
  {
    if |parts| == 1 then parts[0] else parts[0] + [sep] + Join(parts[1..], sep)
  }

  /** Parts free of the separator are determined by their joined string. */
  lemma {:induction false} JoinInjective(p: seq<string>, q: seq<string>, sep: char)
    requires |p| >= 1 && |q| >= 1
    requires forall i :: 0 <= i < |p| ==> sep !in p[i]
    requires forall i :: 0 <= i < |q| ==> sep !in q[i]
    requires Join(p, sep) == Join(q, sep)
    ensures p == q
  {
    var s := Join(p, sep);
    FirstPartBeforeSeparator(p, sep);
    FirstPartBeforeSeparator(q, sep);
    assert p[0] == q[0];
    if |p| > 1 && |q| > 1 {
      var k := |p[0]|;
      assert s[k + 1..] == Join(p[1..], sep) == Join(q[1..], sep);
      JoinInjective(p[1..], q[1..], sep);
      assert p == [p[0]] + p[1..] && q == [q[0]] + q[1..];
    }
  }

  /** The first part is the text up to the first separator. */
  lemma FirstPartBeforeSeparator(p: seq<string>, sep: char)
    requires |p| >= 1
    requires sep !in p[0]
    ensures |p[0]| <= |Join(p, sep)| && Join(p, sep)[..|p[0]|] == p[0]
    ensures |p| > 1 <==> |p[0]| < |Join(p, sep)|
    ensures |p| > 1 ==> Join(p, sep)[|p[0]|] == sep && Join(p, sep)[|p[0]| + 1..] == Join(p[1..], sep)
  {
  }

  /** The second space-separated field of the `Authorization` header, if it is non-empty. */
  function BearerToken(header: Option<string>): (token: Option<string>)
    ensures token.Some? <==> header.Some? && |Split(header.value, ' ')| >= 2 && Split(header.value, ' ')[1] != ""
    ensures token.Some? ==> token.value == Split(header.value, ' ')[1]
    ensures token.Some? ==> token.value != "" && ' ' !in token.value
  {
    match header
    case None => None
    case Some(h) =>
      var parts := Split(h, ' ');
      if |parts| < 2 || parts[1] == "" then None else Some(parts[1])
  }

  /** A header without a space carries no token. */
  lemma NoSpaceNoToken(h: string)
    requires ' ' !in h
    ensures BearerToken(Some(h)) == None
  {
    var parts := Split(h, ' ');
    FirstPartBeforeSeparator(parts, ' ');
  }

  /** The header a client builds, `Bearer <token>`, yields the token back. */
  lemma BearerRoundTrip(token: string)
    requires token != "" && ' ' !in token
    ensures BearerToken(Some("Bearer " + token)) == Some(token)
  {
    var h := "Bearer " + token;
    var expected := ["Bearer", token];
    assert Join(expected, ' ') == h;
    assert forall i :: 0 <= i < |expected| ==> ' ' !in expected[i];
    JoinInjective(Split(h, ' '), expected, ' ');
  }

  /** Missing token: 401, before any verification. Failed verification: 400. */
  datatype AuthResult = NoToken | InvalidToken | Authorized(claims: Claims)

  /** `authenticateToken`: the guard in front of every protected route. */
  function Authenticate(header: Option<string>, verify: string -> Option<Claims>): (r: AuthResult)
    ensures r == NoToken <==> BearerToken(header) == None
    ensures r.Authorized? ==> verify(BearerToken(header).value) == Some(r.claims)
    ensures r == InvalidToken ==> verify(BearerToken(header).value) == None
  {
    match BearerToken(header)
    case None => NoToken
    case Some(token) =>
      match verify(token)
      case None => InvalidToken
      case Some(claims) => Authorized(claims)
  }

  /** A token the server issued, sent as `Bearer <token>`, authenticates its user. */
  lemma IssuedTokenAuthenticates(userId: string, sign: Claims -> string, verify: string -> Option<Claims>)
    requires forall c :: verify(sign(c)) == Some(c)
    requires sign(Claims(userId)) != "" && ' ' !in sign(Claims(userId))
    ensures Authenticate(Some("Bearer " + sign(Claims(userId))), verify) == Authorized(Claims(userId))
  {
    BearerRoundTrip(sign(Claims(userId)));
  }

  /** Emails identify users. */
  ghost predicate EmailsUnique(users: seq<User>)
  {
    forall i, j :: 0 <= i < j < |users| ==> users[i].email != users[j].email
  }

  /** `User.findOne({ email })`: the first user with the email, if any. */
  function FindByEmail(users: seq<User>, email: string): (r: Option<nat>)
    ensures r.Some? ==> r.value < |users| && users[r.value].email == email
    ensures r.Some? ==> forall j :: 0 <= j < r.value ==> users[j].email != email
    ensures r.None? <==> forall j :: 0 <= j < |users| ==> users[j].email != email
  {
    FirstIndex(users, (u: User) => u.email == email)
  }

  datatype LoginResult = LoginOk(token: string, userId: string) | MissingCredentials | UserNotFound | InvalidPassword

  /** The login route: present credentials, a known email, a matching password; then a token for that user. */
  function Login(users: seq<User>, email: Option<string>, password: Option<string>,
                 matches: (string, string) -> bool, sign: Claims -> string): (r: LoginResult)
    ensures r == MissingCredentials <==> !Truthy(email) || !Truthy(password)
    ensures r == UserNotFound <==>
      Truthy(email) && Truthy(password) && forall i :: 0 <= i < |users| ==> users[i].email != email.value
    ensures r.LoginOk? ==>
      (exists i :: 0 <= i < |users| && users[i].email == email.value
         && matches(password.value, users[i].passwordHash)
         && r.userId == users[i].id && r.token == sign(Claims(users[i].id)))
  {
    if !Truthy(email) || !Truthy(password) then MissingCredentials
    else match FindByEmail(users, email.value)
      case None => UserNotFound
      case Some(i) =>
        if !matches(password.value, users[i].passwordHash) then InvalidPassword
        else LoginOk(sign(Claims(users[i].id)), users[i].id)
  }

  /** With unique emails, login succeeds exactly for the right password of the one account with that email. */
  lemma LoginSucceedsIffPasswordMatches(users: seq<User>, i: nat, password: string,
                                        matches: (string, string) -> bool, sign: Claims -> string)
    requires EmailsUnique(users) && i < |users| && users[i].email != "" && password != ""
    ensures Login(users, Some(users[i].email), Some(password), matches, sign).LoginOk?
        <==> matches(password, users[i].passwordHash)
    ensures Login(users, Some(users[i].email), Some(password), matches, sign).LoginOk? ==>
        Login(users, Some(users[i].email), Some(password), matches, sign)
          == LoginOk(sign(Claims(users[i].id)), users[i].id)
  {
    var k := FindByEmail(users, users[i].email);
    assert k.Some?;
    assert k.value == i;
  }

  /** What the signup route decides before writing anything. */
  datatype SignupCheck = SignupAllowed | FieldsRequired | UserExists

  function CheckSignup(users: seq<User>, name: Option<string>, email: Option<string>, password: Option<string>): (r: SignupCheck)
    ensures r == FieldsRequired <==> !Truthy(name) || !Truthy(email) || !Truthy(password)
    ensures r == SignupAllowed ==> forall i :: 0 <= i < |users| ==> users[i].email != email.value
    ensures r == UserExists ==> exists i :: 0 <= i < |users| && users[i].email == email.value
  {
    if !Truthy(name) || !Truthy(email) || !Truthy(password) then FieldsRequired
    else if FindByEmail(users, email.value).Some? then UserExists
    else SignupAllowed
  }

  /** An allowed signup keeps emails unique. */
  lemma AllowedSignupKeepsEmailsUnique(users: seq<User>, name: Option<string>, email: Option<string>,
                                       password: Option<string>, u: User)
    requires EmailsUnique(users)
    requires CheckSignup(users, name, email, password) == SignupAllowed && u.email == email.value
    ensures EmailsUnique(users + [u])
  {
  }

  /**
   * A freshly signed-up user can log in with the password it signed up with, given only that the
   * hash comparison accepts every password against a hash made from it.
   */
  lemma SignupThenLogin(users: seq<User>, id: string, name: string, email: string, password: string, salt: string,
                        hash: (string, string) -> string, matches: (string, string) -> bool, sign: Claims -> string)
    requires forall p, s :: matches(p, hash(p, s))
    requires CheckSignup(users, Some(name), Some(email), Some(password)) == SignupAllowed
    ensures Login(users + [User(id, name, email, hash(password, salt))], Some(email), Some(password), matches, sign)
      == LoginOk(sign(Claims(id)), id)
  {
    var all := users + [User(id, name, email, hash(password, salt))];
    var k := FindByEmail(all, email);
    assert all[|users|].email == email;
    assert k == Some(|users|);
  }

  datatype ProfileResult = ProfileNotFound | Profile(name: string, email: string)

  /** The profile route: the caller's name and email, never the password hash. */
  function GetProfile(users: seq<User>, caller: Claims): (r: ProfileResult)
    ensures r == ProfileNotFound <==> forall i :: 0 <= i < |users| ==> users[i].id != caller.userId
    ensures r.Profile? ==>
      (exists i :: 0 <= i < |users| && users[i].id == caller.userId
         && r.name == users[i].name && r.email == users[i].email)
  {
    match FirstIndex(users, (u: User) => u.id == caller.userId)
    case None => ProfileNotFound
    case Some(i) => Profile(users[i].name, users[i].email)
  }
}
