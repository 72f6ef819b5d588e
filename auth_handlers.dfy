/** Registration and login (src/handlers/auth.rs) over the `users` table, whose
    `email` column is UNIQUE. Password hashing, password checking and token minting
    are parameters; each may fail, which the handlers turn into a 500. */
module AuthHandlers {
  import opened Common
  import opened UserModel

  /** The foreign calls: bcrypt `hash`, bcrypt `verify` and `create_jwt`. */
  datatype Crypto = Crypto(hash: string -> Option<string>,
                           verify: (string, string) -> Option<bool>,
                           createJwt: string -> Option<string>)

  /** bcrypt's promise: a password checks against any hash made from it. */
  ghost predicate HashChecks(crypto: Crypto) {
    forall p :: crypto.hash(p).Some? ==> crypto.verify(p, crypto.hash(p).value) == Some(true)
  }

  const BadCredentials := "Invalid email or password"

  // ---------------------------------------------------------------------------
  // The combined sign-in request

  datatype SigninRequest = SigninRequest(name: Option<string>, email: string, password: string)

  /** `to_create_user_request`: a missing name becomes "User"; email and password are copied. */
  function ToCreateUserRequest(s: SigninRequest): (c: CreateUserRequest)
    ensures c.name == (if s.name.Some? then s.name.value else "User")
    ensures c.email == s.email && c.password == s.password
  {
    CreateUserRequest(s.name.GetOr("User"), s.email, s.password)
  }

  /** `to_login_request`: email and password copied unchanged. */
  function ToLoginRequest(s: SigninRequest): (l: LoginRequest)
    ensures l.email == s.email && l.password == s.password
  {
    LoginRequest(s.email, s.password)
  }

  /** Both conversions keep the credentials, so they agree on what they authenticate. */
  lemma ConversionsAgree(s: SigninRequest)
    ensures ToCreateUserRequest(s).email == ToLoginRequest(s).email
    ensures ToCreateUserRequest(s).password == ToLoginRequest(s).password
    ensures s.name.Some? ==> ToCreateUserRequest(s).name == s.name.value
  {
  }

  // ---------------------------------------------------------------------------
  // Email normalisation: `trim()` then `to_lowercase()`

  /** Rust's `char::is_whitespace`: the Unicode White_Space characters. */
  predicate IsWhitespace(c: char) {
    ('\t' <= c <= '\r') || c == ' ' || c == '\U{85}' || c == '\U{A0}' || c == '\U{1680}' ||
    ('\U{2000}' <= c <= '\U{200A}') || c == '\U{2028}' || c == '\U{2029}' || c == '\U{202F}' ||
    c == '\U{205F}' || c == '\U{3000}'
  }

  /** `str::trim_start`: drops the leading whitespace and nothing else. */
  function TrimStart(s: string): (r: string)
    ensures |r| <= |s| && r == s[|s| - |r|..]
    ensures forall i :: 0 <= i < |s| - |r| ==> IsWhitespace(s[i])
    ensures r == [] || !IsWhitespace(r[0])
  {
    if |s| > 0 && IsWhitespace(s[0]) then TrimStart(s[1..]) else s
  }

  /** `str::trim_end`: drops the trailing whitespace and nothing else. */
  function TrimEnd(s: string): (r: string)
    ensures |r| <= |s| && r == s[..|r|]
    ensures forall i :: |r| <= i < |s| ==> IsWhitespace(s[i])
    ensures r == [] || !IsWhitespace(r[|r| - 1])
    ensures |s| > 0 && !IsWhitespace(s[0]) ==> r != [] && r[0] == s[0]
  {
    if |s| > 0 && IsWhitespace(s[|s| - 1]) then TrimEnd(s[..|s| - 1]) else s
  }

  /** Taking a suffix `t` of `s` and then a prefix `r` of `t` keeps the part of `s` that
      starts where `t` does; whatever `t` had after `r` is what `s` has after it. */
  lemma SuffixThenPrefix(s: string, t: string, r: string)
    requires |t| <= |s| && t == s[|s| - |t|..]
    requires |r| <= |t| && r == t[..|r|]
    requires forall i :: |r| <= i < |t| ==> IsWhitespace(t[i])
    ensures var k := |s| - |t|;
            k + |r| <= |s| && r == s[k..k + |r|] && forall i :: k + |r| <= i < |s| ==> IsWhitespace(s[i])
  {
    var k := |s| - |t|;
    forall i | k + |r| <= i < |s|
      ensures IsWhitespace(s[i])
    {
      assert s[i] == t[i - k];
    }
  }

  /** `str::trim`: the longest middle part with no whitespace at either end; what it
      drops in front (the first `|s| - |TrimStart(s)|` characters) and behind is whitespace. */
  function Trim(s: string): (r: string)
    ensures var k := |s| - |TrimStart(s)|;
            k + |r| <= |s| && r == s[k..k + |r|] &&
            (forall i :: 0 <= i < k ==> IsWhitespace(s[i])) &&
            (forall i :: k + |r| <= i < |s| ==> IsWhitespace(s[i]))
    ensures r == [] || (!IsWhitespace(r[0]) && !IsWhitespace(r[|r| - 1]))
  {
    var t := TrimStart(s);
    var r := TrimEnd(t);
    SuffixThenPrefix(s, t, r);
    r
  }

  /** A string with no whitespace at either end is its own trim. */
  lemma TrimmedIsFixed(t: string)
    requires t == [] || (!IsWhitespace(t[0]) && !IsWhitespace(t[|t| - 1]))
    ensures Trim(t) == t
  {
  }

  /** The email signin looks up and stores: no whitespace at either end, no ASCII capital. */
  function NormaliseEmail(e: string): (n: string)
    ensures |n| <= |e|
    ensures forall i :: 0 <= i < |n| ==> !('A' <= n[i] <= 'Z')
  {
    LowerAscii(Trim(e))
  }

  /** Lower-casing never makes or unmakes whitespace, and lower-cased text stays put. */
  lemma LowerKeepsWhitespace(c: char)
    ensures IsWhitespace(LowerChar(c)) <==> IsWhitespace(c)
    ensures LowerChar(LowerChar(c)) == LowerChar(c)
  {
  }

  /** Normalising twice is normalising once, so a stored signin email is found again
      under itself. */
  lemma NormaliseIdempotent(e: string)
    ensures NormaliseEmail(NormaliseEmail(e)) == NormaliseEmail(e)
  {
    var t := Trim(e);
    var l := LowerAscii(t);
    if l != [] {
      LowerKeepsWhitespace(t[0]);
      LowerKeepsWhitespace(t[|t| - 1]);
    }
    TrimmedIsFixed(l);
    assert LowerAscii(l) == l by {
      forall i | 0 <= i < |l|
        ensures LowerAscii(l)[i] == l[i]
      {
        LowerKeepsWhitespace(t[i]);
      }
    }
  }

  // ---------------------------------------------------------------------------
  // The users table

  /** The `users` table. Since `email` is UNIQUE and every statement finds users by
      email, the table is kept as a map from email to user. */
  class UserTable {
    var users: map<string, User>

    ghost predicate Valid()
      reads this
    {
      forall e :: e in users ==> users[e].email == e
    }

    constructor ()
      ensures Valid() && users == map[]
    {
      users := map[];
    }

    /** Some stored user already has this id (the primary key). */
    predicate IdTaken(id: string)
      reads this
    {
      exists e :: e in users && users[e].id == id
    }

    /** `login`: reads the user stored under exactly the given email and checks the
        password; an unknown email and a wrong password give the same 401. */
    function Login(payload: LoginRequest, dbError: bool, crypto: Crypto): (r: Reply<AuthResponse>)
      requires Valid()
      reads this
      ensures dbError ==> r == Err(Internal, "Database error")
      ensures !dbError && payload.email !in users ==> r == Err(Unauthorized, BadCredentials)
      ensures r.Ok? <==> !dbError && payload.email in users &&
                         crypto.verify(payload.password, users[payload.email].passwordHash) == Some(true) &&
                         crypto.createJwt(users[payload.email].id).Some?
      ensures r.Ok? ==> r.body.user == ToResponse(users[payload.email]) &&
                        r.body.token == crypto.createJwt(users[payload.email].id).value &&
                        r.body.user.email == payload.email
    {
      if dbError then Err(Internal, "Database error")
      else if payload.email !in users then Err(Unauthorized, BadCredentials)
      else
        var user := users[payload.email];
        match crypto.verify(payload.password, user.passwordHash)
        case None => Err(Internal, "Failed to verify password")
        case Some(valid) =>
          if !valid then Err(Unauthorized, BadCredentials)
          else
            match crypto.createJwt(user.id)
            case None => Err(Internal, "Failed to create token")
            case Some(token) => Ok(AuthResponse(token, ToResponse(user)))
    }

    /** `signup`: registers a new email exactly as given. A taken email is a 409 and
        inserts nothing; a failed hash or insert stores nothing, and once the row is written
        it stays, even if no token can be made. */
    method Signup(payload: CreateUserRequest, freshId: string, now: Time, dbError: bool, insertError: bool,
                  crypto: Crypto) returns (r: Reply<AuthResponse>)
      requires Valid()
      modifies this
      ensures Valid()
      ensures dbError ==> r == Err(Internal, "Database error") && users == old(users)
      ensures !dbError && payload.email in old(users) ==>
              r == Err(Conflict, "User with this email already exists") && users == old(users)
      ensures users == old(users) || (payload.email !in old(users) &&
              crypto.hash(payload.password).Some? &&
              users == old(users)[payload.email := NewUser(payload.name, payload.email,
                                                           crypto.hash(payload.password).value, freshId, now)])
      ensures r.Ok? ==> payload.email !in old(users) && payload.email in users &&
                        r.body.user == ToResponse(users[payload.email]) &&
                        crypto.createJwt(freshId).Some? && r.body.token == crypto.createJwt(freshId).value && users[payload.email].id == freshId
      ensures r.Ok? && HashChecks(crypto) ==> Login(LoginRequest(payload.email, payload.password), false, crypto).Ok?
      ensures !dbError && payload.email !in old(users) ==>
              var hashed := crypto.hash(payload.password);
              if hashed.None? then
                r == Err(Internal, "Failed to hash password") && users == old(users)
              else if insertError || old(IdTaken(freshId)) then
                r == Err(Internal, "Failed to create user") && users == old(users)
              else
                users == old(users)[payload.email := NewUser(payload.name, payload.email, hashed.value, freshId, now)] &&
                if crypto.createJwt(freshId).None? then r == Err(Internal, "Failed to create token")
                else r == Ok(AuthResponse(crypto.createJwt(freshId).value, ToResponse(users[payload.email])))
    {
      if dbError {
        return Err(Internal, "Database error");
      }
      if payload.email in users {
        return Err(Conflict, "User with this email already exists");
      }
      var hashed := crypto.hash(payload.password);
      if hashed.None? {
        return Err(Internal, "Failed to hash password");
      }
      var user := NewUser(payload.name, payload.email, hashed.value, freshId, now);
      if insertError || IdTaken(user.id) {
        return Err(Internal, "Failed to create user");
      }
      users := users[user.email := user];
      var token := crypto.createJwt(user.id);
      if token.None? {
        return Err(Internal, "Failed to create token");
      }
      r := Ok(AuthResponse(token.value, ToResponse(user)));
    }

    /** `signin`: looks the normalised email up; a known user is logged in exactly as
        `login` would with that email, and an unknown one is registered under it when a
        name is given (400 and nothing stored when not). */
    method Signin(payload: SigninRequest, freshId: string, now: Time, dbError: bool, insertError: bool,
                  crypto: Crypto) returns (r: Reply<AuthResponse>)
      requires Valid()
      modifies this
      ensures Valid()
      ensures var email := NormaliseEmail(payload.email);
              dbError || email in old(users) ==>
                r == old(Login(LoginRequest(email, payload.password), dbError, crypto)) && users == old(users)
      ensures var email := NormaliseEmail(payload.email);
              !dbError && email !in old(users) && payload.name.None? ==>
                r == Err(BadRequest, "Name is required for new user registration") && users == old(users)
      ensures var email := NormaliseEmail(payload.email);
              users == old(users) || (!dbError && email !in old(users) && payload.name.Some? &&
              crypto.hash(payload.password).Some? &&
              users == old(users)[email := NewUser(payload.name.value, email,
                                                   crypto.hash(payload.password).value, freshId, now)])
      ensures r.Ok? && users != old(users) ==>
              var email := NormaliseEmail(payload.email);
              r.body.user == ToResponse(users[email]) && crypto.createJwt(freshId).Some? && r.body.token == crypto.createJwt(freshId).value
      ensures var email := NormaliseEmail(payload.email);
              r.Ok? && !dbError && email !in old(users) ==>
                payload.name.Some? && crypto.hash(payload.password).Some? &&
                users == old(users)[email := NewUser(payload.name.value, email,
                                                     crypto.hash(payload.password).value, freshId, now)] &&
                crypto.createJwt(freshId).Some? &&
                r.body == AuthResponse(crypto.createJwt(freshId).value, ToResponse(users[email]))
      ensures r.Ok? && users != old(users) && HashChecks(crypto) ==>
              Login(LoginRequest(NormaliseEmail(payload.email), payload.password), false, crypto).Ok?
      ensures var email := NormaliseEmail(payload.email);
              !dbError && email !in old(users) && payload.name.Some? ==>
                var hashed := crypto.hash(payload.password);
                if hashed.None? then
                  r == Err(Internal, "Failed to hash password") && users == old(users)
                else if insertError || old(IdTaken(freshId)) then
                  r == Err(Internal, "Failed to create user") && users == old(users)
                else
                  users == old(users)[email := NewUser(payload.name.value, email, hashed.value, freshId, now)] &&
                  if crypto.createJwt(freshId).None? then r == Err(Internal, "Failed to create token")
                  else r == Ok(AuthResponse(crypto.createJwt(freshId).value, ToResponse(users[email])))
    {
      var email := NormaliseEmail(payload.email);
      if dbError || email in users {
        r := Login(LoginRequest(email, payload.password), dbError, crypto);
        return;
      }
      if payload.name.None? {
        return Err(BadRequest, "Name is required for new user registration");
      }
      var hashed := crypto.hash(payload.password);
      if hashed.None? {
        return Err(Internal, "Failed to hash password");
      }
      var user := NewUser(payload.name.value, email, hashed.value, freshId, now);
      if insertError || IdTaken(user.id) {
        return Err(Internal, "Failed to create user");
      }
      users := users[email := user];
      var token := crypto.createJwt(user.id);
      if token.None? {
        return Err(Internal, "Failed to create token");
      }
      r := Ok(AuthResponse(token.value, ToResponse(user)));
    }
  }

  /** An unknown email and a wrong password are indistinguishable to the caller. */
  lemma LoginFailuresIndistinguishable(t: UserTable, unknown: LoginRequest, wrong: LoginRequest, crypto: Crypto)
    requires t.Valid()
    requires unknown.email !in t.users
    requires wrong.email in t.users && crypto.verify(wrong.password, t.users[wrong.email].passwordHash) == Some(false)
    ensures t.Login(unknown, false, crypto) == t.Login(wrong, false, crypto) == Err(Unauthorized, BadCredentials)
  {
  }
}
