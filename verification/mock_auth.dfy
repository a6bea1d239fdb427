/**
 The second, self-contained authentication context of `lib/auth-context.tsx`:
 input validation, one hard-coded credential, a fixed one-time code and a
 session that lapses one hour after it was stored. Browser storage is the two
 entries `auth_user` and `auth_user_expires`; the clock is a parameter.
 */
module MockAuth {
  import opened Optional
  import opened Text

  datatype User = User(id: string, email: string, name: string, role: string, token: string)

  /** The two storage entries the context owns: the user (stored as JSON in
      the browser) and its expiry time rendered as a decimal string. */
  datatype Storage = Storage(user: Option<User>, expires: Option<string>)

  datatype MockState = MockState(
    user: Option<User>, loading: bool, error: Option<string>,
    pendingOtp: Option<string>, storage: Storage)

  datatype Reply = Ok | Err(error: string)

  /** One hour, in milliseconds. */
  const SessionTimeout: nat := 60 * 60 * 1000

  const RequiredMsg := "Email and password are required"
  const BadEmailMsg := "Please enter a valid email address"
  const BadCredentialsMsg := "Invalid email or password"
  const BadOtpFormatMsg := "Please enter a valid 6-digit OTP"
  const WrongOtpMsg := "Invalid OTP"

  const EmptyStorage := Storage(None, None)

  /** The state a page load starts from, before the stored user is examined. */
  function Initial(storage: Storage): MockState {
    MockState(None, true, None, None, storage)
  }

  // ---------------------------------------------------------------------------
  // Validation

  /** The regular expression `^[^\s@]+@[^\s@]+\.[^\s@]+$` read literally:
      a non-empty local part, `@` at `i`, a non-empty run, `.` at `j`, a
      non-empty tail, and no whitespace or `@` anywhere but at `i`. */
  ghost predicate EmailSplitAt(e: string, i: int, j: int) {
    && 1 <= i && i + 2 <= j && j + 2 <= |e|
    && e[i] == '@' && e[j] == '.'
    && forall k :: 0 <= k < |e| && k != i ==> !IsWhitespace(e[k]) && e[k] != '@'
  }

  ghost predicate MatchesEmailPattern(e: string) {
    exists i, j :: EmailSplitAt(e, i, j)
  }

  predicate NoWhitespace(s: string) {
    forall k :: 0 <= k < |s| ==> !IsWhitespace(s[k])
  }

  /** The executable check: a non-empty part before the only `@`, and a `.`
      in the part after it that is neither its first nor its last character. */
  predicate EmailShape(e: string) {
    match IndexOf(e, '@')
    case None => false
    case Some(i) =>
      var domain := e[i + 1..];
      0 < i && NoWhitespace(e) && '@' !in domain && 2 <= |domain| && '.' in domain[1..|domain| - 1]
  }

  /** `isValidEmail`: the pattern is matched against the lower-cased address. */
  predicate IsValidEmail(email: string) {
    EmailShape(ToLower(email))
  }

  /** `isPasswordValid`: at least eight characters. `login` never calls it. */
  predicate IsPasswordValid(password: string) {
    |password| >= 8
  }

  lemma EmailShapeIsPattern(e: string)
    ensures EmailShape(e) <==> MatchesEmailPattern(e)
  {
    if EmailShape(e) {
      var i := IndexOf(e, '@').value;
      var domain := e[i + 1..];
      var inner := domain[1..|domain| - 1];
      var m :| 0 <= m < |inner| && inner[m] == '.';
      var j := i + 2 + m;
      assert e[j] == '.';
      forall k | 0 <= k < |e| && k != i
        ensures !IsWhitespace(e[k]) && e[k] != '@'
      {
        if k < i {
          assert e[k] == e[..i][k];
        } else {
          assert e[k] == domain[k - i - 1];
        }
      }
      assert EmailSplitAt(e, i, j);
    }
    if MatchesEmailPattern(e) {
      var i, j :| EmailSplitAt(e, i, j);
      assert '@' in e;
      var r := IndexOf(e, '@');
      assert e[r.value] == '@';
      assert r.value == i;
      var domain := e[i + 1..];
      assert '@' !in domain by {
        forall k | 0 <= k < |domain| ensures domain[k] != '@' {
          assert domain[k] == e[i + 1 + k];
        }
      }
      assert domain[1..|domain| - 1][j - i - 2] == '.';
    }
  }

  /** The one address `login` accepts is well formed. */
  lemma AdminAddressIsValid()
    ensures IsValidEmail("admin@example.com")
  {
    var e := "admin@example.com";
    forall k | 0 <= k < |e|
      ensures 'a' <= e[k] <= 'z' || e[k] == '.' || e[k] == '@'
    {
    }
    assert EmailSplitAt(e, 5, 13);
    ValidEmailIffPattern(e);
  }

  /** Lower-casing leaves whitespace, `@` and `.` where they were, so it never
      changes whether an address is accepted. */
  lemma LowerCaseKeepsPattern(e: string)
    ensures MatchesEmailPattern(ToLower(e)) <==> MatchesEmailPattern(e)
  {
    var l := ToLower(e);
    if MatchesEmailPattern(e) {
      var i, j :| EmailSplitAt(e, i, j);
      assert EmailSplitAt(l, i, j);
    }
    if MatchesEmailPattern(l) {
      var i, j :| EmailSplitAt(l, i, j);
      forall k | 0 <= k < |e| && k != i
        ensures !IsWhitespace(e[k]) && e[k] != '@'
      {
        assert l[k] == LowerChar(e[k]);
      }
      assert EmailSplitAt(e, i, j);
    }
  }

  /** `isValidEmail` accepts exactly the addresses the pattern describes. */
  lemma ValidEmailIffPattern(email: string)
    ensures IsValidEmail(email) <==> MatchesEmailPattern(email)
  {
    EmailShapeIsPattern(ToLower(email));
    LowerCaseKeepsPattern(email);
  }

  // ---------------------------------------------------------------------------
  // Storage

  /** `safeLocalStorage.set`: the value, and an expiry one hour after `now`. */
  function Store(u: User, now: nat): (st: Storage)
    ensures st.user == Some(u)
    ensures st.expires.Some? && ParseInt(st.expires.value) == Some(now + SessionTimeout)
  {
    ParseIntOfNatToString(now + SessionTimeout);
    Storage(Some(u), Some(NatToString(now + SessionTimeout)))
  }

  /** `safeLocalStorage.isValid`: an expiry is stored, it parses, and `now`
      is strictly before it. */
  predicate IsValid(st: Storage, now: int) {
    st.expires.Some? && st.expires.value != [] &&
    match ParseInt(st.expires.value)
    case None => false
    case Some(expiry) => now < expiry
  }

  /** `safeLocalStorage.remove`: both entries go. */
  function Remove(st: Storage): (r: Storage)
    ensures r.user.None? && r.expires.None?
  {
    EmptyStorage
  }

  /** A stored session is valid exactly until one hour after it was stored. */
  lemma StoredSessionLasts(u: User, stored: nat, now: int)
    ensures IsValid(Store(u, stored), now) <==> now < stored + SessionTimeout
  {
  }

  // ---------------------------------------------------------------------------
  // Operations

  /** The mount effect: restore a stored user whose session is still valid,
      otherwise clear the storage; loading ends either way. */
  function LoadUser(s: MockState, now: int): (r: MockState)
    ensures !r.loading
    ensures r.error == s.error && r.pendingOtp == s.pendingOtp
    ensures s.storage.user.Some? && IsValid(s.storage, now) ==> r.user == s.storage.user && r.storage == s.storage
    ensures !(s.storage.user.Some? && IsValid(s.storage, now)) ==> r.storage == EmptyStorage && r.user == s.user
  {
    if s.storage.user.Some? && IsValid(s.storage, now) then
      s.(user := s.storage.user, loading := false)
    else
      s.(storage := Remove(s.storage), loading := false)
  }

  /** `login(email, password)`; `now` is the clock when the mock check runs. */
  function Login(s: MockState, email: string, password: string, now: nat): (r: (MockState, Reply))
    // empty fields are refused before anything else is looked at
    ensures (email == [] || password == []) ==> r == (s.(error := Some(RequiredMsg)), Err(RequiredMsg))
    // then the address shape
    ensures email != [] && password != [] && !MatchesEmailPattern(email) ==>
      r == (s.(error := Some(BadEmailMsg)), Err(BadEmailMsg))
    // then every other well-formed attempt gets the credentials message
    ensures (email != [] && password != [] && MatchesEmailPattern(email) &&
             !(email == "admin@example.com" && password == "password")) ==>
              r == (s.(error := Some(BadCredentialsMsg)), Err(BadCredentialsMsg))
    // exactly one credential succeeds
    ensures r.1 == Ok <==> email == "admin@example.com" && password == "password"
    ensures r.1 == Ok ==>
      r.0.user == Some(User("1", email, "Admin User", "admin", "mock-jwt-token-" + NatToString(now))) &&
      r.0.error.None? && r.0.storage == Store(r.0.user.value, now)
    // any other well-formed attempt fails and leaves the user alone
    ensures r.1 != Ok ==> r.0.user == s.user && r.0.storage == s.storage && r.0.error == Some(r.1.error)
    ensures r.0.pendingOtp == s.pendingOtp && r.0.loading == s.loading
  {
    ValidEmailIffPattern(email);
    AdminAddressIsValid();
    if email == [] || password == [] then
      (s.(error := Some(RequiredMsg)), Err(RequiredMsg))
    else if !IsValidEmail(email) then
      (s.(error := Some(BadEmailMsg)), Err(BadEmailMsg))
    else if email == "admin@example.com" && password == "password" then
      var u := User("1", email, "Admin User", "admin", "mock-jwt-token-" + NatToString(now));
      (s.(error := None, user := Some(u), storage := Store(u, now)), Ok)
    else
      (s.(error := Some(BadCredentialsMsg)), Err(BadCredentialsMsg))
  }

  /** `logout`: no user, both storage entries removed. */
  function Logout(s: MockState): (r: MockState)
    ensures r.user.None? && r.storage == EmptyStorage
    ensures r.error == s.error && r.pendingOtp == s.pendingOtp && r.loading == s.loading
  {
    s.(user := None, storage := Remove(s.storage))
  }

  /** `verifyOTP(otp)`: six characters, and only `123456` is accepted. */
  function VerifyOtp(s: MockState, otp: string): (r: (MockState, Reply))
    ensures |otp| != 6 ==> r == (s.(error := Some(BadOtpFormatMsg)), Err(BadOtpFormatMsg))
    ensures r.1 == Ok <==> otp == "123456"
    ensures r.1 == Ok ==> r.0 == s.(pendingOtp := None)
    ensures |otp| == 6 && otp != "123456" ==> r == (s.(error := Some(WrongOtpMsg)), Err(WrongOtpMsg))
    ensures r.0.user == s.user && r.0.storage == s.storage
  {
    if otp == [] || |otp| != 6 then
      (s.(error := Some(BadOtpFormatMsg)), Err(BadOtpFormatMsg))
    else if otp == "123456" then
      (s.(pendingOtp := None), Ok)
    else
      (s.(error := Some(WrongOtpMsg)), Err(WrongOtpMsg))
  }

  /** `clearError`. */
  function ClearError(s: MockState): (r: MockState)
    ensures r.error.None?
    ensures r.user == s.user && r.storage == s.storage && r.pendingOtp == s.pendingOtp
    ensures r.loading == s.loading
  {
    s.(error := None)
  }

  /** A refused sign-in only sets the error, so clearing it afterwards gives
      back the state from before the attempt. */
  lemma ClearErrorUndoesRefusedLogin(s: MockState, email: string, password: string, now: nat)
    requires s.error.None?
    requires Login(s, email, password, now).1 != Ok
    ensures ClearError(Login(s, email, password, now).0) == s
  {
  }

  /** `verifyOTP` never looks at who is signed in: after a refused sign-in
      the code "123456" is still accepted, and nobody is signed in. */
  lemma OtpAcceptedWithoutSignIn(s: MockState, email: string, password: string, now: nat)
    requires s.user.None?
    requires Login(s, email, password, now).1 != Ok
    ensures var v := VerifyOtp(Login(s, email, password, now).0, "123456");
      v.1 == Ok && v.0.user.None?
  {
  }

  // ---------------------------------------------------------------------------
  // Properties across calls

  /** `login` never consults password strength: two non-empty passwords that
      are both wrong get the same answer, however long either is. */
  lemma LoginIgnoresPasswordStrength(s: MockState, email: string, p1: string, p2: string, now: nat)
    requires p1 != [] && p2 != [] && p1 != "password" && p2 != "password"
    ensures Login(s, email, p1, now) == Login(s, email, p2, now)
  {
  }

  /** A short password with a well-formed address is refused for being wrong,
      not for being weak. */
  lemma ShortPasswordReachesCredentialCheck(s: MockState, now: nat)
    ensures !IsPasswordValid("pass")
    ensures Login(s, "admin@example.com", "pass", now).1 == Err(BadCredentialsMsg)
  {
    AdminAddressIsValid();
  }

  /** After signing in at `t`, a reload at `now` restores the user exactly
      when less than an hour has passed; otherwise it starts signed out with
      empty storage. */
  lemma SessionSurvivesReload(s: MockState, t: nat, now: int)
    ensures var (s1, reply) := Login(s, "admin@example.com", "password", t);
      var s2 := LoadUser(Initial(s1.storage), now);
      reply == Ok &&
      (s2.user == s1.user <==> now < t + SessionTimeout) &&
      (now >= t + SessionTimeout ==> s2.user.None? && s2.storage == EmptyStorage)
  {
    var (s1, reply) := Login(s, "admin@example.com", "password", t);
    StoredSessionLasts(s1.user.value, t, now);
  }

  /** After logging out, a reload finds no user. */
  lemma LogoutSurvivesReload(s: MockState, now: int)
    ensures LoadUser(Initial(Logout(s).storage), now).user.None?
  {
  }
}
