/**
 The step-up login of `lib/auth-context.js`: a credential check against the
 built-in accounts, then, for administrators only, a one-time code that must
 be entered within five minutes. The React state `(user, pendingOTP)` is the
 record `AuthState`; the clock (`Date.now()`) and the random draw behind the
 code (`Math.random()`) are parameters.
 */
module StepUpAuth {
  import opened Optional
  import opened Text

  /** A row of the built-in account table, password included. */
  datatype Account = Account(id: string, email: string, password: string, role: string, name: string)

  /** The signed-in user: an account without its password. */
  datatype SessionUser = SessionUser(id: string, email: string, role: string, name: string)

  /** An issued one-time code, the account it unlocks and when it lapses (ms). */
  datatype Challenge = Challenge(otp: string, user: Account, expiresAt: int)

  datatype AuthState = AuthState(user: Option<SessionUser>, pending: Option<Challenge>)

  /** What `requestOTP` (and `login`, which forwards to it) answers. */
  datatype LoginReply =
    | InvalidCredentials
    | OtpRequired(otp: string, message: string)
    | SignedIn
  {
    predicate Success() { !InvalidCredentials? }
    predicate RequiresOtp() { OtpRequired? }
  }

  /** What `verifyOTP` answers. */
  datatype VerifyReply = Verified | NoPendingOtp | OtpExpired | WrongOtp
  {
    function ErrorText(): string
      requires !Verified?
    {
      match this
      case NoPendingOtp => "No pending OTP verification"
      case OtpExpired => "OTP expired. Please request a new one."
      case WrongOtp => "Invalid OTP. Please try again."
    }
  }

  const Users: seq<Account> := [
    Account("1", "admin@campus.edu", "admin123", "admin", "Dr. Sarah Johnson"),
    Account("2", "student@campus.edu", "student123", "student", "Alex Morgan")
  ]

  /** Five minutes, in milliseconds. */
  const OtpLifetime: int := 5 * 60 * 1000

  const SignedOut := AuthState(None, None)

  predicate Matches(a: Account, email: string, password: string) {
    a.email == email && a.password == password
  }

  /** `users.find(...)`: the index of the first account whose email and
      password both match exactly. */
  function FindAccount(users: seq<Account>, email: string, password: string): (r: Option<nat>)
    ensures r.None? <==> forall i :: 0 <= i < |users| ==> !Matches(users[i], email, password)
    ensures r.Some? ==> r.value < |users| && Matches(users[r.value], email, password)
    ensures r.Some? ==> forall j :: 0 <= j < r.value ==> !Matches(users[j], email, password)
    decreases |users|
  {
    if users == [] then None
    else if Matches(users[0], email, password) then Some(0)
    else match FindAccount(users[1..], email, password)
      case None => None
      case Some(k) => Some(k + 1)
  }

  /** The user record stored on sign-in: everything but the password. */
  function SessionOf(a: Account): (u: SessionUser)
    ensures u.id == a.id && u.email == a.email && u.role == a.role && u.name == a.name
  {
    SessionUser(a.id, a.email, a.role, a.name)
  }

  /** `generateOTP`: `floor(100000 + Math.random() * 900000)` rendered in
      decimal. `draw` is `floor(Math.random() * 900000)`, which the random
      source keeps below 900000. */
  function GenerateOtp(draw: nat): (otp: string)
    requires draw < 900000
    ensures |otp| == 6 && AllDigits(otp) && otp[0] != '0'
    ensures DigitsValue(otp) == 100000 + draw
  {
    SixDigitBounds();
    NatToStringLength(100000 + draw, 6);
    NatToStringRoundTrip(100000 + draw);
    NatToString(100000 + draw)
  }

  /** `requestOTP(email, password)` at time `now`. */
  function RequestOtp(s: AuthState, email: string, password: string, now: int, draw: nat): (r: (AuthState, LoginReply))
    requires draw < 900000
    // no account matches: refused, nothing changes
    ensures r.1.InvalidCredentials? <==> forall i :: 0 <= i < |Users| ==> !Matches(Users[i], email, password)
    ensures r.1.InvalidCredentials? ==> r.0 == s
    // an administrator gets a challenge and no session yet
    ensures r.1.OtpRequired? ==>
      exists i :: 0 <= i < |Users| && Matches(Users[i], email, password) && Users[i].role == "admin" &&
        r.0 == s.(pending := Some(Challenge(r.1.otp, Users[i], now + OtpLifetime))) &&
        r.1.message == "OTP sent to " + email
    ensures r.1.OtpRequired? ==> |r.1.otp| == 6 && AllDigits(r.1.otp) && r.1.otp[0] != '0'
    // anyone else is signed in at once; a pending challenge is left alone
    ensures r.1.SignedIn? ==>
      exists i :: 0 <= i < |Users| && Matches(Users[i], email, password) && Users[i].role != "admin" &&
        r.0 == s.(user := Some(SessionOf(Users[i])))
  {
    match FindAccount(Users, email, password)
    case None => (s, InvalidCredentials)
    case Some(i) =>
      var found := Users[i];
      if found.role == "admin" then
        var otp := GenerateOtp(draw);
        (s.(pending := Some(Challenge(otp, found, now + OtpLifetime))), OtpRequired(otp, "OTP sent to " + email))
      else
        (s.(user := Some(SessionOf(found))), SignedIn)
  }

  /** `login` forwards to `requestOTP` unchanged. */
  function Login(s: AuthState, email: string, password: string, now: int, draw: nat): (r: (AuthState, LoginReply))
    requires draw < 900000
    ensures r == RequestOtp(s, email, password, now, draw)
  {
    RequestOtp(s, email, password, now, draw)
  }

  /** `verifyOTP(otp)` at time `now`: pending check, then expiry, then the code. */
  function VerifyOtp(s: AuthState, otp: string, now: int): (r: (AuthState, VerifyReply))
    ensures s.pending.None? ==> r == (s, NoPendingOtp)
    ensures r.1.OtpExpired? <==> s.pending.Some? && now > s.pending.value.expiresAt
    ensures r.1.OtpExpired? ==> r.0 == s.(pending := None)
    ensures r.1.WrongOtp? <==>
      s.pending.Some? && now <= s.pending.value.expiresAt && otp != s.pending.value.otp
    ensures r.1.WrongOtp? ==> r.0 == s
    ensures r.1.Verified? <==>
      s.pending.Some? && now <= s.pending.value.expiresAt && otp == s.pending.value.otp
    ensures r.1.Verified? ==> r.0 == AuthState(Some(SessionOf(s.pending.value.user)), None)
  {
    match s.pending
    case None => (s, NoPendingOtp)
    case Some(c) =>
      if now > c.expiresAt then (s.(pending := None), OtpExpired)
      else if otp != c.otp then (s, WrongOtp)
      else (AuthState(Some(SessionOf(c.user)), None), Verified)
  }

  /** `logout`: the session goes; a pending challenge stays where it was. */
  function Logout(s: AuthState): (r: AuthState)
    ensures r.user.None?
    ensures r.pending == s.pending
  {
    s.(user := None)
  }

  // ---------------------------------------------------------------------------
  // Properties across calls

  /** The administrator's credentials always raise a challenge, never a session. */
  lemma AdminNeedsChallenge(s: AuthState, now: int, draw: nat)
    requires draw < 900000
    ensures RequestOtp(s, "admin@campus.edu", "admin123", now, draw).1.OtpRequired?
    ensures RequestOtp(s, "admin@campus.edu", "admin123", now, draw).0.user == s.user
  {
    assert Matches(Users[0], "admin@campus.edu", "admin123");
  }

  /** The student's credentials sign in directly. */
  lemma StudentSignsInDirectly(s: AuthState, now: int, draw: nat)
    requires draw < 900000
    ensures RequestOtp(s, "student@campus.edu", "student123", now, draw).1 == SignedIn
    ensures RequestOtp(s, "student@campus.edu", "student123", now, draw).0 ==
      AuthState(Some(SessionUser("2", "student@campus.edu", "student", "Alex Morgan")), s.pending)
  {
    assert !Matches(Users[0], "student@campus.edu", "student123");
    assert Matches(Users[1], "student@campus.edu", "student123");
  }

  /** Expiry is strict: the code is still good at the very millisecond the
      challenge lapses, and refused (and the challenge dropped) one later. */
  lemma ExpiryIsStrict(s: AuthState, email: string, password: string, t: int, draw: nat)
    requires draw < 900000
    requires RequestOtp(s, email, password, t, draw).1.OtpRequired?
    ensures var (s1, reply) := RequestOtp(s, email, password, t, draw);
      VerifyOtp(s1, reply.otp, t + OtpLifetime).1 == Verified &&
      VerifyOtp(s1, reply.otp, t + OtpLifetime + 1) == (s1.(pending := None), OtpExpired)
  {
  }

  /** A wrong code keeps the challenge, so the right code afterwards, still
      in time, signs the administrator in. */
  lemma RetryAfterWrongCode(s: AuthState, wrong: string, now1: int, now2: int)
    requires s.pending.Some? && wrong != s.pending.value.otp
    requires now1 <= now2 <= s.pending.value.expiresAt
    ensures VerifyOtp(s, wrong, now1) == (s, WrongOtp)
    ensures VerifyOtp(VerifyOtp(s, wrong, now1).0, s.pending.value.otp, now2).1 == Verified
  {
  }

  /** A challenge is used at most once: right after a successful verification
      the same code is answered with "no pending verification". */
  lemma ChallengeIsConsumed(s: AuthState, otp: string, now1: int, now2: int)
    requires VerifyOtp(s, otp, now1).1 == Verified
    ensures VerifyOtp(VerifyOtp(s, otp, now1).0, otp, now2).1 == NoPendingOtp
  {
  }

  /** The whole administrator sign-in: credentials, then the code shown to
      the caller, entered within five minutes, give the administrator's session. */
  lemma AdminSignInCompletes(s: AuthState, t: int, later: int, draw: nat)
    requires draw < 900000
    requires t <= later <= t + OtpLifetime
    ensures var (s1, reply) := RequestOtp(s, "admin@campus.edu", "admin123", t, draw);
      reply.OtpRequired? &&
      VerifyOtp(s1, reply.otp, later) ==
        (AuthState(Some(SessionUser("1", "admin@campus.edu", "admin", "Dr. Sarah Johnson")), None), Verified)
  {
    AdminNeedsChallenge(s, t, draw);
  }

  /** `logout` does not withdraw a pending challenge: signing out between
      the administrator's credentials and the code still lets the code,
      entered in time, sign the administrator in. */
  lemma LogoutKeepsChallenge(s: AuthState, t: int, later: int, draw: nat)
    requires draw < 900000
    requires t <= later <= t + OtpLifetime
    ensures var (s1, reply) := RequestOtp(s, "admin@campus.edu", "admin123", t, draw);
      reply.OtpRequired? && Logout(s1).user.None? &&
      VerifyOtp(Logout(s1), reply.otp, later) ==
        (AuthState(Some(SessionUser("1", "admin@campus.edu", "admin", "Dr. Sarah Johnson")), None), Verified)
  {
    AdminNeedsChallenge(s, t, draw);
  }
}
