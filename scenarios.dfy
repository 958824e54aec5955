/** Whole request sequences against a fresh server, for one user with any valid username, e-mail and
    password: the two-step login, the expiry of a login code, and the password-reset flow as the
    client pages drive it and as a direct request makes it. */
module Scenarios {
  import opened Js
  import Bcrypt
  import EmailFormat
  import opened UserModel
  import opened Server
  import EmailMask

  /** What the schema accepts, after the setters. */
  predicate Acceptable(username: string, email: string, password: string) {
    SchemaValid(NormalizeUsername(username), NormalizeEmail(email), password)
  }

  /** A sample user the scenarios apply to. */
  lemma SampleAcceptable()
    ensures Acceptable("alice", "alice@x.com", "Abcdefgh123!")
  {
    var email := "alice@x.com";
    assert email[5] == '@' && email[7] == '.';
    assert EmailFormat.PlainExcept(email, 5);
    NormalizeMatching(email);
    var u := "alice";
    assert NoWhitespace(u);
    TrimNoWhitespace(u);
  }

  /** A fresh server after a successful signup: one record, with id 0 and the password's digest. */
  method SignedUp(username: string, email: string, password: string, salt: Bcrypt.Salt)
    returns (server: AuthServer, r: Response)
    requires Acceptable(username, email, password)
    ensures fresh(server) && server.Valid()
    ensures r == Reply(201, Registered("User registered successfully",
                                       PublicUser(0, NormalizeUsername(username), NormalizeEmail(email)), "/login"))
    ensures server.users == map[NormalizeEmail(email) := UserDoc(0, NormalizeUsername(username), NormalizeEmail(email),
                                                                 Bcrypt.Hash(password, salt), None, None, None, None)]
    ensures server.outbox == []
  {
    server := new AuthServer();
    assert !UsernameTaken(server.users, NormalizeUsername(username));
    r := server.Signup(username, email, password, password, Estimate(3, ""), salt);
  }

  /** Signup, login, the code as mailed within its five minutes, then the same code again: the first
      use logs in and issues a token for the new record, the replay is refused. */
  method LoginFlow(username: string, email: string, password: string, salt: Bcrypt.Salt, random: real, now: nat)
    returns (login: Response, mailed: seq<Mail>, verify: Response, replay: Response)
    requires Acceptable(username, email, password) && 0.0 <= random < 1.0
    ensures login == Reply(200, Message("OTP sent to your email"))
    ensures mailed == [Mail(email, "Login OTP", OtpMailText(OtpCode(random)))]
    ensures verify == Reply(200, LoggedIn("Login successful",
                                          PublicUser(0, NormalizeUsername(username), NormalizeEmail(email)),
                                          Token(0, NormalizeEmail(email))))
    ensures replay == Reply(400, Message("Invalid or expired OTP"))
  {
    var server, _ := SignedUp(username, email, password, salt);
    Bcrypt.CompareHash(password, salt);
    login := server.Login(email, password, random, now, true);
    mailed := server.outbox;
    var code := OtpCode(random);
    OtpWindow(server.users[NormalizeEmail(email)], now, now + OtpLifetime);
    verify := server.VerifyOtp(email, DecimalText(code), now + OtpLifetime - 1);
    replay := server.VerifyOtp(email, DecimalText(code), now + OtpLifetime - 1);
  }

  /** The code as mailed, submitted at the instant of its expiry or later, is refused. */
  method ExpiredOtp(username: string, email: string, password: string, salt: Bcrypt.Salt, random: real,
                    now: nat, later: nat)
    returns (verify: Response)
    requires Acceptable(username, email, password) && 0.0 <= random < 1.0 && later >= now + OtpLifetime
    ensures verify == Reply(400, Message("Invalid or expired OTP"))
  {
    var server, _ := SignedUp(username, email, password, salt);
    Bcrypt.CompareHash(password, salt);
    var login := server.Login(email, password, random, now, true);
    var code := OtpCode(random);
    OtpWindow(server.users[NormalizeEmail(email)], now, later);
    verify := server.VerifyOtp(email, DecimalText(code), later);
  }

  /** The forget page and the code page: the code is mailed, the reply shows the masked address, and
      the code page consumes the code, so that no reset lookup finds the record any more. */
  method CodeConsumed(username: string, email: string, password: string, salt: Bcrypt.Salt, random: real,
                      now: nat)
    returns (server: AuthServer, forget: Response, verified: Response)
    requires Acceptable(username, email, password) && email != "" && 0.0 <= random < 1.0
    ensures fresh(server) && server.Valid() && NormalizeEmail(email) in server.users
    ensures forget == Reply(200, Message("Verification code sent to " + EmailMask.Mask(email)))
    ensures verified == Reply(200, Message("Email verified successfully"))
    ensures forall c, t :: !ResetFound(server.users, email, c, t)
  {
    var signup;
    server, signup := SignedUp(username, email, password, salt);
    forget := server.ForgetPassword(email, random, now, true);
    var code := ResetCode(random);
    var key := NormalizeEmail(email);
    assert server.users[key].resetCode == Some(code);
    assert server.users[key].resetExpires == Some(now + ResetCodeLifetime);
    verified := server.EmailVerification(email, Some(code), now);
  }

  /** The reset flow as the client pages drive it: the forget page, the code page, which consumes the
      code, then the reset page, which sends no code. The lookup of the reset finds nothing, so the
      handler as written never answers, and the corrected one answers 404. */
  method ClientResetFlow(username: string, email: string, password: string, newPassword: string,
                         estimate: Estimate, salt: Bcrypt.Salt, resetSalt: Bcrypt.Salt, hookSalt: Bcrypt.Salt,
                         random: real, now: nat, later: nat)
    returns (reset: Response, resetFixed: Response)
    requires Acceptable(username, email, password) && email != "" && 0.0 <= random < 1.0
    requires estimate.score >= 3
    ensures reset == NoResponse
    ensures resetFixed == Reply(404, Message("User not found or invalid verification code"))
  {
    var server, _, _ := CodeConsumed(username, email, password, salt, random, now);
    assert !ResetFound(server.users, email, None, later);
    reset := server.ResetPassword(email, newPassword, None, estimate, resetSalt, hookSalt, later);
    resetFixed := server.ResetPasswordFixed(email, newPassword, None, estimate, hookSalt, later);
  }

  /** A reset request that carries the mailed code directly: the handler as written reports success,
      after which the new password no longer logs in. */
  method DirectReset(username: string, email: string, password: string, newPassword: string,
                     salt: Bcrypt.Salt, resetSalt: Bcrypt.Salt, hookSalt: Bcrypt.Salt, random: real,
                     loginRandom: real, now: nat)
    returns (reset: Response, login: Response)
    requires Acceptable(username, email, password) && email != "" && newPassword != password
    requires 0.0 <= random < 1.0 && 0.0 <= loginRandom < 1.0
    ensures reset == Reply(200, Message("Password reset successfully"))
    ensures login == Reply(401, Message("Invalid password"))
  {
    var server, _ := SignedUp(username, email, password, salt);
    var forget := server.ForgetPassword(email, random, now, true);
    var code := ResetCode(random);
    assert ResetFound(server.users, email, Some(code), now);
    if Bcrypt.Compare(newPassword, Bcrypt.Hash(password, salt)) {
      Bcrypt.CompareOnlyHashed(newPassword, password, salt);
    }
    reset := server.ResetPassword(email, newPassword, Some(code), Estimate(4, ""), resetSalt, hookSalt, now);
    login := server.Login(email, newPassword, loginRandom, now, true);
  }

  /** The same request against the corrected handler: a new password of at least 12 characters logs
      in afterwards. */
  method DirectResetFixed(username: string, email: string, password: string, newPassword: string,
                          salt: Bcrypt.Salt, hookSalt: Bcrypt.Salt, random: real, loginRandom: real, now: nat)
    returns (reset: Response, login: Response)
    requires Acceptable(username, email, password) && email != "" && newPassword != password
    requires |newPassword| >= PasswordMinLength && !Bcrypt.IsHash(newPassword)
    requires 0.0 <= random < 1.0 && 0.0 <= loginRandom < 1.0
    ensures reset == Reply(200, Message("Password reset successfully"))
    ensures login == Reply(200, Message("OTP sent to your email"))
  {
    var server, _ := SignedUp(username, email, password, salt);
    var forget := server.ForgetPassword(email, random, now, true);
    var code := ResetCode(random);
    assert ResetFound(server.users, email, Some(code), now);
    if Bcrypt.Compare(newPassword, Bcrypt.Hash(password, salt)) {
      Bcrypt.CompareOnlyHashed(newPassword, password, salt);
    }
    reset := server.ResetPasswordFixed(email, newPassword, Some(code), Estimate(4, ""), hookSalt, now);
    Bcrypt.CompareHash(newPassword, hookSalt);
    login := server.Login(email, newPassword, loginRandom, now, true);
  }
}
