/** The route handlers of the authentication server, as operations on a credential store.

    The store maps the normalised e-mail address to the stored record. Each handler loads the record
    into a User document (findOne, whose e-mail filter goes through the same lowercase and trim
    setters), changes it through the document's methods, and writes it back with save. Time (Date.now)
    and the value of Math.random() are parameters; whether the mail transport delivers is a parameter
    too. A reply is a status and a JSON body; NoResponse is a request that is never answered. */
module Server {
  import opened Js
  import Bcrypt
  import opened UserModel
  import PasswordStrength
  import EmailMask

  /** A password-reset code is valid for one hour, in milliseconds. */
  const ResetCodeLifetime: nat := 3600000

  /** The 6-digit reset code drawn from the value of Math.random(). */
  function ResetCode(random: real): (code: int)
    requires 0.0 <= random < 1.0
    ensures 100000 <= code <= 999999
  {
    RandomInt(100000, 900000, random)
  }

  /** The user fields a reply may carry: never the password. */
  datatype PublicUser = PublicUser(id: nat, username: string, email: string)

  /** The payload of the JSON web token; its signature and expiry are not modelled. */
  datatype Token = Token(userId: nat, email: string)

  datatype Body =
    | Message(message: string)
    | Weak(message: string, strength: Option<string>, feedback: string)
    | Registered(message: string, user: PublicUser, redirect: string)
    | LoggedIn(message: string, user: PublicUser, token: Token)

  datatype Response = Reply(status: nat, body: Body) | NoResponse

  datatype Mail = Mail(to: string, subject: string, text: string)

  /** What zxcvbn reports for a password: its score and its warning (empty when none). */
  datatype Estimate = Estimate(score: int, warning: string)

  /** The strength middleware in front of /signup and /resetpassword: a password scored below 3 is
      refused with 400, its label and the feedback; otherwise the request goes on. */
  function StrengthGate(password: string, estimate: Estimate): (r: Option<Response>)
    ensures r.Some? <==> estimate.score < 3
    ensures r.Some? ==> r.value.Reply? && r.value.status == 400 && r.value.body.Weak?
    ensures r.Some? ==> r.value.body.feedback == PasswordStrength.Feedback(password, estimate.warning)
    ensures r.Some? ==> r.value.body.strength !in {Some("Strong"), Some("Very Strong")}
  {
    PasswordStrength.StrengthTextLabels(estimate.score, estimate.score);
    if estimate.score < 3 then
      Some(Reply(400, Weak("Password is not strong enough",
                           PasswordStrength.StrengthText(estimate.score),
                           PasswordStrength.Feedback(password, estimate.warning))))
    else
      None
  }

  /** The text of the login mail. */
  function OtpMailText(code: nat): string {
    "Your OTP for login is: " + DecimalText(code)
  }

  /** The text of the reset mail. */
  function ResetMailText(code: nat): string {
    "Your verification code is: " + DecimalText(code)
  }

  /** The reset lookup: a record with the e-mail, the submitted code (None, for a missing or empty
      submission, matches a record without a code) and an expiry later than now. */
  predicate ResetLookup(d: UserDoc, code: Option<int>, now: nat) {
    d.resetCode == code && d.resetExpires.Some? && d.resetExpires.value > now
  }

  /** The record under the e-mail exists and holds a digest of the password. */
  predicate PasswordMatches(users: map<string, UserDoc>, email: string, password: string) {
    NormalizeEmail(email) in users && Bcrypt.Compare(password, users[NormalizeEmail(email)].password)
  }

  /** The record under the e-mail exists and accepts the login code now. */
  predicate OtpFound(users: map<string, UserDoc>, email: string, otp: string, now: nat) {
    NormalizeEmail(email) in users && OtpAccepts(users[NormalizeEmail(email)], otp, now)
  }

  /** The reset lookup by e-mail, code and expiry finds a record. */
  predicate ResetFound(users: map<string, UserDoc>, email: string, code: Option<int>, now: nat) {
    NormalizeEmail(email) in users && ResetLookup(users[NormalizeEmail(email)], code, now)
  }

  predicate UsernameTaken(users: map<string, UserDoc>, username: string) {
    exists e :: e in users && users[e].username == username
  }

  /** Writing d would break a unique index: its e-mail or its username belongs to another record. */
  predicate UniqueViolation(users: map<string, UserDoc>, d: UserDoc) {
    || (d.email in users && users[d.email].id != d.id)
    || (exists e :: e in users && e != d.email && users[e].username == d.username)
  }

  /** The store's invariant: every record sits under its own e-mail, is a valid saved record and has an
      id already issued; no two records share a username or an id. */
  predicate StoreValid(users: map<string, UserDoc>, nextId: nat) {
    && (forall e :: e in users ==> users[e].email == e && StoredDocValid(users[e]) && users[e].id < nextId)
    && (forall e1, e2 :: e1 in users && e2 in users && e1 != e2 ==>
          users[e1].username != users[e2].username && users[e1].id != users[e2].id)
  }

  /** A stored record written back under its key, with its username and e-mail unchanged, meets what
      save needs of everything but the password: the setters would leave it alone, its username and
      e-mail pass the validators, it breaks no unique index and reuses no other record's id. */
  lemma Resave(users: map<string, UserDoc>, nextId: nat, key: string, d: UserDoc)
    requires StoreValid(users, nextId) && key in users
    requires d.id == users[key].id && d.username == users[key].username && d.email == key
    ensures Normalized(d) && SchemaValid(d.username, d.email, users[key].password) && d.id < nextId
    ensures forall e :: e in users && e != key ==> users[e].id != d.id
    ensures !UniqueViolation(users, d)
  {
    var stored := users[key];
    assert StoredDocValid(stored);
    forall e | e in users && e != key
      ensures users[e].username != d.username && users[e].id != d.id
    {
      assert users[e].username != stored.username && users[e].id != stored.id;
    }
  }

  /** Writing a valid record that breaks no unique index and reuses no other record's id keeps the
      store valid. */
  lemma StoreWrite(users: map<string, UserDoc>, nextId: nat, d: UserDoc)
    requires StoreValid(users, nextId) && StoredDocValid(d) && d.id < nextId
    requires !UniqueViolation(users, d)
    requires forall e :: e in users && e != d.email ==> users[e].id != d.id
    ensures StoreValid(users[d.email := d], nextId)
  {
    var users' := users[d.email := d];
    forall e | e in users'
      ensures users'[e].email == e && StoredDocValid(users'[e]) && users'[e].id < nextId
    {
      if e != d.email {
        assert users'[e] == users[e];
      }
    }
    forall e1, e2 | e1 in users' && e2 in users' && e1 != e2
      ensures users'[e1].username != users'[e2].username && users'[e1].id != users'[e2].id
    {
      if e1 == d.email {
        assert users'[e2] == users[e2];
      } else if e2 == d.email {
        assert users'[e1] == users[e1];
      }
    }
  }

  /** A record that passed the setters and the validators, with the digest the pre-save hook leaves in
      its password, is a valid saved record. */
  lemma HookedDocValid(d: UserDoc, digest: string)
    requires Normalized(d) && SchemaValid(d.username, d.email, d.password) && Bcrypt.IsHash(digest)
    ensures StoredDocValid(d.(password := digest))
  {
  }

  class AuthServer {
    var users: map<string, UserDoc>
    /** The next object id to issue. */
    var nextId: nat
    /** The mails the transport has delivered, oldest first. */
    var outbox: seq<Mail>

    predicate Valid()
      reads this
    {
      StoreValid(users, nextId)
    }

    constructor ()
      ensures Valid() && users == map[] && nextId == 0 && outbox == []
    {
      users := map[];
      nextId := 0;
      outbox := [];
    }

    /** document.save(): the validators, then the pre-save hook, then the write, which a unique index
        may refuse. A refused save writes nothing. */
    method Save(u: User, salt: Option<Bcrypt.Salt>) returns (ok: bool)
      requires Valid() && Normalized(u.Doc()) && u.id < nextId
      requires u.passwordModified ==> salt.Some?
      requires !u.passwordModified ==> Bcrypt.IsHash(u.password)
      requires forall e :: e in users && e != u.email ==> users[e].id != u.id
      modifies this`users, u`password, u`passwordModified
      ensures Valid()
      ensures ok <==> SchemaValid(u.username, u.email, old(u.password)) && !UniqueViolation(old(users), old(u.Doc()))
      ensures ok ==> u.password == if old(u.passwordModified) then Bcrypt.Hash(old(u.password), salt.value) else old(u.password)
      ensures ok ==> users == old(users)[u.email := u.Doc()]
      ensures !ok ==> users == old(users)
    {
      if !SchemaValid(u.username, u.email, u.password) {
        return false;
      }
      ghost var before := u.Doc();
      u.PreSave(salt);
      var d := u.Doc();
      assert d == before.(password := d.password);
      if UniqueViolation(users, d) {
        return false;
      }
      HookedDocValid(before, d.password);
      StoreWrite(users, nextId, d);
      users := users[u.email := d];
      u.passwordModified := false;
      assert u.Doc() == d;
      ok := true;
    }

    /** save() of a loaded record whose password is untouched: it cannot fail, and it writes the
        document back under its key. */
    method SaveLoaded(u: User)
      requires Valid() && u.email in users && !u.passwordModified
      requires u.id == users[u.email].id && u.username == users[u.email].username
      requires u.password == users[u.email].password
      modifies this`users, u`password, u`passwordModified
      ensures Valid() && users == old(users)[u.email := old(u.Doc())]
      ensures u.Doc() == old(u.Doc())
    {
      Resave(users, nextId, u.email, u.Doc());
      assert StoredDocValid(users[u.email]);
      var ok := Save(u, None);
      assert ok;
    }

    /** Loads the record under key, assigns its two reset fields and saves it, as /forgetpassword and
        /emailverification do inline. */
    method SetResetFields(key: string, code: Option<int>, expires: Option<nat>)
      requires Valid() && key in users
      modifies this`users
      ensures Valid() && users == old(users)[key := old(users)[key].(resetCode := code, resetExpires := expires)]
    {
      var d := users[key];
      var u := new User.Load(d);
      u.resetCode, u.resetExpires := code, expires;
      SaveLoaded(u);
    }

    /** Loads the record under key, assigns the new password, clears the reset code and saves it. The
        pre-save hook hashes the password when the assignment changed it; the validators refuse a
        password shorter than 12 characters. */
    method SavePassword(key: string, password: string, hookSalt: Bcrypt.Salt) returns (ok: bool)
      requires Valid() && key in users
      modifies this`users
      ensures Valid()
      ensures ok <==> |password| >= PasswordMinLength
      ensures ok ==>
        var d := old(users)[key];
        users == old(users)[key := d.(password := if password == d.password then d.password
                                                  else Bcrypt.Hash(password, hookSalt),
                                      resetCode := None, resetExpires := None)]
      ensures !ok ==> users == old(users)
    {
      var u := new User.Load(users[key]);
      u.AssignPassword(password);
      u.resetCode, u.resetExpires := None, None;
      Resave(users, nextId, key, u.Doc());
      assert StoredDocValid(users[key]);
      ok := Save(u, Some(hookSalt));
    }

    /** POST /signup. */
    method Signup(username: string, email: string, password: string, confirmPassword: string,
                  estimate: Estimate, salt: Bcrypt.Salt) returns (r: Response)
      requires Valid()
      modifies this`users, this`nextId
      ensures Valid()
      ensures nextId == if estimate.score >= 3 && password == confirmPassword && NormalizeEmail(email) !in old(users)
                        then old(nextId) + 1 else old(nextId)
      ensures estimate.score < 3 ==> r == StrengthGate(password, estimate).value && users == old(users)
      ensures estimate.score >= 3 && password != confirmPassword ==>
        r == Reply(400, Message("Passwords do not match")) && users == old(users)
      ensures estimate.score >= 3 && password == confirmPassword && NormalizeEmail(email) in old(users) ==>
        r == Reply(409, Message("User already exists")) && users == old(users)
      ensures r.Reply? && r.status == 201 <==>
        && estimate.score >= 3 && password == confirmPassword
        && NormalizeEmail(email) !in old(users)
        && SchemaValid(NormalizeUsername(username), NormalizeEmail(email), password)
        && !UsernameTaken(old(users), NormalizeUsername(username))
      ensures r.Reply? && r.status == 201 ==>
        var d := UserDoc(old(nextId), NormalizeUsername(username), NormalizeEmail(email),
                         Bcrypt.Hash(password, salt), None, None, None, None);
        && users == old(users)[NormalizeEmail(email) := d]
        && r.body == Registered("User registered successfully", PublicUser(d.id, d.username, d.email), "/login")
      ensures (estimate.score >= 3 && password == confirmPassword && NormalizeEmail(email) !in old(users)
               && !(r.Reply? && r.status == 201)) ==>
        r == Reply(500, Message("Server error")) && users == old(users)
    {
      var gate := StrengthGate(password, estimate);
      if gate.Some? {
        return gate.value;
      }
      if password != confirmPassword {
        return Reply(400, Message("Passwords do not match"));
      }
      var key := NormalizeEmail(email);
      if key in users {
        return Reply(409, Message("User already exists"));
      }
      var id := nextId;
      nextId := nextId + 1;
      var u := new User(id, username, email, password);
      NormalizedBySetters(id, username, email, password);
      var ok := Save(u, Some(salt));
      if !ok {
        return Reply(500, Message("Server error"));
      }
      r := Reply(201, Registered("User registered successfully", PublicUser(u.id, u.username, u.email), "/login"));
    }

    /** POST /login: checks the password and mails a fresh login code; it never hands out a token. */
    method Login(email: string, password: string, random: real, now: nat, delivered: bool)
      returns (r: Response)
      requires Valid() && 0.0 <= random < 1.0
      modifies this`users, this`outbox
      ensures Valid()
      ensures r.Reply? && !r.body.LoggedIn?
      ensures NormalizeEmail(email) !in old(users) ==>
        r == Reply(404, Message("User not found")) && users == old(users) && outbox == old(outbox)
      ensures NormalizeEmail(email) in old(users) && !PasswordMatches(old(users), email, password) ==>
        r == Reply(401, Message("Invalid password")) && users == old(users) && outbox == old(outbox)
      ensures PasswordMatches(old(users), email, password) ==>
        var key := NormalizeEmail(email);
        var code := OtpCode(random);
        && users == old(users)[key := old(users)[key].(otp := Some(code), otpExpires := Some(now + OtpLifetime))]
        && (delivered ==> r == Reply(200, Message("OTP sent to your email"))
                          && outbox == old(outbox) + [Mail(email, "Login OTP", OtpMailText(code))])
        && (!delivered ==> r == Reply(500, Message("Server error")) && outbox == old(outbox))
    {
      var key := NormalizeEmail(email);
      if key !in users {
        return Reply(404, Message("User not found"));
      }
      var u := new User.Load(users[key]);
      if !u.ComparePassword(password) {
        return Reply(401, Message("Invalid password"));
      }
      var code := u.SetOTP(random, now);
      SaveLoaded(u);
      if !delivered {
        return Reply(500, Message("Server error"));
      }
      outbox := outbox + [Mail(email, "Login OTP", OtpMailText(code))];
      r := Reply(200, Message("OTP sent to your email"));
    }

    /** POST /verify-otp: a code that verifies is consumed and a token for the record is issued. */
    method VerifyOtp(email: string, otp: string, now: nat) returns (r: Response)
      requires Valid()
      modifies this`users
      ensures Valid()
      ensures !OtpFound(old(users), email, otp, now) ==>
        r == Reply(400, Message("Invalid or expired OTP")) && users == old(users)
      ensures OtpFound(old(users), email, otp, now) ==>
        var d := old(users)[NormalizeEmail(email)];
        && users == old(users)[NormalizeEmail(email) := d.(otp := None, otpExpires := None)]
        && r == Reply(200, LoggedIn("Login successful", PublicUser(d.id, d.username, d.email), Token(d.id, d.email)))
        && forall s, t :: !OtpAccepts(users[NormalizeEmail(email)], s, t)
    {
      var key := NormalizeEmail(email);
      if key !in users || !OtpAccepts(users[key], otp, now) {
        return Reply(400, Message("Invalid or expired OTP"));
      }
      var u := new User.Load(users[key]);
      u.ClearOTP();
      SaveLoaded(u);
      r := Reply(200, LoggedIn("Login successful", PublicUser(u.id, u.username, u.email), Token(u.id, u.email)));
    }

    /** POST /forgetpassword: stores a 6-digit code valid for an hour and mails it. The empty string
        stands for every falsy e-mail field the source refuses with 400, a missing one included. */
    method ForgetPassword(email: string, random: real, now: nat, delivered: bool) returns (r: Response)
      requires Valid() && 0.0 <= random < 1.0
      modifies this`users, this`outbox
      ensures Valid()
      ensures email == "" ==>
        r == Reply(400, Message("Email is required")) && users == old(users) && outbox == old(outbox)
      ensures email != "" && NormalizeEmail(email) !in old(users) ==>
        r == Reply(404, Message("User not found")) && users == old(users) && outbox == old(outbox)
      ensures email != "" && NormalizeEmail(email) in old(users) ==>
        var key := NormalizeEmail(email);
        var code := ResetCode(random);
        && users == old(users)[key := old(users)[key].(resetCode := Some(code),
                                                      resetExpires := Some(now + ResetCodeLifetime))]
        && (delivered ==> r == Reply(200, Message("Verification code sent to " + EmailMask.Mask(email)))
                          && outbox == old(outbox) + [Mail(email, "Password Reset Verification Code", ResetMailText(code))])
        && (!delivered ==> r == Reply(500, Message("An unexpected error occurred. Please try again."))
                           && outbox == old(outbox))
    {
      if email == "" {
        return Reply(400, Message("Email is required"));
      }
      var key := NormalizeEmail(email);
      if key !in users {
        return Reply(404, Message("User not found"));
      }
      var code := ResetCode(random);
      SetResetFields(key, Some(code), Some(now + ResetCodeLifetime));
      if !delivered {
        return Reply(500, Message("An unexpected error occurred. Please try again."));
      }
      outbox := outbox + [Mail(email, "Password Reset Verification Code", ResetMailText(code))];
      r := Reply(200, Message("Verification code sent to " + EmailMask.Mask(email)));
    }

    /** POST /emailverification: a matching, unexpired code is consumed. */
    method EmailVerification(email: string, code: Option<int>, now: nat) returns (r: Response)
      requires Valid()
      modifies this`users
      ensures Valid()
      ensures !ResetFound(old(users), email, code, now) ==>
        r == Reply(400, Message("Invalid or expired verification code")) && users == old(users)
      ensures ResetFound(old(users), email, code, now) ==>
        var d := old(users)[NormalizeEmail(email)];
        && users == old(users)[NormalizeEmail(email) := d.(resetCode := None, resetExpires := None)]
        && r == Reply(200, Message("Email verified successfully"))
        && forall c, t :: !ResetLookup(users[NormalizeEmail(email)], c, t)
    {
      var key := NormalizeEmail(email);
      if key !in users || !ResetLookup(users[key], code, now) {
        return Reply(400, Message("Invalid or expired verification code"));
      }
      SetResetFields(key, None, None);
      r := Reply(200, Message("Email verified successfully"));
    }

    /** POST /resetpassword as written. The null check is commented out and the catch block is empty,
        so a failed lookup is never answered. The new password is hashed by the handler and, being a
        change, hashed again by the pre-save hook: the stored digest is a digest of a digest, which
        the new password no longer matches. */
    method ResetPassword(email: string, password: string, code: Option<int>, estimate: Estimate,
                         salt: Bcrypt.Salt, hookSalt: Bcrypt.Salt, now: nat) returns (r: Response)
      requires Valid()
      modifies this`users
      ensures Valid()
      ensures estimate.score < 3 ==> r == StrengthGate(password, estimate).value && users == old(users)
      ensures estimate.score >= 3 && !ResetFound(old(users), email, code, now) ==>
        r == NoResponse && users == old(users)
      ensures estimate.score >= 3 && ResetFound(old(users), email, code, now) ==>
        var d := old(users)[NormalizeEmail(email)];
        && (Bcrypt.Compare(password, d.password) ==>
              r == Reply(400, Message("New password must be different from the old password")) && users == old(users))
        && (!Bcrypt.Compare(password, d.password) ==>
              && r == Reply(200, Message("Password reset successfully"))
              && users == old(users)[NormalizeEmail(email) := d.(password := Bcrypt.Hash(Bcrypt.Hash(password, salt), hookSalt),
                                                                 resetCode := None, resetExpires := None)]
              && !Bcrypt.Compare(password, users[NormalizeEmail(email)].password))
    {
      var gate := StrengthGate(password, estimate);
      if gate.Some? {
        return gate.value;
      }
      var key := NormalizeEmail(email);
      if key !in users || !ResetLookup(users[key], code, now) {
        return NoResponse;
      }
      if Bcrypt.Compare(password, users[key].password) {
        return Reply(400, Message("New password must be different from the old password"));
      }
      var hashed := Bcrypt.Hash(password, salt);
      Bcrypt.CompareHash(password, salt);
      var ok := SavePassword(key, hashed, hookSalt);
      assert ok;
      Bcrypt.CompareDoubleHash(password, password, salt, hookSalt);
      r := Reply(200, Message("Password reset successfully"));
    }

    /** POST /resetpassword as evidently intended: a failed lookup is answered with 404, the new
        password is assigned as given so that the pre-save hook hashes it once, and a failed save is
        answered with 500. */
    method ResetPasswordFixed(email: string, password: string, code: Option<int>, estimate: Estimate,
                              hookSalt: Bcrypt.Salt, now: nat) returns (r: Response)
      requires Valid()
      modifies this`users
      ensures Valid()
      ensures estimate.score < 3 ==> r == StrengthGate(password, estimate).value && users == old(users)
      ensures estimate.score >= 3 && !ResetFound(old(users), email, code, now) ==>
        r == Reply(404, Message("User not found or invalid verification code")) && users == old(users)
      ensures estimate.score >= 3 && ResetFound(old(users), email, code, now) ==>
        var d := old(users)[NormalizeEmail(email)];
        && (Bcrypt.Compare(password, d.password) ==>
              r == Reply(400, Message("New password must be different from the old password")) && users == old(users))
        && (!Bcrypt.Compare(password, d.password) && |password| < PasswordMinLength ==>
              r == Reply(500, Message("Error resetting password. Please try again.")) && users == old(users))
        && (!Bcrypt.Compare(password, d.password) && |password| >= PasswordMinLength ==>
              && r == Reply(200, Message("Password reset successfully"))
              && users == old(users)[NormalizeEmail(email) := d.(password := if password == d.password then d.password
                                                                             else Bcrypt.Hash(password, hookSalt),
                                                                 resetCode := None, resetExpires := None)])
      ensures (r == Reply(200, Message("Password reset successfully"))
               && password != old(users)[NormalizeEmail(email)].password) ==>
        Bcrypt.Compare(password, users[NormalizeEmail(email)].password)
    {
      var gate := StrengthGate(password, estimate);
      if gate.Some? {
        return gate.value;
      }
      var key := NormalizeEmail(email);
      if key !in users || !ResetLookup(users[key], code, now) {
        return Reply(404, Message("User not found or invalid verification code"));
      }
      if Bcrypt.Compare(password, users[key].password) {
        return Reply(400, Message("New password must be different from the old password"));
      }
      var ok := SavePassword(key, password, hookSalt);
      if !ok {
        return Reply(500, Message("Error resetting password. Please try again."));
      }
      Bcrypt.CompareHash(password, hookSalt);
      r := Reply(200, Message("Password reset successfully"));
    }
  }
}
