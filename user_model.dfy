/** The user record of the credential store: the schema's setters and validators, the pre-save hook
    that hashes a modified password, and the one-time-password methods setOTP, clearOTP, verifyOTP. */
module UserModel {
  import opened Js
  import Bcrypt
  import EmailFormat

  const UsernameMinLength: nat := 5
  const PasswordMinLength: nat := 12

  /** A login code is valid for five minutes, in milliseconds. */
  const OtpLifetime: nat := 300000

  /** A user record as the store keeps it. An unset or cleared optional field is None. Times are
      milliseconds since the epoch. The store's timestamps (createdAt, updatedAt) are not modelled. */
  datatype UserDoc = UserDoc(
    id: nat,
    username: string,
    email: string,
    password: string,
    otp: Option<int>,
    otpExpires: Option<nat>,
    resetCode: Option<int>,
    resetExpires: Option<nat>)

  /** The schema's setter for username: trim. */
  function NormalizeUsername(username: string): string {
    Trim(username)
  }

  /** The schema's setters for email: lowercase and trim. They also apply to the email of a query. */
  function NormalizeEmail(email: string): string {
    ToLower(Trim(email))
  }

  /** The schema's validators, run on the values after the setters and before the pre-save hook:
      username of at least 5 characters, email matching the pattern, password of at least 12. */
  predicate SchemaValid(username: string, email: string, password: string) {
    |username| >= UsernameMinLength && EmailFormat.Matches(email) && |password| >= PasswordMinLength
  }

  /** What a record holds once it has been saved: the setters have run, the validators passed, and
      the password is a bcrypt digest. Such a record passes the validators again when re-saved. */
  predicate StoredDocValid(d: UserDoc) {
    && Normalized(d)
    && SchemaValid(d.username, d.email, d.password)
    && Bcrypt.IsHash(d.password)
  }

  /** The login code drawn by setOTP from the value of Math.random(). */
  function OtpCode(random: real): (code: int)
    requires 0.0 <= random < 1.0
    ensures 1000 <= code <= 9999
  {
    RandomInt(1000, 9000, random)
  }

  /** verifyOTP on a record: the stored code strictly equals parseInt of the submission (NaN equals
      nothing, an absent code equals no number) and the expiry is strictly later than now. */
  predicate OtpAccepts(d: UserDoc, submitted: string, now: nat) {
    d.otp.Some? && ParseInt(submitted) == Some(d.otp.value)
    && d.otpExpires.Some? && d.otpExpires.value > now
  }

  /** The setters have run: the username has no whitespace at either end (trim leaves it alone) and
      the email has no upper-case letter. */
  predicate Normalized(d: UserDoc) {
    Trimmed(d.username) && NoUpperAscii(d.email)
  }

  /** The setters leave values that they would not change again. */
  lemma NormalizedBySetters(id: nat, username: string, email: string, password: string)
    ensures Normalized(UserDoc(id, NormalizeUsername(username), NormalizeEmail(email), password,
                               None, None, None, None))
  {
    TrimmedIff(username);
    ToLowerShape(Trim(email));
  }

  /** The e-mail setters are idempotent: a stored address, looked up again through the same setters,
      finds itself. */
  lemma NormalizeEmailIdempotent(email: string)
    ensures NormalizeEmail(NormalizeEmail(email)) == NormalizeEmail(email)
  {
    var t := Trim(email);
    var l := ToLower(t);
    TrimmedIff(email);
    ToLowerShape(t);
    TrimmedIff(l);
    ToLowerNoUpper(l);
  }

  /** The code as mailed (its decimal text) is accepted exactly while the expiry lies ahead. */
  lemma MailedOtpAccepted(d: UserDoc, now: nat)
    requires d.otp.Some? && d.otp.value >= 0 && d.otpExpires.Some?
    ensures OtpAccepts(d, DecimalText(d.otp.value), now) <==> now < d.otpExpires.value
  {
    ParseIntDecimalText(d.otp.value);
  }

  /** A code issued at t is accepted at t + 299999 ms and refused from t + 300000 ms on: the
      expiry instant itself is already too late. */
  lemma OtpWindow(d: UserDoc, issued: nat, later: nat)
    requires d.otp.Some? && d.otp.value >= 0 && d.otpExpires == Some(issued + OtpLifetime)
    ensures OtpAccepts(d, DecimalText(d.otp.value), issued + OtpLifetime - 1)
    ensures later >= issued + OtpLifetime ==> !OtpAccepts(d, DecimalText(d.otp.value), later)
  {
    MailedOtpAccepted(d, issued + OtpLifetime - 1);
    MailedOtpAccepted(d, later);
  }

  /** No stored code, or a submission that parses to NaN, never verifies. */
  lemma OtpRefusals(d: UserDoc, submitted: string, now: nat)
    ensures d.otp.None? ==> !OtpAccepts(d, submitted, now)
    ensures ParseInt(submitted).None? ==> !OtpAccepts(d, submitted, now)
    ensures d.otpExpires.None? ==> !OtpAccepts(d, submitted, now)
  {
  }

  /** A client-valid email that passes the pattern is stored as its lower-case form, which still
      passes the pattern: the setters do not break the validator for such input. */
  lemma NormalizeMatching(email: string)
    requires EmailFormat.Matches(email)
    ensures NormalizeEmail(email) == ToLower(email)
    ensures EmailFormat.Matches(NormalizeEmail(email)) && NoUpperAscii(NormalizeEmail(email))
  {
    var a := EmailFormat.MatchesAt(email);
    TrimNoWhitespace(email);
    var l := ToLower(email);
    ToLowerShape(email);
    var a', d :| 0 < a' && a' + 1 < d < |email| - 1 && email[a'] == '@' && email[d] == '.'
      && EmailFormat.PlainExcept(email, a');
    assert l[a'] == '@' && l[d] == '.';
    assert EmailFormat.PlainExcept(l, a');
  }

  /** A mongoose document: the fields of a record plus the dirty flag for the password. */
  class User {
    const id: nat
    var username: string
    var email: string
    var password: string
    var passwordModified: bool
    var otp: Option<int>
    var otpExpires: Option<nat>
    var resetCode: Option<int>
    var resetExpires: Option<nat>

    /** The fields that the store persists. */
    function Doc(): UserDoc
      reads this
    {
      UserDoc(id, username, email, password, otp, otpExpires, resetCode, resetExpires)
    }

    /** A document loaded by findOne: every field as stored, nothing marked modified. */
    constructor Load(d: UserDoc)
      ensures Doc() == d && !passwordModified
    {
      id := d.id;
      username, email, password := d.username, d.email, d.password;
      otp, otpExpires := d.otp, d.otpExpires;
      resetCode, resetExpires := d.resetCode, d.resetExpires;
      passwordModified := false;
    }

    /** new User({ username, email, password }): the setters run, the password is kept as given
        (hashed only when saved) and, the document being new, counts as modified. */
    constructor (id: nat, username: string, email: string, password: string)
      ensures Doc() == UserDoc(id, NormalizeUsername(username), NormalizeEmail(email), password,
                               None, None, None, None)
      ensures passwordModified
    {
      this.id := id;
      this.username := NormalizeUsername(username);
      this.email := NormalizeEmail(email);
      this.password := password;
      otp, otpExpires, resetCode, resetExpires := None, None, None, None;
      passwordModified := true;
    }

    /** setOTP: a 4-digit code from Math.random(), expiring five minutes from now; the code is
        returned. Both fields are overwritten, so a previous code is gone. */
    method SetOTP(random: real, now: nat) returns (code: int)
      requires 0.0 <= random < 1.0
      modifies this`otp, this`otpExpires
      ensures 1000 <= code <= 9999 && code == OtpCode(random)
      ensures otp == Some(code) && otpExpires == Some(now + OtpLifetime)
    {
      code := OtpCode(random);
      otp := Some(code);
      otpExpires := Some(now + OtpLifetime);
    }

    /** clearOTP. The source assigns the Number and Date constructors to the two fields; here that
        is read as clearing them, which is what verifyOTP sees either way (a function equals no
        number, and comparing it with a time is false). */
    method ClearOTP()
      modifies this`otp, this`otpExpires
      ensures otp == None && otpExpires == None
    {
      otp := None;
      otpExpires := None;
    }

    /** verifyOTP(submitted) at time now. */
    predicate VerifyOTP(submitted: string, now: nat)
      reads this
    {
      OtpAccepts(Doc(), submitted, now)
    }

    /** comparePassword(candidate). */
    predicate ComparePassword(candidate: string)
      reads this
    {
      Bcrypt.Compare(candidate, password)
    }

    /** Assigning to the password field marks it modified when the value changes. */
    method AssignPassword(value: string)
      modifies this`password, this`passwordModified
      ensures password == value
      ensures passwordModified == (old(passwordModified) || value != old(password))
    {
      passwordModified := passwordModified || value != password;
      password := value;
    }

    /** The pre-save hook: a modified password is replaced by its digest under the salt that
        genSalt(10) draws; an unmodified one is left alone and no salt is drawn. */
    method PreSave(salt: Option<Bcrypt.Salt>)
      requires passwordModified ==> salt.Some?
      modifies this`password
      ensures password == if passwordModified then Bcrypt.Hash(old(password), salt.value) else old(password)
    {
      if !passwordModified {
        return;
      }
      password := Bcrypt.Hash(password, salt.value);
    }
  }
}
