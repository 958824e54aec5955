# SecureAuthSystem credential core, in Dafny

This project models the credential lifecycle of SecureAuthSystem, an Express/MongoDB authentication
server with a React front end. It covers:

- The user record (`backend/models/User.js`): the schema's setters (trim, lowercase) and validators
  (username of at least 5 characters, the e-mail pattern `^[^\s@]+@[^\s@]+\.[^\s@]+$`, password of
  at least 12 characters), the pre-save hook that hashes a modified password, `comparePassword`, and
  the one-time-password methods `setOTP`, `clearOTP` and `verifyOTP`.
- The route handlers (`backend/server.js`) as methods of an `AuthServer` over a mutable store. The
  store maps the normalised e-mail to the stored record. The handlers are the password-strength
  middleware, `/signup`, `/login` (mails a 4-digit code), `/verify-otp` (issues the token),
  `/forgetpassword` (mails a 6-digit code and shows the masked address), `/emailverification` and
  `/resetpassword`. Each handler loads a `User` document, changes it through its methods and saves
  it. Saving runs the validators, then the pre-save hook, then the unique indexes.
- The password feedback and strength labels (`PasswordStrength.js`). The zxcvbn score and warning
  are inputs.
- The signup form's validators and the order in which `handleSubmit` applies them (`Signup.js`).
- The image CAPTCHA (`Captcha.js`), as a `Widget` class holding the component state. The selection
  toggle and the "all dogs and only dogs" verdict are functions.

Foreign libraries are abstract:

- bcrypt is an injective salted encoding, so `compare` accepts exactly the string that was hashed.
- A JSON web token is its payload.
- `Math.random()` is a real parameter in [0, 1).
- `Date.now()` is a `nat` of milliseconds.
- Whether the mail transport delivers is a boolean parameter. Delivered mails are appended to an
  outbox.

Files:

| file | module | contents |
|---|---|---|
| `js.dfy` | `Js` | JavaScript string and number semantics used by the core: `trim`, ASCII `toLowerCase`, `parseInt`, `${n}`, `Math.floor(base + Math.random() * span)` |
| `bcrypt.dfy` | `Bcrypt` | digest, compare, double hash |
| `email_format.dfy` | `EmailFormat` | the e-mail pattern and its reading as rules |
| `email_mask.dfy` | `EmailMask` | the masking `replace` of the forget-password reply |
| `user_model.dfy` | `UserModel` | the record, the setters and validators, the `User` document class |
| `password_strength.dfy` | `PasswordStrength` | feedback builder and labels |
| `server.dfy` | `Server` | the store and the route handlers |
| `signup_form.dfy` | `SignupForm` | client-side validation |
| `captcha.dfy` | `Captcha` | the CAPTCHA widget |
| `scenarios.dfy` | `Scenarios` | request sequences from a fresh server |

One might expect a second reset with the same password to be refused as not different from the old
one. In the code, the first reset clears the reset code, so the second request fails its lookup and
is never answered. The model follows the code (`Server.AuthServer.ResetPassword`).

## Model

| member | source | states |
|---|---|---|
| Js.TrimStartSpec | backend/models/User.js:9 | trim's start: the result is a suffix, every dropped character is whitespace, and the result does not start with whitespace |
| Js.TrimEndSpec | backend/models/User.js:9 | trim's end: the result is a prefix, every dropped character is whitespace, and the result does not end with whitespace |
| Js.TrimmedIff | backend/models/User.js:9 | trim leaves a string unchanged exactly when neither end is whitespace, and it always leaves such a string |
| Js.TrimNoWhitespace | backend/models/User.js:17 | a string without whitespace is its own trim |
| Js.TrimIdempotent | backend/models/User.js:9 | trimming twice is trimming once |
| Js.Trim | backend/models/User.js:9 | String.prototype.trim: drops the whitespace at both ends; its properties are the four lemmas above |
| Js.ToLowerShape | backend/models/User.js:16 | after lowercasing there is no upper-case letter, and whitespace, '@' and '.' are where they were |
| Js.ToLowerNoUpper | backend/models/User.js:16 | a string with no upper-case letter is its own lower-case form |
| Js.ToLower | backend/models/User.js:16 | toLowerCase, character by character; its properties are Js.ToLowerShape and Js.ToLowerNoUpper |
| Js.DecimalText | backend/server.js:111 | the text of a code is non-empty decimal digits, with no leading zero for a positive code |
| Js.ParseInt | backend/models/User.js:77 | parseInt with no radix: leading whitespace, an optional sign, an optional "0x" prefix, then the longest run of digits; NaN (None) when there is none. Its properties are Js.ParseIntDecimalText and Js.ParseIntNaN |
| Js.ParseIntDecimalText | backend/models/User.js:77 | parseInt of the text of a code, as mailed, gives back the code |
| Js.ParseIntNaN | backend/models/User.js:77 | a submission whose first non-blank character is neither a sign nor a digit parses to NaN |
| Js.RandomInt | backend/models/User.js:64 | floor(base + r * span) lies in [base, base + span) for every r in [0, 1) |
| Js.RandomIntCovers | backend/models/User.js:64 | every integer of that range is drawn by some r in [0, 1) |
| Bcrypt.Hash | backend/models/User.js:49-50 | a digest has the "$2b$10$" prefix followed by the salt, and is longer than what was hashed |
| Bcrypt.CompareHash | backend/models/User.js:58-60 | compare accepts the password that was hashed, under any salt |
| Bcrypt.CompareOnlyHashed | backend/models/User.js:58-60 | compare accepts nothing but the password that was hashed |
| Bcrypt.HashSalted | backend/models/User.js:49-50 | the same password under two different salts gives two different digests |
| Bcrypt.CompareDoubleHash | backend/server.js:276-283 | a digest of a digest accepts only the inner digest, and never the original password |
| Bcrypt.Compare | backend/models/User.js:59 | bcrypt.compare: the stored value is a digest and what it hashed is the candidate; its properties are Bcrypt.CompareHash, Bcrypt.CompareOnlyHashed and Bcrypt.CompareDoubleHash |
| EmailFormat.Matches | backend/models/User.js:20 | the pattern, also tested by validateEmail in Signup.js: an '@' and a later '.' cut the address into three non-empty runs of characters that are neither whitespace nor '@'. Its properties are EmailFormat.MatchesIffShape and EmailFormat.MatchesAt |
| EmailFormat.MatchesIffShape | frontend/src/components/Signup.js:54-57 | the pattern holds exactly when there is no whitespace, exactly one '@', a non-empty local part and a '.' inside the domain |
| EmailFormat.MatchesAt | backend/models/User.js:19-21 | a matching address has no whitespace, and its only '@' is at its first index, inside the string |
| EmailMask.FindMatch | backend/server.js:242 | the regular-expression search: the leftmost start that matches, the greedy (last reachable) '@' for it, none when nothing matches |
| EmailMask.Mask | backend/server.js:242 | the masked address has the length of the input |
| EmailMask.MaskSingleAt | backend/server.js:242 | with a single '@' at a: the first two characters and everything from the '@' on are kept, the characters between are '*', and a local part shorter than 3 leaves the address unchanged |
| EmailMask.MaskValidEmail | backend/server.js:242 | the same for every address that passes the e-mail pattern |
| UserModel.OtpCode | backend/models/User.js:64 | the login code is a 4-digit number in [1000, 9999] |
| UserModel.NormalizeUsername | backend/models/User.js:5-29 | the username setter: trim |
| UserModel.NormalizeEmail | backend/models/User.js:5-29 | the e-mail setters: trim, then lowercase; see UserModel.NormalizeEmailIdempotent and UserModel.NormalizeMatching |
| UserModel.SchemaValid | backend/models/User.js:5-29 | the validators on the values after the setters: a username of at least 5 characters, an e-mail matching the pattern, a password of at least 12 |
| UserModel.OtpAccepts | backend/models/User.js:76-78 | verifyOTP on a record: a stored code strictly equal to parseInt of the submission, and a stored expiry strictly later than now; its properties are the three lemmas below |
| UserModel.NormalizedBySetters | backend/models/User.js:5-17 | after the setters, the username has no whitespace at either end and the e-mail no upper-case letter |
| UserModel.NormalizeEmailIdempotent | backend/models/User.js:16-17 | the e-mail setters applied to a stored address give back that address, so a lookup finds the record |
| UserModel.NormalizeMatching | backend/models/User.js:12-24 | an address that passes the pattern is stored as its lower-case form, which passes the pattern again |
| UserModel.MailedOtpAccepted | backend/models/User.js:76-78 | the code as mailed verifies exactly while its expiry is strictly later than now |
| UserModel.OtpWindow | backend/models/User.js:65-77 | a code issued at t verifies at t + 299999 ms and fails from t + 300000 ms on |
| UserModel.OtpRefusals | backend/models/User.js:76-78 | with no stored code, no stored expiry, or a NaN submission, verifyOTP is false |
| UserModel.User.Load | backend/server.js:87 | the loaded document holds the stored record, with the password not marked modified |
| UserModel.User.constructor | backend/server.js:181-185 | a new document holds the values after the setters, and the plain password, marked modified |
| UserModel.User.SetOTP | backend/models/User.js:63-67 | the returned code is in [1000, 9999] and is the stored one, and the expiry is now + 300000; both fields are overwritten |
| UserModel.User.ClearOTP | backend/models/User.js:70-73 | no code and no expiry remain |
| UserModel.User.AssignPassword | backend/server.js:280 | the password takes the value, and is marked modified when the value differs |
| UserModel.User.VerifyOTP | backend/models/User.js:76-78 | verifyOTP on the document is UserModel.OtpAccepts of its fields |
| UserModel.User.ComparePassword | backend/models/User.js:58-60 | comparePassword is Bcrypt.Compare of the candidate with the stored password |
| UserModel.User.PreSave | backend/models/User.js:45-55 | a modified password becomes its digest; an unmodified one stays as it is |
| PasswordStrength.Satisfied | frontend/src/components/PasswordStrength.js:9-30 | whether the password meets a rule: a length of at least 12, or a character matching [A-Z], [a-z], [0-9] or [^A-Za-z0-9] |
| PasswordStrength.Feedback | frontend/src/components/PasswordStrength.js:9-30 | the specification of getPasswordFeedback: the warning, then the sentence of every unmet rule in the fixed order, trimmed; its properties are the lemmas below |
| PasswordStrength.GetPasswordFeedback | frontend/src/components/PasswordStrength.js:9-30 | the builder returns the warning followed by the sentences of the unmet rules, in the fixed order, trimmed |
| PasswordStrength.AppendIfUnmet | frontend/src/components/PasswordStrength.js:13-27 | one conditional append extends the feedback by the rule's sentence exactly when the password misses the rule |
| PasswordStrength.UnmetIff | frontend/src/components/PasswordStrength.js:13-27 | a rule's sentence is listed exactly when the password misses the rule (under 12 characters; no [A-Z]; no [a-z]; no [0-9]; only [A-Za-z0-9]) |
| PasswordStrength.UnmetOrdered | frontend/src/components/PasswordStrength.js:13-27 | the listed sentences keep the order length, upper, lower, digit, special |
| PasswordStrength.RulesOrdered | frontend/src/components/PasswordStrength.js:13-27 | the five rules are checked in that order |
| PasswordStrength.FeedbackOrdered | frontend/src/components/PasswordStrength.js:13-27 | the rules whose sentences getPasswordFeedback appends are in the fixed order length, upper, lower, digit, special |
| PasswordStrength.FeedbackWithoutWarning | frontend/src/components/PasswordStrength.js:9-30 | with no warning: empty when every rule is met, otherwise the sentences without the leading space |
| PasswordStrength.StrengthText | frontend/src/components/PasswordStrength.js:32-41 | the switch: Very Weak, Weak, Fair, Strong, Very Strong for 0 to 4, and undefined (None) otherwise |
| PasswordStrength.StrengthTextLabels | frontend/src/components/PasswordStrength.js:32-41 | labels exist for the scores 0 to 4 only and differ from one another; the passing scores 3 and 4 are exactly Strong and Very Strong |
| Server.ResetCode | backend/server.js:226 | the reset code is a 6-digit number in [100000, 999999] |
| Server.StrengthGate | backend/server.js:49-62 | a score below 3, and only that, is refused with 400, a label that is neither Strong nor Very Strong, and the feedback |
| Server.ResetLookup | backend/server.js:256-260 | the reset lookup (also at server.js:298-302): the record's code equals the submitted one and its expiry is strictly later than now |
| Server.Resave | backend/models/User.js:5-15 | a stored record written back with its username and e-mail unchanged passes the validators and breaks no unique index |
| Server.StoreWrite | backend/models/User.js:5-15 | writing a valid record that breaks no unique index keeps the store valid: one record per e-mail, unique usernames and ids |
| Server.AuthServer.Save | backend/server.js:188 | save succeeds exactly when the validators pass and no unique index is broken; then the hooked document is written, otherwise nothing is |
| Server.AuthServer.SaveLoaded | backend/server.js:104 | save of a loaded document whose password is untouched (also at server.js:136): it never fails, and it writes the document back under its key, the store staying valid |
| Server.AuthServer.SetResetFields | backend/server.js:227-230 | the record gets the given reset code and expiry, nothing else changes |
| Server.AuthServer.SavePassword | backend/server.js:280-283 | the assigned password is saved, hashed by the hook when it changed, with the reset fields cleared; a password under 12 characters is refused |
| Server.AuthServer.Signup | backend/server.js:163-205 | gate 400; mismatch 400; existing e-mail 409; else 201 with id, username and e-mail and exactly one new record holding the digest, or 500 when the schema or the username index refuses |
| Server.AuthServer.Login | backend/server.js:81-121 | unknown e-mail 404 and wrong password 401, with nothing changed; a correct password stores a fresh code and mails it (200), or 500 when mail fails; never a token |
| Server.AuthServer.VerifyOtp | backend/server.js:124-158 | 400 and no change unless the code verifies; then both OTP fields are cleared, no code verifies again, and a token with id and e-mail is returned |
| Server.AuthServer.ForgetPassword | backend/server.js:208-247 | empty e-mail 400, unknown 404; otherwise a 6-digit code expiring in one hour is stored and mailed, and the reply shows the masked address |
| Server.AuthServer.EmailVerification | backend/server.js:294-317 | 400 unless e-mail, code and expiry match; then both reset fields are cleared, so no reset lookup succeeds again |
| Server.AuthServer.ResetPassword | backend/server.js:250-291 | as written: gate 400; a failed lookup gets no response; the old password 400; otherwise 200, a stored digest of a digest, and the new password no longer compares |
| Server.AuthServer.ResetPasswordFixed | backend/server.js:250-291 | as intended: a failed lookup 404; the old password 400; otherwise 200, hashed once by the hook, and the new password compares |
| SignupForm.ValidatePassword | frontend/src/components/Signup.js:60-62 | validatePassword: at least 12 characters |
| SignupForm.ValidateUsername | frontend/src/components/Signup.js:65-67 | validateUsername: at least 5 characters |
| SignupForm.HandleSubmit | frontend/src/components/Signup.js:70-99 | handleSubmit up to the request: the message of the first failing check, or None when the form is posted; its properties are the lemmas below |
| SignupForm.SubmitFirstFailure | frontend/src/components/Signup.js:78-99 | the message of check i is shown exactly when check i fails and all earlier checks (e-mail, password, username, confirmation) pass |
| SignupForm.SubmitSendsOnlyValid | frontend/src/components/Signup.js:78-103 | the form is posted exactly when all four checks pass; otherwise one of the four messages is shown |
| SignupForm.PostedFormPassesSchema | frontend/src/components/Signup.js:60-67 | a posted form whose username has no whitespace at either end passes the schema's validators after the setters |
| SignupForm.PaddedUsernamePassesForm | frontend/src/components/Signup.js:65-67 | a username padded with spaces passes the form but fails the schema once trimmed |
| Captcha.Toggle | frontend/src/components/Captcha.js:73-79 | the new selection of handleImageClick: a selected id is filtered out, any other id is appended |
| Captcha.SelectedNonDogs | frontend/src/components/Captcha.js:83-86 | the filter of the selected ids that are known non-dogs; see Captcha.SelectedNonDogsSpec |
| Captcha.DogIds | frontend/src/components/Captcha.js:90 | the ids of the dog pictures, in table order; see Captcha.DogIdsAre |
| Captcha.Decide | frontend/src/components/Captcha.js:81-107 | the verdict of handleVerify: a selected non-dog first, then a missing dog, else a pass; see Captcha.DecidePassed and Captcha.NonDogFirst |
| Captcha.Find | frontend/src/components/Captcha.js:84 | the picture found has the id; none found means no picture has it |
| Captcha.SelectedNonDogsSpec | frontend/src/components/Captcha.js:83-86 | the filter keeps exactly the selected ids of known non-dogs |
| Captcha.Remove | frontend/src/components/Captcha.js:76 | the filtered list holds exactly the other ids, and is no longer |
| Captcha.DogIdsAre | frontend/src/components/Captcha.js:23-33 | the dog ids are 1, 3, 5, 7, 9 |
| Captcha.NonDogIds | frontend/src/components/Captcha.js:23-33 | the known non-dog ids are 2, 4, 6, 8 |
| Captcha.ToggleFlips | frontend/src/components/Captcha.js:73-79 | a click flips the membership of its id and leaves every other id alone |
| Captcha.RemoveNoDuplicates | frontend/src/components/Captcha.js:76 | the filter keeps a duplicate-free list duplicate-free |
| Captcha.ToggleNoDuplicates | frontend/src/components/Captcha.js:73-79 | the selection never holds an id twice |
| Captcha.ToggleTwice | frontend/src/components/Captcha.js:73-79 | two clicks on an id restore the selection as a set, and, when the id was not selected, the very same list |
| Captcha.DecidePassed | frontend/src/components/Captcha.js:90-107 | the verdict passes exactly when every dog id is selected and no non-dog id is |
| Captcha.NonDogFirst | frontend/src/components/Captcha.js:95-97 | a selected non-dog gives the "only dogs" message, even with every dog selected |
| Captcha.Widget.constructor | frontend/src/components/Captcha.js:15-20 | the initial state: unchecked, nothing selected, grid and dialog closed, not verified |
| Captcha.Widget.CheckboxChange | frontend/src/components/Captcha.js:64-71 | the box follows the click, and once verified nothing changes |
| Captcha.Widget.GridTimer | frontend/src/components/Captcha.js:49-57 | the grid opens when the box is checked and the CAPTCHA has not passed |
| Captcha.Widget.ImageClick | frontend/src/components/Captcha.js:73-79 | the selection becomes its toggle and stays duplicate-free |
| Captcha.Widget.HandleVerify | frontend/src/components/Captcha.js:81-109 | the dialog shows the verdict's message; the page is notified exactly on a pass, which marks the widget verified and checked and closes the grid; otherwise those flags stay |
| Captcha.Widget.CloseDialog | frontend/src/components/Captcha.js:111-113 | the dialog closes |
| Captcha.Widget.Reset | frontend/src/components/Captcha.js:36-42 | unchecked, nothing selected, grid closed, not verified |
| Scenarios.SampleAcceptable | backend/models/User.js:5-29 | "alice", "alice@x.com", "Abcdefgh123!" pass the schema |
| Scenarios.SignedUp | backend/server.js:163-205 | a fresh server after signup holds exactly one record, with id 0 and the password's digest, and replies 201 |
| Scenarios.LoginFlow | backend/server.js:81-158 | login mails the code; the code as mailed logs in with a token for the record; the same code again is refused |
| Scenarios.ExpiredOtp | backend/server.js:124-132 | the mailed code submitted at or after its expiry is refused with 400 |
| Scenarios.CodeConsumed | backend/server.js:208-317 | the forget reply shows the masked address; the code page consumes the code, after which no reset lookup finds the record |
| Scenarios.ClientResetFlow | backend/server.js:256-290 | the reset as the client pages drive it: the handler as written never answers, the corrected one answers 404 |
| Scenarios.DirectReset | backend/server.js:276-283 | a reset with the mailed code reports success, after which the new password gets 401 at login |
| Scenarios.DirectResetFixed | backend/server.js:276-283 | against the corrected handler, the new password logs in afterwards |

## Left out

- The Express setup, CORS, the database connection, the placeholder route and `listen`: plumbing with no logic.
- The mail transport: whether `sendMail` delivers is a parameter, and delivered mails go to an outbox. Its failures are the 500 replies of `/login` and `/forgetpassword`.
- `verifyToken`: it is attached to no route. A token is its payload (id and e-mail); its signature and expiry are not modelled.
- zxcvbn: `checkPasswordStrength` and the warning are an `Estimate` input. `backend/passwordStrength.js` is not part of this model; the gate uses the feedback and labels of `PasswordStrength.js`, which it is taken to share.
- bcrypt internals: the digest is an injective encoding of salt and password, standing for an ideal hash. Its 72-byte limit and real collisions are not modelled.
- `Math.random()` is an exact real in [0, 1), not a double. The distribution is not modelled, and neither is the CAPTCHA shuffle or the grid order it displays.
- The stored timestamps (`createdAt`, `updatedAt`) and the Date type: times are whole milliseconds.
- Database failures other than validation and unique indexes (connection loss, timeouts), and the 500 replies they cause. Races between concurrent requests.
- UserModel.User.ClearOTP: the source assigns the `Number` and `Date` constructors to the two fields rather than clearing them. The model assumes this clears them, so that a used code no longer verifies. The source does not settle what the store does with these values. Mongoose casts assigned values, and casting the `Number` constructor to a number gives NaN, so `save` may instead refuse the document. In that case `/verify-otp` answers 500, the code stays stored and no token is issued. The model does not capture that alternative.
- Server.AuthServer.Signup: a save refused by the schema's validators and a duplicate username refused by the unique index both reach the catch block and are answered with 500 "Server error". The reply's `error` field, the error's message, is not modelled in either case.
- Js.ToLower, Js.ToLowerShape, Js.ToLowerNoUpper: only ASCII letters are lowercased; Unicode case mapping is not modelled. String lengths count characters, not UTF-16 code units.
- A `null` or absent reset code in a request is `None`, which matches a record without a code; mongoose's casting of other non-numeric codes is not modelled.
- Request fields are strings. A field missing from the request body (for example `/login` with no password, where `bcrypt.compare(undefined, …)` throws and the catch answers 500) is not modelled, except the reset code (above) and the e-mail of `/forgetpassword` (the empty string).
- React rendering, axios, navigation, the success and error messages after the request, and the other pages (Login, Forgetpassword, Emailverification, Resetpassword, Home, App).
- Console logging.

## Findings

| source | as written | input that shows it | evidently intended | confidence | as-written member | corrected member |
|---|---|---|---|---|---|---|
| backend/server.js:276-283 | the handler hashes the new password and assigns the digest; the pre-save hook sees a modified password and hashes it again | any reset with a valid code and a new password of at least 12 characters that differs from the old one: the reply is 200, then login with the new password gets 401 | the password is hashed once, so it logs in afterwards | not executed | Scenarios.DirectReset | Scenarios.DirectResetFixed |
| backend/server.js:262-265 | the null check after the lookup is commented out and the catch block is empty | the client flow: /forgetpassword, then /emailverification (which clears the code), then /resetpassword without a code; the lookup finds nothing and the request is never answered | 404 "User not found or invalid verification code", as the commented-out lines say | not executed | Scenarios.ClientResetFlow | Server.AuthServer.ResetPasswordFixed |
