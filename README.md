# pawprint-backend: account validation and upload filter, in Dafny

This project models the account controller of the pawprint backend and its
image-upload configuration.

## Account controller

The controller has three request pipelines:

- `createUser`
- `editUser`
- `authenticateUser`

Each is a sequence of express-validator chains, one per body field, followed
by a final handler.

A chain works in place, in the order its steps are listed:

- It trims its field.
- A length chain checks `isLength` on the trimmed value, then HTML-escapes it.
- A chain with a `custom` validator escapes first, so the custom validator
  sees the escaped value. This holds for the create email and confirmation,
  the edit password and confirmation, and both sign-in fields.
- The sanitized value is written back into `req.body`.

A later chain therefore reads what an earlier chain left behind. Every failing
validator adds one `{field, message}` error, and no chain stops the others.
The final handler answers 400 with all errors, and then nothing is created or
updated. Otherwise it builds what goes to the user service:

- the new user and its default profile;
- the edit `formData`;
- or the hand-over to the next handler.

`createGuestUser` derives a guest from an 8-digit numeric identifier. It
leaves the guest's email and plaintext identifier in `req.body` for the
authentication chains that run next.

## Modules

- `JsStrings` is the JavaScript string behaviour the code relies on:
  - truthiness of an optional field;
  - `trim` with the `\s` whitespace set;
  - `split('@')[0]`;
  - unanchored regular-expression alternatives;
  - ASCII `toLowerCase`;
  - decimal rendering of a number.
- `Accounts` holds the stored accounts as the user service returns them, with
  the provider links as optional fields. It has read-only lookups by email and
  by id. The `escape` sanitizer and bcrypt's `hash` and `compare` are
  function-valued parameters.
- `UserValidation` holds the validation rules as pure functions:
  - `Chain(rules, body, directory, externals, field)` is the errors of one
    chain.
  - `Errors` is the five chains concatenated in declaration order.
  - `Sanitized` is the body after all chains.
- `UserController` has a `Request` class whose `body` and `errors` the step
  methods update chain by chain, exactly as the middleware does. Each
  pipeline's method is proved equal to `Errors`/`Sanitized`. The module also
  holds the final handlers, the `formData` assembly and guest creation.
- `Multer` covers three pieces:
  - `path.extname`, following Node's POSIX implementation;
  - the image `fileFilter`;
  - the stored file name, with the clock reading as a parameter.

## Behaviour worth noting

- **An unknown email at sign-in.** The password chain's custom validator
  resolves `false` for a missing or Facebook-linked account
  (src/controllers/userController.js:274-277). An async custom validator
  that resolves adds no error. So an unknown email produces only the email
  error, with no "Incorrect password" beside it.
- **Google accounts at sign-in.** The same check skips only Facebook-linked
  accounts, so a Google-linked account still goes through `bcrypt.compare`
  (src/controllers/userController.js:275-281).
- **When an edit needs a confirmation.** The password chain demands one only
  when the account is not provider-linked, the sanitized new password is
  non-empty, and the submitted `confirmPassword` is falsy
  (src/controllers/userController.js:175-190).
- **The create password message.** The message at
  src/controllers/userController.js:57 says "minimum of 3 characters", while
  the rule at line 59 requires 6 after trimming. The model keeps both.

## Model

| member | source | states |
|---|---|---|
| UserValidation.CreateLengthAndMatchRules | src/controllers/userController.js:31-69 | first and last name fail, each with its own message, exactly when shorter than 2 after trimming; the password fails exactly when shorter than 6 after trimming (its message says 3); the confirmation fails exactly when its sanitized value differs from the sanitized password |
| UserValidation.CreateEmailRule | src/controllers/userController.js:39-56 | no email error for an unused sanitized email; otherwise exactly one, naming Facebook first, then Google, then a plain "already exists" |
| UserValidation.ErrorsByField | src/controllers/userController.js:30-69 | the errors a request reports on a field are exactly that field's chain's errors (chains are independent, none short-circuits another) |
| UserValidation.ErrorsInDeclarationOrder | src/controllers/userController.js:139-201 | errors are listed in the order the fields' chains are declared |
| UserValidation.EditAbsentFieldUnchecked | src/controllers/userController.js:141-201 | an optional field absent from the body is never validated |
| UserValidation.EditLinkedAccountRule | src/controllers/userController.js:151-191 | for a provider-linked user any supplied email or password is refused with that provider's message, Facebook tested first, and no confirmation is asked for |
| UserValidation.EditLocalAccountRule | src/controllers/userController.js:168-191 | for a local user the email is accepted and a non-empty new password with a falsy confirmation yields "Confirm password is required…", beside the length rule |
| UserValidation.EditConfirmRule | src/controllers/userController.js:192-201 | a supplied confirmation fails ("New passwords must match") exactly when the password is absent or differs once both are sanitized |
| UserValidation.EditIgnoresOtherAccounts | src/controllers/userController.js:155-175 | the edit rules depend only on the signed-in user's record |
| UserValidation.AuthenticateEmailRule | src/controllers/userController.js:252-269 | unknown email gives "An account using this email does not exist"; linked accounts give the provider message, Google tested first; a local account gives nothing |
| UserValidation.AuthenticatePasswordRule | src/controllers/userController.js:270-283 | no password error for a missing or Facebook account; otherwise "Incorrect password" exactly when compare resolves false (Google accounts included); a rejected compare yields one error |
| UserValidation.AuthenticateWrongPassword | src/controllers/userController.js:251-283 | a wrong password for a local account yields exactly one error, on the password field |
| UserValidation.AuthenticateSucceedsIff | src/controllers/userController.js:251-283 | sign-in validation passes exactly when the sanitized email names a local account and compare resolves true |
| UserController.AssembleFormData | src/controllers/userController.js:208-215 | formData holds exactly the truthy name, email and password fields, the password as its hash, never the confirmation |
| UserController.Request.LengthChain | src/controllers/userController.js:31-38 | one trim/isLength/escape chain: appends the length error of the trimmed value and writes the sanitized value back |
| UserController.Request.EmailInUseChain | src/controllers/userController.js:39-56 | sanitizes the email in place, then reports on the account found under the sanitized email |
| UserController.Request.MatchChain | src/controllers/userController.js:61-69 | sanitizes the confirmation in place and compares it with the password as the body holds it now |
| UserController.Request.EmailLockedChain | src/controllers/userController.js:151-167 | sanitizes the email in place and reports only on the signed-in user's provider links |
| UserController.Request.NewPasswordChain | src/controllers/userController.js:168-191 | length rule on the trimmed password, then the custom check on the sanitized password against the confirmation as submitted |
| UserController.Request.AccountChain | src/controllers/userController.js:252-269 | sanitizes the email in place and reports on the account found under it |
| UserController.Request.PasswordChain | src/controllers/userController.js:270-283 | sanitizes the password in place and checks it against the account found under the already-sanitized email |
| UserController.Request.OptionalLengthChain | src/controllers/userController.js:141-150 | an optional chain: an absent field is neither validated nor written |
| UserController.Request.OptionalEmailLockedChain | src/controllers/userController.js:151-167 | the optional email chain of an edit |
| UserController.Request.OptionalNewPasswordChain | src/controllers/userController.js:168-191 | the optional password chain of an edit |
| UserController.Request.OptionalMatchChain | src/controllers/userController.js:192-201 | the optional confirmation chain of an edit |
| UserController.Request.ValidateCreate | src/controllers/userController.js:30-69 | running the create chains in place appends exactly `Errors(Create, …)` of the submitted body and leaves every field sanitized |
| UserController.Request.ValidateEdit | src/controllers/userController.js:139-201 | running the edit chains in place appends exactly `Errors(Edit, …)` and sanitizes only the fields present |
| UserController.Request.ValidateAuthenticate | src/controllers/userController.js:251-283 | running the sign-in chains in place appends exactly `Errors(Authenticate, …)` and sanitizes email and password |
| UserController.CreateSteps | src/controllers/userController.js:30-69 | the five create steps, each reading the body as the previous left it, amount to the create rules on the submitted body |
| UserController.EditSteps | src/controllers/userController.js:139-201 | the five optional edit steps amount to the edit rules on the submitted body |
| UserController.Request.FinishCreate | src/controllers/userController.js:71-103 | 400 with all errors iff there are any; otherwise the user from the sanitized body with hashed password, and a default profile whose username is the email before its first `@` |
| UserController.Request.CreateUser | src/controllers/userController.js:30-103 | rejected exactly when the create rules report errors; otherwise the created user is built from the sanitized fields, and its default profile has the email before its first `@` as username, petName "Default" and active set; the body ends sanitized and the errors are exactly the create rules' errors |
| UserController.Request.FinishEdit | src/controllers/userController.js:202-224 | 400 with all errors iff there are any; otherwise the truthy-field formData |
| UserController.Request.EditUser | src/controllers/userController.js:139-224 | rejected exactly when the edit rules report errors; otherwise formData holds the supplied fields whose sanitized value is non-empty, confirmation excluded, each as its sanitized text and the password as the hash of its sanitized value; the body ends sanitized and the errors are exactly the edit rules' errors |
| UserController.Request.FinishAuthenticate | src/controllers/userController.js:284-291 | 400 with all errors iff there are any, otherwise on to the next handler |
| UserController.Request.AuthenticateUser | src/controllers/userController.js:251-291 | the request goes on exactly when the sanitized email names a local account whose stored hash matches the sanitized password; the body handed on carries the sanitized email and password, and the errors are exactly the sign-in rules' errors |
| UserController.Request.CreateGuestUser | src/controllers/userController.js:106-137 | the guest is "Human", u, "Human"+u+"@pawprint.com" with the hash of u; profile username "Human_"+u; the body then carries that email and plaintext u |
| UserController.Request.GuestSignIn | src/controllers/userController.js:106-137 | a guest creation followed by sign-in with the stored guest passes to the next handler, with no errors and a body carrying the guest email and the plaintext identifier |
| UserController.GuestCredentialsAuthenticate | src/controllers/userController.js:113-132 | the forwarded guest credentials pass every sign-in check once the guest is stored, and sanitizing leaves them unchanged, given escape keeps plain text and compare matches u against its hash |
| UserController.GuestIdIsPlain | src/controllers/userController.js:108-117 | a guest identifier and its email contain neither whitespace nor HTML-special characters, so trim and escape keep them |
| UserController.GuestDerivations | src/controllers/userController.js:114-125 | the guest username (line 125) splits back into "Human" and u around its `_`; the guest email is `"Human"+u` before its `@` |
| UserController.DefaultUsernameOfAddress | src/controllers/userController.js:86-87 | the default username of `name@domain` is `name` when `name` has no `@` |
| JsStrings.BeforeFirst | src/controllers/userController.js:86-87 | `split('@')[0]` is a prefix without `@`, followed by `@` when shorter than the email |
| JsStrings.BeforeFirstOfJoin | src/controllers/userController.js:86-87 | the part before the first separator is exactly what was joined in front of it |
| JsStrings.TrimIsSlice | src/controllers/userController.js:31-34 | `trim()` keeps one slice of its input, removes only whitespace, and leaves no whitespace at either end |
| JsStrings.TrimNoSpace | src/controllers/userController.js:131-132 | trimming a value without whitespace leaves it unchanged |
| JsStrings.ContainsIffOccurs | src/utils/multer.js:21-25 | the left-to-right scan finds a word exactly when it occurs at some position |
| JsStrings.DecimalRoundTrip | src/utils/multer.js:9 | the decimal rendering of the clock reading reads back as the same number |
| Accounts.WithAccount | src/controllers/userController.js:120 | after storing, the account is found under its email and its id, and every other email and id finds what it found before |
| Multer.LastIndexOfIsLast | src/utils/multer.js:9 | the index found holds the character and none follows it |
| Multer.StripTrailingSlashesKeepsPrefix | src/utils/multer.js:9 | stripping keeps a prefix not ending in `/` and drops only slashes |
| Multer.ExtNameShape | src/utils/multer.js:9 | a non-empty extension is a dot followed by no dot and no slash |
| Multer.ExtNameOfFileName | src/utils/multer.js:23 | `path.extname("base.ext")` is `.ext` |
| Multer.ImageTypeIffMentions | src/utils/multer.js:21-25 | the image pattern's test holds exactly when one of jpeg, jpg, png, gif occurs somewhere |
| Multer.FileFilterDecision | src/utils/multer.js:17-30 | no file is accepted; a file is accepted exactly when both the mimetype and the lower-cased extension contain an image word; every refusal is "Error: Images Only!" |
| Multer.MimetypeIsCaseSensitive | src/utils/multer.js:25-29 | the mimetype is not lower-cased: `IMAGE/PNG` is refused |
| Multer.ExtensionIsCaseInsensitive | src/utils/multer.js:22-27 | the extension is lower-cased: `cat.PNG` sent as `image/png` passes |
| Multer.FilterIsUnanchored | src/utils/multer.js:21-27 | the pattern is unanchored: extension `.pngx` passes |
| Multer.ExtNameOfSuffix | src/utils/multer.js:9 | an extension appended after an ordinary character is the extension of the whole name |
| Multer.StoredFilenameReadsBack | src/utils/multer.js:6-11 | every stored name is the field name, `-`, digits that read back as the clock reading, and then the extension of the original name |
| Multer.StoredFilenameKeepsExtension | src/utils/multer.js:6-11 | the stored name's extension is the original's, whenever the original has one or the field name has no dot |

## Left out

- Failures of `bcrypt.hash` and of the user and profile services are not modelled; those calls are total functions here. This covers the `try`/`catch` that answers 500 in `createUser`'s final handler (src/controllers/userController.js:76, 99-101) and in `createGuestUser` (src/controllers/userController.js:107, 134-136). `CreateUser`, `CreateGuestUser` and `GuestSignIn` assume all three calls succeed.
- A rejected `getUserByEmail` or `getUserById` inside a custom validator (src/controllers/userController.js:43, 156, 175, 256, 274) is not modelled. express-validator would catch it and record an error on that field carrying the rejection's message, and the response would be 400. The lookups are total here; only a rejected `bcrypt.compare` is modelled, as `CompareFailed`.
- The race between the create email check and the insertion is not modelled: the account directory is a read-only snapshot.
- The bcrypt algorithm, its cost factor 10 and salts are not modelled: `hash` and `compare` are parameters.
- `randomstring.generate` is not modelled: the guest identifier is an input, constrained to 8 decimal digits.
- `Date.now()` is not modelled: the timestamp is an input.
- The HTML entities `escape` produces are not modelled: `escape` is a parameter, and only the guest lemmas assume it leaves text without HTML-special characters unchanged.
- `isLength` counts code points, as `|s|` does on Dafny's Unicode characters; validator.js also leaves the variation selectors U+FE0E and U+FE0F out of the count, which the model does not.
- `toLowerCase` lowers ASCII letters only.
- An error reported to the client also carries the field's `value`, `location` and `type`; `FieldError` keeps only the field and the message, so the echoed value (for a too-short password, the trimmed password itself) is not modelled.
- Non-string body values (arrays, numbers) are not modelled: every present field is a string.
- `getUsers`, `getUserById`, `deleteUser` and `deleteExpiredGuests` are outside this model (plain service pass-throughs and a scheduled sweep).
- The comment controller and post routes are outside this model.
- multer's `destination`, the disk write and `upload.none()` are not modelled, because they are file I/O and multipart parsing.
- Asynchronous ordering is not modelled: chains run one after the other, as express-validator awaits each in sequence.
- UserController.Request.FinishCreate: the user the user service returns (`newUser`, line 84) is modelled as the data sent to it, so the default username at lines 86-87 is taken from the submitted email. The profile the profile service returns is modelled as the profile data sent to it (`id: 'null'` omitted).
- UserController.Request.CreateGuestUser: the guest the user service returns (`newGuestUser`, line 120) is modelled as the data sent to it, so the username at line 125 and the email put into the body at line 131 come from the derived guest data.
- UserController.Request.GuestSignIn: the user service is assumed to store the guest under `Human<u>@pawprint.com`, replacing any account already stored under that email (`WithAccount`). The source does not guard against an identifier that collides with an existing account; what then happens depends on the user service, which is not part of this model.
- UserValidation.PasswordCheck: a `bcrypt.compare` that rejects with an empty message is reported as "Incorrect password", the chain's own message. This assumes express-validator falls back to the chain's message; versions that fall back to "Invalid value" instead are not modelled.
