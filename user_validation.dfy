/**
 * The validation rules of the account controller as pure functions over a
 * snapshot of the request body and a read-only account directory. Each rule
 * set is one validation chain per field, run in declaration order. Each chain
 * trims its field; a length chain then checks the trimmed value and escapes
 * it, while a chain with a custom validator escapes first and validates the
 * escaped value. Every failing validator adds one error (no chain stops early). The errors of a request are
 * the chains' errors concatenated in declaration order.
 */
module UserValidation {
  import opened JsStrings
  import opened Accounts

  /** The request-body fields the controller reads, in declaration order. */
  datatype Field = FirstName | LastName | Email | Password | ConfirmPassword {
    /** The body key the field is read from; it names the field in the client's error list and no rule depends on it. */
    function Key(): string {
      match this
      case FirstName => "firstName"
      case LastName => "lastName"
      case Email => "email"
      case Password => "password"
      case ConfirmPassword => "confirmPassword"
    }

    /** Position of the field's chain in every rule set. */
    function Rank(): nat {
      match this
      case FirstName => 0
      case LastName => 1
      case Email => 2
      case Password => 3
      case ConfirmPassword => 4
    }
  }

  /** `req.body`: a field missing from the map is `undefined`. */
  type Body = map<Field, string>

  /** One entry of `validationResult(req).array()`. */
  datatype FieldError = FieldError(field: Field, message: Message)

  /** The three rule sets; an edit validates against the signed-in user `req.user.id`. */
  datatype RuleSet = Create | Edit(userId: UserId) | Authenticate

  /**
   * The messages the controller attaches to errors. `Text` records the exact
   * string sent to the client; the rules compare messages as constructors, so
   * no contract depends on it. `CompareError` carries the message of a
   * rejected bcrypt compare.
   */
  datatype Message =
    | FirstNameTooShort | LastNameTooShort | PasswordTooShort | PasswordsMustMatch
    | EmailUsedByFacebook | EmailUsedByGoogle | EmailUsed
    | EmailLockedByFacebook | EmailLockedByGoogle
    | NewPasswordTooShort | PasswordLockedByFacebook | PasswordLockedByGoogle
    | ConfirmRequired | NewPasswordsMustMatch
    | UnknownEmail | IncorrectPassword
    | CompareError(text: string)
  {
    function Text(): string {
      match this
      case FirstNameTooShort => "First name must be a minimum of 2 characters"
      case LastNameTooShort => "Last name must be a minimum of 2 characters"
      // The create rule requires 6 characters although its message says 3.
      case PasswordTooShort => "Password must be a minimum of 3 characters"
      case PasswordsMustMatch => "Passwords must match"
      case EmailUsedByFacebook => "An account with this email already exists using the Facebook sign in option"
      case EmailUsedByGoogle => "An account with this email already exists using the Google sign in option"
      case EmailUsed => "An account with this email already exists"
      case EmailLockedByFacebook => "You cannot change your email since it is linked to the Facebook sign in option"
      case EmailLockedByGoogle => "You cannot change your email since it is linked to the Google sign in option"
      case NewPasswordTooShort => "New password must be a minimum of 6 characters"
      case PasswordLockedByFacebook => "You cannot change your password since it is linked to the Facebook sign in option"
      case PasswordLockedByGoogle => "You cannot change your password since it is linked to the Google sign in option"
      case ConfirmRequired => "Confirm password is required when setting a new password"
      case NewPasswordsMustMatch => "New passwords must match"
      case UnknownEmail => "An account using this email does not exist"
      case IncorrectPassword => "Incorrect password"
      case CompareError(text) => text
    }
  }

  /** A required field as its chain reads it: `undefined` becomes the empty string. */
  function Raw(b: Body, f: Field): string {
    if f in b then b[f] else ""
  }

  function Get(b: Body, f: Field): Option<string> {
    if f in b then Some(b[f]) else None
  }

  /** What `.trim()` followed by `.escape()` leaves in the body. */
  function Sanitize(x: Externals, s: string): string {
    x.escape(Trim(s))
  }

  /** `.isLength({ min })` on the trimmed value. */
  function TooShort(f: Field, trimmed: string, min: nat, message: Message): (r: seq<FieldError>)
    ensures OnField(r, f)
  {
    if |trimmed| < min then [FieldError(f, message)] else []
  }

  /**
   * A synchronous custom validator `value !== other`: returning false records
   * the chain's default message. `other` is `None` when that field is `undefined`.
   */
  function Mismatch(f: Field, value: string, other: Option<string>, message: Message): (r: seq<FieldError>)
    ensures OnField(r, f)
  {
    if Some(value) != other then [FieldError(f, message)] else []
  }

  /** The asynchronous email check of account creation (a throw records its message). */
  function EmailInUse(user: Option<Account>): (r: seq<FieldError>)
    ensures OnField(r, Email)
  {
    match user
    case None => []
    case Some(u) =>
      if FacebookLinked(u) then [FieldError(Email, EmailUsedByFacebook)]
      else if GoogleLinked(u) then [FieldError(Email, EmailUsedByGoogle)]
      else [FieldError(Email, EmailUsed)]
  }

  /** The asynchronous email check of an edit: it looks only at the signed-in user. */
  function EmailLocked(user: Option<Account>): (r: seq<FieldError>)
    ensures OnField(r, Email)
  {
    if user.Some? && FacebookLinked(user.value) then [FieldError(Email, EmailLockedByFacebook)]
    else if user.Some? && GoogleLinked(user.value) then [FieldError(Email, EmailLockedByGoogle)]
    else []
  }

  /**
   * The asynchronous password check of an edit. `value` is the sanitized new
   * password; `confirm` is `req.body.confirmPassword` before its own chain has run.
   */
  function PasswordLocked(user: Option<Account>, value: string, confirm: Option<string>): (r: seq<FieldError>)
    ensures OnField(r, Password)
  {
    if user.Some? && FacebookLinked(user.value) then [FieldError(Password, PasswordLockedByFacebook)]
    else if user.Some? && GoogleLinked(user.value) then [FieldError(Password, PasswordLockedByGoogle)]
    else if value != "" && !Truthy(confirm) then [FieldError(Password, ConfirmRequired)]
    else []
  }

  /** The asynchronous email check of sign-in; Google is tested before Facebook. */
  function AccountCheck(user: Option<Account>): (r: seq<FieldError>)
    ensures OnField(r, Email)
  {
    match user
    case None => [FieldError(Email, UnknownEmail)]
    case Some(u) =>
      if GoogleLinked(u) then [FieldError(Email, EmailUsedByGoogle)]
      else if FacebookLinked(u) then [FieldError(Email, EmailUsedByFacebook)]
      else []
  }

  /**
   * The asynchronous password check of sign-in. Resolving to false (no account,
   * or a Facebook account) records nothing; a compare that resolves false
   * throws "Incorrect password"; a rejected compare records its own message.
   */
  function PasswordCheck(user: Option<Account>, value: string, x: Externals): (r: seq<FieldError>)
    ensures OnField(r, Password)
  {
    if user.None? || FacebookLinked(user.value) then []
    else
      match x.compare(value, user.value.password)
      case Compared(ok) => if ok then [] else [FieldError(Password, IncorrectPassword)]
      case CompareFailed(m) => [FieldError(Password, if m == "" then IncorrectPassword else CompareError(m))]
  }

  /** The chain of `createUser` for field `f`, applied to the body as submitted. */
  function CreateChain(b: Body, d: Directory, x: Externals, f: Field): seq<FieldError> {
    match f
    case FirstName => TooShort(FirstName, Trim(Raw(b, FirstName)), 2, FirstNameTooShort)
    case LastName => TooShort(LastName, Trim(Raw(b, LastName)), 2, LastNameTooShort)
    case Email => EmailInUse(FindByEmail(d, Sanitize(x, Raw(b, Email))))
    case Password => TooShort(Password, Trim(Raw(b, Password)), 6, PasswordTooShort)
    case ConfirmPassword =>
      Mismatch(ConfirmPassword, Sanitize(x, Raw(b, ConfirmPassword)), Some(Sanitize(x, Raw(b, Password))), PasswordsMustMatch)
  }

  /** The chain of `editUser` for field `f`; every field is optional. */
  function EditChain(b: Body, user: Option<Account>, x: Externals, f: Field): seq<FieldError> {
    if f !in b then []
    else
      match f
      case FirstName => TooShort(FirstName, Trim(b[FirstName]), 2, FirstNameTooShort)
      case LastName => TooShort(LastName, Trim(b[LastName]), 2, LastNameTooShort)
      case Email => EmailLocked(user)
      case Password =>
        TooShort(Password, Trim(b[Password]), 6, NewPasswordTooShort)
        + PasswordLocked(user, Sanitize(x, b[Password]), Get(b, ConfirmPassword))
      case ConfirmPassword =>
        Mismatch(ConfirmPassword, Sanitize(x, b[ConfirmPassword]),
                 if Password in b then Some(Sanitize(x, b[Password])) else None, NewPasswordsMustMatch)
  }

  /** The chain of `authenticateUser` for field `f`; only email and password have one. */
  function AuthenticateChain(b: Body, d: Directory, x: Externals, f: Field): seq<FieldError> {
    match f
    case Email => AccountCheck(FindByEmail(d, Sanitize(x, Raw(b, Email))))
    case Password => PasswordCheck(FindByEmail(d, Sanitize(x, Raw(b, Email))), Sanitize(x, Raw(b, Password)), x)
    case _ => []
  }

  function Chain(rules: RuleSet, b: Body, d: Directory, x: Externals, f: Field): seq<FieldError> {
    match rules
    case Create => CreateChain(b, d, x, f)
    case Edit(id) => EditChain(b, FindById(d, id), x, f)
    case Authenticate => AuthenticateChain(b, d, x, f)
  }

  /** `validationResult(req).array()` after the chains of `rules` ran on body `b`. */
  function Errors(rules: RuleSet, b: Body, d: Directory, x: Externals): seq<FieldError> {
    Chain(rules, b, d, x, FirstName) + Chain(rules, b, d, x, LastName) + Chain(rules, b, d, x, Email)
    + Chain(rules, b, d, x, Password) + Chain(rules, b, d, x, ConfirmPassword)
  }

  const AllFields: set<Field> := {FirstName, LastName, Email, Password, ConfirmPassword}

  /** `req.body` after the chains of `rules` have sanitized it in place. */
  function Sanitized(rules: RuleSet, b: Body, x: Externals): Body {
    match rules
    case Create => map f | f in AllFields :: Sanitize(x, Raw(b, f))
    case Edit(_) => map f | f in b :: Sanitize(x, b[f])
    case Authenticate => b[Email := Sanitize(x, Raw(b, Email))][Password := Sanitize(x, Raw(b, Password))]
  }

  // ---------------------------------------------------------------------------
  // Errors grouped by field

  /** The errors reported on field `f`, in order. */
  function ErrorsFor(errs: seq<FieldError>, f: Field): seq<FieldError> {
    if errs == [] then []
    else (if errs[0].field == f then [errs[0]] else []) + ErrorsFor(errs[1..], f)
  }

  predicate OnField(errs: seq<FieldError>, g: Field) {
    forall i :: 0 <= i < |errs| ==> errs[i].field == g
  }

  lemma {:induction false} ErrorsForAppend(a: seq<FieldError>, b: seq<FieldError>, f: Field)
    ensures ErrorsFor(a + b, f) == ErrorsFor(a, f) + ErrorsFor(b, f)
  {
    if a == [] {
      assert a + b == b;
    } else {
      assert (a + b)[1..] == a[1..] + b;
      ErrorsForAppend(a[1..], b, f);
    }
  }

  lemma {:induction false} ErrorsForOnField(errs: seq<FieldError>, g: Field, f: Field)
    requires OnField(errs, g)
    ensures ErrorsFor(errs, f) == if f == g then errs else []
  {
    if errs != [] {
      ErrorsForOnField(errs[1..], g, f);
      if f == g {
        assert [errs[0]] + errs[1..] == errs;
      }
    }
  }

  /** Every error a chain adds names the chain's own field. */
  lemma ChainOnField(rules: RuleSet, b: Body, d: Directory, x: Externals, f: Field)
    ensures OnField(Chain(rules, b, d, x, f), f)
  {
    match rules
    case Create =>
    case Edit(id) =>
      if f == Password && f in b {
        var user := FindById(d, id);
        var a := TooShort(Password, Trim(b[Password]), 6, NewPasswordTooShort);
        var c := PasswordLocked(user, Sanitize(x, b[Password]), Get(b, ConfirmPassword));
        assert OnField(a, Password) && OnField(c, Password);
        assert OnField(a + c, Password);
      }
    case Authenticate =>
  }

  /** Five chains run one after the other, each reporting on its own field. */
  lemma {:induction false} ErrorsForFiveChains(
    c1: seq<FieldError>, c2: seq<FieldError>, c3: seq<FieldError>, c4: seq<FieldError>, c5: seq<FieldError>, f: Field)
    requires OnField(c1, FirstName) && OnField(c2, LastName) && OnField(c3, Email)
    requires OnField(c4, Password) && OnField(c5, ConfirmPassword)
    ensures ErrorsFor(c1 + c2 + c3 + c4 + c5, f)
         == match f
            case FirstName => c1
            case LastName => c2
            case Email => c3
            case Password => c4
            case ConfirmPassword => c5
  {
    ErrorsForAppend(c1 + c2 + c3 + c4, c5, f);
    ErrorsForAppend(c1 + c2 + c3, c4, f);
    ErrorsForAppend(c1 + c2, c3, f);
    ErrorsForAppend(c1, c2, f);
    ErrorsForOnField(c1, FirstName, f);
    ErrorsForOnField(c2, LastName, f);
    ErrorsForOnField(c3, Email, f);
    ErrorsForOnField(c4, Password, f);
    ErrorsForOnField(c5, ConfirmPassword, f);
  }

  /** The errors of a request on field `f` are exactly those of `f`'s chain: chains are independent. */
  lemma ErrorsByField(rules: RuleSet, b: Body, d: Directory, x: Externals, f: Field)
    ensures ErrorsFor(Errors(rules, b, d, x), f) == Chain(rules, b, d, x, f)
  {
    ChainOnField(rules, b, d, x, FirstName);
    ChainOnField(rules, b, d, x, LastName);
    ChainOnField(rules, b, d, x, Email);
    ChainOnField(rules, b, d, x, Password);
    ChainOnField(rules, b, d, x, ConfirmPassword);
    ErrorsForFiveChains(Chain(rules, b, d, x, FirstName), Chain(rules, b, d, x, LastName), Chain(rules, b, d, x, Email),
                        Chain(rules, b, d, x, Password), Chain(rules, b, d, x, ConfirmPassword), f);
  }

  /** Errors are listed in the order the fields' chains are declared. */
  predicate InDeclarationOrder(errs: seq<FieldError>) {
    forall i, j :: 0 <= i < j < |errs| ==> errs[i].field.Rank() <= errs[j].field.Rank()
  }

  predicate RanksAtMost(errs: seq<FieldError>, k: nat) {
    forall i :: 0 <= i < |errs| ==> errs[i].field.Rank() <= k
  }

  lemma AppendChain(prefix: seq<FieldError>, c: seq<FieldError>, g: Field)
    requires InDeclarationOrder(prefix) && RanksAtMost(prefix, g.Rank())
    requires OnField(c, g)
    ensures InDeclarationOrder(prefix + c) && RanksAtMost(prefix + c, g.Rank())
  {
    var s := prefix + c;
    forall i, j | 0 <= i < j < |s|
      ensures s[i].field.Rank() <= s[j].field.Rank()
    {
      if j >= |prefix| {
        assert s[j] == c[j - |prefix|];
        if i >= |prefix| {
          assert s[i] == c[i - |prefix|];
        }
      }
    }
  }

  lemma FiveChainsInOrder(
    c1: seq<FieldError>, c2: seq<FieldError>, c3: seq<FieldError>, c4: seq<FieldError>, c5: seq<FieldError>)
    requires OnField(c1, FirstName) && OnField(c2, LastName) && OnField(c3, Email)
    requires OnField(c4, Password) && OnField(c5, ConfirmPassword)
    ensures InDeclarationOrder(c1 + c2 + c3 + c4 + c5)
  {
    AppendChain([], c1, FirstName);
    assert [] + c1 == c1;
    AppendChain(c1, c2, LastName);
    AppendChain(c1 + c2, c3, Email);
    AppendChain(c1 + c2 + c3, c4, Password);
    AppendChain(c1 + c2 + c3 + c4, c5, ConfirmPassword);
  }

  /** Every rule set lists its errors in the order its chains are declared. */
  lemma ErrorsInDeclarationOrder(rules: RuleSet, b: Body, d: Directory, x: Externals)
    ensures InDeclarationOrder(Errors(rules, b, d, x))
  {
    ChainOnField(rules, b, d, x, FirstName);
    ChainOnField(rules, b, d, x, LastName);
    ChainOnField(rules, b, d, x, Email);
    ChainOnField(rules, b, d, x, Password);
    ChainOnField(rules, b, d, x, ConfirmPassword);
    FiveChainsInOrder(Chain(rules, b, d, x, FirstName), Chain(rules, b, d, x, LastName), Chain(rules, b, d, x, Email),
                      Chain(rules, b, d, x, Password), Chain(rules, b, d, x, ConfirmPassword));
  }

  // ---------------------------------------------------------------------------
  // createUser

  /** Names must keep at least 2 characters and the password 6 after trimming; the confirmation must equal the password once both are sanitized. */
  lemma CreateLengthAndMatchRules(b: Body, d: Directory, x: Externals)
    ensures ErrorsFor(Errors(Create, b, d, x), FirstName)
         == if |Trim(Raw(b, FirstName))| < 2 then [FieldError(FirstName, FirstNameTooShort)] else []
    ensures ErrorsFor(Errors(Create, b, d, x), LastName)
         == if |Trim(Raw(b, LastName))| < 2 then [FieldError(LastName, LastNameTooShort)] else []
    ensures ErrorsFor(Errors(Create, b, d, x), Password)
         == if |Trim(Raw(b, Password))| < 6 then [FieldError(Password, PasswordTooShort)] else []
    ensures ErrorsFor(Errors(Create, b, d, x), ConfirmPassword)
         == if x.escape(Trim(Raw(b, ConfirmPassword))) != x.escape(Trim(Raw(b, Password)))
            then [FieldError(ConfirmPassword, PasswordsMustMatch)] else []
  {
    ErrorsByField(Create, b, d, x, FirstName);
    ErrorsByField(Create, b, d, x, LastName);
    ErrorsByField(Create, b, d, x, Password);
    ErrorsByField(Create, b, d, x, ConfirmPassword);
  }

  /**
   * A free email raises no email error; a taken one raises exactly one, whose
   * message names the provider of the existing account, Facebook before Google.
   */
  lemma CreateEmailRule(b: Body, d: Directory, x: Externals)
    ensures x.escape(Trim(Raw(b, Email))) !in d.byEmail ==> ErrorsFor(Errors(Create, b, d, x), Email) == []
    ensures var key := x.escape(Trim(Raw(b, Email)));
            key in d.byEmail && FacebookLinked(d.byEmail[key]) ==>
              ErrorsFor(Errors(Create, b, d, x), Email) == [FieldError(Email, EmailUsedByFacebook)]
    ensures var key := x.escape(Trim(Raw(b, Email)));
            key in d.byEmail && !FacebookLinked(d.byEmail[key]) && GoogleLinked(d.byEmail[key]) ==>
              ErrorsFor(Errors(Create, b, d, x), Email) == [FieldError(Email, EmailUsedByGoogle)]
    ensures var key := x.escape(Trim(Raw(b, Email)));
            key in d.byEmail && !FacebookLinked(d.byEmail[key]) && !GoogleLinked(d.byEmail[key]) ==>
              ErrorsFor(Errors(Create, b, d, x), Email) == [FieldError(Email, EmailUsed)]
  {
    ErrorsByField(Create, b, d, x, Email);
  }

  // ---------------------------------------------------------------------------
  // editUser

  /** A field the edit request leaves out is never validated. */
  lemma EditAbsentFieldUnchecked(b: Body, id: UserId, d: Directory, x: Externals, f: Field)
    requires f !in b
    ensures ErrorsFor(Errors(Edit(id), b, d, x), f) == []
  {
    ErrorsByField(Edit(id), b, d, x, f);
  }

  /**
   * For a provider-linked user, any supplied email or password is refused with
   * that provider's message whatever its value (Facebook tested first), and no
   * confirmation is asked for.
   */
  lemma EditLinkedAccountRule(b: Body, id: UserId, d: Directory, x: Externals)
    requires id in d.byId
    requires FacebookLinked(d.byId[id]) || GoogleLinked(d.byId[id])
    ensures Email in b ==>
              ErrorsFor(Errors(Edit(id), b, d, x), Email)
              == [FieldError(Email, if FacebookLinked(d.byId[id]) then EmailLockedByFacebook else EmailLockedByGoogle)]
    ensures Password in b ==>
              ErrorsFor(Errors(Edit(id), b, d, x), Password)
              == (if |Trim(b[Password])| < 6 then [FieldError(Password, NewPasswordTooShort)] else [])
                 + [FieldError(Password, if FacebookLinked(d.byId[id]) then PasswordLockedByFacebook else PasswordLockedByGoogle)]
  {
    ErrorsByField(Edit(id), b, d, x, Email);
    ErrorsByField(Edit(id), b, d, x, Password);
  }

  /**
   * For a user without provider links (or no stored user), a supplied email is
   * accepted as it is, and a non-empty new password without a truthy
   * confirmation asks for one.
   */
  lemma EditLocalAccountRule(b: Body, id: UserId, d: Directory, x: Externals)
    requires id in d.byId ==> !FacebookLinked(d.byId[id]) && !GoogleLinked(d.byId[id])
    ensures ErrorsFor(Errors(Edit(id), b, d, x), Email) == []
    ensures Password in b ==>
              ErrorsFor(Errors(Edit(id), b, d, x), Password)
              == (if |Trim(b[Password])| < 6 then [FieldError(Password, NewPasswordTooShort)] else [])
                 + (if x.escape(Trim(b[Password])) != "" && !Truthy(Get(b, ConfirmPassword))
                    then [FieldError(Password, ConfirmRequired)] else [])
  {
    ErrorsByField(Edit(id), b, d, x, Email);
    ErrorsByField(Edit(id), b, d, x, Password);
  }

  /** A supplied confirmation fails iff the password is absent or differs once both are sanitized. */
  lemma EditConfirmRule(b: Body, id: UserId, d: Directory, x: Externals)
    ensures ErrorsFor(Errors(Edit(id), b, d, x), ConfirmPassword)
         == if ConfirmPassword in b
               && (Password !in b || x.escape(Trim(b[ConfirmPassword])) != x.escape(Trim(b[Password])))
            then [FieldError(ConfirmPassword, NewPasswordsMustMatch)] else []
  {
    ErrorsByField(Edit(id), b, d, x, ConfirmPassword);
  }

  /** The edit rules consult only the signed-in user's record, never other accounts. */
  lemma EditIgnoresOtherAccounts(b: Body, id: UserId, d1: Directory, d2: Directory, x: Externals)
    requires FindById(d1, id) == FindById(d2, id)
    ensures Errors(Edit(id), b, d1, x) == Errors(Edit(id), b, d2, x)
  {
  }

  // ---------------------------------------------------------------------------
  // authenticateUser

  /** An unknown email is reported on the email field; a linked one names its provider, Google before Facebook. */
  lemma AuthenticateEmailRule(b: Body, d: Directory, x: Externals)
    ensures x.escape(Trim(Raw(b, Email))) !in d.byEmail ==>
              ErrorsFor(Errors(Authenticate, b, d, x), Email) == [FieldError(Email, UnknownEmail)]
    ensures var key := x.escape(Trim(Raw(b, Email)));
            key in d.byEmail && GoogleLinked(d.byEmail[key]) ==>
              ErrorsFor(Errors(Authenticate, b, d, x), Email) == [FieldError(Email, EmailUsedByGoogle)]
    ensures var key := x.escape(Trim(Raw(b, Email)));
            key in d.byEmail && !GoogleLinked(d.byEmail[key]) && FacebookLinked(d.byEmail[key]) ==>
              ErrorsFor(Errors(Authenticate, b, d, x), Email) == [FieldError(Email, EmailUsedByFacebook)]
    ensures var key := x.escape(Trim(Raw(b, Email)));
            key in d.byEmail && !GoogleLinked(d.byEmail[key]) && !FacebookLinked(d.byEmail[key]) ==>
              ErrorsFor(Errors(Authenticate, b, d, x), Email) == []
  {
    ErrorsByField(Authenticate, b, d, x, Email);
  }

  /**
   * The password check adds nothing for a missing or Facebook-linked account;
   * otherwise (Google-linked accounts included) it fails with "Incorrect
   * password" exactly when the compare resolves false, and a rejected compare
   * reports its own message.
   */
  lemma AuthenticatePasswordRule(b: Body, d: Directory, x: Externals)
    ensures var key := x.escape(Trim(Raw(b, Email)));
            key !in d.byEmail || FacebookLinked(d.byEmail[key]) ==>
              ErrorsFor(Errors(Authenticate, b, d, x), Password) == []
    ensures var key := x.escape(Trim(Raw(b, Email)));
            key in d.byEmail && !FacebookLinked(d.byEmail[key])
            && x.compare(x.escape(Trim(Raw(b, Password))), d.byEmail[key].password).Compared? ==>
              ErrorsFor(Errors(Authenticate, b, d, x), Password)
              == if x.compare(x.escape(Trim(Raw(b, Password))), d.byEmail[key].password).matched then []
                 else [FieldError(Password, IncorrectPassword)]
    ensures var key := x.escape(Trim(Raw(b, Email)));
            key in d.byEmail && !FacebookLinked(d.byEmail[key])
            && x.compare(x.escape(Trim(Raw(b, Password))), d.byEmail[key].password).CompareFailed? ==>
              |ErrorsFor(Errors(Authenticate, b, d, x), Password)| == 1
  {
    ErrorsByField(Authenticate, b, d, x, Password);
  }

  /**
   * Signing in to an existing local account with a wrong password yields one
   * error, on the password field, and nothing on the email field.
   */
  lemma AuthenticateWrongPassword(b: Body, d: Directory, x: Externals)
    requires var key := x.escape(Trim(Raw(b, Email)));
             && key in d.byEmail && !FacebookLinked(d.byEmail[key]) && !GoogleLinked(d.byEmail[key])
             && x.compare(x.escape(Trim(Raw(b, Password))), d.byEmail[key].password) == Compared(false)
    ensures Errors(Authenticate, b, d, x) == [FieldError(Password, IncorrectPassword)]
  {
  }

  /** Signing in succeeds exactly when the account is local and the compare resolves true. */
  lemma AuthenticateSucceedsIff(b: Body, d: Directory, x: Externals)
    ensures Errors(Authenticate, b, d, x) == [] <==>
              var key := x.escape(Trim(Raw(b, Email)));
              && key in d.byEmail && !FacebookLinked(d.byEmail[key]) && !GoogleLinked(d.byEmail[key])
              && x.compare(x.escape(Trim(Raw(b, Password))), d.byEmail[key].password) == Compared(true)
  {
  }
}
