/**
 * The request-handling side of the account controller. A `Request` holds
 * `req.body`, which every validation chain rewrites in place as it sanitizes
 * its field, and the errors `validationResult(req)` will report. The handlers
 * that follow the chains answer 400 with every error, or build what is
 * written to the user service; guest creation fills in the credentials that
 * the sign-in chains read next.
 */
module UserController {
  import opened JsStrings
  import opened Accounts
  import opened UserValidation

  /** The user record `createUser` hands to the user service. */
  datatype NewUser = NewUser(firstName: string, lastName: string, email: string, password: Hash)

  /** The default profile created beside a new account. */
  datatype Profile = Profile(username: string, petName: string, active: bool)

  datatype CreateReply =
    | CreateRejected(errors: seq<FieldError>)
    | Created(user: NewUser, profile: Profile)

  /** A value of the `formData` that `editUser` sends to the user service. */
  datatype FormValue = Text(text: string) | Digest(hash: Hash)

  datatype EditReply =
    | EditRejected(errors: seq<FieldError>)
    | Updated(formData: map<Field, FormValue>)

  /** `authenticateUser` ends with 400 and every error, or hands the request to the next handler. */
  datatype AuthenticateReply = AuthenticateRejected(errors: seq<FieldError>) | PassToNext

  /** The guest account `createGuestUser` asks the user service to store. */
  datatype GuestData = GuestData(firstName: string, lastName: string, email: string, password: Hash)

  const GuestFirstName := "Human"
  const GuestDomain := "@pawprint.com"

  /** What `randomstring.generate({ length: 8, charset: 'numeric' })` produces. */
  predicate IsGuestId(u: string) {
    |u| == 8 && AllDigits(u)
  }

  /** The placeholder email of the guest with identifier `u`. */
  function GuestEmail(u: string): string {
    GuestFirstName + u + GuestDomain
  }

  /** The default profile username: the part of the email before its first `@`. */
  function DefaultUsername(email: string): string {
    BeforeFirst(email, '@')
  }

  /** The profile username of a guest: first and last name joined by `_`. */
  function GuestUsername(firstName: string, lastName: string): string {
    firstName + "_" + lastName
  }

  /** The stored account of a guest whose record got id `id`. */
  function GuestAccount(id: UserId, u: string, x: Externals): Account {
    Account(id, GuestEmail(u), Some(x.hash(u)), None, None)
  }

  /**
   * `formData` of an edit: one entry per truthy name, email or password field,
   * the password replaced by its hash; the confirmation is never sent.
   */
  method AssembleFormData(b: Body, hash: string -> Hash) returns (formData: map<Field, FormValue>)
    ensures forall f :: f in formData <==> f != ConfirmPassword && Truthy(Get(b, f))
    ensures forall f :: f in formData && f != Password ==> f in b && formData[f] == Text(b[f])
    ensures Password in formData ==> Password in b && formData[Password] == Digest(hash(b[Password]))
  {
    formData := map[];
    if Truthy(Get(b, FirstName)) {
      formData := formData[FirstName := Text(b[FirstName])];
    }
    if Truthy(Get(b, LastName)) {
      formData := formData[LastName := Text(b[LastName])];
    }
    if Truthy(Get(b, Email)) {
      formData := formData[Email := Text(b[Email])];
    }
    if Truthy(Get(b, Password)) {
      formData := formData[Password := Digest(hash(b[Password]))];
    }
  }

  class Request {
    /** `req.body`. */
    var body: Body
    /** The errors `validationResult(req)` reports so far. */
    var errors: seq<FieldError>
    /** `req.user.id`, the signed-in user an edit applies to. */
    const userId: UserId

    constructor (body: Body, userId: UserId)
      ensures this.body == body && this.userId == userId && errors == []
    {
      this.body := body;
      this.userId := userId;
      errors := [];
    }

    // One step per validation chain: each reads its field from the body as it
    // is now, appends the errors of its validators and writes the sanitized
    // value back.

    /** A chain `trim().isLength({ min }).escape()`. */
    method LengthChain(f: Field, min: nat, message: Message, x: Externals)
      modifies this
      ensures errors == old(errors) + TooShort(f, Trim(Raw(old(body), f)), min, message)
      ensures body == old(body)[f := Sanitize(x, Raw(old(body), f))]
    {
      var value := Trim(Raw(body, f));
      errors := errors + TooShort(f, value, min, message);
      body := body[f := x.escape(value)];
    }

    /** The email chain of `createUser`: the account lookup uses the sanitized email. */
    method EmailInUseChain(d: Directory, x: Externals)
      modifies this
      ensures body == old(body)[Email := Sanitize(x, Raw(old(body), Email))]
      ensures errors == old(errors) + EmailInUse(FindByEmail(d, body[Email]))
    {
      body := body[Email := x.escape(Trim(Raw(body, Email)))];
      errors := errors + EmailInUse(FindByEmail(d, body[Email]));
    }

    /** A confirmation chain: the sanitized confirmation against the password in the body now. */
    method MatchChain(message: Message, x: Externals)
      modifies this
      ensures body == old(body)[ConfirmPassword := Sanitize(x, Raw(old(body), ConfirmPassword))]
      ensures errors == old(errors) + Mismatch(ConfirmPassword, body[ConfirmPassword], Get(old(body), Password), message)
    {
      body := body[ConfirmPassword := x.escape(Trim(Raw(body, ConfirmPassword)))];
      errors := errors + Mismatch(ConfirmPassword, body[ConfirmPassword], Get(body, Password), message);
    }

    /** The email chain of `editUser`: only the signed-in user's links matter. */
    method EmailLockedChain(d: Directory, x: Externals)
      modifies this
      ensures body == old(body)[Email := Sanitize(x, Raw(old(body), Email))]
      ensures errors == old(errors) + EmailLocked(FindById(d, userId))
    {
      body := body[Email := x.escape(Trim(Raw(body, Email)))];
      errors := errors + EmailLocked(FindById(d, userId));
    }

    /** The password chain of `editUser`; its custom check reads the confirmation as submitted. */
    method NewPasswordChain(d: Directory, x: Externals)
      modifies this
      ensures body == old(body)[Password := Sanitize(x, Raw(old(body), Password))]
      ensures errors == old(errors) + (TooShort(Password, Trim(Raw(old(body), Password)), 6, NewPasswordTooShort)
                                       + PasswordLocked(FindById(d, userId), body[Password], Get(old(body), ConfirmPassword)))
    {
      var password := Trim(Raw(body, Password));
      errors := errors + TooShort(Password, password, 6, NewPasswordTooShort);
      body := body[Password := x.escape(password)];
      errors := errors + PasswordLocked(FindById(d, userId), body[Password], Get(body, ConfirmPassword));
    }

    /** The email chain of `authenticateUser`. */
    method AccountChain(d: Directory, x: Externals)
      modifies this
      ensures body == old(body)[Email := Sanitize(x, Raw(old(body), Email))]
      ensures errors == old(errors) + AccountCheck(FindByEmail(d, body[Email]))
    {
      body := body[Email := x.escape(Trim(Raw(body, Email)))];
      errors := errors + AccountCheck(FindByEmail(d, body[Email]));
    }

    /** The password chain of `authenticateUser`: the account is looked up by the email in the body now. */
    method PasswordChain(d: Directory, x: Externals)
      modifies this
      ensures body == old(body)[Password := Sanitize(x, Raw(old(body), Password))]
      ensures errors == old(errors) + PasswordCheck(FindByEmail(d, Raw(old(body), Email)), body[Password], x)
    {
      body := body[Password := x.escape(Trim(Raw(body, Password)))];
      errors := errors + PasswordCheck(FindByEmail(d, Raw(body, Email)), body[Password], x);
    }

    // The chains of `editUser` are optional: a field that is absent (not
    // merely empty) is neither validated nor written.

    method OptionalLengthChain(f: Field, min: nat, message: Message, x: Externals)
      modifies this
      ensures body == SanitizeIfPresent(old(body), f, x)
      ensures errors == old(errors) + if f in old(body) then TooShort(f, Trim(old(body)[f]), min, message) else []
    {
      if f in body {
        LengthChain(f, min, message, x);
      }
    }

    method OptionalEmailLockedChain(d: Directory, x: Externals)
      modifies this
      ensures body == SanitizeIfPresent(old(body), Email, x)
      ensures errors == old(errors) + if Email in old(body) then EmailLocked(FindById(d, userId)) else []
    {
      if Email in body {
        EmailLockedChain(d, x);
      }
    }

    method OptionalNewPasswordChain(d: Directory, x: Externals)
      modifies this
      ensures body == SanitizeIfPresent(old(body), Password, x)
      ensures errors == old(errors) + if Password in old(body)
                                      then TooShort(Password, Trim(old(body)[Password]), 6, NewPasswordTooShort)
                                           + PasswordLocked(FindById(d, userId), body[Password], Get(old(body), ConfirmPassword))
                                      else []
    {
      if Password in body {
        NewPasswordChain(d, x);
      }
    }

    method OptionalMatchChain(message: Message, x: Externals)
      modifies this
      ensures body == SanitizeIfPresent(old(body), ConfirmPassword, x)
      ensures errors == old(errors) + if ConfirmPassword in old(body)
                                      then Mismatch(ConfirmPassword, body[ConfirmPassword], Get(old(body), Password), message)
                                      else []
    {
      if ConfirmPassword in body {
        MatchChain(message, x);
      }
    }

    /**
     * The chains of `createUser`, one after the other. Each reads its field
     * from the body as the earlier chains left it, so the confirmation is
     * compared with the password that was already trimmed and escaped.
     */
    method ValidateCreate(d: Directory, x: Externals)
      modifies this
      ensures errors == old(errors) + Errors(Create, old(body), d, x)
      ensures body == Sanitized(Create, old(body), x)
    {
      ghost var b0, e0 := body, errors;
      LengthChain(FirstName, 2, FirstNameTooShort, x);
      ghost var e1 := errors;
      LengthChain(LastName, 2, LastNameTooShort, x);
      ghost var e2 := errors;
      EmailInUseChain(d, x);
      ghost var e3 := errors;
      LengthChain(Password, 6, PasswordTooShort, x);
      ghost var e4 := errors;
      MatchChain(PasswordsMustMatch, x);
      CreateSteps(b0, d, x, e0, e1, e2, e3, e4, errors, body);
    }

    /**
     * The chains of `editUser`. A field that is absent is skipped and stays
     * absent; the password check sees the confirmation before its own chain
     * has sanitized it.
     */
    method ValidateEdit(d: Directory, x: Externals)
      modifies this
      ensures errors == old(errors) + Errors(Edit(userId), old(body), d, x)
      ensures body == Sanitized(Edit(userId), old(body), x)
    {
      ghost var b0, e0 := body, errors;
      OptionalLengthChain(FirstName, 2, FirstNameTooShort, x);
      ghost var b1, e1 := body, errors;
      OptionalLengthChain(LastName, 2, LastNameTooShort, x);
      ghost var b2, e2 := body, errors;
      OptionalEmailLockedChain(d, x);
      ghost var b3, e3 := body, errors;
      OptionalNewPasswordChain(d, x);
      ghost var b4, e4 := body, errors;
      OptionalMatchChain(NewPasswordsMustMatch, x);
      EditSteps(b0, userId, d, x, b1, b2, b3, b4, body, e0, e1, e2, e3, e4, errors);
    }

    /**
     * The chains of `authenticateUser`; the password check looks the account
     * up by the email the first chain has already sanitized.
     */
    method ValidateAuthenticate(d: Directory, x: Externals)
      modifies this
      ensures errors == old(errors) + Errors(Authenticate, old(body), d, x)
      ensures body == Sanitized(Authenticate, old(body), x)
    {
      ghost var b0, e0 := body, errors;
      AccountChain(d, x);
      ghost var e1 := errors;
      PasswordChain(d, x);
      assert Errors(Authenticate, b0, d, x) == [] + [] + (e1[|e0|..]) + (errors[|e1|..]) + [];
    }

    /**
     * The final handler of `createUser`: 400 with every error and nothing
     * created, or the new user (hashed password) and its default profile.
     */
    method FinishCreate(x: Externals) returns (r: CreateReply)
      ensures r.CreateRejected? <==> errors != []
      ensures r.CreateRejected? ==> r.errors == errors
      ensures r.Created? ==>
                r.user == NewUser(Raw(body, FirstName), Raw(body, LastName), Raw(body, Email), x.hash(Raw(body, Password)))
      ensures r.Created? ==> r.profile == Profile(DefaultUsername(r.user.email), "Default", true)
      ensures r.Created? ==>
                && '@' !in r.profile.username && r.profile.username <= r.user.email
                && (|r.profile.username| < |r.user.email| ==> r.user.email[|r.profile.username|] == '@')
    {
      if errors != [] {
        return CreateRejected(errors);
      }
      var user := NewUser(Raw(body, FirstName), Raw(body, LastName), Raw(body, Email), x.hash(Raw(body, Password)));
      r := Created(user, Profile(DefaultUsername(user.email), "Default", true));
    }

    /** `createUser`: the chains, then the final handler. */
    method CreateUser(d: Directory, x: Externals) returns (r: CreateReply)
      requires errors == []
      modifies this
      ensures r.CreateRejected? <==> Errors(Create, old(body), d, x) != []
      ensures r.CreateRejected? ==> r.errors == Errors(Create, old(body), d, x)
      ensures r.Created? ==>
                var s := Sanitized(Create, old(body), x);
                r.user == NewUser(s[FirstName], s[LastName], s[Email], x.hash(s[Password]))
      ensures r.Created? ==> r.profile == Profile(DefaultUsername(r.user.email), "Default", true)
      ensures r.Created? ==>
                && '@' !in r.profile.username && r.profile.username <= r.user.email
                && (|r.profile.username| < |r.user.email| ==> r.user.email[|r.profile.username|] == '@')
      ensures body == Sanitized(Create, old(body), x) && errors == Errors(Create, old(body), d, x)
    {
      ValidateCreate(d, x);
      r := FinishCreate(x);
    }

    /**
     * The final handler of `editUser`: 400 with every error, or the form data
     * the user service applies to the signed-in user.
     */
    method FinishEdit(x: Externals) returns (r: EditReply)
      ensures r.EditRejected? <==> errors != []
      ensures r.EditRejected? ==> r.errors == errors
      ensures r.Updated? ==>
                && (forall f :: f in r.formData <==> f != ConfirmPassword && Truthy(Get(body, f)))
                && (forall f :: f in r.formData && f != Password ==> f in body && r.formData[f] == Text(body[f]))
                && (Password in r.formData ==> Password in body && r.formData[Password] == Digest(x.hash(body[Password])))
    {
      if errors != [] {
        return EditRejected(errors);
      }
      var formData := AssembleFormData(body, x.hash);
      r := Updated(formData);
    }

    /** `editUser`: the chains, then the final handler. */
    method EditUser(d: Directory, x: Externals) returns (r: EditReply)
      requires errors == []
      modifies this
      ensures r.EditRejected? <==> Errors(Edit(userId), old(body), d, x) != []
      ensures r.EditRejected? ==> r.errors == Errors(Edit(userId), old(body), d, x)
      ensures r.Updated? ==>
                forall f :: f in r.formData <==>
                  f != ConfirmPassword && f in old(body) && Sanitize(x, old(body)[f]) != ""
      ensures r.Updated? ==>
                forall f :: f in r.formData && f != Password ==>
                  f in old(body) && r.formData[f] == Text(Sanitize(x, old(body)[f]))
      ensures r.Updated? && Password in r.formData ==>
                Password in old(body) && r.formData[Password] == Digest(x.hash(Sanitize(x, old(body)[Password])))
      ensures body == Sanitized(Edit(userId), old(body), x) && errors == Errors(Edit(userId), old(body), d, x)
    {
      ValidateEdit(d, x);
      r := FinishEdit(x);
    }

    /**
     * `createGuestUser`: derives the guest from its 8-digit identifier `u`,
     * and leaves its email and plaintext identifier in the body for the
     * sign-in chains that run next.
     */
    method CreateGuestUser(u: string, x: Externals) returns (guest: GuestData, profile: Profile)
      requires IsGuestId(u)
      modifies this
      ensures guest == GuestData("Human", u, "Human" + u + "@pawprint.com", x.hash(u))
      ensures profile == Profile("Human_" + u, "Default", true)
      ensures body == old(body)[Email := guest.email][Password := u]
      ensures errors == old(errors)
    {
      guest := GuestData(GuestFirstName, u, GuestEmail(u), x.hash(u));
      profile := Profile(GuestUsername(guest.firstName, guest.lastName), "Default", true);
      body := body[Email := guest.email];
      body := body[Password := u];
    }

    /** The final handler of `authenticateUser`: 400 with every error, or on to the next handler. */
    method FinishAuthenticate() returns (r: AuthenticateReply)
      ensures r.AuthenticateRejected? <==> errors != []
      ensures r.AuthenticateRejected? ==> r.errors == errors
    {
      if errors != [] {
        return AuthenticateRejected(errors);
      }
      r := PassToNext;
    }

    /**
     * `authenticateUser`: the request goes on exactly when the sanitized email
     * names a local account and bcrypt matches the sanitized password.
     */
    method AuthenticateUser(d: Directory, x: Externals) returns (r: AuthenticateReply)
      requires errors == []
      modifies this
      ensures r == PassToNext <==>
                var key := x.escape(Trim(Raw(old(body), Email)));
                && key in d.byEmail && !FacebookLinked(d.byEmail[key]) && !GoogleLinked(d.byEmail[key])
                && x.compare(x.escape(Trim(Raw(old(body), Password))), d.byEmail[key].password) == Compared(true)
      ensures r.AuthenticateRejected? ==> r.errors == Errors(Authenticate, old(body), d, x)
      ensures body == Sanitized(Authenticate, old(body), x) && errors == Errors(Authenticate, old(body), d, x)
    {
      AuthenticateSucceedsIff(body, d, x);
      ValidateAuthenticate(d, x);
      r := FinishAuthenticate();
    }

    /**
     * A guest request: `createGuestUser`, whose record the user service
     * stores under id `id`, followed by `authenticateUser`, which the
     * forwarded credentials pass.
     */
    method GuestSignIn(u: string, id: UserId, d: Directory, x: Externals) returns (guest: GuestData, r: AuthenticateReply)
      requires IsGuestId(u)
      requires EscapeKeepsPlainText(x)
      requires x.compare(u, Some(x.hash(u))) == Compared(true)
      requires errors == []
      modifies this
      ensures guest.email == GuestEmail(u) && guest.password == x.hash(u)
      ensures r == PassToNext
      ensures body == old(body)[Email := GuestEmail(u)][Password := u] && errors == []
    {
      var profile;
      guest, profile := CreateGuestUser(u, x);
      GuestCredentialsAuthenticate(u, old(body), id, d, x);
      r := AuthenticateUser(WithAccount(d, GuestAccount(id, u, x)), x);
    }
  }

  // ---------------------------------------------------------------------------
  // Lemmas

  /** Errors appended chain by chain are the chains' errors appended at once. */
  lemma AppendFive(e0: seq<FieldError>, e1: seq<FieldError>, e2: seq<FieldError>, e3: seq<FieldError>,
                   e4: seq<FieldError>, e5: seq<FieldError>,
                   c1: seq<FieldError>, c2: seq<FieldError>, c3: seq<FieldError>, c4: seq<FieldError>, c5: seq<FieldError>)
    requires e1 == e0 + c1 && e2 == e1 + c2 && e3 == e2 + c3 && e4 == e3 + c4 && e5 == e4 + c5
    ensures e5 == e0 + (c1 + c2 + c3 + c4 + c5)
  {
  }

  /** The five create steps, one after the other, add the errors of the five create chains. */
  lemma CreateSteps(b0: Body, d: Directory, x: Externals,
                    e0: seq<FieldError>, e1: seq<FieldError>, e2: seq<FieldError>, e3: seq<FieldError>,
                    e4: seq<FieldError>, e5: seq<FieldError>, b5: Body)
    requires e1 == e0 + TooShort(FirstName, Trim(Raw(b0, FirstName)), 2, FirstNameTooShort)
    requires var b1 := b0[FirstName := Sanitize(x, Raw(b0, FirstName))];
             e2 == e1 + TooShort(LastName, Trim(Raw(b1, LastName)), 2, LastNameTooShort)
             && var b2 := b1[LastName := Sanitize(x, Raw(b1, LastName))];
             var b3 := b2[Email := Sanitize(x, Raw(b2, Email))];
             e3 == e2 + EmailInUse(FindByEmail(d, b3[Email]))
             && e4 == e3 + TooShort(Password, Trim(Raw(b3, Password)), 6, PasswordTooShort)
             && var b4 := b3[Password := Sanitize(x, Raw(b3, Password))];
             b5 == b4[ConfirmPassword := Sanitize(x, Raw(b4, ConfirmPassword))]
             && e5 == e4 + Mismatch(ConfirmPassword, b5[ConfirmPassword], Get(b4, Password), PasswordsMustMatch)
    ensures e5 == e0 + Errors(Create, b0, d, x)
    ensures b5 == Sanitized(Create, b0, x)
  {
    assert e1 == e0 + Chain(Create, b0, d, x, FirstName);
    assert e2 == e1 + Chain(Create, b0, d, x, LastName);
    assert e3 == e2 + Chain(Create, b0, d, x, Email);
    assert e4 == e3 + Chain(Create, b0, d, x, Password);
    assert e5 == e4 + Chain(Create, b0, d, x, ConfirmPassword);
    AppendFive(e0, e1, e2, e3, e4, e5, Chain(Create, b0, d, x, FirstName), Chain(Create, b0, d, x, LastName),
               Chain(Create, b0, d, x, Email), Chain(Create, b0, d, x, Password), Chain(Create, b0, d, x, ConfirmPassword));
    forall f
      ensures f in AllFields && f in b5 && b5[f] == Sanitize(x, Raw(b0, f))
    {
      match f
      case FirstName =>
      case LastName =>
      case Email =>
      case Password =>
      case ConfirmPassword =>
    }
  }

  /** The body after an optional chain for `f`: sanitized in place when present, untouched otherwise. */
  function SanitizeIfPresent(b: Body, f: Field, x: Externals): (r: Body)
    ensures r.Keys == b.Keys
    ensures forall g :: g != f ==> Get(r, g) == Get(b, g)
    ensures f in b ==> r[f] == Sanitize(x, b[f])
  {
    if f in b then b[f := Sanitize(x, b[f])] else b
  }

  /** The five optional edit steps sanitize every present field and nothing else. */
  lemma EditBodySteps(b0: Body, id: UserId, x: Externals, b1: Body, b2: Body, b3: Body, b4: Body, b5: Body)
    requires b1 == SanitizeIfPresent(b0, FirstName, x) && b2 == SanitizeIfPresent(b1, LastName, x)
    requires b3 == SanitizeIfPresent(b2, Email, x) && b4 == SanitizeIfPresent(b3, Password, x)
    requires b5 == SanitizeIfPresent(b4, ConfirmPassword, x)
    ensures b5 == Sanitized(Edit(id), b0, x)
  {
    forall f | f in b5
      ensures b5[f] == Sanitize(x, b0[f])
    {
      match f
      case FirstName => assert Get(b5, f) == Get(b1, f);
      case LastName => assert Get(b5, f) == Get(b2, f) && Get(b1, f) == Get(b0, f);
      case Email => assert Get(b5, f) == Get(b3, f) && Get(b2, f) == Get(b0, f);
      case Password => assert Get(b5, f) == Get(b4, f) && Get(b3, f) == Get(b0, f);
      case ConfirmPassword => assert Get(b4, f) == Get(b0, f);
    }
  }

  /** The five optional edit steps, one after the other, add the errors of the five edit chains. */
  lemma EditErrorSteps(b0: Body, id: UserId, d: Directory, x: Externals,
                       e0: seq<FieldError>, e1: seq<FieldError>, e2: seq<FieldError>, e3: seq<FieldError>,
                       e4: seq<FieldError>, e5: seq<FieldError>)
    requires e1 == e0 + if FirstName in b0 then TooShort(FirstName, Trim(b0[FirstName]), 2, FirstNameTooShort) else []
    requires e2 == e1 + if LastName in b0 then TooShort(LastName, Trim(b0[LastName]), 2, LastNameTooShort) else []
    requires e3 == e2 + if Email in b0 then EmailLocked(FindById(d, id)) else []
    requires e4 == e3 + if Password in b0
                        then TooShort(Password, Trim(b0[Password]), 6, NewPasswordTooShort)
                             + PasswordLocked(FindById(d, id), Sanitize(x, b0[Password]), Get(b0, ConfirmPassword))
                        else []
    requires e5 == e4 + if ConfirmPassword in b0
                        then Mismatch(ConfirmPassword, Sanitize(x, b0[ConfirmPassword]),
                                      if Password in b0 then Some(Sanitize(x, b0[Password])) else None, NewPasswordsMustMatch)
                        else []
    ensures e5 == e0 + Errors(Edit(id), b0, d, x)
  {
    AppendFive(e0, e1, e2, e3, e4, e5, Chain(Edit(id), b0, d, x, FirstName), Chain(Edit(id), b0, d, x, LastName),
               Chain(Edit(id), b0, d, x, Email), Chain(Edit(id), b0, d, x, Password), Chain(Edit(id), b0, d, x, ConfirmPassword));
  }

  /** The five optional edit steps, one after the other, run the edit rules on the body as submitted. */
  lemma EditSteps(b0: Body, id: UserId, d: Directory, x: Externals,
                  b1: Body, b2: Body, b3: Body, b4: Body, b5: Body,
                  e0: seq<FieldError>, e1: seq<FieldError>, e2: seq<FieldError>, e3: seq<FieldError>,
                  e4: seq<FieldError>, e5: seq<FieldError>)
    requires b1 == SanitizeIfPresent(b0, FirstName, x) && b2 == SanitizeIfPresent(b1, LastName, x)
    requires b3 == SanitizeIfPresent(b2, Email, x) && b4 == SanitizeIfPresent(b3, Password, x)
    requires b5 == SanitizeIfPresent(b4, ConfirmPassword, x)
    requires e1 == e0 + if FirstName in b0 then TooShort(FirstName, Trim(b0[FirstName]), 2, FirstNameTooShort) else []
    requires e2 == e1 + if LastName in b1 then TooShort(LastName, Trim(b1[LastName]), 2, LastNameTooShort) else []
    requires e3 == e2 + if Email in b2 then EmailLocked(FindById(d, id)) else []
    requires e4 == e3 + if Password in b3
                        then TooShort(Password, Trim(b3[Password]), 6, NewPasswordTooShort)
                             + PasswordLocked(FindById(d, id), b4[Password], Get(b3, ConfirmPassword))
                        else []
    requires e5 == e4 + if ConfirmPassword in b4
                        then Mismatch(ConfirmPassword, b5[ConfirmPassword], Get(b4, Password), NewPasswordsMustMatch)
                        else []
    ensures e5 == e0 + Errors(Edit(id), b0, d, x)
    ensures b5 == Sanitized(Edit(id), b0, x)
  {
    assert Get(b1, LastName) == Get(b0, LastName);
    assert Get(b2, Email) == Get(b0, Email);
    assert Get(b3, Password) == Get(b0, Password) && Get(b3, ConfirmPassword) == Get(b0, ConfirmPassword);
    assert Get(b4, ConfirmPassword) == Get(b0, ConfirmPassword);
    EditBodySteps(b0, id, x, b1, b2, b3, b4, b5);
    EditErrorSteps(b0, id, d, x, e0, e1, e2, e3, e4, e5);
  }

  /** The default username of an email `name@domain` (no `@` in `name`) is `name`. */
  lemma DefaultUsernameOfAddress(name: string, domain: string)
    requires '@' !in name
    ensures DefaultUsername(name + "@" + domain) == name
  {
    BeforeFirstOfJoin(name, '@', domain);
  }

  /** A guest identifier has neither whitespace nor HTML-special characters, and neither has its email. */
  lemma GuestIdIsPlain(u: string)
    requires IsGuestId(u)
    ensures NoSpace(u) && PlainText(u)
    ensures NoSpace(GuestEmail(u)) && PlainText(GuestEmail(u))
  {
    var e := GuestEmail(u);
    forall i | 0 <= i < |e|
      ensures !IsSpace(e[i]) && !HtmlSpecial(e[i])
    {
      if 5 <= i < 13 {
        assert e[i] == u[i - 5];
      }
    }
  }

  /**
   * The derivations of a guest: its email splits back into "Human" + id before
   * the `@`, and its username into "Human" and the id around the `_`.
   */
  lemma GuestDerivations(u: string)
    requires IsGuestId(u)
    ensures DefaultUsername(GuestEmail(u)) == GuestFirstName + u
    ensures BeforeFirst(GuestUsername(GuestFirstName, u), '_') == GuestFirstName
    ensures GuestUsername(GuestFirstName, u)[|GuestFirstName| + 1..] == u
  {
    assert '@' !in GuestFirstName + u by {
      forall i | 0 <= i < |GuestFirstName + u|
        ensures (GuestFirstName + u)[i] != '@'
      {
        if i >= 5 {
          assert (GuestFirstName + u)[i] == u[i - 5];
        }
      }
    }
    assert GuestEmail(u) == (GuestFirstName + u) + "@" + "pawprint.com";
    BeforeFirstOfJoin(GuestFirstName + u, '@', "pawprint.com");
    assert GuestUsername(GuestFirstName, u) == GuestFirstName + ['_'] + u;
    BeforeFirstOfJoin(GuestFirstName, '_', u);
  }

  /**
   * The credentials `createGuestUser` forwards pass every sign-in check once
   * the guest is stored, provided `escape` leaves plain text alone and bcrypt
   * verifies the identifier against its own hash.
   */
  lemma GuestCredentialsAuthenticate(u: string, b: Body, id: UserId, d: Directory, x: Externals)
    requires IsGuestId(u)
    requires EscapeKeepsPlainText(x)
    requires x.compare(u, Some(x.hash(u))) == Compared(true)
    ensures Errors(Authenticate, b[Email := GuestEmail(u)][Password := u], WithAccount(d, GuestAccount(id, u, x)), x) == []
    ensures Sanitized(Authenticate, b[Email := GuestEmail(u)][Password := u], x) == b[Email := GuestEmail(u)][Password := u]
  {
    var b' := b[Email := GuestEmail(u)][Password := u];
    var d' := WithAccount(d, GuestAccount(id, u, x));
    GuestIdIsPlain(u);
    TrimNoSpace(u);
    TrimNoSpace(GuestEmail(u));
    assert Sanitize(x, Raw(b', Email)) == GuestEmail(u);
    assert Sanitize(x, Raw(b', Password)) == u;
    AuthenticateSucceedsIff(b', d', x);
  }
}
