/** The sign-up page (src/pages/Signup.tsx): `signupSchema`, the error map,
    and the `signUp` call that only a valid form reaches. */
module SignupPage {
  import opened Common
  import opened Zod
  import opened Backend

  datatype SignupForm = SignupForm(fullName: string, email: string, password: string, acceptTerms: bool)

  /** The keys of the form object. */
  datatype SignupField = FullName | Email | Password | AcceptTerms

  /** What a successful parse hands to `signUp`. */
  datatype SignupData = SignupData(fullName: string, email: string, password: string)

  const NameRequired := "Full name is required"
  const EmailInvalid := "Invalid email address"
  const PasswordTooShort := "Password must be at least 8 characters"
  const TermsRequired := "You must accept the terms"

  function Key(f: SignupField): string {
    match f
    case FullName => "fullName"
    case Email => "email"
    case Password => "password"
    case AcceptTerms => "acceptTerms"
  }

  function FieldAt(k: nat): SignupField
    requires k < 4
  {
    [FullName, Email, Password, AcceptTerms][k]
  }

  function IndexOfField(f: SignupField): (k: nat)
    ensures k < 4 && FieldAt(k) == f
  {
    match f
    case FullName => 0 case Email => 1 case Password => 2 case AcceptTerms => 3
  }

  lemma FieldAtIndex(k: nat)
    requires k < 4
    ensures IndexOfField(FieldAt(k)) == k
  {
    if k == 0 {} else if k == 1 {} else if k == 2 {} else {}
  }

  function Keys(): (keys: seq<string>)
    ensures |keys| == 4 && forall k :: 0 <= k < 4 ==> keys[k] == Key(FieldAt(k))
  {
    seq(4, k requires 0 <= k < 4 => Key(FieldAt(k)))
  }

  /** Distinct fields have distinct keys. */
  lemma KeyInjective(f: SignupField, g: SignupField)
    requires Key(f) == Key(g)
    ensures f == g
  {
    assert Key(f)[..1] == Key(g)[..1];
  }

  /** The issues zod reports for one key (lines 11-16), in the order of its
      checks. `acceptTerms` must be the literal `true`. */
  function IssuesOf(form: SignupForm, f: SignupField, isEmail: string -> bool): seq<Issue> {
    match f
    case FullName =>
      MinIssue(Key(f), Trim(form.fullName), 1, NameRequired) + MaxIssue(Key(f), Trim(form.fullName), 100)
    case Email => EmailIssue(Key(f), Trim(form.email), isEmail, EmailInvalid)
    case Password => MinIssue(Key(f), form.password, 8, PasswordTooShort)
    case AcceptTerms => if form.acceptTerms then [] else [Issue([Key(f)], TermsRequired)]
  }

  function SignupIssues(form: SignupForm, isEmail: string -> bool): (parts: seq<seq<Issue>>)
    ensures |parts| == 4
  {
    seq(4, k requires 0 <= k < 4 => IssuesOf(form, FieldAt(k), isEmail))
  }

  /** `signupSchema.safeParse(form)`. */
  function ParseSignup(form: SignupForm, isEmail: string -> bool): SafeParse<SignupData> {
    var issues := Flatten(SignupIssues(form, isEmail));
    if issues == [] then Success(SignupData(Trim(form.fullName), Trim(form.email), form.password))
    else Failure(issues)
  }

  /** Each key's rule, written out independently of the issue lists. */
  predicate FieldOk(form: SignupForm, f: SignupField, isEmail: string -> bool) {
    match f
    case FullName => 1 <= JsLength(Trim(form.fullName)) <= 100
    case Email => isEmail(Trim(form.email))
    case Password => JsLength(form.password) >= 8
    case AcceptTerms => form.acceptTerms
  }

  lemma IssuesOfShape(form: SignupForm, f: SignupField, isEmail: string -> bool)
    ensures IssuesOf(form, f, isEmail) == [] <==> FieldOk(form, f, isEmail)
    ensures AllUnder(IssuesOf(form, f, isEmail), Key(f))
  {
    var key := Key(f);
    assert key != [] by { assert |key| > 0; }
    match f
    case FullName => BoundedShape(key, Trim(form.fullName), 1, NameRequired, 100);
    case Email => SingleShape(IssuesOf(form, f, isEmail), key, EmailInvalid);
    case Password => SingleShape(IssuesOf(form, f, isEmail), key, PasswordTooShort);
    case AcceptTerms => SingleShape(IssuesOf(form, f, isEmail), key, TermsRequired);
  }

  lemma AllFieldsUnderKeys(form: SignupForm, isEmail: string -> bool)
    ensures forall k :: 0 <= k < 4 ==> Keys()[k] != "" && AllUnder(SignupIssues(form, isEmail)[k], Keys()[k])
  {
    forall k | 0 <= k < 4 ensures Keys()[k] != "" && AllUnder(SignupIssues(form, isEmail)[k], Keys()[k]) {
      IssuesOfShape(form, FieldAt(k), isEmail);
      assert |Keys()[k]| > 0;
    }
  }

  /** The form parses exactly when every rule holds; the name and the address
      are handed on trimmed, the password as typed. */
  lemma {:induction false} SignupSchemaAccepts(form: SignupForm, isEmail: string -> bool)
    ensures ParseSignup(form, isEmail).Success? <==> forall f :: FieldOk(form, f, isEmail)
    ensures ParseSignup(form, isEmail).Success? ==>
      ParseSignup(form, isEmail).data == SignupData(Trim(form.fullName), Trim(form.email), form.password)
  {
    var parts := SignupIssues(form, isEmail);
    FlattenEmpty(parts);
    if forall f :: FieldOk(form, f, isEmail) {
      forall k | 0 <= k < 4 ensures parts[k] == [] {
        IssuesOfShape(form, FieldAt(k), isEmail);
      }
    } else {
      var f :| !FieldOk(form, f, isEmail);
      IssuesOfShape(form, f, isEmail);
      assert parts[IndexOfField(f)] != [];
    }
  }

  /** The error map has an entry for a key exactly when its rule is broken. */
  lemma {:induction false} SignupErrorKeys(form: SignupForm, isEmail: string -> bool, f: SignupField)
    ensures Key(f) in ErrorMap(Flatten(SignupIssues(form, isEmail))) <==> !FieldOk(form, f, isEmail)
  {
    var parts := SignupIssues(form, isEmail);
    AllFieldsUnderKeys(form, isEmail);
    ErrorMapFieldsOfConcat(parts, Keys(), Key(f));
    var k := IndexOfField(f);
    IssuesOfShape(form, f, isEmail);
    assert parts[k] == IssuesOf(form, f, isEmail);
    forall j | 0 <= j < 4 && Keys()[j] == Key(f) ensures j == k {
      KeyInjective(FieldAt(j), f);
      FieldAtIndex(j);
    }
  }

  /** No key outside the schema ever appears in the error map. */
  lemma {:induction false} SignupErrorKeysAreFields(form: SignupForm, isEmail: string -> bool, key: string)
    requires forall f :: key != Key(f)
    ensures key !in ErrorMap(Flatten(SignupIssues(form, isEmail)))
  {
    AllFieldsUnderKeys(form, isEmail);
    ErrorMapFieldsOfConcat(SignupIssues(form, isEmail), Keys(), key);
  }

  /** Unchecked terms are reported with their own message: the terms issue is
      the last one reported. */
  lemma {:induction false} TermsMessage(form: SignupForm, isEmail: string -> bool)
    requires !form.acceptTerms
    ensures Key(AcceptTerms) in ErrorMap(Flatten(SignupIssues(form, isEmail)))
    ensures ErrorMap(Flatten(SignupIssues(form, isEmail)))[Key(AcceptTerms)] == TermsRequired
  {
    var parts := SignupIssues(form, isEmail);
    var all := Flatten(parts);
    assert parts[..3][..|parts[..3]|] == parts[..3];
    assert parts[3] == [Issue([Key(AcceptTerms)], TermsRequired)];
    assert all == Flatten(parts[..3]) + parts[3];
    assert |Key(AcceptTerms)| > 0;
    ErrorMapLastWins(all, |all| - 1, Key(AcceptTerms));
  }

  class SignupView {
    var form: SignupForm
    var errors: map<string, string>
    var loading: bool

    constructor ()
      ensures form == SignupForm("", "", "", false) && errors == map[] && !loading
    {
      form, errors, loading := SignupForm("", "", "", false), map[], false;
    }

    /** What follows the parse: a failed parse sets the error map and sends
        nothing; parsed data goes to `signUp`. */
    method Submit(identity: Identity, result: SafeParse<SignupData>, fails: bool) returns (toLogin: bool)
      modifies this, identity
      ensures form == old(form)
      ensures toLogin <==> result.Success? && !fails
      ensures result.Failure? ==>
        && errors == ErrorMap(result.issues) && loading == old(loading)
        && identity.requests == old(identity.requests) && identity.registrations == old(identity.registrations)
      ensures result.Success? ==>
        var d := result.data;
        && errors == map[] && !loading
        && identity.requests == old(identity.requests) + [SignUpRequest(d.email, d.password, d.fullName)]
        && identity.registrations == old(identity.registrations)
             + (if fails then [] else [Registration(d.email, d.password, d.fullName)])
      ensures identity.profileName == old(identity.profileName) && identity.password == old(identity.password)
    {
      errors := map[];
      if result.Failure? {
        var fieldErrors := CollectFieldErrors(result.issues);
        errors := fieldErrors;
        return false;
      }
      loading := true;
      toLogin := identity.SignUp(result.data.email, result.data.password, result.data.fullName, fails);
      loading := false;
    }

    /** `handleSubmit`: an invalid form gets its error map and no request; a
        valid one is signed up with the trimmed name and address. Returns
        whether the page moves on to the login page. */
    method HandleSubmit(identity: Identity, isEmail: string -> bool, fails: bool) returns (toLogin: bool)
      modifies this, identity
      ensures form == old(form)
      ensures toLogin <==> ParseSignup(form, isEmail).Success? && !fails
      ensures ParseSignup(form, isEmail).Failure? ==>
        && errors == ErrorMap(ParseSignup(form, isEmail).issues) && loading == old(loading)
        && identity.requests == old(identity.requests) && identity.registrations == old(identity.registrations)
      ensures ParseSignup(form, isEmail).Success? ==>
        var d := ParseSignup(form, isEmail).data;
        && errors == map[] && !loading
        && identity.requests == old(identity.requests) + [SignUpRequest(d.email, d.password, d.fullName)]
        && identity.registrations == old(identity.registrations)
             + (if fails then [] else [Registration(d.email, d.password, d.fullName)])
      ensures identity.profileName == old(identity.profileName) && identity.password == old(identity.password)
    {
      toLogin := Submit(identity, ParseSignup(form, isEmail), fails);
    }
  }
}
