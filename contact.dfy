/** The contact page (src/pages/Contact.tsx): `contactSchema`, the error map,
    the insert that only a valid form reaches, and the reset after it. */
module ContactPage {
  import opened Common
  import opened Zod
  import opened Backend

  datatype ContactForm = ContactForm(name: string, email: string, message: string)

  /** The keys of the form object. */
  datatype ContactField = Name | Email | Message

  const EmptyContact := ContactForm("", "", "")
  const NameRequired := "Name is required"
  const EmailInvalid := "Invalid email address"
  const MessageRequired := "Message is required"

  function Key(f: ContactField): string {
    match f
    case Name => "name"
    case Email => "email"
    case Message => "message"
  }

  function FieldAt(k: nat): ContactField
    requires k < 3
  {
    [Name, Email, Message][k]
  }

  function IndexOfField(f: ContactField): (k: nat)
    ensures k < 3 && FieldAt(k) == f
  {
    match f
    case Name => 0 case Email => 1 case Message => 2
  }

  lemma FieldAtIndex(k: nat)
    requires k < 3
    ensures IndexOfField(FieldAt(k)) == k
  {
    if k == 0 {} else if k == 1 {} else {}
  }

  function Keys(): (keys: seq<string>)
    ensures |keys| == 3 && forall k :: 0 <= k < 3 ==> keys[k] == Key(FieldAt(k))
  {
    seq(3, k requires 0 <= k < 3 => Key(FieldAt(k)))
  }

  /** Distinct fields have distinct keys. */
  lemma KeyInjective(f: ContactField, g: ContactField)
    requires Key(f) == Key(g)
    ensures f == g
  {
    assert Key(f)[..1] == Key(g)[..1];
  }

  /** The issues zod reports for one key (lines 10-14), all on trimmed values,
      in the order of its checks. */
  function IssuesOf(form: ContactForm, f: ContactField, isEmail: string -> bool): seq<Issue> {
    match f
    case Name => MinIssue(Key(f), Trim(form.name), 1, NameRequired) + MaxIssue(Key(f), Trim(form.name), 100)
    case Email => EmailIssue(Key(f), Trim(form.email), isEmail, EmailInvalid) + MaxIssue(Key(f), Trim(form.email), 255)
    case Message =>
      MinIssue(Key(f), Trim(form.message), 1, MessageRequired) + MaxIssue(Key(f), Trim(form.message), 2000)
  }

  function ContactIssues(form: ContactForm, isEmail: string -> bool): (parts: seq<seq<Issue>>)
    ensures |parts| == 3
  {
    seq(3, k requires 0 <= k < 3 => IssuesOf(form, FieldAt(k), isEmail))
  }

  /** `contactSchema.safeParse(form)`: the data is the trimmed form. */
  function ParseContact(form: ContactForm, isEmail: string -> bool): SafeParse<ContactRow> {
    var issues := Flatten(ContactIssues(form, isEmail));
    if issues == [] then Success(ContactRow(Trim(form.name), Trim(form.email), Trim(form.message)))
    else Failure(issues)
  }

  /** Each key's rule, written out independently of the issue lists. */
  predicate FieldOk(form: ContactForm, f: ContactField, isEmail: string -> bool) {
    match f
    case Name => 1 <= JsLength(Trim(form.name)) <= 100
    case Email => isEmail(Trim(form.email)) && JsLength(Trim(form.email)) <= 255
    case Message => 1 <= JsLength(Trim(form.message)) <= 2000
  }

  lemma IssuesOfShape(form: ContactForm, f: ContactField, isEmail: string -> bool)
    ensures IssuesOf(form, f, isEmail) == [] <==> FieldOk(form, f, isEmail)
    ensures AllUnder(IssuesOf(form, f, isEmail), Key(f))
  {
    var key := Key(f);
    assert key != [] by { assert |key| > 0; }
    match f
    case Name => BoundedShape(key, Trim(form.name), 1, NameRequired, 100);
    case Email => EmailBoundedShape(key, Trim(form.email), isEmail, EmailInvalid, 255);
    case Message => BoundedShape(key, Trim(form.message), 1, MessageRequired, 2000);
  }

  lemma AllFieldsUnderKeys(form: ContactForm, isEmail: string -> bool)
    ensures forall k :: 0 <= k < 3 ==> Keys()[k] != "" && AllUnder(ContactIssues(form, isEmail)[k], Keys()[k])
  {
    forall k | 0 <= k < 3 ensures Keys()[k] != "" && AllUnder(ContactIssues(form, isEmail)[k], Keys()[k]) {
      IssuesOfShape(form, FieldAt(k), isEmail);
      assert |Keys()[k]| > 0;
    }
  }

  /** The form parses exactly when every rule holds, and the record inserted is
      the form with every field trimmed. */
  lemma {:induction false} ContactSchemaAccepts(form: ContactForm, isEmail: string -> bool)
    ensures ParseContact(form, isEmail).Success? <==> forall f :: FieldOk(form, f, isEmail)
    ensures ParseContact(form, isEmail).Success? ==>
      ParseContact(form, isEmail).data == ContactRow(Trim(form.name), Trim(form.email), Trim(form.message))
  {
    var parts := ContactIssues(form, isEmail);
    FlattenEmpty(parts);
    if forall f :: FieldOk(form, f, isEmail) {
      forall k | 0 <= k < 3 ensures parts[k] == [] {
        IssuesOfShape(form, FieldAt(k), isEmail);
      }
    } else {
      var f :| !FieldOk(form, f, isEmail);
      IssuesOfShape(form, f, isEmail);
      assert parts[IndexOfField(f)] != [];
    }
  }

  /** The error map has an entry for a key exactly when its rule is broken. */
  lemma {:induction false} ContactErrorKeys(form: ContactForm, isEmail: string -> bool, f: ContactField)
    ensures Key(f) in ErrorMap(Flatten(ContactIssues(form, isEmail))) <==> !FieldOk(form, f, isEmail)
  {
    var parts := ContactIssues(form, isEmail);
    AllFieldsUnderKeys(form, isEmail);
    ErrorMapFieldsOfConcat(parts, Keys(), Key(f));
    var k := IndexOfField(f);
    IssuesOfShape(form, f, isEmail);
    assert parts[k] == IssuesOf(form, f, isEmail);
    forall j | 0 <= j < 3 && Keys()[j] == Key(f) ensures j == k {
      KeyInjective(FieldAt(j), f);
      FieldAtIndex(j);
    }
  }

  /** No key outside the schema ever appears in the error map. */
  lemma {:induction false} ContactErrorKeysAreFields(form: ContactForm, isEmail: string -> bool, key: string)
    requires forall f :: key != Key(f)
    ensures key !in ErrorMap(Flatten(ContactIssues(form, isEmail)))
  {
    AllFieldsUnderKeys(form, isEmail);
    ErrorMapFieldsOfConcat(ContactIssues(form, isEmail), Keys(), key);
  }

  /** A stored message is never blank: its text has at least one character
      that is not whitespace. */
  lemma {:induction false} StoredMessageIsNotBlank(form: ContactForm, isEmail: string -> bool)
    requires ParseContact(form, isEmail).Success?
    ensures var row := ParseContact(form, isEmail).data;
      row.message != "" && !IsJsWhitespace(row.message[0]) && !AllWhitespace(form.message)
  {
    ContactSchemaAccepts(form, isEmail);
    assert FieldOk(form, Message, isEmail);
  }

  class ContactView {
    var form: ContactForm
    var errors: map<string, string>
    var loading: bool

    constructor ()
      ensures form == EmptyContact && errors == map[] && !loading
    {
      form, errors, loading := EmptyContact, map[], false;
    }

    /** What follows the parse: failed parses set the error map and send
        nothing; a parsed record is inserted, and the form is emptied only when
        the insert succeeds. */
    method Submit(store: Store, result: SafeParse<ContactRow>, fails: bool) returns (sent: bool)
      requires store.Valid()
      modifies this, store
      ensures store.Valid()
      ensures sent <==> result.Success? && !fails
      ensures result.Failure? ==>
        && errors == ErrorMap(result.issues) && form == old(form) && loading == old(loading)
        && store.State() == old(store.State()) && store.log == old(store.log)
      ensures result.Success? ==>
        && errors == map[] && !loading
        && form == (if sent then EmptyContact else old(form))
        && store.log == old(store.log) + [ContactInsert]
        && store.State() == (if fails then old(store.State())
                             else old(store.State()).(contacts := old(store.contacts) + [result.data]))
    {
      errors := map[];
      if result.Failure? {
        var fieldErrors := CollectFieldErrors(result.issues);
        errors := fieldErrors;
        return false;
      }
      loading := true;
      sent := store.InsertContact(result.data, fails);
      loading := false;
      if sent {
        form := EmptyContact;
      }
    }

    /** `handleSubmit`: an invalid form gets its error map and no insert; a
        valid one inserts the trimmed record, and the form is emptied only when
        the insert succeeds. Returns whether the message was stored. */
    method HandleSubmit(store: Store, isEmail: string -> bool, fails: bool) returns (sent: bool)
      requires store.Valid()
      modifies this, store
      ensures store.Valid()
      ensures sent <==> ParseContact(old(form), isEmail).Success? && !fails
      ensures ParseContact(old(form), isEmail).Failure? ==>
        && errors == ErrorMap(ParseContact(old(form), isEmail).issues)
        && form == old(form) && loading == old(loading)
        && store.State() == old(store.State()) && store.log == old(store.log)
      ensures ParseContact(old(form), isEmail).Success? ==>
        var row := ParseContact(old(form), isEmail).data;
        && errors == map[] && !loading
        && form == (if sent then EmptyContact else old(form))
        && store.log == old(store.log) + [ContactInsert]
        && store.State() == (if fails then old(store.State())
                             else old(store.State()).(contacts := old(store.contacts) + [row]))
    {
      sent := Submit(store, ParseContact(form, isEmail), fails);
    }
  }
}
