/** The memorial form shared by the create and edit pages: its seven text
    fields, the `update(field, value)` setter, the create page's zod schema
    (src/pages/CreateMemorial.tsx:12-20), and the conversions between stored
    content and form values that the edit page performs
    (src/pages/EditMemorial.tsx:57-65, 104-113). */
module MemorialForms {
  import opened Common
  import opened Zod
  import opened Backend

  datatype MemorialForm = MemorialForm(
    fullName: string,
    birthDate: string,
    deathDate: string,
    location: string,
    biography: string,
    videoUrl: string,
    tributeMessage: string)

  /** The keys of the form object. */
  datatype Field = FullName | BirthDate | DeathDate | Location | Biography | VideoUrl | TributeMessage

  const EmptyForm := MemorialForm("", "", "", "", "", "", "")

  /** The key zod reports in an issue's path for each field. */
  function Key(f: Field): string {
    match f
    case FullName => "full_name"
    case BirthDate => "birth_date"
    case DeathDate => "death_date"
    case Location => "location"
    case Biography => "biography"
    case VideoUrl => "video_url"
    case TributeMessage => "tribute_message"
  }

  function Get(form: MemorialForm, f: Field): string {
    match f
    case FullName => form.fullName
    case BirthDate => form.birthDate
    case DeathDate => form.deathDate
    case Location => form.location
    case Biography => form.biography
    case VideoUrl => form.videoUrl
    case TributeMessage => form.tributeMessage
  }

  /** `setForm({ ...form, [field]: value })`: the named field takes the value
      and every other field keeps its own. */
  function Set(form: MemorialForm, f: Field, value: string): (r: MemorialForm)
    ensures Get(r, f) == value
    ensures forall g :: g != f ==> Get(r, g) == Get(form, g)
  {
    match f
    case FullName => form.(fullName := value)
    case BirthDate => form.(birthDate := value)
    case DeathDate => form.(deathDate := value)
    case Location => form.(location := value)
    case Biography => form.(biography := value)
    case VideoUrl => form.(videoUrl := value)
    case TributeMessage => form.(tributeMessage := value)
  }

  /** A form is determined by its fields, so setting a field back to the value
      it had changes nothing. */
  lemma SetOwnValue(form: MemorialForm, f: Field)
    ensures Set(form, f, Get(form, f)) == form
  {
  }

  // ---------------------------------------------------------------------------
  // The create page's schema

  /** What `result.data` holds when the schema passes: the three trimmed
      fields trimmed, everything else as typed. */
  datatype MemorialData = MemorialData(
    fullName: string,
    birthDate: string,
    deathDate: string,
    location: string,
    biography: string,
    videoUrl: string,
    tributeMessage: string)

  /** `z.string().url().optional().or(z.literal(''))`: the empty string matches
      the literal; any other value must be a URL, and otherwise the union reports
      the URL check's issue. */
  function UrlIssue(field: string, value: string, isUrl: string -> bool): (r: seq<Issue>)
    ensures r == [] <==> value == "" || isUrl(value)
    ensures r != [] ==> r == [Issue([field], "Invalid url")]
  {
    if value == "" || isUrl(value) then [] else [Issue([field], "Invalid url")]
  }

  /** The issues zod reports for one field, in the order of its checks. */
  function IssuesOf(form: MemorialForm, f: Field, isUrl: string -> bool): seq<Issue> {
    match f
    case FullName =>
      MinIssue(Key(f), Trim(form.fullName), 1, "Name is required") + MaxIssue(Key(f), Trim(form.fullName), 200)
    case BirthDate => MinIssue(Key(f), form.birthDate, 1, "Birth date is required")
    case DeathDate => MinIssue(Key(f), form.deathDate, 1, "Death date is required")
    case Location =>
      MinIssue(Key(f), Trim(form.location), 1, "Location is required") + MaxIssue(Key(f), Trim(form.location), 300)
    case Biography =>
      MinIssue(Key(f), Trim(form.biography), 1, "Biography is required") + MaxIssue(Key(f), Trim(form.biography), 10000)
    case VideoUrl => UrlIssue(Key(f), form.videoUrl, isUrl)
    case TributeMessage => MaxIssue(Key(f), form.tributeMessage, 5000)
  }

  /** The issues of each field, in the order of the schema's keys. */
  function FieldIssues(form: MemorialForm, isUrl: string -> bool): (parts: seq<seq<Issue>>)
    ensures |parts| == 7
  {
    seq(7, k requires 0 <= k < 7 => IssuesOf(form, FieldAt(k), isUrl))
  }

  /** `memorialSchema.safeParse(form)`. */
  function ParseMemorial(form: MemorialForm, isUrl: string -> bool): SafeParse<MemorialData> {
    var issues := Flatten(FieldIssues(form, isUrl));
    if issues == [] then
      Success(MemorialData(Trim(form.fullName), form.birthDate, form.deathDate, Trim(form.location),
                           Trim(form.biography), form.videoUrl, form.tributeMessage))
    else Failure(issues)
  }

  /** Each field's own rule, written out independently of the issue lists. */
  function FieldOk(form: MemorialForm, f: Field, isUrl: string -> bool): bool {
    match f
    case FullName => 1 <= JsLength(Trim(form.fullName)) <= 200
    case BirthDate => JsLength(form.birthDate) >= 1
    case DeathDate => JsLength(form.deathDate) >= 1
    case Location => 1 <= JsLength(Trim(form.location)) <= 300
    case Biography => 1 <= JsLength(Trim(form.biography)) <= 10000
    case VideoUrl => form.videoUrl == "" || isUrl(form.videoUrl)
    case TributeMessage => JsLength(form.tributeMessage) <= 5000
  }

  function FieldAt(k: nat): Field
    requires k < 7
  {
    [FullName, BirthDate, DeathDate, Location, Biography, VideoUrl, TributeMessage][k]
  }

  lemma IssuesOfShape(form: MemorialForm, f: Field, isUrl: string -> bool)
    ensures IssuesOf(form, f, isUrl) == [] <==> FieldOk(form, f, isUrl)
    ensures AllUnder(IssuesOf(form, f, isUrl), Key(f))
  {
    var key := Key(f);
    assert key != [] by { assert |key| > 0; }
    match f
    case FullName => BoundedShape(key, Trim(form.fullName), 1, "Name is required", 200);
    case BirthDate => SingleShape(IssuesOf(form, f, isUrl), key, "Birth date is required");
    case DeathDate => SingleShape(IssuesOf(form, f, isUrl), key, "Death date is required");
    case Location => BoundedShape(key, Trim(form.location), 1, "Location is required", 300);
    case Biography => BoundedShape(key, Trim(form.biography), 1, "Biography is required", 10000);
    case VideoUrl => SingleShape(IssuesOf(form, f, isUrl), key, "Invalid url");
    case TributeMessage => SingleShape(IssuesOf(form, f, isUrl), key, TooLongMessage(5000));
  }

  lemma FieldIssuesShape(form: MemorialForm, isUrl: string -> bool, k: nat)
    requires k < 7
    ensures FieldIssues(form, isUrl)[k] == [] <==> FieldOk(form, FieldAt(k), isUrl)
    ensures AllUnder(FieldIssues(form, isUrl)[k], Key(FieldAt(k)))
  {
    IssuesOfShape(form, FieldAt(k), isUrl);
  }

  /** Distinct fields have distinct keys. */
  lemma KeyInjective(f: Field, g: Field)
    requires Key(f) == Key(g)
    ensures f == g
  {
    assert Key(f)[..3] == Key(g)[..3];
  }

  function Keys(): (keys: seq<string>)
    ensures |keys| == 7 && forall k :: 0 <= k < 7 ==> keys[k] == Key(FieldAt(k))
  {
    seq(7, k requires 0 <= k < 7 => Key(FieldAt(k)))
  }

  function IndexOfField(f: Field): (k: nat)
    ensures k < 7 && FieldAt(k) == f
  {
    match f
    case FullName => 0 case BirthDate => 1 case DeathDate => 2 case Location => 3
    case Biography => 4 case VideoUrl => 5 case TributeMessage => 6
  }

  lemma FieldAtIndex(k: nat)
    requires k < 7
    ensures IndexOfField(FieldAt(k)) == k
  {
    if k == 0 {} else if k == 1 {} else if k == 2 {} else if k == 3 {} else if k == 4 {} else if k == 5 {} else {}
  }

  /** The schema passes exactly when every field meets its rule, and then the
      parsed data holds the trimmed name, location and biography. */
  lemma {:induction false} MemorialSchemaAccepts(form: MemorialForm, isUrl: string -> bool)
    ensures ParseMemorial(form, isUrl).Success? <==> forall f :: FieldOk(form, f, isUrl)
    ensures ParseMemorial(form, isUrl).Success? ==>
      var d := ParseMemorial(form, isUrl).data;
      d.fullName == Trim(form.fullName) && d.location == Trim(form.location) && d.biography == Trim(form.biography)
      && d.birthDate == form.birthDate && d.deathDate == form.deathDate
      && d.videoUrl == form.videoUrl && d.tributeMessage == form.tributeMessage
  {
    var parts := FieldIssues(form, isUrl);
    FlattenEmpty(parts);
    if forall f :: FieldOk(form, f, isUrl) {
      forall k | 0 <= k < |parts| ensures parts[k] == [] {
        FieldIssuesShape(form, isUrl, k);
      }
    } else {
      var f :| !FieldOk(form, f, isUrl);
      FieldIssuesShape(form, isUrl, IndexOfField(f));
    }
  }

  /** The issue lists are filed under the schema's keys, one list per key. */
  lemma AllFieldsUnderKeys(form: MemorialForm, isUrl: string -> bool)
    ensures |FieldIssues(form, isUrl)| == |Keys()|
    ensures forall k :: 0 <= k < |FieldIssues(form, isUrl)| ==>
      Keys()[k] != "" && AllUnder(FieldIssues(form, isUrl)[k], Keys()[k])
  {
    var parts := FieldIssues(form, isUrl);
    forall k | 0 <= k < |parts| ensures Keys()[k] != "" && AllUnder(parts[k], Keys()[k]) {
      FieldIssuesShape(form, isUrl, k);
      assert |Keys()[k]| > 0;
    }
  }

  /** On failure, the error map has an entry for a field exactly when that
      field breaks its rule. */
  lemma {:induction false} MemorialErrorKeys(form: MemorialForm, isUrl: string -> bool, f: Field)
    ensures Key(f) in ErrorMap(Flatten(FieldIssues(form, isUrl))) <==> !FieldOk(form, f, isUrl)
  {
    var parts := FieldIssues(form, isUrl);
    AllFieldsUnderKeys(form, isUrl);
    ErrorMapFieldsOfConcat(parts, Keys(), Key(f));
    var k := IndexOfField(f);
    FieldIssuesShape(form, isUrl, k);
    if Key(f) in ErrorMap(Flatten(parts)) {
      var j :| 0 <= j < |parts| && Keys()[j] == Key(f) && parts[j] != [];
      KeyInjective(FieldAt(j), f);
      FieldAtIndex(j);
    }
    if !FieldOk(form, f, isUrl) {
      assert Keys()[k] == Key(f) && parts[k] != [];
    }
  }

  /** No key outside the schema ever appears in the error map. */
  lemma {:induction false} MemorialErrorKeysAreFields(form: MemorialForm, isUrl: string -> bool, key: string)
    requires forall f :: key != Key(f)
    ensures key !in ErrorMap(Flatten(FieldIssues(form, isUrl)))
  {
    var parts := FieldIssues(form, isUrl);
    AllFieldsUnderKeys(form, isUrl);
    ErrorMapFieldsOfConcat(parts, Keys(), key);
  }

  // ---------------------------------------------------------------------------
  // Stored content and form values

  /** The columns the create page inserts from the parsed data, with the public
      URL of the uploaded cover (src/pages/CreateMemorial.tsx:84-93). */
  function CreatedContent(d: MemorialData, coverUrl: string): (c: MemorialContent)
    ensures c.videoUrl.None? <==> d.videoUrl == ""
    ensures c.tributeMessage.None? <==> d.tributeMessage == ""
    ensures c.coverImageUrl == Some(coverUrl)
  {
    MemorialContent(d.fullName, d.birthDate, d.deathDate, d.location, d.biography,
                    Some(coverUrl), NullIfEmpty(d.videoUrl), NullIfEmpty(d.tributeMessage))
  }

  /** `setForm({...})` after the owner-scoped load: nulls become `''`. */
  function FormOf(c: MemorialContent): MemorialForm {
    MemorialForm(c.fullName, c.birthDate, c.deathDate, c.location, c.biography,
                 c.videoUrl.GetOr(""), c.tributeMessage.GetOr(""))
  }

  /** The columns the edit page writes back: form values as typed, `''` as
      null, and the cover URL it settled on. */
  function EditedContent(form: MemorialForm, coverUrl: Option<string>): MemorialContent {
    MemorialContent(form.fullName, form.birthDate, form.deathDate, form.location, form.biography,
                    coverUrl, NullIfEmpty(form.videoUrl), NullIfEmpty(form.tributeMessage))
  }

  /** Saving a loaded form unchanged writes back exactly the stored content,
      unless a nullable column held an empty string, which comes back null. */
  lemma {:induction false} UnchangedFormPreservesContent(c: MemorialContent)
    ensures EditedContent(FormOf(c), c.coverImageUrl) == c <==>
      c.videoUrl != Some("") && c.tributeMessage != Some("")
  {
    NullIfEmptyRoundTrip("", c.videoUrl);
    NullIfEmptyRoundTrip("", c.tributeMessage);
  }

  /** Content the create page stores never holds such an empty string, so an
      edit that changes nothing preserves it. */
  lemma {:induction false} CreatedContentSurvivesEdit(d: MemorialData, coverUrl: string)
    ensures var c := CreatedContent(d, coverUrl);
      EditedContent(FormOf(c), c.coverImageUrl) == c
  {
    var c := CreatedContent(d, coverUrl);
    UnchangedFormPreservesContent(c);
  }
}
