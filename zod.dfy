/** The slice of zod the forms use: string checks that produce ordered issues,
    and the `forEach` every page runs to turn the issues into a field-keyed
    error map (src/pages/CreateMemorial.tsx:47-48, src/pages/Signup.tsx:31-34,
    src/pages/Contact.tsx:28-31). */
module Zod {
  import opened Common

  /** The outcome of `safeParse`: the parsed data, or the issues in order. */
  datatype SafeParse<T> = Success(data: T) | Failure(issues: seq<Issue>)

  /** One validation issue: the path of the offending value and its message. */
  datatype Issue = Issue(path: seq<string>, message: string)

  /** `if (err.path[0])`: the field an issue is filed under, when the first
      element of its path is present and non-empty. */
  function FieldOf(issue: Issue): Option<string> {
    if |issue.path| > 0 && issue.path[0] != "" then Some(issue.path[0]) else None
  }

  /** The map the `forEach` leaves behind: each issue in turn writes its
      message under its field, so a later issue overwrites an earlier one. */
  function ErrorMap(issues: seq<Issue>): map<string, string>
  {
    if issues == [] then map[]
    else
      var last := issues[|issues| - 1];
      var m := ErrorMap(issues[..|issues| - 1]);
      match FieldOf(last)
      case Some(f) => m[f := last.message]
      case None => m
  }

  /** A field has an entry exactly when some issue is filed under it. */
  lemma {:induction false} ErrorMapKeys(issues: seq<Issue>, f: string)
    ensures f in ErrorMap(issues) <==> exists i :: 0 <= i < |issues| && FieldOf(issues[i]) == Some(f)
  {
    if issues != [] {
      var n := |issues| - 1;
      ErrorMapKeys(issues[..n], f);
      if exists i :: 0 <= i < n && FieldOf(issues[..n][i]) == Some(f) {
        var i :| 0 <= i < n && FieldOf(issues[..n][i]) == Some(f);
        assert issues[i] == issues[..n][i];
      }
      if exists i :: 0 <= i < |issues| && FieldOf(issues[i]) == Some(f) {
        var i :| 0 <= i < |issues| && FieldOf(issues[i]) == Some(f);
        if i < n {
          assert issues[..n][i] == issues[i];
        }
      }
    }
  }

  /** The entry of a field is the message of the LAST issue filed under it. */
  lemma {:induction false} ErrorMapLastWins(issues: seq<Issue>, i: nat, f: string)
    requires i < |issues| && FieldOf(issues[i]) == Some(f)
    requires forall j :: i < j < |issues| ==> FieldOf(issues[j]) != Some(f)
    ensures f in ErrorMap(issues) && ErrorMap(issues)[f] == issues[i].message
  {
    var n := |issues| - 1;
    if i < n {
      forall j | i < j < n ensures FieldOf(issues[..n][j]) != Some(f) {
        assert issues[..n][j] == issues[j];
      }
      assert issues[..n][i] == issues[i];
      ErrorMapLastWins(issues[..n], i, f);
    }
  }

  /** The `forEach` over `result.error.errors`, building `fieldErrors`. */
  method CollectFieldErrors(issues: seq<Issue>) returns (fieldErrors: map<string, string>)
    ensures fieldErrors == ErrorMap(issues)
  {
    fieldErrors := map[];
    for i := 0 to |issues|
      invariant fieldErrors == ErrorMap(issues[..i])
    {
      assert issues[..i + 1][..i] == issues[..i];
      var err := issues[i];
      if |err.path| > 0 && err.path[0] != "" {
        fieldErrors := fieldErrors[err.path[0] := err.message];
      }
    }
    assert issues[..|issues|] == issues;
  }

  // ---------------------------------------------------------------------------
  // String checks

  /** zod's default message for `.max(n)` on a string. */
  function TooLongMessage(max: nat): string {
    "String must contain at most " + Decimal(max) + " character(s)"
  }

  /** `.min(min, message)`: one issue when the value is shorter than `min`. */
  function MinIssue(field: string, value: string, min: nat, message: string): (r: seq<Issue>)
    ensures r == [] <==> JsLength(value) >= min
    ensures r != [] ==> r == [Issue([field], message)]
  {
    if JsLength(value) < min then [Issue([field], message)] else []
  }

  /** `.max(max)`: one issue when the value is longer than `max`. */
  function MaxIssue(field: string, value: string, max: nat): (r: seq<Issue>)
    ensures r == [] <==> JsLength(value) <= max
    ensures r != [] ==> r == [Issue([field], TooLongMessage(max))]
  {
    if JsLength(value) > max then [Issue([field], TooLongMessage(max))] else []
  }

  /** `.email(message)`, with `isEmail` standing for zod's address pattern. */
  function EmailIssue(field: string, value: string, isEmail: string -> bool, message: string): (r: seq<Issue>)
    ensures r == [] <==> isEmail(value)
    ensures r != [] ==> r == [Issue([field], message)]
  {
    if isEmail(value) then [] else [Issue([field], message)]
  }

  /** Every issue of `issues` is filed under `field`. */
  predicate AllUnder(issues: seq<Issue>, field: string) {
    forall i :: 0 <= i < |issues| ==> FieldOf(issues[i]) == Some(field)
  }

  /** A trimmed field with both a minimum and a maximum length. */
  lemma BoundedShape(field: string, v: string, min: nat, message: string, max: nat)
    requires field != ""
    ensures var r := MinIssue(field, v, min, message) + MaxIssue(field, v, max);
      (r == [] <==> min <= JsLength(v) <= max) && AllUnder(r, field)
  {
  }

  lemma SingleShape(r: seq<Issue>, field: string, message: string)
    requires field != "" && (r == [] || r == [Issue([field], message)])
    ensures AllUnder(r, field)
  {
  }

  /** An address check followed by a maximum length. */
  lemma EmailBoundedShape(field: string, v: string, isEmail: string -> bool, message: string, max: nat)
    requires field != ""
    ensures var r := EmailIssue(field, v, isEmail, message) + MaxIssue(field, v, max);
      (r == [] <==> isEmail(v) && JsLength(v) <= max) && AllUnder(r, field)
  {
  }

  /** Issues of different fields concatenated: the map has one key per field
      that has issues. */
  lemma ErrorMapFieldsOfConcat(parts: seq<seq<Issue>>, fields: seq<string>, f: string)
    requires |parts| == |fields|
    requires forall k :: 0 <= k < |parts| ==> fields[k] != "" && AllUnder(parts[k], fields[k])
    ensures f in ErrorMap(Flatten(parts)) <==> exists k :: 0 <= k < |parts| && fields[k] == f && parts[k] != []
  {
    var all := Flatten(parts);
    ErrorMapKeys(all, f);
    if exists i :: 0 <= i < |all| && FieldOf(all[i]) == Some(f) {
      var i :| 0 <= i < |all| && FieldOf(all[i]) == Some(f);
      var k, j := FlattenIndex(parts, i);
      assert fields[k] == f;
    }
    if exists k :: 0 <= k < |parts| && fields[k] == f && parts[k] != [] {
      var k :| 0 <= k < |parts| && fields[k] == f && parts[k] != [];
      var i := FlattenPosition(parts, k, 0);
      assert FieldOf(all[i]) == Some(f);
    }
  }

  function Flatten(parts: seq<seq<Issue>>): seq<Issue> {
    if parts == [] then [] else Flatten(parts[..|parts| - 1]) + parts[|parts| - 1]
  }

  /** No part has an issue exactly when the whole has none. */
  lemma {:induction false} FlattenEmpty(parts: seq<seq<Issue>>)
    ensures Flatten(parts) == [] <==> forall k :: 0 <= k < |parts| ==> parts[k] == []
  {
    if parts != [] {
      var n := |parts| - 1;
      FlattenEmpty(parts[..n]);
      assert forall k :: 0 <= k < n ==> parts[..n][k] == parts[k];
    }
  }

  lemma {:induction false} FlattenIndex(parts: seq<seq<Issue>>, i: nat) returns (k: nat, j: nat)
    requires i < |Flatten(parts)|
    ensures k < |parts| && j < |parts[k]| && Flatten(parts)[i] == parts[k][j]
  {
    var n := |parts| - 1;
    var front := Flatten(parts[..n]);
    if i < |front| {
      k, j := FlattenIndex(parts[..n], i);
      assert parts[..n][k] == parts[k];
    } else {
      k, j := n, i - |front|;
    }
  }

  lemma {:induction false} FlattenPosition(parts: seq<seq<Issue>>, k: nat, j: nat) returns (i: nat)
    requires k < |parts| && j < |parts[k]|
    ensures i < |Flatten(parts)| && Flatten(parts)[i] == parts[k][j]
  {
    var n := |parts| - 1;
    if k < n {
      assert parts[..n][k] == parts[k];
      i := FlattenPosition(parts[..n], k, j);
    } else {
      i := |Flatten(parts[..n])| + j;
    }
  }
}
