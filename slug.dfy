/** Slug allocation for a new memorial (src/pages/CreateMemorial.tsx:22-23 and
    61-68): `slugify` normalises the display name, then a prefix lookup over
    the existing slugs decides whether a `-{count+1}` suffix is appended. */
module Slug {
  import opened Common
  import opened Backend

  /** The characters `[a-z0-9]`. */
  predicate IsSlugChar(c: char) {
    ('a' <= c <= 'z') || ('0' <= c <= '9')
  }

  /** `toLowerCase` on one character, ASCII letters only. */
  function LowerAscii(c: char): (r: char)
    ensures 'A' <= c <= 'Z' ==> 'a' <= r <= 'z'
    ensures !('A' <= c <= 'Z') ==> r == c
    ensures IsSlugChar(r) <==> IsSlugChar(c) || ('A' <= c <= 'Z')
  {
    if 'A' <= c <= 'Z' then (c as int - 'A' as int + 'a' as int) as char else c
  }

  function ToLower(s: string): (r: string)
    ensures |r| == |s| && forall i :: 0 <= i < |s| ==> r[i] == LowerAscii(s[i])
  {
    seq(|s|, i requires 0 <= i < |s| => LowerAscii(s[i]))
  }

  /** Some character of `s` is in `[a-z0-9]`. */
  predicate HasSlugChar(s: string) {
    exists i :: 0 <= i < |s| && IsSlugChar(s[i])
  }

  /** What a slug looks like: only `[a-z0-9-]`, no hyphen at either end, no two
      hyphens in a row. */
  predicate IsSlug(s: string) {
    && SlugCharset(s)
    && (s != [] ==> s[0] != '-' && s[|s| - 1] != '-')
    && NoDoubleHyphen(s)
  }

  /** Only `[a-z0-9-]`. */
  predicate SlugCharset(s: string) {
    forall i :: 0 <= i < |s| ==> IsSlugChar(s[i]) || s[i] == '-'
  }

  /** No two hyphens in a row. */
  predicate NoDoubleHyphen(s: string) {
    forall i :: 0 <= i < |s| - 1 ==> s[i] != '-' || s[i + 1] != '-'
  }

  /** The run of characters outside `[a-z0-9]` at the front of `s`, dropped. */
  function SkipRun(s: string): (r: string)
    ensures |r| <= |s| && r == s[|s| - |r|..]
    ensures r == [] || IsSlugChar(r[0])
    ensures forall i :: 0 <= i < |s| - |r| ==> !IsSlugChar(s[i])
  {
    if s != [] && !IsSlugChar(s[0]) then
      var r := SkipRun(s[1..]);
      assert forall i :: 1 <= i < |s| - |r| ==> s[i] == s[1..][i - 1];
      r
    else s
  }

  /** `.replace(/[^a-z0-9]+/g, '-')`: every maximal run outside `[a-z0-9]`
      becomes one hyphen. */
  function ReplaceRuns(s: string): (r: string)
    ensures r == [] <==> s == []
    decreases |s|
  {
    if s == [] then []
    else if IsSlugChar(s[0]) then [s[0]] + ReplaceRuns(s[1..])
    else "-" + ReplaceRuns(SkipRun(s))
  }

  /** What the replacement leaves: only `[a-z0-9-]`, no two hyphens in a row,
      a leading letter or digit kept in place, and letters or digits present
      exactly when the input had some (otherwise at most the one hyphen). */
  lemma {:induction false} ReplaceRunsShape(s: string)
    ensures SlugCharset(ReplaceRuns(s)) && NoDoubleHyphen(ReplaceRuns(s))
    ensures s != [] && IsSlugChar(s[0]) ==> ReplaceRuns(s)[0] == s[0]
    ensures HasSlugChar(ReplaceRuns(s)) <==> HasSlugChar(s)
    ensures !HasSlugChar(s) ==> |ReplaceRuns(s)| <= 1
    decreases |s|
  {
    if s == [] {
    } else if IsSlugChar(s[0]) {
      var rest := ReplaceRuns(s[1..]);
      ReplaceRunsShape(s[1..]);
      PrependKeepsRuns(s[0], rest);
      var r := [s[0]] + rest;
      assert HasSlugChar(s) && HasSlugChar(r) by { assert IsSlugChar(r[0]); }
    } else {
      var t := SkipRun(s);
      var rest := ReplaceRuns(t);
      ReplaceRunsShape(t);
      PrependKeepsRuns('-', rest);
      SlugCharsAfterHyphen(rest);
      SlugCharsAfterRun(s, t);
      if !HasSlugChar(s) {
        assert t == [];
      }
    }
  }

  lemma {:induction false} PrependKeepsRuns(c: char, rest: string)
    requires IsSlugChar(c) || c == '-'
    requires c == '-' ==> rest == [] || rest[0] != '-'
    requires SlugCharset(rest) && NoDoubleHyphen(rest)
    ensures SlugCharset([c] + rest) && NoDoubleHyphen([c] + rest)
  {
    var r := [c] + rest;
    forall i | 0 < i < |r| ensures r[i] == rest[i - 1] {
    }
  }

  lemma {:induction false} SlugCharsAfterHyphen(rest: string)
    ensures HasSlugChar("-" + rest) <==> HasSlugChar(rest)
  {
    var r := "-" + rest;
    if HasSlugChar(r) {
      var i :| 0 <= i < |r| && IsSlugChar(r[i]);
      assert rest[i - 1] == r[i];
    }
    if HasSlugChar(rest) {
      var i :| 0 <= i < |rest| && IsSlugChar(rest[i]);
      assert r[i + 1] == rest[i];
    }
  }

  lemma {:induction false} SlugCharsAfterRun(s: string, t: string)
    requires t == SkipRun(s)
    ensures HasSlugChar(s) <==> HasSlugChar(t)
  {
    if HasSlugChar(s) {
      var i :| 0 <= i < |s| && IsSlugChar(s[i]);
      assert t[i - (|s| - |t|)] == s[i];
    }
    if HasSlugChar(t) {
      var i :| 0 <= i < |t| && IsSlugChar(t[i]);
      assert s[i + (|s| - |t|)] == t[i];
    }
  }

  /** `.replace(/(^-|-$)/g, '')`: one hyphen cut from each end. */
  function StripEdges(t: string): (r: string)
    ensures (t == [] || t[0] != '-') && (t == [] || t[|t| - 1] != '-') ==> r == t
  {
    var a := if t != [] && t[0] == '-' then t[1..] else t;
    if a != [] && a[|a| - 1] == '-' then a[..|a| - 1] else a
  }

  /** `slugify(text)`: lower-case, runs outside `[a-z0-9]` to one hyphen,
      leading and trailing hyphen removed. The result is always a slug, and it
      is empty exactly when the name has no ASCII letter or digit. */
  function Slugify(text: string): (r: string)
    ensures IsSlug(r)
    ensures r == [] <==> !HasSlugChar(ToLower(text))
  {
    var t := ReplaceRuns(ToLower(text));
    var r := StripEdges(t);
    ReplaceRunsShape(ToLower(text));
    StripEdgesOfRuns(t);
    r
  }

  lemma {:induction false} StripEdgesOfRuns(t: string)
    requires SlugCharset(t) && NoDoubleHyphen(t)
    requires !HasSlugChar(t) ==> |t| <= 1
    ensures IsSlug(StripEdges(t))
    ensures StripEdges(t) == [] <==> !HasSlugChar(t)
  {
    var lo, hi := StripEdgesSlice(t);
    var r := t[lo..hi];
    SliceKeepsRuns(t, lo, hi);
    if HasSlugChar(t) {
      var i :| 0 <= i < |t| && IsSlugChar(t[i]);
      assert lo <= i < hi;
      assert r[i - lo] == t[i];
      assert r[0] == t[lo] && t[lo] != '-' by {
        if lo == 1 {
          assert t[0] == '-';
        }
      }
      assert r[|r| - 1] == t[hi - 1] && t[hi - 1] != '-' by {
        if hi < |t| {
          assert t[|t| - 1] == '-';
        }
      }
    } else if t != [] {
      assert !IsSlugChar(t[0]);
    }
  }

  /** What `StripEdges` keeps is the slice of `t` between an optional leading
      hyphen and an optional trailing one. */
  lemma {:induction false} StripEdgesSlice(t: string) returns (lo: nat, hi: nat)
    ensures lo <= hi <= |t| && StripEdges(t) == t[lo..hi]
    ensures lo == (if t != [] && t[0] == '-' then 1 else 0)
    ensures hi == |t| || (hi == |t| - 1 && t[|t| - 1] == '-')
    ensures lo < |t| && t[|t| - 1] == '-' ==> hi == |t| - 1
  {
    lo := if t != [] && t[0] == '-' then 1 else 0;
    var a := t[lo..];
    hi := if a != [] && a[|a| - 1] == '-' then |t| - 1 else |t|;
    if a != [] && a[|a| - 1] == '-' {
      assert a[..|a| - 1] == t[lo..hi];
    }
  }

  /** A slice of text made of letters, digits and lone hyphens is again such
      text. */
  lemma {:induction false} SliceKeepsRuns(t: string, lo: nat, hi: nat)
    requires lo <= hi <= |t|
    requires SlugCharset(t) && NoDoubleHyphen(t)
    ensures SlugCharset(t[lo..hi]) && NoDoubleHyphen(t[lo..hi])
  {
    var r := t[lo..hi];
    forall i | 0 <= i < |r| ensures IsSlugChar(r[i]) || r[i] == '-' {
      assert r[i] == t[lo + i];
    }
    forall i | 0 <= i < |r| - 1 ensures r[i] != '-' || r[i + 1] != '-' {
      assert r[i] == t[lo + i] && r[i + 1] == t[lo + i + 1];
    }
  }

  /** The name's letters and digits decide emptiness: a name without any ASCII
      letter or digit, such as "!!!", gives the empty slug. */
  lemma {:induction false} SlugifyEmptyIff(text: string)
    ensures Slugify(text) == [] <==> forall i :: 0 <= i < |text| ==> !IsSlugChar(LowerAscii(text[i]))
  {
    var l := ToLower(text);
    if HasSlugChar(l) {
      var i :| 0 <= i < |l| && IsSlugChar(l[i]);
      assert IsSlugChar(LowerAscii(text[i]));
    }
  }

  lemma {:induction false} SlugifyBangs()
    ensures Slugify("!!!") == ""
  {
    SlugifyEmptyIff("!!!");
  }

  /** On a slug, replacing runs changes nothing: every hyphen already stands
      alone between two letters or digits. */
  lemma {:induction false} ReplaceRunsOfSlugText(t: string)
    requires SlugCharset(t) && NoDoubleHyphen(t)
    requires t != [] ==> t[|t| - 1] != '-'
    ensures ReplaceRuns(t) == t
    decreases |t|
  {
    if t != [] {
      SliceKeepsRuns(t, 1, |t|);
      var rest := t[1..];
      assert rest != [] ==> rest[|rest| - 1] == t[|t| - 1];
      ReplaceRunsOfSlugText(rest);
      FirstOfSlugText(t);
    }
  }

  lemma {:induction false} FirstOfSlugText(t: string)
    requires t != [] && SlugCharset(t) && NoDoubleHyphen(t) && t[|t| - 1] != '-'
    requires ReplaceRuns(t[1..]) == t[1..]
    ensures ReplaceRuns(t) == t
  {
    assert t == [t[0]] + t[1..];
    if IsSlugChar(t[0]) {
      ReplaceRunsStep(t);
    } else {
      assert t[0] == '-' && |t| >= 2;
      assert t[1] != '-' by { assert !(t[0] == '-' && t[1] == '-'); }
      assert IsSlugChar(t[1]);
      HyphenStep(t);
    }
  }

  lemma {:induction false} ReplaceRunsStep(t: string)
    requires t != [] && IsSlugChar(t[0])
    ensures ReplaceRuns(t) == [t[0]] + ReplaceRuns(t[1..])
  {
  }

  lemma {:induction false} HyphenStep(t: string)
    requires |t| >= 2 && !IsSlugChar(t[0]) && IsSlugChar(t[1])
    ensures ReplaceRuns(t) == "-" + ReplaceRuns(t[1..])
  {
    assert SkipRun(t[1..]) == t[1..];
  }

  /** `slugify` is idempotent. */
  lemma {:induction false} SlugifyIdempotent(text: string)
    ensures Slugify(Slugify(text)) == Slugify(text)
  {
    var s := Slugify(text);
    assert ToLower(s) == s;
    ReplaceRunsOfSlugText(s);
  }

  /** One word of a name: ASCII letters and digits only. */
  predicate IsWord(w: string) {
    w != [] && forall i :: 0 <= i < |w| ==> IsSlugChar(LowerAscii(w[i]))
  }

  /** A two-word name such as "Jane Doe" becomes its lower-cased words joined
      by a hyphen ("jane-doe"). */
  lemma {:induction false} TwoWordSlug(first: string, last: string)
    requires IsWord(first) && IsWord(last)
    ensures Slugify(first + " " + last) == ToLower(first) + "-" + ToLower(last)
  {
    var lf, ll := ToLower(first), ToLower(last);
    LowerTwoWords(first, last);
    LowerWord(first);
    LowerWord(last);
    TwoWordRuns(lf, ll);
    SlugifyOfRuns(first + " " + last, lf + "-" + ll);
  }

  /** A word lowers to letters and digits. */
  lemma {:induction false} LowerWord(w: string)
    requires IsWord(w)
    ensures ToLower(w) != [] && forall i :: 0 <= i < |w| ==> IsSlugChar(ToLower(w)[i])
  {
  }

  /** When the replaced text neither starts nor ends with a hyphen, it is the
      slug. */
  lemma {:induction false} SlugifyOfRuns(text: string, t: string)
    requires ReplaceRuns(ToLower(text)) == t
    requires t != [] && IsSlugChar(t[0]) && IsSlugChar(t[|t| - 1])
    ensures Slugify(text) == t
  {
    assert StripEdges(t) == t;
  }

  lemma {:induction false} LowerTwoWords(first: string, last: string)
    ensures ToLower(first + " " + last) == ToLower(first) + (" " + ToLower(last))
  {
    var lf, ll := ToLower(first), ToLower(last);
    var name := first + " " + last;
    forall i | 0 <= i < |name| ensures ToLower(name)[i] == (lf + (" " + ll))[i] {
      if i < |first| {
        assert name[i] == first[i];
      } else if i > |first| {
        assert name[i] == last[i - |first| - 1];
      }
    }
  }

  /** Two runs of letters and digits separated by a space: the space becomes
      a hyphen. */
  lemma {:induction false} TwoWordRuns(lf: string, ll: string)
    requires forall i :: 0 <= i < |lf| ==> IsSlugChar(lf[i])
    requires ll != [] && forall i :: 0 <= i < |ll| ==> IsSlugChar(ll[i])
    ensures ReplaceRuns(lf + (" " + ll)) == lf + "-" + ll
    ensures var t := lf + "-" + ll; IsSlugChar(t[|t| - 1]) && (lf != [] ==> IsSlugChar(t[0]))
  {
    var sl := " " + ll;
    KeptPrefix(lf, sl);
    assert sl[1..] == ll && sl[0] == ' ' && IsSlugChar(sl[1]);
    HyphenStep(sl);
    KeptPrefix(ll, []);
    assert ll + [] == ll;
    AppendAssoc(lf, "-", ll);
  }

  /** A leading stretch of letters and digits passes through unchanged. */
  lemma {:induction false} KeptPrefix(x: string, y: string)
    requires forall i :: 0 <= i < |x| ==> IsSlugChar(x[i])
    ensures ReplaceRuns(x + y) == x + ReplaceRuns(y)
    decreases |x|
  {
    if x == [] {
      assert x + y == y;
    } else {
      var n := |x| - 1;
      var front, cy := x[..n], [x[n]] + y;
      assert x + y == front + cy;
      assert forall i :: 0 <= i < |front| ==> front[i] == x[i];
      KeptPrefix(front, cy);
      ReplaceRunsStep(cy);
      assert cy[1..] == y;
      AppendAssoc(front, [x[n]], ReplaceRuns(y));
      assert front + [x[n]] == x;
    }
  }

  // ---------------------------------------------------------------------------
  // LIKE over a slug is a prefix test

  /** No character of `s` is special to LIKE. */
  predicate NoWildcards(s: string) {
    forall i :: 0 <= i < |s| ==> s[i] != '%' && s[i] != '_' && s[i] != '\\'
  }

  lemma {:induction false} LikeAnything(s: string)
    ensures Like("%", s)
    decreases |s|
  {
    if s != [] {
      LikeAnything(s[1..]);
    }
  }

  /** `like('slug', base + '%')` matches exactly the slugs starting with `base`
      when `base` holds no wildcard or escape character. */
  lemma {:induction false} LikePrefix(base: string, s: string)
    requires NoWildcards(base)
    ensures Like(base + "%", s) <==> StartsWith(s, base)
    decreases |base|
  {
    if base == [] {
      LikeAnything(s);
      assert base + "%" == "%";
    } else {
      assert (base + "%")[1..] == base[1..] + "%";
      if s != [] {
        LikePrefix(base[1..], s[1..]);
        if StartsWith(s, base) {
          assert s[1..][..|base| - 1] == s[..|base|][1..];
        }
        if s[0] == base[0] && StartsWith(s[1..], base[1..]) {
          assert s[..|base|] == [s[0]] + s[1..][..|base| - 1];
        }
      }
    }
  }

  lemma {:induction false} SlugHasNoWildcards(s: string)
    requires IsSlug(s)
    ensures NoWildcards(s)
  {
  }

  /** The slugs of `rows` that start with `base`, in table order. */
  function SlugsWithPrefix(rows: seq<MemorialRow>, base: string): seq<string> {
    if rows == [] then []
    else
      var last := rows[|rows| - 1];
      SlugsWithPrefix(rows[..|rows| - 1], base) + (if StartsWith(last.slug, base) then [last.slug] else [])
  }

  /** The lookup of line 65 returns exactly the slugs that have the base as a
      prefix: a slug has no `%`, `_` or `\`. */
  lemma {:induction false} LookupIsPrefixTest(rows: seq<MemorialRow>, base: string)
    requires IsSlug(base)
    ensures SlugsLike(rows, base + "%") == SlugsWithPrefix(rows, base)
  {
    if rows != [] {
      LookupIsPrefixTest(rows[..|rows| - 1], base);
      LikePrefix(base, rows[|rows| - 1].slug);
    }
  }

  // ---------------------------------------------------------------------------
  // Disambiguation

  /** Lines 66-68: given what the lookup returned (None when the query failed),
      keep the base when nothing matched, else append `-{count+1}`. */
  function Disambiguate(base: string, existing: Option<seq<string>>): (slug: string)
    ensures existing.None? || existing.value == [] ==> slug == base
    ensures existing.Some? && existing.value != [] ==>
      slug == base + "-" + Decimal(|existing.value| + 1)
  {
    if existing.Some? && |existing.value| > 0 then base + "-" + Decimal(|existing.value| + 1) else base
  }

  /** The slug the create workflow settles on for `name` against the table. */
  function AllocateSlug(rows: seq<MemorialRow>, name: string, lookupFails: bool): string {
    var base := Slugify(name);
    Disambiguate(base, if lookupFails then None else Some(SlugsLike(rows, base + "%")))
  }

  /** When no existing slug starts with the base, the base itself is used, and
      then it is indeed not taken. */
  lemma {:induction false} FreshBaseIsKept(rows: seq<MemorialRow>, name: string)
    requires forall m :: m in rows ==> !StartsWith(m.slug, Slugify(name))
    ensures AllocateSlug(rows, name, false) == Slugify(name)
    ensures forall m :: m in rows ==> m.slug != AllocateSlug(rows, name, false)
  {
    var base := Slugify(name);
    LookupIsPrefixTest(rows, base);
    NoPrefixedSlugs(rows, base);
  }

  lemma {:induction false} NoPrefixedSlugs(rows: seq<MemorialRow>, base: string)
    requires forall m :: m in rows ==> !StartsWith(m.slug, base)
    ensures SlugsWithPrefix(rows, base) == []
  {
    if rows != [] {
      assert rows[|rows| - 1] in rows;
      NoPrefixedSlugs(rows[..|rows| - 1], base);
    }
  }

  /** Otherwise the suffix is one more than the number of existing slugs that
      start with the base, unrelated longer names included. */
  lemma {:induction false} CollisionAppendsCount(rows: seq<MemorialRow>, name: string)
    requires SlugsWithPrefix(rows, Slugify(name)) != []
    ensures AllocateSlug(rows, name, false)
      == Slugify(name) + "-" + Decimal(|SlugsWithPrefix(rows, Slugify(name))| + 1)
  {
    var base := Slugify(name);
    var found := SlugsLike(rows, base + "%");
    LookupIsPrefixTest(rows, base);
    assert found == SlugsWithPrefix(rows, base);
    assert AllocateSlug(rows, name, false) == Disambiguate(base, Some(found));
  }

  /** A failed lookup leaves the base unchanged, taken or not. */
  lemma {:induction false} FailedLookupKeepsBase(rows: seq<MemorialRow>, name: string)
    ensures AllocateSlug(rows, name, true) == Slugify(name)
  {
  }

  /** A second memorial under the same name, say a second "Jane Doe" next to
      `jane-doe`, gets the suffix `-2`. */
  lemma {:induction false} SecondOfSameName(row: MemorialRow, name: string)
    requires Slugify(name) != [] && row.slug == Slugify(name)
    ensures AllocateSlug([row], name, false) == row.slug + "-2"
  {
    var base := Slugify(name);
    LookupIsPrefixTest([row], base);
    assert [row][..0] == [];
    assert StartsWith(row.slug, base);
    assert SlugsWithPrefix([row], base) == [row.slug];
    assert Decimal(2) == "2";
  }

  /** The rule does not guarantee uniqueness: when the only existing slug is
      the base with `-2` appended (`jane-doe-2`), the new memorial gets that
      same slug. */
  lemma {:induction false} AllocationCanCollide(row: MemorialRow, name: string)
    requires Slugify(name) != [] && row.slug == Slugify(name) + "-2"
    ensures AllocateSlug([row], name, false) == row.slug
  {
    var base := Slugify(name);
    LookupIsPrefixTest([row], base);
    assert [row][..0] == [];
    assert row.slug[..|base|] == base;
    assert SlugsWithPrefix([row], base) == [row.slug];
    assert Decimal(2) == "2";
  }

  /** A name without letters or digits has the empty base, which every slug
      starts with: the result is `-{N+1}` for a table of N memorials, which is
      not a slug. */
  lemma {:induction false} EmptyBaseCountsEveryMemorial(rows: seq<MemorialRow>, name: string)
    requires Slugify(name) == [] && rows != []
    ensures AllocateSlug(rows, name, false) == "-" + Decimal(|rows| + 1)
    ensures !IsSlug(AllocateSlug(rows, name, false))
  {
    EveryoneStartsWithEmpty(rows);
    LookupIsPrefixTest(rows, "");
    assert "" + "%" == "%";
    var x := "-" + Decimal(|rows| + 1);
    assert AllocateSlug(rows, name, false) == x;
    assert x[0] == '-';
  }

  lemma {:induction false} EveryoneStartsWithEmpty(rows: seq<MemorialRow>)
    ensures |SlugsWithPrefix(rows, "")| == |rows|
  {
    if rows != [] {
      EveryoneStartsWithEmpty(rows[..|rows| - 1]);
    }
  }

  /** From a non-empty base the allocated slug is again a slug. */
  lemma {:induction false} AllocatedSlugIsSlug(rows: seq<MemorialRow>, name: string, lookupFails: bool)
    requires Slugify(name) != []
    ensures IsSlug(AllocateSlug(rows, name, lookupFails))
  {
    var base := Slugify(name);
    var r := AllocateSlug(rows, name, lookupFails);
    if r != base {
      var d := Decimal(|SlugsLike(rows, base + "%")| + 1);
      assert r == base + "-" + d;
      SuffixedIsSlug(base, d);
    }
  }

  /** A slug, a hyphen and a string of digits make a slug. */
  lemma {:induction false} SuffixedIsSlug(base: string, d: string)
    requires IsSlug(base) && base != []
    requires d != [] && forall i :: 0 <= i < |d| ==> IsDigit(d[i])
    ensures IsSlug(base + "-" + d)
  {
    var r := base + "-" + d;
    assert forall i :: 0 <= i < |base| ==> r[i] == base[i];
    assert r[|base|] == '-';
    assert forall i :: |base| < i < |r| ==> r[i] == d[i - |base| - 1];
    assert forall i :: 0 <= i < |d| ==> IsSlugChar(d[i]);
  }
}
