/** Storage paths of memorial images (src/pages/CreateMemorial.tsx:71, 106 and
    src/pages/EditMemorial.tsx:96, 117), their public URLs, the reverse parse
    that recovers a path from a URL's pathname (src/pages/Dashboard.tsx:60-63,
    72) and the best-effort gallery upload loop the create and edit pages
    share (src/pages/CreateMemorial.tsx:105-112, src/pages/EditMemorial.tsx:116-123). */
module Assets {
  import opened Common
  import opened Backend

  /** The segment of a public URL's pathname that precedes the object path,
      `/storage/v1/object/public/memorial-images/`, written as its parts. */
  const Marker: string := "/storage" + "/v1" + "/object" + "/public" + "/memorial-images" + "/"

  /** The project URL the client is created with. */
  const ProjectUrl: string := "https://YOUR_PROJECT.supabase.co"

  /** A file chosen in the browser; only its name matters here. */
  datatype File = File(name: string)

  // ---------------------------------------------------------------------------
  // Building paths

  /** `name.split('.').pop()`: the text after the last dot, or the whole name
      when it has no dot. */
  function Extension(name: string): (ext: string)
    ensures |ext| <= |name| && ext == name[|name| - |ext|..]
    ensures '.' !in ext
    ensures |ext| < |name| ==> name[|name| - |ext| - 1] == '.'
  {
    if name == [] then []
    else if name[|name| - 1] == '.' then []
    else
      var front := Extension(name[..|name| - 1]);
      assert name[..|name| - 1][|name| - 1 - |front|..] + [name[|name| - 1]] == name[|name| - |front| - 1..];
      front + [name[|name| - 1]]
  }

  /** A name without a dot is its own extension. */
  lemma {:induction false} ExtensionWithoutDot(name: string)
    requires '.' !in name
    ensures Extension(name) == name
  {
  }

  /** `${owner}/${slug}/`: the folder of one memorial of one owner. */
  function Folder(owner: string, slug: string): string {
    owner + "/" + slug + "/"
  }

  /** `cover-${Date.now()}.${ext}` */
  function CoverName(ts: nat, fileName: string): string {
    "cover-" + Decimal(ts) + "." + Extension(fileName)
  }

  /** `photo-${Date.now()}-${random}.${ext}`, where `random` stands for
      `Math.random().toString(36).slice(2)`. */
  function PhotoName(ts: nat, rand: string, fileName: string): string {
    "photo-" + Decimal(ts) + "-" + rand + "." + Extension(fileName)
  }

  function CoverPath(owner: string, slug: string, ts: nat, fileName: string): string {
    Folder(owner, slug) + CoverName(ts, fileName)
  }

  function PhotoPath(owner: string, slug: string, ts: nat, rand: string, fileName: string): string {
    Folder(owner, slug) + PhotoName(ts, rand, fileName)
  }

  /** `getPublicUrl(path).data.publicUrl`. */
  function PublicUrl(path: string): string {
    ProjectUrl + Marker + path
  }

  /** A cover path and a photo path of the same folder never coincide: the role
      differs. */
  lemma {:induction false} CoverIsNotPhoto(owner: string, slug: string, ts: nat, ts': nat, rand: string, fileName: string, fileName': string)
    ensures CoverPath(owner, slug, ts, fileName) != PhotoPath(owner, slug, ts', rand, fileName')
  {
    var folder := Folder(owner, slug);
    var c := CoverPath(owner, slug, ts, fileName);
    var p := PhotoPath(owner, slug, ts', rand, fileName');
    assert c[|folder|] == CoverName(ts, fileName)[0] == 'c';
    assert p[|folder|] == PhotoName(ts', rand, fileName')[0] == 'p';
  }

  /** Two covers of one memorial uploaded at different times get different
      paths. */
  lemma {:induction false} CoverPathTimestamps(owner: string, slug: string, ts: nat, ts': nat, fileName: string)
    requires CoverPath(owner, slug, ts, fileName) == CoverPath(owner, slug, ts', fileName)
    ensures ts == ts'
  {
    var tail := "." + Extension(fileName);
    PrefixCancel(Folder(owner, slug), CoverName(ts, fileName), CoverName(ts', fileName));
    CoverNameParts(ts, fileName);
    CoverNameParts(ts', fileName);
    PrefixCancel("cover-", Decimal(ts) + tail, Decimal(ts') + tail);
    DigitsBeforeDot(Decimal(ts), Decimal(ts'), tail);
    DecimalInjective(ts, ts');
  }

  lemma {:induction false} PrefixCancel(p: string, a: string, b: string)
    requires p + a == p + b
    ensures a == b
  {
    assert a == (p + a)[|p|..];
    assert b == (p + b)[|p|..];
  }

  lemma {:induction false} CoverNameParts(ts: nat, fileName: string)
    ensures CoverName(ts, fileName) == "cover-" + (Decimal(ts) + ("." + Extension(fileName)))
  {
    var d, ext := Decimal(ts), Extension(fileName);
    AppendAssoc("cover-" + d, ".", ext);
    AppendAssoc("cover-", d, "." + ext);
  }

  /** Digits followed by a dot: the digits are determined by the string. */
  lemma {:induction false} DigitsBeforeDot(d: string, d': string, tail: string)
    requires forall i :: 0 <= i < |d| ==> IsDigit(d[i])
    requires forall i :: 0 <= i < |d'| ==> IsDigit(d'[i])
    requires tail != [] && tail[0] == '.'
    requires d + tail == d' + tail
    ensures d == d'
  {
    assert |d| == |d'|;
    assert d == (d + tail)[..|d|];
    assert d' == (d' + tail)[..|d|];
  }

  // ---------------------------------------------------------------------------
  // Recovering a path from a URL's pathname

  /** `pathname.split(Marker)[1]`: the text between the first and the second
      occurrence of the marker (or the end), `undefined` without a marker. */
  function SecondPiece(pathname: string): (piece: Option<string>)
    ensures piece.None? <==> !Contains(pathname, Marker)
  {
    match IndexOf(pathname, Marker)
    case None => None
    case Some(k) =>
      var rest := pathname[k + |Marker|..];
      match IndexOf(rest, Marker)
      case None => Some(rest)
      case Some(j) => Some(rest[..j])
  }

  /** The path `filter(Boolean)` keeps: the second piece when it is present and
      not empty. */
  function ObjectPath(pathname: string): (path: Option<string>)
    ensures path.Some? ==> path.value != [] && !Contains(path.value, Marker)
    ensures path.None? <==> SecondPiece(pathname).None? || SecondPiece(pathname).value == []
  {
    match SecondPiece(pathname)
    case None => None
    case Some(p) =>
      if p == [] then None
      else
        PieceHasNoMarker(pathname);
        Some(p)
  }

  /** The piece between two markers holds no marker itself. */
  lemma {:induction false} PieceHasNoMarker(pathname: string)
    requires SecondPiece(pathname).Some?
    ensures !Contains(SecondPiece(pathname).value, Marker)
  {
    var k := IndexOf(pathname, Marker).value;
    var rest := pathname[k + |Marker|..];
    var piece := SecondPiece(pathname).value;
    if Contains(piece, Marker) {
      var j: nat :| j <= |piece| && OccursAt(piece, j, Marker);
      match IndexOf(rest, Marker)
      case None =>
        assert false;
      case Some(e) =>
        assert piece == rest[..e];
        assert rest[j..j + |Marker|] == piece[j..j + |Marker|];
        assert OccursAt(rest, j, Marker) && j < e;
        assert false;
    }
  }

  /** The piece is the text right after the first marker, up to the next one. */
  lemma {:induction false} PieceFollowsFirstMarker(pathname: string)
    requires Contains(pathname, Marker)
    ensures var k := IndexOf(pathname, Marker).value;
      StartsWith(pathname[k + |Marker|..], SecondPiece(pathname).value)
    ensures var k := IndexOf(pathname, Marker).value;
      var rest := pathname[k + |Marker|..];
      var p := SecondPiece(pathname).value;
      |p| == |rest| || OccursAt(rest, |p|, Marker)
  {
  }

  /** Round trip: a non-empty path without a marker of its own, placed right
      after the first marker of the pathname, is recovered exactly. */
  lemma {:induction false} ObjectPathRoundTrip(prefix: string, path: string)
    requires path != [] && !Contains(path, Marker)
    requires forall j: nat :: j < |prefix| ==> !OccursAt(prefix + Marker + path, j, Marker)
    ensures ObjectPath(prefix + Marker + path) == Some(path)
  {
    var pathname := prefix + Marker + path;
    assert OccursAt(pathname, |prefix|, Marker);
    var k := IndexOf(pathname, Marker).value;
    assert k == |prefix|;
    assert pathname[k + |Marker|..] == path;
  }

  /** The public URLs of the bucket have the marker at the very start of their
      pathname, so any marker-free path comes back. */
  lemma {:induction false} ObjectPathOfBucketUrl(path: string)
    requires path != [] && !Contains(path, Marker)
    ensures ObjectPath(Marker + path) == Some(path)
  {
    assert [] + Marker + path == Marker + path;
    ObjectPathRoundTrip([], path);
  }

  /** A pathname without the marker yields no path. */
  lemma {:induction false} ObjectPathWithoutMarker(pathname: string)
    requires !Contains(pathname, Marker)
    ensures ObjectPath(pathname) == None
  {
  }

  /** A pathname that ends in the marker yields no path: the remainder is empty. */
  lemma {:induction false} ObjectPathEmptyRemainder(prefix: string)
    requires !Contains(prefix, Marker)
    requires forall j: nat :: j < |prefix| ==> !OccursAt(prefix + Marker, j, Marker)
    ensures ObjectPath(prefix + Marker) == None
  {
    var pathname := prefix + Marker;
    assert OccursAt(pathname, |prefix|, Marker);
    assert IndexOf(pathname, Marker).value == |prefix|;
    assert pathname[|prefix| + |Marker|..] == [];
  }

  /** A second marker cuts the path short: only the text up to it is kept. */
  lemma {:induction false} ObjectPathSecondMarker(path: string, tail: string)
    requires path != [] && !Contains(path, Marker)
    requires forall j: nat :: j < |path| ==> !OccursAt(path + Marker + tail, j, Marker)
    ensures ObjectPath(Marker + path + Marker + tail) == Some(path)
  {
    var pathname := Marker + path + Marker + tail;
    var rest := path + Marker + tail;
    assert pathname == Marker + rest;
    assert OccursAt(pathname, 0, Marker);
    IndexOfIs(pathname, Marker, 0);
    assert pathname[|Marker|..] == rest;
    assert OccursAt(rest, |path|, Marker);
    IndexOfIs(rest, Marker, |path|);
    assert rest[..|path|] == path;
  }

  /** A prefix that overlaps the marker breaks the round trip, even though
      neither the prefix nor the path contains the marker: with the prefix
      equal to the marker minus its last slash, the first occurrence starts
      inside the prefix and the recovered text is longer than the path. */
  lemma {:induction false} OverlappingPrefixBreaksRoundTrip(path: string)
    requires '/' !in path
    ensures var prefix := Marker[..|Marker| - 1];
      && !Contains(prefix, Marker) && !Contains(path, Marker)
      && ObjectPath(prefix + Marker + path) == Some(Marker[1..] + path)
  {
    var m := |Marker|;
    var prefix := Marker[..m - 1];
    var rest := Marker[1..] + path;
    var pathname := prefix + Marker + path;
    assert Marker[0] == '/' && Marker[m - 1] == '/';
    assert prefix + [Marker[0]] == Marker;
    assert pathname == Marker + rest by {
      assert Marker == [Marker[0]] + Marker[1..];
      AppendAssoc(prefix, [Marker[0]] + Marker[1..], path);
      AppendAssoc(prefix, [Marker[0]], Marker[1..]);
      AppendAssoc(prefix + [Marker[0]], Marker[1..], path);
    }
    assert OccursAt(pathname, 0, Marker);
    IndexOfIs(pathname, Marker, 0);
    assert pathname[m..] == rest;
    MarkerSlashes();
    SlashesConcat(Marker[1..], path);
    NoSlashes(path);
    FewSlashesNoMarker(rest);
    FewSlashesNoMarker(path);
    assert !Contains(prefix, Marker) by {
      forall k: nat | k <= |prefix| ensures !OccursAt(prefix, k, Marker) {
      }
    }
  }

  // ---------------------------------------------------------------------------
  // Counting slashes

  /** The number of `/` in `s`. */
  function Slashes(s: string): nat {
    if s == [] then 0 else Slashes(s[..|s| - 1]) + (if s[|s| - 1] == '/' then 1 else 0)
  }

  lemma {:induction false} SlashesConcat(a: string, b: string)
    ensures Slashes(a + b) == Slashes(a) + Slashes(b)
    decreases |b|
  {
    if b == [] {
      assert a + b == a;
    } else {
      assert (a + b)[..|a + b| - 1] == a + b[..|b| - 1];
      SlashesConcat(a, b[..|b| - 1]);
    }
  }

  lemma {:induction false} NoSlashes(s: string)
    requires '/' !in s
    ensures Slashes(s) == 0
  {
    if s != [] {
      NoSlashes(s[..|s| - 1]);
    }
  }

  /** The marker has six slashes, five after its first character. */
  lemma {:induction false} MarkerSlashes()
    ensures Slashes(Marker) == 6 && Slashes(Marker[1..]) == 5
  {
    MarkerParts();
    SlashThenWord("storage");
    assert "/" + "storage" == "/storage";
    SlashThenWord("v1");
    assert "/" + "v1" == "/v1";
    SlashThenWord("object");
    assert "/" + "object" == "/object";
    SlashThenWord("public");
    assert "/" + "public" == "/public";
    SlashThenWord("memorial-images");
    assert "/" + "memorial-images" == "/memorial-images";
    SlashThenWord([]);
    assert "/" + [] == "/";
    NoSlashes("storage");
    SlashesOfParts("/storage", "/v1", "/object", "/public", "/memorial-images", "/");
    SlashesOfParts("storage", "/v1", "/object", "/public", "/memorial-images", "/");
  }

  lemma {:induction false} MarkerParts()
    ensures Marker == "/storage" + "/v1" + "/object" + "/public" + "/memorial-images" + "/"
    ensures Marker[1..] == "storage" + "/v1" + "/object" + "/public" + "/memorial-images" + "/"
  {
    assert "/storage"[1..] == "storage";
  }

  lemma {:induction false} SlashesOfParts(a: string, b: string, c: string, d: string, e: string, f: string)
    ensures Slashes(a + b + c + d + e + f)
      == Slashes(a) + Slashes(b) + Slashes(c) + Slashes(d) + Slashes(e) + Slashes(f)
  {
    SlashesConcat(a, b);
    SlashesConcat(a + b, c);
    SlashesConcat(a + b + c, d);
    SlashesConcat(a + b + c + d, e);
    SlashesConcat(a + b + c + d + e, f);
  }

  lemma {:induction false} SlashThenWord(w: string)
    requires '/' !in w
    ensures Slashes("/" + w) == 1
  {
    assert "/"[..0] == [];
    assert Slashes("/") == 1;
    SlashesConcat("/", w);
    NoSlashes(w);
  }

  /** Text with fewer slashes than the marker cannot contain it. */
  lemma {:induction false} FewSlashesNoMarker(s: string)
    requires Slashes(s) < 6
    ensures !Contains(s, Marker)
  {
    if Contains(s, Marker) {
      var k: nat :| k <= |s| && OccursAt(s, k, Marker);
      assert s == s[..k] + Marker + s[k + |Marker|..];
      SlashesConcat(s[..k], Marker);
      SlashesConcat(s[..k] + Marker, s[k + |Marker|..]);
      MarkerSlashes();
      assert false;
    }
  }

  /** The folder of an owner and a slug without slashes has two slashes. */
  lemma {:induction false} FolderSlashes(owner: string, slug: string)
    requires '/' !in owner && '/' !in slug
    ensures Slashes(Folder(owner, slug)) == 2
  {
    NoSlashes(owner);
    SlashThenWord(slug);
    SlashThenWord([]);
    assert "/" + [] == "/";
    SlashesConcat(owner, "/" + slug);
    SlashesConcat(owner + ("/" + slug), "/");
    assert Folder(owner, slug) == owner + ("/" + slug) + "/";
  }

  /** File names come without slashes, and so do the names built from them. */
  lemma {:induction false} NamesHaveNoSlash(ts: nat, rand: string, fileName: string)
    requires '/' !in rand && '/' !in fileName
    ensures '/' !in CoverName(ts, fileName) && '/' !in PhotoName(ts, rand, fileName)
  {
    var ext := Extension(fileName);
    var d := Decimal(ts);
    ExtensionHasNoSlash(fileName);
    DecimalHasNoSlash(ts);
    var cover := "cover-" + d;
    var photo := "photo-" + d;
    assert '/' !in cover && '/' !in photo;
    assert '/' !in cover + ".";
    assert '/' !in photo + "-";
    assert '/' !in photo + "-" + rand;
    assert '/' !in photo + "-" + rand + ".";
  }

  lemma {:induction false} ExtensionHasNoSlash(fileName: string)
    requires '/' !in fileName
    ensures '/' !in Extension(fileName)
  {
  }

  lemma {:induction false} DecimalHasNoSlash(n: nat)
    ensures '/' !in Decimal(n)
  {
  }

  /** A path with a slash-free folder and name never contains the marker, so
      the reverse parse recovers it from its public URL's pathname. */
  lemma {:induction false} PathInFolderIsRecoverable(owner: string, slug: string, name: string)
    requires '/' !in owner && '/' !in slug && '/' !in name
    ensures ObjectPath(Marker + (Folder(owner, slug) + name)) == Some(Folder(owner, slug) + name)
  {
    FolderSlashes(owner, slug);
    NoSlashes(name);
    SlashesConcat(Folder(owner, slug), name);
    FewSlashesNoMarker(Folder(owner, slug) + name);
    ObjectPathOfBucketUrl(Folder(owner, slug) + name);
  }

  /** Cover and photo paths built from an owner id, a slug and a file name
      without slashes come back from their public URL's pathname. */
  lemma {:induction false} BuiltPathsAreRecoverable(owner: string, slug: string, ts: nat, rand: string, fileName: string)
    requires '/' !in owner && '/' !in slug && '/' !in rand && '/' !in fileName
    ensures ObjectPath(Marker + CoverPath(owner, slug, ts, fileName)) == Some(CoverPath(owner, slug, ts, fileName))
    ensures ObjectPath(Marker + PhotoPath(owner, slug, ts, rand, fileName)) == Some(PhotoPath(owner, slug, ts, rand, fileName))
  {
    NamesHaveNoSlash(ts, rand, fileName);
    PathInFolderIsRecoverable(owner, slug, CoverName(ts, fileName));
    PathInFolderIsRecoverable(owner, slug, PhotoName(ts, rand, fileName));
  }

  // ---------------------------------------------------------------------------
  // The paths of a memorial's photo rows (src/pages/Dashboard.tsx:60-63)

  /** `photos.map(p => new URL(p.photo_url) ...)`, with `parse` standing for
      `new URL`: None when some URL does not parse (the constructor throws out
      of the `map`), otherwise every parsed URL in row order. */
  function ParseAll(urls: seq<string>, parse: string -> Option<Url>): (r: Option<seq<Url>>)
    ensures r.Some? ==> |r.value| == |urls| && forall i :: 0 <= i < |urls| ==> parse(urls[i]) == Some(r.value[i])
  {
    if urls == [] then Some([])
    else
      var n := |urls| - 1;
      match ParseAll(urls[..n], parse)
      case None => None
      case Some(us) =>
        match parse(urls[n])
        case None => None
        case Some(u) =>
          assert forall i :: 0 <= i < n ==> urls[..n][i] == urls[i];
          Some(us + [u])
  }

  /** `.pathname.split(Marker)[1]` on each parsed URL, then `.filter(Boolean)`:
      the non-empty pieces in order. */
  function Pieces(us: seq<Url>): (ps: seq<string>)
    ensures |ps| <= |us|
  {
    if us == [] then []
    else
      var n := |us| - 1;
      Pieces(us[..n]) + (match ObjectPath(us[n].pathname) case None => [] case Some(p) => [p])
  }

  /** Lines 60-63 of the dashboard: the object paths of a memorial's photo
      rows, None when the derivation throws. */
  function PhotoObjectPaths(urls: seq<string>, parse: string -> Option<Url>): (r: Option<seq<string>>)
    ensures r.Some? ==> |r.value| <= |urls|
  {
    match ParseAll(urls, parse)
    case None => None
    case Some(us) => Some(Pieces(us))
  }

  lemma {:induction false} ParseAllThrows(urls: seq<string>, parse: string -> Option<Url>)
    ensures ParseAll(urls, parse).None? <==> exists i :: 0 <= i < |urls| && parse(urls[i]).None?
  {
    if urls != [] {
      var n := |urls| - 1;
      var front := urls[..n];
      ParseAllThrows(front, parse);
      if ParseAll(front, parse).None? {
        var i :| 0 <= i < |front| && parse(front[i]).None?;
        assert urls[i] == front[i];
      }
    }
  }

  /** The derivation throws exactly when some URL does not parse. */
  lemma {:induction false} PhotoObjectPathsThrows(urls: seq<string>, parse: string -> Option<Url>)
    ensures PhotoObjectPaths(urls, parse).None? <==> exists i :: 0 <= i < |urls| && parse(urls[i]).None?
  {
    ParseAllThrows(urls, parse);
  }

  lemma {:induction false} PiecesSound(us: seq<Url>)
    ensures forall p :: p in Pieces(us) ==> p != [] && exists i :: 0 <= i < |us| && ObjectPath(us[i].pathname) == Some(p)
  {
    if us != [] {
      var n := |us| - 1;
      var front := us[..n];
      PiecesSound(front);
      forall p | p in Pieces(us) ensures p != [] && exists i :: 0 <= i < |us| && ObjectPath(us[i].pathname) == Some(p) {
        if p in Pieces(front) {
          var i :| 0 <= i < |front| && ObjectPath(front[i].pathname) == Some(p);
          assert us[i] == front[i];
        } else {
          assert ObjectPath(us[n].pathname) == Some(p);
        }
      }
    }
  }

  lemma {:induction false} PiecesComplete(us: seq<Url>, i: nat)
    requires i < |us| && ObjectPath(us[i].pathname).Some?
    ensures ObjectPath(us[i].pathname).value in Pieces(us)
  {
    var n := |us| - 1;
    var front := Pieces(us[..n]);
    var last := match ObjectPath(us[n].pathname) case None => [] case Some(p) => [p];
    assert Pieces(us) == front + last;
    if i < n {
      assert us[..n][i] == us[i];
      PiecesComplete(us[..n], i);
      assert ObjectPath(us[i].pathname).value in front;
    } else {
      assert i == n;
      var o := ObjectPath(us[n].pathname);
      assert o.Some? && last == [o.value];
    }
  }

  /** Conversely, when the derivation does not throw, the non-empty piece of
      every row's URL is among the derived paths. */
  lemma {:induction false} PhotoObjectPathsComplete(urls: seq<string>, parse: string -> Option<Url>, i: nat)
    requires PhotoObjectPaths(urls, parse).Some? && i < |urls|
    requires parse(urls[i]).Some? && ObjectPath(parse(urls[i]).value.pathname).Some?
    ensures ObjectPath(parse(urls[i]).value.pathname).value in PhotoObjectPaths(urls, parse).value
  {
    var us := ParseAll(urls, parse).value;
    assert parse(urls[i]) == Some(us[i]);
    PiecesComplete(us, i);
  }

  /** Every path the derivation yields is the non-empty piece of the pathname
      of some row's URL. */
  lemma {:induction false} PhotoObjectPathsSound(urls: seq<string>, parse: string -> Option<Url>)
    requires PhotoObjectPaths(urls, parse).Some?
    ensures forall p :: p in PhotoObjectPaths(urls, parse).value ==>
      p != [] && exists i :: 0 <= i < |urls| && parse(urls[i]).Some? && ObjectPath(parse(urls[i]).value.pathname) == Some(p)
  {
    var us := ParseAll(urls, parse).value;
    PiecesSound(us);
    forall p | p in PhotoObjectPaths(urls, parse).value
      ensures p != [] && exists i :: 0 <= i < |urls| && parse(urls[i]).Some? && ObjectPath(parse(urls[i]).value.pathname) == Some(p)
    {
      var i :| 0 <= i < |us| && ObjectPath(us[i].pathname) == Some(p);
      assert parse(urls[i]) == Some(us[i]);
    }
  }

  /** `new URL` behaves on the bucket's public URLs: the pathname is the
      marker followed by the object path. */
  ghost predicate ParsesPublicUrls(parse: string -> Option<Url>, paths: seq<string>) {
    forall p :: p in paths ==> parse(PublicUrl(p)).Some? && parse(PublicUrl(p)).value.pathname == Marker + p
  }

  function PublicUrls(paths: seq<string>): (urls: seq<string>)
    ensures |urls| == |paths| && forall i :: 0 <= i < |paths| ==> urls[i] == PublicUrl(paths[i])
  {
    seq(|paths|, i requires 0 <= i < |paths| => PublicUrl(paths[i]))
  }

  lemma {:induction false} PiecesOfBucketUrls(us: seq<Url>, paths: seq<string>)
    requires |us| == |paths|
    requires forall i :: 0 <= i < |us| ==> us[i].pathname == Marker + paths[i]
    requires forall i :: 0 <= i < |paths| ==> paths[i] != [] && !Contains(paths[i], Marker)
    ensures Pieces(us) == paths
  {
    if us != [] {
      var n := |us| - 1;
      PiecesOfBucketUrls(us[..n], paths[..n]);
      ObjectPathOfBucketUrl(paths[n]);
      assert paths[..n] + [paths[n]] == paths;
    }
  }

  /** The URLs of uploaded objects give back exactly their paths, in order,
      when the paths are non-empty and free of the marker. */
  lemma {:induction false} PhotoObjectPathsOfPublicUrls(paths: seq<string>, parse: string -> Option<Url>)
    requires ParsesPublicUrls(parse, paths)
    requires forall p :: p in paths ==> p != [] && !Contains(p, Marker)
    ensures PhotoObjectPaths(PublicUrls(paths), parse) == Some(paths)
  {
    var urls := PublicUrls(paths);
    ParseAllThrows(urls, parse);
    forall i | 0 <= i < |urls| ensures parse(urls[i]).Some? {
      assert paths[i] in paths;
    }
    var us := ParseAll(urls, parse).value;
    forall i | 0 <= i < |us| ensures us[i].pathname == Marker + paths[i] && paths[i] != [] && !Contains(paths[i], Marker) {
      assert paths[i] in paths;
    }
    PiecesOfBucketUrls(us, paths);
  }

  // ---------------------------------------------------------------------------
  // The gallery upload loop (src/pages/CreateMemorial.tsx:105-112,
  // src/pages/EditMemorial.tsx:116-123)

  /** What the environment decides for one gallery file: the clock, the random
      suffix, and whether the upload and the row insert fail. */
  datatype PhotoAttempt = PhotoAttempt(ts: nat, rand: string, uploadFails: bool, insertFails: bool)

  function GalleryPath(owner: string, slug: string, file: File, a: PhotoAttempt): string {
    PhotoPath(owner, slug, a.ts, a.rand, file.name)
  }

  /** The object path chosen for each gallery file, in file order. */
  function GalleryPaths(owner: string, slug: string, files: seq<File>, attempts: seq<PhotoAttempt>): (paths: seq<string>)
    requires |files| == |attempts|
    ensures |paths| == |files|
  {
    seq(|files|, i requires 0 <= i < |files| => GalleryPath(owner, slug, files[i], attempts[i]))
  }

  /** The object one gallery file adds to the bucket, if its upload succeeds. */
  function FileUploads(path: string, uploadFails: bool): set<string> {
    if uploadFails then {} else {path}
  }

  /** The URL of the row one gallery file adds, if it adds one. */
  function FileUrls(path: string, uploadFails: bool, insertFails: bool, live: bool): seq<string> {
    if !uploadFails && !insertFails && live then [PublicUrl(path)] else []
  }

  /** The requests issued for one gallery file: its upload, then its row
      insert when the upload succeeded. */
  function FileCalls(memorialId: Id, path: string, uploadFails: bool): seq<Call> {
    [ObjectUpload(path)] + (if !uploadFails then [PhotoInsert(memorialId, PublicUrl(path))] else [])
  }

  /** The objects the loop uploads. */
  function Uploaded(paths: seq<string>, attempts: seq<PhotoAttempt>): set<string>
    requires |paths| == |attempts|
  {
    if paths == [] then {}
    else
      var n := |paths| - 1;
      Uploaded(paths[..n], attempts[..n]) + FileUploads(paths[n], attempts[n].uploadFails)
  }

  /** The URLs of the photo rows the loop adds, in file order: one for each file
      whose upload and insert both succeed, provided the memorial row exists. */
  function AddedUrls(paths: seq<string>, live: bool, attempts: seq<PhotoAttempt>): seq<string>
    requires |paths| == |attempts|
  {
    if paths == [] then []
    else
      var n := |paths| - 1;
      var a := attempts[n];
      AddedUrls(paths[..n], live, attempts[..n]) + FileUrls(paths[n], a.uploadFails, a.insertFails, live)
  }

  /** The requests the loop issues, in order. */
  function UploadCalls(memorialId: Id, paths: seq<string>, attempts: seq<PhotoAttempt>): seq<Call>
    requires |paths| == |attempts|
  {
    if paths == [] then []
    else
      var n := |paths| - 1;
      UploadCalls(memorialId, paths[..n], attempts[..n]) + FileCalls(memorialId, paths[n], attempts[n].uploadFails)
  }

  /** The uploaded objects are exactly the paths of the files whose upload
      succeeded. */
  lemma {:induction false} UploadedMembers(paths: seq<string>, attempts: seq<PhotoAttempt>, p: string)
    requires |paths| == |attempts|
    ensures p in Uploaded(paths, attempts) <==>
      exists i :: 0 <= i < |paths| && !attempts[i].uploadFails && p == paths[i]
  {
    if paths != [] {
      var n := |paths| - 1;
      var ps, ats := paths[..n], attempts[..n];
      UploadedMembers(ps, ats, p);
      if p in Uploaded(ps, ats) {
        var i :| 0 <= i < n && !ats[i].uploadFails && p == ps[i];
        assert ps[i] == paths[i] && ats[i] == attempts[i];
      } else if p !in Uploaded(paths, attempts) {
        forall i | 0 <= i < |paths| && !attempts[i].uploadFails
          ensures p != paths[i]
        {
          if i < n {
            assert ps[i] == paths[i] && ats[i] == attempts[i];
          }
        }
      }
    }
  }

  /** A gallery row exists only for a successful upload: every URL the loop
      stores is the public URL of an object it uploaded, and nothing is stored
      when the memorial row is missing. */
  lemma {:induction false} AddedUrlsHaveObjects(paths: seq<string>, live: bool, attempts: seq<PhotoAttempt>)
    requires |paths| == |attempts|
    ensures |AddedUrls(paths, live, attempts)| <= |paths|
    ensures forall url :: url in AddedUrls(paths, live, attempts) ==>
      exists p :: p in Uploaded(paths, attempts) && url == PublicUrl(p)
    ensures !live ==> AddedUrls(paths, live, attempts) == []
  {
    if paths != [] {
      var n := |paths| - 1;
      var ps, ats := paths[..n], attempts[..n];
      AddedUrlsHaveObjects(ps, live, ats);
      forall url | url in AddedUrls(paths, live, attempts)
        ensures exists p :: p in Uploaded(paths, attempts) && url == PublicUrl(p)
      {
        if url in AddedUrls(ps, live, ats) {
          var p :| p in Uploaded(ps, ats) && url == PublicUrl(p);
          assert p in Uploaded(paths, attempts);
        } else {
          assert paths[n] in Uploaded(paths, attempts);
        }
      }
    }
  }

  /** The photo URLs of some rows. */
  function UrlsOf(rows: seq<PhotoRow>): (urls: seq<string>)
    ensures |urls| == |rows| && forall i :: 0 <= i < |rows| ==> urls[i] == rows[i].photoUrl
  {
    seq(|rows|, i requires 0 <= i < |rows| => rows[i].photoUrl)
  }

  predicate AllOf(rows: seq<PhotoRow>, memorialId: Id) {
    forall i :: 0 <= i < |rows| ==> rows[i].memorialId == memorialId
  }

  /** The loop over the selected gallery files: each file is uploaded under a
      fresh photo path, and a row is inserted only when its upload succeeded;
      failures are skipped without stopping the loop. */
  method UploadGallery(store: Store, owner: string, slug: string, memorialId: Id, files: seq<File>, attempts: seq<PhotoAttempt>)
    requires store.Valid() && |files| == |attempts|
    modifies store
    ensures store.Valid()
    ensures store.memorials == old(store.memorials)
    ensures store.orders == old(store.orders) && store.contacts == old(store.contacts)
    ensures var paths := GalleryPaths(owner, slug, files, attempts);
      && store.objects == old(store.objects) + Uploaded(paths, attempts)
      && store.log == old(store.log) + UploadCalls(memorialId, paths, attempts)
    ensures |old(store.photos)| <= |store.photos| && store.photos[..|old(store.photos)|] == old(store.photos)
    ensures var added := store.photos[|old(store.photos)|..];
      && AllOf(added, memorialId)
      && UrlsOf(added) == AddedUrls(GalleryPaths(owner, slug, files, attempts), memorialId in Ids(old(store.memorials)), attempts)
  {
    ghost var paths := GalleryPaths(owner, slug, files, attempts);
    ghost var live := memorialId in Ids(store.memorials);
    ghost var photos0 := store.photos;
    ghost var added: seq<PhotoRow> := [];
    for i := 0 to |files|
      invariant store.Valid()
      invariant store.memorials == old(store.memorials)
      invariant store.orders == old(store.orders) && store.contacts == old(store.contacts)
      invariant GalleryProgress(store, paths, attempts, live, memorialId, i, old(store.objects), old(store.log), photos0, added)
    {
      var path := GalleryPath(owner, slug, files[i], attempts[i]);
      assert path == paths[i];
      added := UploadFile(store, paths, attempts, live, memorialId, i, path,
                          old(store.objects), old(store.log), photos0, added);
    }
    assert paths[..|paths|] == paths && attempts[..|attempts|] == attempts;
    assert store.photos[|photos0|..] == added;
  }

  /** Where the gallery loop stands after its first `i` files, relative to the
      objects, log and photo rows it started from. */
  ghost predicate GalleryProgress(store: Store, paths: seq<string>, attempts: seq<PhotoAttempt>, live: bool, memorialId: Id, i: nat,
                                  objects0: set<string>, log0: seq<Call>, photos0: seq<PhotoRow>, added: seq<PhotoRow>)
    reads store
  {
    && |paths| == |attempts| && i <= |paths|
    && store.objects == objects0 + Uploaded(paths[..i], attempts[..i])
    && store.log == log0 + UploadCalls(memorialId, paths[..i], attempts[..i])
    && store.photos == photos0 + added
    && AllOf(added, memorialId)
    && UrlsOf(added) == AddedUrls(paths[..i], live, attempts[..i])
  }

  /** The loop body: file `i` moves the loop's progress from `i` to `i + 1`. */
  method UploadFile(store: Store, ghost paths: seq<string>, attempts: seq<PhotoAttempt>, ghost live: bool, memorialId: Id, i: nat,
                    path: string, ghost objects0: set<string>, ghost log0: seq<Call>, ghost photos0: seq<PhotoRow>,
                    ghost added: seq<PhotoRow>)
    returns (ghost added': seq<PhotoRow>)
    requires store.Valid() && i < |paths| && path == paths[i]
    requires live == (memorialId in Ids(store.memorials))
    requires GalleryProgress(store, paths, attempts, live, memorialId, i, objects0, log0, photos0, added)
    modifies store
    ensures store.Valid()
    ensures store.memorials == old(store.memorials)
    ensures store.orders == old(store.orders) && store.contacts == old(store.contacts)
    ensures GalleryProgress(store, paths, attempts, live, memorialId, i + 1, objects0, log0, photos0, added')
  {
    var a := attempts[i];
    GalleryStep(paths, attempts, live, memorialId, i);
    ghost var rows := UploadOne(store, memorialId, path, a.uploadFails, a.insertFails);
    AppendAssoc(photos0, added, rows);
    AppendAssoc(log0, UploadCalls(memorialId, paths[..i], attempts[..i]), FileCalls(memorialId, path, a.uploadFails));
    AddedRows(added, rows, memorialId);
    added' := added + rows;
  }

  /** One gallery file: upload it and, when the upload succeeds, insert its row. */
  method UploadOne(store: Store, memorialId: Id, path: string, uploadFails: bool, insertFails: bool)
    returns (ghost rows: seq<PhotoRow>)
    requires store.Valid()
    modifies store
    ensures store.Valid()
    ensures store.memorials == old(store.memorials)
    ensures store.orders == old(store.orders) && store.contacts == old(store.contacts)
    ensures store.objects == old(store.objects) + FileUploads(path, uploadFails)
    ensures store.photos == old(store.photos) + rows
    ensures AllOf(rows, memorialId)
    ensures UrlsOf(rows) == FileUrls(path, uploadFails, insertFails, memorialId in Ids(old(store.memorials)))
    ensures store.log == old(store.log) + FileCalls(memorialId, path, uploadFails)
  {
    rows := [];
    var uploaded := store.Upload(path, uploadFails);
    if uploaded {
      ghost var photos1 := store.photos;
      var url := PublicUrl(path);
      var inserted := store.InsertPhoto(memorialId, url, insertFails);
      if inserted {
        ghost var id: Id :| store.photos == photos1 + [PhotoRow(id, memorialId, url)];
        rows := [PhotoRow(id, memorialId, url)];
        assert UrlsOf(rows) == [url];
      } else {
        assert photos1 + [] == photos1;
      }
      AppendAssoc(old(store.log), [ObjectUpload(path)], [PhotoInsert(memorialId, url)]);
    } else {
      assert [ObjectUpload(path)] + [] == [ObjectUpload(path)];
      assert old(store.photos) + [] == old(store.photos);
      assert old(store.objects) + {} == old(store.objects);
    }
  }

  lemma {:induction false} AddedRows(added: seq<PhotoRow>, more: seq<PhotoRow>, memorialId: Id)
    requires AllOf(added, memorialId) && AllOf(more, memorialId)
    ensures AllOf(added + more, memorialId) && UrlsOf(added + more) == UrlsOf(added) + UrlsOf(more)
  {
  }

  /** One more file: what each specification function adds. */
  lemma {:induction false} GalleryStep(paths: seq<string>, attempts: seq<PhotoAttempt>, live: bool, memorialId: Id, i: nat)
    requires |paths| == |attempts| && i < |paths|
    ensures var a := attempts[i];
      && Uploaded(paths[..i + 1], attempts[..i + 1]) == Uploaded(paths[..i], attempts[..i]) + FileUploads(paths[i], a.uploadFails)
      && AddedUrls(paths[..i + 1], live, attempts[..i + 1])
        == AddedUrls(paths[..i], live, attempts[..i]) + FileUrls(paths[i], a.uploadFails, a.insertFails, live)
      && UploadCalls(memorialId, paths[..i + 1], attempts[..i + 1])
        == UploadCalls(memorialId, paths[..i], attempts[..i]) + FileCalls(memorialId, paths[i], a.uploadFails)
  {
    assert paths[..i + 1][..i] == paths[..i] && attempts[..i + 1][..i] == attempts[..i];
    assert paths[..i + 1][i] == paths[i] && attempts[..i + 1][i] == attempts[i];
  }
}
