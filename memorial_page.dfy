/** The public memorial page (src/pages/MemorialPage.tsx): the lookup by slug,
    the photo fetch, and the YouTube embed address of the video link. */
module MemorialView {
  import opened Common
  import opened Backend
  import opened Slug

  const EmbedBase := "https://www.youtube.com/embed"
  const LongHost := "youtube.com"
  const ShortHost := "youtu.be"

  /** `getYouTubeEmbedUrl` (lines 22-34), with `parse` standing for `new URL`
      (None when it throws; the `catch` turns that into null). A host that
      merely contains "youtube.com" takes the first branch. */
  function YouTubeEmbedUrl(url: string, parse: string -> Option<Url>): (r: Option<string>)
    ensures r.Some? ==> StartsWith(r.value, EmbedBase)
    ensures parse(url).None? ==> r.None?
  {
    match parse(url)
    case None => None
    case Some(u) =>
      if Contains(u.hostname, LongHost) then
        match QueryGet(u.query, "v")
        case Some(v) => if v != "" then Some(EmbedBase + "/" + v) else None
        case None => None
      else if u.hostname == ShortHost then Some(EmbedBase + u.pathname)
      else None
  }

  /** Line 82: the embed is computed only for a non-empty video link. */
  function VideoEmbed(videoUrl: Option<string>, parse: string -> Option<Url>): (r: Option<string>)
    ensures videoUrl.None? || videoUrl == Some("") ==> r.None?
    ensures videoUrl.Some? && videoUrl.value != "" ==> r == YouTubeEmbedUrl(videoUrl.value, parse)
  {
    if videoUrl.Some? && videoUrl.value != "" then YouTubeEmbedUrl(videoUrl.value, parse) else None
  }

  /** The video id of a watch link is recoverable from its embed address. */
  lemma {:induction false} WatchLinkEmbeds(url: string, parse: string -> Option<Url>, host: string, path: string,
                                           query: seq<(string, string)>)
    requires parse(url) == Some(Url(host, path, query))
    requires Contains(host, LongHost)
    ensures YouTubeEmbedUrl(url, parse).Some? <==> QueryGet(query, "v").Some? && QueryGet(query, "v").value != ""
    ensures YouTubeEmbedUrl(url, parse).Some? ==>
      var e := YouTubeEmbedUrl(url, parse).value;
      |EmbedBase| < |e| && e[|EmbedBase|] == '/' && e[|EmbedBase| + 1..] == QueryGet(query, "v").value
  {
    var r := YouTubeEmbedUrl(url, parse);
    if r.Some? {
      var v := QueryGet(query, "v").value;
      assert r.value == EmbedBase + "/" + v;
      assert (EmbedBase + "/" + v)[|EmbedBase| + 1..] == v;
    }
  }

  /** The short host never matches the long one, so a short link always takes
      its own branch: the embed address is the base followed by its path. */
  lemma {:induction false} ShortLinkEmbeds(url: string, parse: string -> Option<Url>, path: string,
                                           query: seq<(string, string)>)
    requires parse(url) == Some(Url(ShortHost, path, query))
    ensures YouTubeEmbedUrl(url, parse) == Some(EmbedBase + path)
  {
    assert !Contains(ShortHost, LongHost) by {
      forall k: nat | k <= |ShortHost| ensures !OccursAt(ShortHost, k, LongHost) {
        assert |ShortHost| < |LongHost|;
      }
    }
  }

  /** Any other host that does not contain "youtube.com" gets no embed. */
  lemma {:induction false} OtherHostsHaveNoEmbed(url: string, parse: string -> Option<Url>, u: Url)
    requires parse(url) == Some(u)
    requires !Contains(u.hostname, LongHost) && u.hostname != ShortHost
    ensures YouTubeEmbedUrl(url, parse).None?
  {
  }

  /** The substring test also accepts look-alike hosts: a host such as
      "notyoutube.com" is treated as YouTube. */
  lemma {:induction false} LookalikeHostIsAccepted(url: string, parse: string -> Option<Url>, v: string)
    requires parse(url) == Some(Url("notyoutube.com", "/watch", [("v", v)])) && v != ""
    ensures YouTubeEmbedUrl(url, parse) == Some(EmbedBase + "/" + v)
  {
    assert OccursAt("notyoutube.com", 3, LongHost);
  }

  // ---------------------------------------------------------------------------
  // Lookup by slug

  /** `.eq('slug', slug).single()` finds a row exactly when it is the only one
      with that slug. */
  lemma {:induction false} UniqueSlugIsFound(rows: seq<MemorialRow>, i: nat, slug: string)
    requires i < |rows| && rows[i].slug == slug
    requires forall j :: 0 <= j < |rows| && j != i ==> rows[j].slug != slug
    ensures Single(WithSlug(rows, slug)) == Some(rows[i])
  {
    var keep := (m: MemorialRow) => m.slug == slug;
    var pre, post := rows[..i], rows[i + 1..];
    assert rows == pre + ([rows[i]] + post);
    FilterConcat(pre, [rows[i]] + post, keep);
    FilterConcat([rows[i]], post, keep);
    NoneKept(pre, keep);
    NoneKept(post, keep);
    assert [rows[i]][..0] == [];
    assert Filter([rows[i]], keep) == [rows[i]];
  }

  lemma {:induction false} NoneKept<T(!new)>(s: seq<T>, keep: T -> bool)
    requires forall x :: x in s ==> !keep(x)
    ensures Filter(s, keep) == []
  {
    if Filter(s, keep) != [] {
      assert Filter(s, keep)[0] in Filter(s, keep);
    }
  }

  /** Two rows under the same slug hide each other: the page reports not found. */
  lemma {:induction false} SharedSlugIsNotFound(rows: seq<MemorialRow>, i: nat, j: nat)
    requires i < j < |rows| && rows[i].slug == rows[j].slug
    ensures Single(WithSlug(rows, rows[i].slug)).None?
  {
    var slug := rows[i].slug;
    var keep := (m: MemorialRow) => m.slug == slug;
    assert rows == rows[..j] + [rows[j]] + rows[j + 1..];
    FilterConcat(rows[..j] + [rows[j]], rows[j + 1..], keep);
    FilterConcat(rows[..j], [rows[j]], keep);
    assert rows[..j][i] == rows[i];
    assert rows[i] in Filter(rows[..j], keep);
    assert [rows[j]][..0] == [];
    assert Filter([rows[j]], keep) == [rows[j]];
  }

  /** The slug allocation can repeat a slug: after "name" took "slug-2" for a
      memorial of another name, the next memorial named "name" receives the
      same slug, and from then on neither public page is found. */
  lemma {:induction false} CollidingAllocationHidesBoth(row: MemorialRow, name: string, next: MemorialRow)
    requires Slugify(name) != [] && row.slug == Slugify(name) + "-2"
    requires next.slug == AllocateSlug([row], name, false)
    ensures Single(WithSlug([row, next], row.slug)).None?
  {
    AllocationCanCollide(row, name);
    SharedSlugIsNotFound([row, next], 0, 1);
  }

  class MemorialViewPage {
    var memorial: Option<MemorialRow>
    var photos: seq<PhotoRow>
    var loading: bool
    var notFound: bool

    constructor ()
      ensures memorial == None && photos == [] && loading && !notFound
    {
      memorial, photos, loading, notFound := None, [], true, false;
    }

    /** The fetch effect (lines 43-62). A missing slug issues nothing; a row
        that is not the only one under its slug, or a failed query, reports
        not found; a failed photo query yields the empty list. */
    method Load(store: Store, slug: string, fails: bool, photosFail: bool)
      requires store.Valid()
      modifies this, store
      ensures store.Valid() && store.State() == old(store.State())
      ensures slug == "" ==>
        store.log == old(store.log) && memorial == old(memorial) && photos == old(photos)
        && loading == old(loading) && notFound == old(notFound)
      ensures slug != "" ==>
        var found := if fails then None else Single(WithSlug(old(store.memorials), slug));
        && !loading
        && (found.None? ==>
              && notFound && memorial == old(memorial) && photos == old(photos)
              && store.log == old(store.log) + [SlugQuery(slug)])
        && (found.Some? ==>
              && notFound == old(notFound) && memorial == found
              && photos == (if photosFail then [] else PhotosOf(old(store.photos), found.value.id))
              && store.log == old(store.log) + [SlugQuery(slug), PhotoQuery(found.value.id)])
    {
      if slug == "" {
        return;
      }
      var m := store.SelectBySlug(slug, fails);
      if m.None? {
        notFound := true;
        loading := false;
        return;
      }
      memorial := m;
      var p := store.SelectPhotos(m.value.id, photosFail);
      photos := p.GetOr([]);
      loading := false;
    }

    /** The embed shown for the loaded memorial (line 82). */
    function Embed(parse: string -> Option<Url>): (r: Option<string>)
      reads this
      requires memorial.Some?
      ensures r.Some? ==> memorial.value.content.videoUrl.Some? && StartsWith(r.value, EmbedBase)
    {
      VideoEmbed(memorial.value.content.videoUrl, parse)
    }
  }
}
