/** The edit page (src/pages/EditMemorial.tsx): the owner-scoped load,
    `update`, `removePhoto`, and the save sequence of `handleSubmit` — optional
    new cover, row update, new gallery photos. The page never validates and
    never recomputes the slug. */
module EditMemorial {
  import opened Common
  import opened Backend
  import opened Assets
  import opened MemorialForms

  /** What the environment decides during one save. */
  datatype EditEnv = EditEnv(coverTs: nat, coverFails: bool, updateFails: bool, attempts: seq<PhotoAttempt>)

  /** The update writes content only: every row keeps its id, owner, slug and
      creation time, and rows with another id keep their content. */
  lemma {:induction false} UpdateKeepsIdentity(rows: seq<MemorialRow>, id: Id, content: MemorialContent)
    ensures |Updated(rows, id, content)| == |rows|
    ensures forall i :: 0 <= i < |rows| ==>
      var r := Updated(rows, id, content)[i];
      r.id == rows[i].id && r.userId == rows[i].userId && r.slug == rows[i].slug && r.createdAt == rows[i].createdAt
      && (r.content == if rows[i].id == id then content else rows[i].content)
  {
  }

  /** `new URL(url).pathname.split(marker)[1]` guarded by `if (path)` inside a
      `try` that swallows the parse failure: the object to remove, if any. */
  function RemovedObject(url: string, parse: string -> Option<Url>): Option<string> {
    match parse(url)
    case None => None
    case Some(u) => ObjectPath(u.pathname)
  }

  /** Where a new cover is stored: under the stored slug, never a recomputed one. */
  function NewCoverPath(owner: string, slug: string, ts: nat, newCover: Option<File>): string {
    if newCover.Some? then CoverPath(owner, slug, ts, newCover.value.name) else ""
  }

  /** The cover URL written by the update: the new public URL once the new cover
      is stored, the current one otherwise. */
  function NewCoverUrl(current: Option<string>, newCover: Option<File>, path: string, fails: bool): (r: Option<string>)
    ensures r != current ==> newCover.Some? && !fails && r == Some(PublicUrl(path))
    ensures newCover.Some? && !fails ==> r.Some? && r.value == PublicUrl(path)
  {
    if newCover.Some? && !fails then Some(PublicUrl(path)) else current
  }

  /** The objects the cover upload adds. */
  function CoverUploads(newCover: Option<File>, path: string, fails: bool): set<string> {
    if newCover.Some? then FileUploads(path, fails) else {}
  }

  /** The request of the cover upload, when there is a new cover. */
  function CoverCalls(newCover: Option<File>, path: string): seq<Call> {
    if newCover.Some? then [ObjectUpload(path)] else []
  }

  /** Lines 93-102: upload the new cover when there is one; the previous URL is
      kept when there is none or its upload fails. */
  method SaveCover(store: Store, owner: string, slug: string, current: Option<string>, newCover: Option<File>, env: EditEnv)
    returns (coverUrl: Option<string>)
    requires store.Valid()
    modifies store
    ensures store.Valid()
    ensures var path := NewCoverPath(owner, slug, env.coverTs, newCover);
      && coverUrl == NewCoverUrl(current, newCover, path, env.coverFails)
      && store.State() == old(store.State()).(objects := old(store.objects) + CoverUploads(newCover, path, env.coverFails))
      && store.log == old(store.log) + CoverCalls(newCover, path)
  {
    coverUrl := current;
    if newCover.Some? {
      var path := CoverPath(owner, slug, env.coverTs, newCover.value.name);
      var ok := store.Upload(path, env.coverFails);
      if ok {
        coverUrl := Some(PublicUrl(path));
      }
    } else {
      assert old(store.objects) + {} == old(store.objects);
    }
  }

  /** How a save changes the tables `t0` into `t1`: the row with `id` gets
      `content` unless the update fails, the cover and gallery objects are
      added, and the gallery rows are appended while the row exists. */
  ghost predicate Saved(t0: Tables, t1: Tables, id: Id, content: MemorialContent, coverUploads: set<string>,
                        paths: seq<string>, attempts: seq<PhotoAttempt>, updateFails: bool)
    requires |paths| == |attempts|
  {
    && t1.memorials == (if updateFails then t0.memorials else Updated(t0.memorials, id, content))
    && t1.objects == t0.objects + coverUploads + Uploaded(paths, attempts)
    && |t0.photos| <= |t1.photos| && t1.photos[..|t0.photos|] == t0.photos
    && AllOf(t1.photos[|t0.photos|..], id)
    && UrlsOf(t1.photos[|t0.photos|..]) == AddedUrls(paths, id in Ids(t0.memorials), attempts)
    && t1.orders == t0.orders && t1.contacts == t0.contacts
  }

  /** Lines 104-126: the update by id, whose failure is ignored, then the new
      gallery photos under the stored slug. */
  method UpdateAndUpload(store: Store, owner: string, m: MemorialRow, content: MemorialContent,
                         newPhotos: seq<File>, ghost paths: seq<string>, env: EditEnv)
    requires store.Valid() && |newPhotos| == |env.attempts|
    requires paths == GalleryPaths(owner, m.slug, newPhotos, env.attempts)
    modifies store
    ensures store.Valid()
    ensures Saved(old(store.State()), store.State(), m.id, content, {}, paths, env.attempts, env.updateFails)
    ensures store.log == old(store.log) + [MemorialUpdate(m.id)] + UploadCalls(m.id, paths, env.attempts)
  {
    ghost var memorials0 := store.memorials;
    var _ := store.UpdateMemorial(m.id, content, env.updateFails);
    if !env.updateFails {
      UpdatedKeepsIds(memorials0, m.id, content);
    }
    ghost var log1 := store.log;
    UploadGallery(store, owner, m.slug, m.id, newPhotos, env.attempts);
    AppendAssoc(old(store.log), [MemorialUpdate(m.id)], UploadCalls(m.id, paths, env.attempts));
    assert old(store.objects) + {} == old(store.objects);
  }

  /** A cover upload followed by the update and the gallery is one save. */
  lemma SaveComposes(t0: Tables, t1: Tables, t2: Tables, id: Id, content: MemorialContent, coverUploads: set<string>,
                     paths: seq<string>, attempts: seq<PhotoAttempt>, updateFails: bool)
    requires |paths| == |attempts|
    requires t1 == t0.(objects := t0.objects + coverUploads)
    requires Saved(t1, t2, id, content, {}, paths, attempts, updateFails)
    ensures Saved(t0, t2, id, content, coverUploads, paths, attempts, updateFails)
  {
  }

  class EditMemorialPage {
    var memorial: Option<MemorialRow>
    var photos: seq<PhotoRow>
    var form: MemorialForm
    var newCover: Option<File>
    var newPhotos: seq<File>
    var loading: bool
    var saving: bool

    constructor ()
      ensures memorial == None && photos == [] && form == EmptyForm
      ensures newCover == None && newPhotos == [] && loading && !saving
    {
      memorial, photos, form := None, [], EmptyForm;
      newCover, newPhotos, loading, saving := None, [], true, false;
    }

    /** The fetch effect (lines 46-75). The row loads only when both its id and
        its owner match; otherwise the page leaves and nothing is populated.
        A failed photo query yields the empty list. */
    method Load(store: Store, id: Option<Id>, user: Option<string>, fails: bool, photosFail: bool)
      requires store.Valid()
      modifies this, store
      ensures store.Valid() && store.State() == old(store.State())
      ensures newCover == old(newCover) && newPhotos == old(newPhotos) && saving == old(saving)
      ensures id.None? || user.None? ==>
        store.log == old(store.log) && memorial == old(memorial) && form == old(form)
        && photos == old(photos) && loading == old(loading)
      ensures id.Some? && user.Some? ==>
        var found := if fails then None else Single(OwnedWithId(old(store.memorials), id.value, user.value));
        && (found.None? ==>
              && store.log == old(store.log) + [OwnedMemorialQuery(id.value, user.value)]
              && memorial == old(memorial) && form == old(form) && photos == old(photos) && loading == old(loading))
        && (found.Some? ==>
              && memorial == found && form == FormOf(found.value.content)
              && photos == (if photosFail then [] else PhotosOf(old(store.photos), id.value))
              && !loading
              && store.log == old(store.log) + [OwnedMemorialQuery(id.value, user.value), PhotoQuery(id.value)])
    {
      if id.None? || user.None? {
        return;
      }
      var m := store.SelectOwned(id.value, user.value, fails);
      if m.None? {
        return;
      }
      memorial := m;
      form := FormOf(m.value.content);
      var p := store.SelectPhotos(id.value, photosFail);
      photos := p.GetOr([]);
      loading := false;
    }

    /** `update(field, value)`. */
    method Update(f: Field, value: string)
      modifies this
      ensures form == Set(old(form), f, value)
      ensures memorial == old(memorial) && photos == old(photos) && newCover == old(newCover)
      ensures newPhotos == old(newPhotos) && loading == old(loading) && saving == old(saving)
    {
      form := Set(form, f, value);
    }

    /** `removePhoto(photoId, url)`: the storage removal is best effort, the row
        delete is issued regardless of it, and the local list drops that id
        whatever the delete's outcome. */
    method RemovePhoto(store: Store, photoId: Id, url: string, parse: string -> Option<Url>,
                       removeFails: bool, deleteFails: bool)
      requires store.Valid()
      modifies this, store
      ensures store.Valid()
      ensures photos == PhotosWithoutId(old(photos), photoId)
      ensures memorial == old(memorial) && form == old(form) && newCover == old(newCover)
      ensures newPhotos == old(newPhotos) && loading == old(loading) && saving == old(saving)
      ensures store.memorials == old(store.memorials)
      ensures store.objects == old(store.objects)
        - (match RemovedObject(url, parse) case Some(p) => if removeFails then {} else {p} case None => {})
      ensures store.photos == if deleteFails then old(store.photos) else PhotosWithoutId(old(store.photos), photoId)
      ensures store.orders == old(store.orders) && store.contacts == old(store.contacts)
      ensures store.log == old(store.log)
        + (match RemovedObject(url, parse) case Some(p) => [ObjectRemoval([p])] case None => [])
        + [PhotoDelete(photoId)]
    {
      var path := RemovedObject(url, parse);
      if path.Some? {
        var _ := store.Remove([path.value], removeFails);
      }
      var _ := store.DeletePhoto(photoId, deleteFails);
      photos := Filter(photos, (p: PhotoRow) => p.id != photoId);
    }

    /** `handleSubmit`: nothing without a loaded memorial and a user; otherwise
        the cover (kept on a failed upload), the update of the row by id with the
        form values as typed, and the new gallery photos under the stored slug.
        Failures neither stop the save nor are reported in the state. */
    method HandleSubmit(store: Store, user: Option<string>, env: EditEnv)
      requires store.Valid() && |newPhotos| == |env.attempts|
      modifies this, store
      ensures store.Valid()
      ensures memorial == old(memorial) && form == old(form) && photos == old(photos)
      ensures newCover == old(newCover) && newPhotos == old(newPhotos) && loading == old(loading)
      ensures memorial.None? || user.None? ==>
        saving == old(saving) && store.State() == old(store.State()) && store.log == old(store.log)
      ensures memorial.Some? && user.Some? ==>
        var m := memorial.value;
        var coverPath := NewCoverPath(user.value, m.slug, env.coverTs, newCover);
        var coverUrl := NewCoverUrl(m.content.coverImageUrl, newCover, coverPath, env.coverFails);
        var paths := GalleryPaths(user.value, m.slug, newPhotos, env.attempts);
        && !saving
        && Saved(old(store.State()), store.State(), m.id, EditedContent(form, coverUrl),
                 CoverUploads(newCover, coverPath, env.coverFails), paths, env.attempts, env.updateFails)
        && store.log == old(store.log) + CoverCalls(newCover, coverPath)
             + [MemorialUpdate(m.id)] + UploadCalls(m.id, paths, env.attempts)
    {
      if memorial.None? || user.None? {
        return;
      }
      saving := true;
      var m := memorial.value;
      var coverUrl := SaveCover(store, user.value, m.slug, m.content.coverImageUrl, newCover, env);
      ghost var t1 := store.State();
      ghost var log1 := store.log;
      ghost var paths := GalleryPaths(user.value, m.slug, newPhotos, env.attempts);
      UpdateAndUpload(store, user.value, m, EditedContent(form, coverUrl), newPhotos, paths, env);
      ghost var coverPath := NewCoverPath(user.value, m.slug, env.coverTs, newCover);
      SaveComposes(old(store.State()), t1, store.State(), m.id, EditedContent(form, coverUrl),
                   CoverUploads(newCover, coverPath, env.coverFails), paths, env.attempts, env.updateFails);
      AppendAssoc(old(store.log) + CoverCalls(newCover, coverPath), [MemorialUpdate(m.id)],
                  UploadCalls(m.id, paths, env.attempts));
      saving := false;
    }
  }

  lemma {:induction false} UpdatedKeepsIds(rows: seq<MemorialRow>, id: Id, content: MemorialContent)
    ensures Ids(Updated(rows, id, content)) == Ids(rows)
  {
    var r := Updated(rows, id, content);
    forall x | x in Ids(r) ensures x in Ids(rows) {
      var m :| m in r && m.id == x;
      var i :| 0 <= i < |r| && r[i] == m;
      assert rows[i] in rows;
    }
    forall x | x in Ids(rows) ensures x in Ids(r) {
      var m :| m in rows && m.id == x;
      var i :| 0 <= i < |rows| && rows[i] == m;
      assert r[i] in r;
    }
  }
}
