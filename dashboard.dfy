/** The dashboard (src/pages/Dashboard.tsx): the owner-scoped listing and the
    delete cascade of `handleDelete` — photo objects, cover object, photo rows,
    then the memorial row. */
module Dashboard {
  import opened Common
  import opened Backend
  import opened Assets

  /** `memorials.find((m) => m.id === id)`: the first listed row with that id. */
  function Find(rows: seq<MemorialRow>, id: Id): (r: Option<MemorialRow>)
    ensures r.Some? ==> r.value in rows && r.value.id == id
    ensures r.Some? ==> exists i :: 0 <= i < |rows| && rows[i] == r.value && forall j :: 0 <= j < i ==> rows[j].id != id
    ensures r.None? ==> forall i :: 0 <= i < |rows| ==> rows[i].id != id
  {
    if rows == [] then None
    else if rows[0].id == id then Some(rows[0])
    else
      var r := Find(rows[1..], id);
      assert forall i :: 1 <= i < |rows| ==> rows[i] == rows[1..][i - 1];
      if r.Some? then
        var k :| 0 <= k < |rows[1..]| && rows[1..][k] == r.value && forall j :: 0 <= j < k ==> rows[1..][j].id != id;
        assert rows[k + 1] == r.value && forall j :: 0 <= j < k + 1 ==> rows[j].id != id;
        r
      else r
  }

  /** Lines 68-75: the object path of the listed cover of memorial `id`, when
      there is a non-empty cover URL that parses and holds a non-empty piece
      after the marker. Every other case is skipped, the parse failure
      included, because the block swallows its exceptions. */
  function CoverObject(listing: seq<MemorialRow>, id: Id, parse: string -> Option<Url>): Option<string> {
    match Find(listing, id)
    case None => None
    case Some(m) =>
      match m.content.coverImageUrl
      case None => None
      case Some(u) =>
        if u == "" then None
        else
          match parse(u)
          case None => None
          case Some(url) => ObjectPath(url.pathname)
  }

  /** Lines 54-63: the photo object paths to remove, given what the photo query
      returned (None when it failed). None when `new URL` throws inside the
      `map`, which nothing catches. */
  function PhotoPaths(found: Option<seq<PhotoRow>>, parse: string -> Option<Url>): Option<seq<string>> {
    if found.None? || found.value == [] then Some([])
    else PhotoObjectPaths(UrlsOf(found.value), parse)
  }

  /** The storage removals of a delete that does not throw: the photo objects
      in one request when there is at least one, then the cover object. */
  function RemovalCalls(paths: seq<string>, cover: Option<string>): seq<Call> {
    (if paths != [] then [ObjectRemoval(paths)] else [])
    + (match cover case Some(p) => [ObjectRemoval([p])] case None => [])
  }

  /** What the environment decides during one delete. */
  datatype DeleteEnv = DeleteEnv(
    photoQueryFails: bool,
    removeFails: bool,
    coverRemoveFails: bool,
    photoDeleteFails: bool,
    deleteFails: bool,
    refetchFails: bool)

  /** The objects a delete's removals take out of the bucket: the photo
      objects when there is at least one and their request succeeds, and the
      cover object when its own request succeeds. */
  ghost function RemovedObjects(paths: seq<string>, cover: Option<string>, env: DeleteEnv): set<string> {
    (if paths != [] && !env.removeFails then set p | p in paths else {})
    + (match cover case Some(c) => if env.coverRemoveFails then {} else {c} case None => {})
  }

  /** Every storage removal a delete issues names at least one object. */
  lemma RemovalsAreNonEmpty(paths: seq<string>, cover: Option<string>)
    ensures forall c :: c in RemovalCalls(paths, cover) ==> c.ObjectRemoval? && c.paths != []
  {
  }

  /** When the photo rows hold the public URLs of stored objects, the delete
      derives exactly those objects' paths, so a successful removal takes
      exactly them out of the bucket (`RemovedObjects`). */
  lemma {:induction false} PhotoPathsOfUploads(rows: seq<PhotoRow>, paths: seq<string>, parse: string -> Option<Url>)
    requires UrlsOf(rows) == PublicUrls(paths)
    requires ParsesPublicUrls(parse, paths)
    requires forall p :: p in paths ==> p != [] && !Contains(p, Marker)
    ensures PhotoPaths(Some(rows), parse) == Some(paths)
  {
    PhotoObjectPathsOfPublicUrls(paths, parse);
  }

  /** A listed cover stored at `path` is found again for removal. */
  lemma {:induction false} CoverObjectOfUpload(listing: seq<MemorialRow>, id: Id, path: string, parse: string -> Option<Url>)
    requires Find(listing, id).Some? && Find(listing, id).value.content.coverImageUrl == Some(PublicUrl(path))
    requires parse(PublicUrl(path)) == Some(Url("", Marker + path, []))
    requires path != [] && !Contains(path, Marker)
    ensures CoverObject(listing, id, parse) == Some(path)
  {
    ObjectPathOfBucketUrl(path);
  }

  // ---------------------------------------------------------------------------
  // Row deletes

  /** After the photo rows of `id` are deleted, none refers to it, and the photo
      rows of every other memorial are untouched, in order. */
  lemma {:induction false} PhotosNotOfClears(rows: seq<PhotoRow>, id: Id, other: Id)
    requires other != id
    ensures PhotosOf(PhotosNotOf(rows, id), id) == []
    ensures PhotosOf(PhotosNotOf(rows, id), other) == PhotosOf(rows, other)
  {
    if rows != [] {
      var n := |rows| - 1;
      PhotosNotOfClears(rows[..n], id, other);
      var last := rows[n];
      var front := PhotosNotOf(rows[..n], id);
      var keep := (p: PhotoRow) => p.memorialId != id;
      if last.memorialId != id {
        assert PhotosNotOf(rows, id) == front + [last];
        FilterConcat(front, [last], (p: PhotoRow) => p.memorialId == id);
        FilterConcat(front, [last], (p: PhotoRow) => p.memorialId == other);
      } else {
        assert PhotosNotOf(rows, id) == front;
      }
    }
  }

  /** Deleting the memorial row removes exactly the rows with that id, keeping
      the others in order. */
  lemma {:induction false} WithoutMemorialKeepsOthers(rows: seq<MemorialRow>, id: Id)
    ensures forall m :: m in WithoutMemorial(rows, id) <==> m in rows && m.id != id
    ensures id !in Ids(WithoutMemorial(rows, id))
  {
  }

  /** Lines 64-75: the storage removals; their outcomes are ignored. */
  method RemoveObjects(store: Store, paths: seq<string>, cover: Option<string>, env: DeleteEnv)
    requires store.Valid()
    modifies store
    ensures store.Valid()
    ensures store.memorials == old(store.memorials) && store.photos == old(store.photos)
    ensures store.orders == old(store.orders) && store.contacts == old(store.contacts)
    ensures store.objects == old(store.objects) - RemovedObjects(paths, cover, env)
    ensures store.log == old(store.log) + RemovalCalls(paths, cover)
  {
    if paths != [] {
      var _ := store.Remove(paths, env.removeFails);
    }
    ghost var log1 := store.log;
    if cover.Some? {
      var _ := store.Remove([cover.value], env.coverRemoveFails);
    }
    AppendAssoc(old(store.log), if paths != [] then [ObjectRemoval(paths)] else [],
                match cover case Some(p) => [ObjectRemoval([p])] case None => []);
  }

  /** Lines 77-78: the photo rows, then the memorial row. Only the second
      outcome is reported; under the foreign key it fails while photo rows of
      the memorial remain. */
  method DeleteRows(store: Store, id: Id, env: DeleteEnv) returns (deleted: bool)
    requires store.Valid()
    modifies store
    ensures store.Valid()
    ensures store.memorials == (if deleted then WithoutMemorial(old(store.memorials), id) else old(store.memorials))
    ensures store.photos == (if env.photoDeleteFails then old(store.photos) else PhotosNotOf(old(store.photos), id))
    ensures deleted <==> !env.deleteFails && (!env.photoDeleteFails || PhotosOf(old(store.photos), id) == [])
    ensures store.objects == old(store.objects)
    ensures store.orders == old(store.orders) && store.contacts == old(store.contacts)
    ensures store.log == old(store.log) + [PhotoDeleteByMemorial(id), MemorialDelete(id)]
  {
    var _ := store.DeletePhotosOf(id, env.photoDeleteFails);
    if !env.photoDeleteFails {
      PhotosNotOfClears(old(store.photos), id, id + 1);
    }
    deleted := store.DeleteMemorial(id, env.deleteFails);
  }

  /** Lines 63-78 once the photo paths are known: the objects are removed,
      then the rows are deleted. */
  method RemoveAndDelete(store: Store, id: Id, paths: seq<string>, cover: Option<string>, env: DeleteEnv)
    returns (deleted: bool)
    requires store.Valid()
    modifies store
    ensures store.Valid()
    ensures store.memorials == (if deleted then WithoutMemorial(old(store.memorials), id) else old(store.memorials))
    ensures store.photos == (if env.photoDeleteFails then old(store.photos) else PhotosNotOf(old(store.photos), id))
    ensures deleted <==> !env.deleteFails && (!env.photoDeleteFails || PhotosOf(old(store.photos), id) == [])
    ensures store.objects == old(store.objects) - RemovedObjects(paths, cover, env)
    ensures store.orders == old(store.orders) && store.contacts == old(store.contacts)
    ensures store.log == old(store.log) + RemovalCalls(paths, cover) + [PhotoDeleteByMemorial(id), MemorialDelete(id)]
  {
    RemoveObjects(store, paths, cover, env);
    deleted := DeleteRows(store, id, env);
  }

  class DashboardPage {
    var memorials: seq<MemorialRow>
    var loading: bool
    var deleteId: Option<Id>
    var deleting: bool

    constructor ()
      ensures memorials == [] && loading && deleteId == None && !deleting
    {
      memorials, loading, deleteId, deleting := [], true, None, false;
    }

    /** `fetchMemorials`: the signed-in user's memorials, newest first; a failed
        query keeps the current listing. */
    method FetchMemorials(store: Store, user: Option<string>, fails: bool)
      requires store.Valid()
      modifies this, store
      ensures store.Valid() && store.State() == old(store.State())
      ensures deleteId == old(deleteId) && deleting == old(deleting)
      ensures user.None? ==> store.log == old(store.log) && memorials == old(memorials) && loading == old(loading)
      ensures user.Some? ==>
        && store.log == old(store.log) + [OwnedListQuery(user.value)]
        && !loading
        && memorials == if fails then old(memorials) else NewestFirst(OwnedBy(old(store.memorials), user.value))
    {
      if user.None? {
        return;
      }
      var data := store.ListOwned(user.value, fails);
      if data.Some? {
        memorials := data.value;
      }
      loading := false;
    }

    /** `handleDelete`. `threw` reports the unguarded `new URL` of a photo row
        throwing; the handler then stops with `deleting` still set and no row
        deleted. `deleted` reports the memorial row delete succeeding. */
    method HandleDelete(store: Store, user: Option<string>, parse: string -> Option<Url>, env: DeleteEnv)
      returns (threw: bool, deleted: bool)
      requires store.Valid()
      modifies this, store
      ensures store.Valid()
      ensures old(deleteId).None? ==>
        && !threw && !deleted && store.State() == old(store.State()) && store.log == old(store.log)
        && memorials == old(memorials) && loading == old(loading)
        && deleteId == old(deleteId) && deleting == old(deleting)
      ensures old(deleteId).Some? ==>
        var id := old(deleteId).value;
        var found := if env.photoQueryFails then None else Some(PhotosOf(old(store.photos), id));
        && (threw <==> PhotoPaths(found, parse).None?)
        && (threw ==>
              && !deleted && deleting && deleteId == old(deleteId) && memorials == old(memorials)
              && store.State() == old(store.State()) && store.log == old(store.log) + [PhotoQuery(id)])
        && (!threw ==>
              && !deleting && deleteId.None?
              && store.memorials == (if deleted then WithoutMemorial(old(store.memorials), id) else old(store.memorials))
              && store.photos == (if env.photoDeleteFails then old(store.photos) else PhotosNotOf(old(store.photos), id))
              && (deleted <==> !env.deleteFails && (!env.photoDeleteFails || PhotosOf(old(store.photos), id) == []))
              && store.objects == old(store.objects)
                   - RemovedObjects(PhotoPaths(found, parse).value, CoverObject(old(memorials), id, parse), env)
              && store.orders == old(store.orders) && store.contacts == old(store.contacts)
              && store.log == old(store.log) + [PhotoQuery(id)]
                   + RemovalCalls(PhotoPaths(found, parse).value, CoverObject(old(memorials), id, parse))
                   + [PhotoDeleteByMemorial(id), MemorialDelete(id)]
                   + (if deleted && user.Some? then [OwnedListQuery(user.value)] else [])
              && memorials == (if deleted && user.Some? && !env.refetchFails
                               then NewestFirst(OwnedBy(store.memorials, user.value)) else old(memorials)))
    {
      threw, deleted := false, false;
      if deleteId.None? {
        return;
      }
      var id := deleteId.value;
      deleting := true;
      var found := store.SelectPhotos(id, env.photoQueryFails);
      var paths := PhotoPaths(found, parse);
      if paths.None? {
        threw := true;
        return;
      }
      var cover := CoverObject(memorials, id, parse);
      deleted := Finish(store, user, id, paths.value, cover, env);
    }

    /** The rest of `handleDelete` once nothing can throw: removals, row
        deletes, the dialog closed, and the listing fetched again after a
        successful delete. */
    method Finish(store: Store, user: Option<string>, id: Id, paths: seq<string>, cover: Option<string>, env: DeleteEnv)
      returns (deleted: bool)
      requires store.Valid()
      modifies this, store
      ensures store.Valid()
      ensures !deleting && deleteId.None?
      ensures store.memorials == (if deleted then WithoutMemorial(old(store.memorials), id) else old(store.memorials))
      ensures store.photos == (if env.photoDeleteFails then old(store.photos) else PhotosNotOf(old(store.photos), id))
      ensures deleted <==> !env.deleteFails && (!env.photoDeleteFails || PhotosOf(old(store.photos), id) == [])
      ensures store.objects == old(store.objects) - RemovedObjects(paths, cover, env)
      ensures store.orders == old(store.orders) && store.contacts == old(store.contacts)
      ensures store.log == old(store.log) + RemovalCalls(paths, cover) + [PhotoDeleteByMemorial(id), MemorialDelete(id)]
                + (if deleted && user.Some? then [OwnedListQuery(user.value)] else [])
      ensures memorials == (if deleted && user.Some? && !env.refetchFails
                            then NewestFirst(OwnedBy(store.memorials, user.value)) else old(memorials))
    {
      deleted := RemoveAndDelete(store, id, paths, cover, env);
      deleting := false;
      deleteId := None;
      if deleted {
        FetchMemorials(store, user, env.refetchFails);
      }
    }
  }
}
