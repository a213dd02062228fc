/** The create-memorial page (src/pages/CreateMemorial.tsx): the form state,
    `update`, and the `handleSubmit` sequence — validate, require a cover,
    allocate a slug, upload the cover, insert the row, upload the gallery. */
module CreateMemorial {
  import opened Common
  import opened Zod
  import opened Backend
  import opened Slug
  import opened Assets
  import opened MemorialForms

  /** What the environment decides during one submission: whether the slug
      lookup fails, the clock at the cover upload, whether the cover upload
      and the row insert fail, and one attempt per gallery file. */
  datatype CreateEnv = CreateEnv(
    lookupFails: bool,
    coverTs: nat,
    coverFails: bool,
    insertFails: bool,
    attempts: seq<PhotoAttempt>)

  const CoverRequired := "Cover image is required"

  /** The slug lookup and the `-{count+1}` rule of lines 61-68, issued against
      the store. */
  method AllocateSlugIn(store: Store, name: string, lookupFails: bool) returns (slug: string)
    requires store.Valid()
    modifies store
    ensures store.Valid() && store.State() == old(store.State())
    ensures store.log == old(store.log) + [SlugLookup(Slugify(name) + "%")]
    ensures slug == AllocateSlug(old(store.memorials), name, lookupFails)
  {
    slug := Slugify(name);
    var existing := store.SelectSlugsLike(slug + "%", lookupFails);
    if existing.Some? && |existing.value| > 0 {
      slug := slug + "-" + Decimal(|existing.value| + 1);
    }
  }

  /** The requests of a submission that gets past validation, after the slug
      lookup: the cover upload, the row insert once the cover is stored, and
      the gallery requests once the row exists. */
  function PublishCalls(owner: string, slug: string, coverPath: string, paths: seq<string>, env: CreateEnv, id: Id): seq<Call>
    requires |paths| == |env.attempts|
  {
    var upload := [ObjectUpload(coverPath)];
    if env.coverFails then upload
    else if env.insertFails then upload + [MemorialInsert(owner, slug)]
    else upload + [MemorialInsert(owner, slug)] + UploadCalls(id, paths, env.attempts)
  }

  /** How a submission that gets past validation changes the tables `t0` into
      `t1`: nothing when the cover upload fails; only the orphaned cover when
      the row insert fails; otherwise one new row, owned by `owner`, under
      `slug`, with `content`, plus the gallery objects and rows. */
  ghost predicate Published(t0: Tables, t1: Tables, owner: string, slug: string, coverPath: string,
                            content: MemorialContent, paths: seq<string>, env: CreateEnv, created: Option<Id>)
    requires |paths| == |env.attempts|
  {
    && (created.Some? <==> !env.coverFails && !env.insertFails)
    && (env.coverFails ==> t1 == t0)
    && (!env.coverFails && env.insertFails ==> t1 == t0.(objects := t0.objects + {coverPath}))
    && (created.Some? ==>
          var n := |t0.memorials|;
          && created.value !in Ids(t0.memorials)
          && |t1.memorials| == n + 1 && t1.memorials[..n] == t0.memorials
          && t1.memorials[n].id == created.value && t1.memorials[n].userId == owner
          && t1.memorials[n].slug == slug && t1.memorials[n].content == content
          && t1.objects == t0.objects + {coverPath} + Uploaded(paths, env.attempts)
          && |t0.photos| <= |t1.photos| && t1.photos[..|t0.photos|] == t0.photos
          && AllOf(t1.photos[|t0.photos|..], created.value)
          && UrlsOf(t1.photos[|t0.photos|..]) == AddedUrls(paths, true, env.attempts)
          && t1.orders == t0.orders && t1.contacts == t0.contacts)
  }

  /** Lines 70-102: upload the cover, then insert the row. */
  method InsertWithCover(store: Store, owner: string, slug: string, coverPath: string, content: MemorialContent,
                         env: CreateEnv) returns (created: Option<Id>)
    requires store.Valid()
    modifies store
    ensures store.Valid()
    ensures created.Some? <==> !env.coverFails && !env.insertFails
    ensures env.coverFails ==> store.State() == old(store.State())
    ensures !env.coverFails && env.insertFails ==>
      store.State() == old(store.State()).(objects := old(store.objects) + {coverPath})
    ensures created.Some? ==>
      var n := |old(store.memorials)|;
      && created.value !in Ids(old(store.memorials)) && created.value in Ids(store.memorials)
      && |store.memorials| == n + 1 && store.memorials[..n] == old(store.memorials)
      && store.memorials[n] == MemorialRow(created.value, owner, slug, store.memorials[n].createdAt, content)
      && store.objects == old(store.objects) + {coverPath}
      && store.photos == old(store.photos) && store.orders == old(store.orders) && store.contacts == old(store.contacts)
    ensures store.log == old(store.log) + [ObjectUpload(coverPath)]
      + (if env.coverFails then [] else [MemorialInsert(owner, slug)])
  {
    var uploaded := store.Upload(coverPath, env.coverFails);
    if !uploaded {
      return None;
    }
    ghost var memorials0 := store.memorials;
    created := store.InsertMemorial(owner, slug, content, env.insertFails);
    if created.Some? {
      assert store.memorials[|memorials0|] in store.memorials;
    }
  }

  /** The row insert followed by the gallery loop publishes the memorial. */
  lemma GalleryCompletesPublish(t0: Tables, t1: Tables, t2: Tables, owner: string, slug: string, coverPath: string,
                                content: MemorialContent, paths: seq<string>, env: CreateEnv, id: Id)
    requires |paths| == |env.attempts| && !env.coverFails && !env.insertFails
    requires var n := |t0.memorials|;
      && id !in Ids(t0.memorials) && id in Ids(t1.memorials)
      && |t1.memorials| == n + 1 && t1.memorials[..n] == t0.memorials
      && t1.memorials[n] == MemorialRow(id, owner, slug, t1.memorials[n].createdAt, content)
      && t1.objects == t0.objects + {coverPath}
      && t1.photos == t0.photos && t1.orders == t0.orders && t1.contacts == t0.contacts
    requires && t2.memorials == t1.memorials && t2.orders == t1.orders && t2.contacts == t1.contacts
      && t2.objects == t1.objects + Uploaded(paths, env.attempts)
      && |t1.photos| <= |t2.photos| && t2.photos[..|t1.photos|] == t1.photos
      && AllOf(t2.photos[|t1.photos|..], id)
      && UrlsOf(t2.photos[|t1.photos|..]) == AddedUrls(paths, id in Ids(t1.memorials), env.attempts)
    ensures Published(t0, t2, owner, slug, coverPath, content, paths, env, Some(id))
  {
  }

  /** A submission stopped by the cover upload or the row insert publishes
      nothing beyond the cover. */
  lemma StoppedPublish(t0: Tables, t1: Tables, owner: string, slug: string, coverPath: string,
                       content: MemorialContent, paths: seq<string>, env: CreateEnv)
    requires |paths| == |env.attempts| && (env.coverFails || env.insertFails)
    requires env.coverFails ==> t1 == t0
    requires !env.coverFails ==> t1 == t0.(objects := t0.objects + {coverPath})
    ensures Published(t0, t1, owner, slug, coverPath, content, paths, env, None)
  {
  }

  /** Lines 70-112: the cover and the row, then the gallery. A failed cover
      upload stops before the insert; a failed insert stops before the gallery
      and leaves the uploaded cover behind. */
  method Publish(store: Store, owner: string, slug: string, coverPath: string, content: MemorialContent,
                 photoFiles: seq<File>, ghost paths: seq<string>, env: CreateEnv) returns (created: Option<Id>)
    requires store.Valid() && |photoFiles| == |env.attempts|
    requires paths == GalleryPaths(owner, slug, photoFiles, env.attempts)
    modifies store
    ensures store.Valid()
    ensures Published(old(store.State()), store.State(), owner, slug, coverPath, content, paths, env, created)
    ensures store.log == old(store.log) + PublishCalls(owner, slug, coverPath, paths, env, created.GetOr(0))
  {
    created := InsertWithCover(store, owner, slug, coverPath, content, env);
    if created.None? {
      StoppedPublish(old(store.State()), store.State(), owner, slug, coverPath, content, paths, env);
      if env.coverFails {
        assert [ObjectUpload(coverPath)] + [] == [ObjectUpload(coverPath)];
      } else {
        AppendAssoc(old(store.log), [ObjectUpload(coverPath)], [MemorialInsert(owner, slug)]);
      }
      return;
    }
    ghost var t1 := store.State();
    ghost var calls := [ObjectUpload(coverPath)] + [MemorialInsert(owner, slug)];
    AppendAssoc(old(store.log), [ObjectUpload(coverPath)], [MemorialInsert(owner, slug)]);
    assert store.log == old(store.log) + calls;
    UploadGallery(store, owner, slug, created.value, photoFiles, env.attempts);
    GalleryCompletesPublish(old(store.State()), t1, store.State(), owner, slug, coverPath, content, paths, env, created.value);
    AppendAssoc(old(store.log), calls, UploadCalls(created.value, paths, env.attempts));
  }

  /** How a submission that gets past validation, with the parsed `data`, the
      typed `fullName` and a cover file named `coverName`, changes the tables
      `t0` into `t1` and the request log `log0` into `log1`: the slug lookup,
      then the publication under the allocated slug. */
  ghost predicate Submitted(t0: Tables, t1: Tables, log0: seq<Call>, log1: seq<Call>, owner: string,
                            fullName: string, data: MemorialData, coverName: string, files: seq<File>,
                            env: CreateEnv, created: Option<Id>)
    requires |files| == |env.attempts|
  {
    var slug := AllocateSlug(t0.memorials, fullName, env.lookupFails);
    var coverPath := CoverPath(owner, slug, env.coverTs, coverName);
    var paths := GalleryPaths(owner, slug, files, env.attempts);
    && Published(t0, t1, owner, slug, coverPath, CreatedContent(data, PublicUrl(coverPath)), paths, env, created)
    && log1 == log0 + [SlugLookup(Slugify(fullName) + "%")]
         + PublishCalls(owner, slug, coverPath, paths, env, created.GetOr(0))
  }

  /** Allocate the slug for `fullName`, upload the cover, insert the row
      with `data`, upload the gallery. */
  method Create(store: Store, owner: string, fullName: string, data: MemorialData, cover: File,
                photoFiles: seq<File>, env: CreateEnv) returns (created: Option<Id>)
    requires store.Valid() && |photoFiles| == |env.attempts|
    modifies store
    ensures store.Valid()
    ensures Submitted(old(store.State()), store.State(), old(store.log), store.log, owner,
                      fullName, data, cover.name, photoFiles, env, created)
  {
    var slug := AllocateSlugIn(store, fullName, env.lookupFails);
    var coverPath := CoverPath(owner, slug, env.coverTs, cover.name);
    ghost var paths := GalleryPaths(owner, slug, photoFiles, env.attempts);
    var content := CreatedContent(data, PublicUrl(coverPath));
    created := Publish(store, owner, slug, coverPath, content, photoFiles, paths, env);
    AppendAssoc(old(store.log), [SlugLookup(Slugify(fullName) + "%")],
                PublishCalls(owner, slug, coverPath, paths, env, created.GetOr(0)));
  }

  class CreateMemorialPage {
    var form: MemorialForm
    var coverFile: Option<File>
    var photoFiles: seq<File>
    var errors: map<string, string>
    var loading: bool

    constructor ()
      ensures form == EmptyForm && coverFile == None && photoFiles == []
      ensures errors == map[] && !loading
    {
      form, coverFile, photoFiles := EmptyForm, None, [];
      errors, loading := map[], false;
    }

    /** `update(field, value)`. */
    method Update(f: Field, value: string)
      modifies this
      ensures form == Set(old(form), f, value)
      ensures coverFile == old(coverFile) && photoFiles == old(photoFiles)
      ensures errors == old(errors) && loading == old(loading)
    {
      form := Set(form, f, value);
    }

    /** `handleSubmit`, with `user` the signed-in user's id. Returns the id of
        the new memorial when one was created. */
    method HandleSubmit(store: Store, user: Option<string>, isUrl: string -> bool, env: CreateEnv)
      returns (created: Option<Id>)
      requires store.Valid() && |photoFiles| == |env.attempts|
      modifies this, store
      ensures store.Valid()
      ensures form == old(form) && coverFile == old(coverFile) && photoFiles == old(photoFiles)
      ensures var parsed := ParseMemorial(old(form), isUrl);
        && (user.None? || parsed.Failure? || coverFile.None? ==>
              created.None? && loading == old(loading)
              && store.State() == old(store.State()) && store.log == old(store.log))
        && (user.None? ==> errors == map[])
        && (user.Some? && parsed.Failure? ==> errors == ErrorMap(parsed.issues))
        && (user.Some? && parsed.Success? && coverFile.None? ==> errors == map["cover" := CoverRequired])
      ensures user.Some? && ParseMemorial(old(form), isUrl).Success? && coverFile.Some? ==>
        && errors == map[] && !loading
        && Submitted(old(store.State()), store.State(), old(store.log), store.log, user.value,
                     old(form).fullName, ParseMemorial(old(form), isUrl).data, coverFile.value.name,
                     photoFiles, env, created)
    {
      errors := map[];
      if user.None? {
        return None;
      }
      var result := ParseMemorial(form, isUrl);
      if result.Failure? {
        var fe := CollectFieldErrors(result.issues);
        errors := fe;
        return None;
      }
      if coverFile.None? {
        errors := map["cover" := CoverRequired];
        return None;
      }
      created := PublishForm(store, user.value, result.data, env);
    }

    /** The part of `handleSubmit` after validation and the cover check, with
        the loading flag raised meanwhile. */
    method PublishForm(store: Store, owner: string, data: MemorialData, env: CreateEnv)
      returns (created: Option<Id>)
      requires store.Valid() && coverFile.Some? && |photoFiles| == |env.attempts|
      modifies this, store
      ensures store.Valid()
      ensures unchanged(this`form, this`coverFile, this`photoFiles, this`errors) && !loading
      ensures Submitted(old(store.State()), store.State(), old(store.log), store.log, owner,
                        form.fullName, data, coverFile.value.name, photoFiles, env, created)
    {
      var fullName, cover, files := form.fullName, coverFile.value, photoFiles;
      loading := true;
      ghost var t0, log0 := store.State(), store.log;
      assert t0 == old(store.State()) && log0 == old(store.log);
      label called:
      created := Create(store, owner, fullName, data, cover, files, env);
      assert unchanged@called(this);
      ghost var t1, log1 := store.State(), store.log;
      assert Submitted(t0, t1, log0, log1, owner, fullName, data, cover.name, files, env, created);
      loading := false;
      assert t1 == store.State() && log1 == store.log;
    }
  }
}
