/** The hosted backend the pages talk to, as an in-memory stand-in: the
    `memorials`, `memorial_photos`, `orders` and `contacts` tables, the
    `memorial-images` bucket of the object store, and the identity provider.
    Every operation that can fail on the network takes a `fails` flag that
    decides its outcome; rows get their id and `created_at` from counters. A
    ghost call log records the order in which the pages issue requests. */
module Backend {
  import opened Common

  type Id = nat

  /** The columns of a `memorials` row that the edit page writes back. */
  datatype MemorialContent = MemorialContent(
    fullName: string,
    birthDate: string,
    deathDate: string,
    location: string,
    biography: string,
    coverImageUrl: Option<string>,
    videoUrl: Option<string>,
    tributeMessage: Option<string>)

  /** A `memorials` row. */
  datatype MemorialRow = MemorialRow(id: Id, userId: string, slug: string, createdAt: nat, content: MemorialContent)

  /** A `memorial_photos` row. */
  datatype PhotoRow = PhotoRow(id: Id, memorialId: Id, photoUrl: string)

  datatype Shipping = Shipping(name: string, address: string, city: string, state: string, zip: string)

  /** An `orders` row. Prices are copied, never computed. */
  datatype OrderRow = OrderRow(
    userId: string,
    memorialId: Option<Id>,
    productId: string,
    productName: string,
    customText: string,
    customPhotoUrl: Option<string>,
    quantity: nat,
    unitPrice: real,
    totalPrice: real,
    shipping: Shipping)

  /** A `contacts` row. */
  datatype ContactRow = ContactRow(name: string, email: string, message: string)

  /** One request to the backend, as recorded in the call log. */
  datatype Call =
    | SlugLookup(pattern: string)
    | SlugQuery(slug: string)
    | OwnedMemorialQuery(memorialId: Id, userId: string)
    | OwnedListQuery(userId: string)
    | MemorialInsert(userId: string, slug: string)
    | MemorialUpdate(memorialId: Id)
    | MemorialDelete(memorialId: Id)
    | PhotoQuery(memorialId: Id)
    | PhotoInsert(memorialId: Id, photoUrl: string)
    | PhotoDeleteByMemorial(memorialId: Id)
    | PhotoDelete(photoId: Id)
    | ObjectUpload(path: string)
    | ObjectRemoval(paths: seq<string>)
    | OrderInsert
    | ContactInsert

  /** Everything the backend stores, as one value. */
  datatype Tables = Tables(
    memorials: seq<MemorialRow>,
    photos: seq<PhotoRow>,
    objects: set<string>,
    orders: seq<OrderRow>,
    contacts: seq<ContactRow>)

  // ---------------------------------------------------------------------------
  // Queries, as pure functions of the tables

  /** PostgreSQL `LIKE` with `\` as escape: `%` matches any run of characters,
      `_` exactly one, anything else itself. */
  predicate Like(pattern: string, s: string)
    decreases |pattern| + |s|
  {
    if pattern == [] then s == []
    else if pattern[0] == '%' then Like(pattern[1..], s) || (s != [] && Like(pattern, s[1..]))
    else if pattern[0] == '_' then s != [] && Like(pattern[1..], s[1..])
    else if pattern[0] == '\\' && |pattern| >= 2 then
      s != [] && s[0] == pattern[1] && Like(pattern[2..], s[1..])
    else s != [] && s[0] == pattern[0] && Like(pattern[1..], s[1..])
  }

  /** `select('slug').like('slug', pattern)`: the matching slugs in table order. */
  function SlugsLike(rows: seq<MemorialRow>, pattern: string): (r: seq<string>)
    ensures |r| <= |rows|
  {
    if rows == [] then []
    else
      var last := rows[|rows| - 1];
      SlugsLike(rows[..|rows| - 1], pattern) + (if Like(pattern, last.slug) then [last.slug] else [])
  }

  /** `.single()`: the row when exactly one matched, otherwise an error (no data). */
  function Single<T>(rows: seq<T>): (r: Option<T>)
    ensures r.Some? <==> |rows| == 1
    ensures r.Some? ==> r.value == rows[0]
  {
    if |rows| == 1 then Some(rows[0]) else None
  }

  function Ids(rows: seq<MemorialRow>): set<Id> {
    set m | m in rows :: m.id
  }

  function WithSlug(rows: seq<MemorialRow>, slug: string): seq<MemorialRow> {
    Filter(rows, (m: MemorialRow) => m.slug == slug)
  }

  function OwnedWithId(rows: seq<MemorialRow>, id: Id, userId: string): seq<MemorialRow> {
    Filter(rows, (m: MemorialRow) => m.id == id && m.userId == userId)
  }

  function OwnedBy(rows: seq<MemorialRow>, userId: string): seq<MemorialRow> {
    Filter(rows, (m: MemorialRow) => m.userId == userId)
  }

  /** `.order('created_at', { ascending: false })` over rows kept in insertion
      order, which is `created_at` order. */
  function NewestFirst(rows: seq<MemorialRow>): seq<MemorialRow> {
    Reverse(rows)
  }

  function WithoutMemorial(rows: seq<MemorialRow>, id: Id): seq<MemorialRow> {
    Filter(rows, (m: MemorialRow) => m.id != id)
  }

  function PhotosOf(rows: seq<PhotoRow>, memorialId: Id): seq<PhotoRow> {
    Filter(rows, (p: PhotoRow) => p.memorialId == memorialId)
  }

  function PhotosNotOf(rows: seq<PhotoRow>, memorialId: Id): seq<PhotoRow> {
    Filter(rows, (p: PhotoRow) => p.memorialId != memorialId)
  }

  function PhotosWithoutId(rows: seq<PhotoRow>, photoId: Id): seq<PhotoRow> {
    Filter(rows, (p: PhotoRow) => p.id != photoId)
  }

  /** `.update(content).eq('id', id)`. */
  function Updated(rows: seq<MemorialRow>, id: Id, content: MemorialContent): (r: seq<MemorialRow>)
    ensures |r| == |rows|
    ensures forall i :: 0 <= i < |rows| ==>
      r[i] == if rows[i].id == id then rows[i].(content := content) else rows[i]
  {
    seq(|rows|, i requires 0 <= i < |rows| => if rows[i].id == id then rows[i].(content := content) else rows[i])
  }

  // ---------------------------------------------------------------------------
  // Table invariants

  predicate MemorialsOrdered(rows: seq<MemorialRow>) {
    forall i, j :: 0 <= i < j < |rows| ==> rows[i].id < rows[j].id && rows[i].createdAt < rows[j].createdAt
  }

  predicate PhotosOrdered(rows: seq<PhotoRow>) {
    forall i, j :: 0 <= i < j < |rows| ==> rows[i].id < rows[j].id
  }

  /** Ids are unique and below the counter, rows sit in `created_at` order, and
      every photo row points at an existing memorial (the foreign key). */
  predicate TablesValid(memorials: seq<MemorialRow>, photos: seq<PhotoRow>, nextId: nat, clock: nat) {
    && MemorialsOrdered(memorials)
    && PhotosOrdered(photos)
    && (forall m :: m in memorials ==> m.id < nextId && m.createdAt < clock)
    && (forall p :: p in photos ==> p.id < nextId && p.memorialId in Ids(memorials))
  }

  lemma MemorialFilterValid(rows: seq<MemorialRow>, keep: MemorialRow -> bool)
    requires MemorialsOrdered(rows)
    ensures MemorialsOrdered(Filter(rows, keep))
  {
    FilterKeepsOrder(rows, keep, (a: MemorialRow, b: MemorialRow) => a.id < b.id && a.createdAt < b.createdAt);
  }

  lemma PhotoFilterValid(rows: seq<PhotoRow>, keep: PhotoRow -> bool)
    requires PhotosOrdered(rows)
    ensures PhotosOrdered(Filter(rows, keep))
  {
    FilterKeepsOrder(rows, keep, (a: PhotoRow, b: PhotoRow) => a.id < b.id);
  }

  /** The owner-scoped lookup by id finds a row exactly when a row with that id
      belongs to that user; ids being unique, it is that row. */
  lemma {:induction false} OwnedLookup(rows: seq<MemorialRow>, id: Id, userId: string)
    requires MemorialsOrdered(rows)
    ensures Single(OwnedWithId(rows, id, userId)).Some? <==> exists m :: m in rows && m.id == id && m.userId == userId
    ensures Single(OwnedWithId(rows, id, userId)).Some? ==>
      var m := Single(OwnedWithId(rows, id, userId)).value;
      m in rows && m.id == id && m.userId == userId
  {
    var found := OwnedWithId(rows, id, userId);
    OwnedWithIdAtMostOne(rows, id, userId);
    if exists m :: m in rows && m.id == id && m.userId == userId {
      var m :| m in rows && m.id == id && m.userId == userId;
      assert m in found;
    }
    if |found| == 1 {
      assert found[0] in found;
    }
  }

  lemma OwnedWithIdAtMostOne(rows: seq<MemorialRow>, id: Id, userId: string)
    requires MemorialsOrdered(rows)
    ensures |OwnedWithId(rows, id, userId)| <= 1
  {
    var found := OwnedWithId(rows, id, userId);
    MemorialFilterValid(rows, (m: MemorialRow) => m.id == id && m.userId == userId);
    if |found| >= 2 {
      FirstTwoOrdered(found);
      assert false;
    }
  }

  lemma FirstTwoOrdered(rows: seq<MemorialRow>)
    requires MemorialsOrdered(rows) && |rows| >= 2
    ensures rows[0] in rows && rows[1] in rows && rows[0].id < rows[1].id
  {
  }

  /** The dashboard listing holds exactly the user's memorials, newest first. */
  lemma ListingNewestFirst(rows: seq<MemorialRow>, userId: string)
    requires MemorialsOrdered(rows)
    ensures forall m :: m in NewestFirst(OwnedBy(rows, userId)) <==> m in rows && m.userId == userId
    ensures var l := NewestFirst(OwnedBy(rows, userId));
      forall i, j :: 0 <= i < j < |l| ==> l[i].createdAt > l[j].createdAt
  {
    var owned := OwnedBy(rows, userId);
    MemorialFilterValid(rows, (m: MemorialRow) => m.userId == userId);
    var l := NewestFirst(owned);
    forall m ensures m in l <==> m in owned {
      if m in l {
        var i :| 0 <= i < |l| && l[i] == m;
        assert owned[|owned| - 1 - i] == m;
      }
      if m in owned {
        var i :| 0 <= i < |owned| && owned[i] == m;
        assert l[|owned| - 1 - i] == m;
      }
    }
  }

  // ---------------------------------------------------------------------------
  // The store

  class Store {
    var memorials: seq<MemorialRow>
    var photos: seq<PhotoRow>
    var objects: set<string>
    var orders: seq<OrderRow>
    var contacts: seq<ContactRow>
    var nextId: nat
    var clock: nat
    ghost var log: seq<Call>

    ghost predicate Valid()
      reads this
    {
      TablesValid(memorials, photos, nextId, clock)
    }

    function State(): Tables
      reads this
    {
      Tables(memorials, photos, objects, orders, contacts)
    }

    constructor ()
      ensures Valid()
      ensures State() == Tables([], [], {}, [], []) && log == []
    {
      memorials, photos, objects, orders, contacts := [], [], {}, [], [];
      nextId, clock := 0, 0;
      log := [];
    }

    /** `from('memorials').select('slug').like('slug', pattern)`. */
    method SelectSlugsLike(pattern: string, fails: bool) returns (r: Option<seq<string>>)
      requires Valid()
      modifies this
      ensures Valid() && State() == old(State())
      ensures log == old(log) + [SlugLookup(pattern)]
      ensures r == if fails then None else Some(SlugsLike(memorials, pattern))
    {
      log := log + [SlugLookup(pattern)];
      r := if fails then None else Some(SlugsLike(memorials, pattern));
    }

    /** `from('memorials').select(...).eq('slug', slug).single()`. */
    method SelectBySlug(slug: string, fails: bool) returns (r: Option<MemorialRow>)
      requires Valid()
      modifies this
      ensures Valid() && State() == old(State())
      ensures log == old(log) + [SlugQuery(slug)]
      ensures r == if fails then None else Single(WithSlug(memorials, slug))
    {
      log := log + [SlugQuery(slug)];
      r := if fails then None else Single(WithSlug(memorials, slug));
    }

    /** `from('memorials').select('*').eq('id', id).eq('user_id', userId).single()`. */
    method SelectOwned(id: Id, userId: string, fails: bool) returns (r: Option<MemorialRow>)
      requires Valid()
      modifies this
      ensures Valid() && State() == old(State())
      ensures log == old(log) + [OwnedMemorialQuery(id, userId)]
      ensures r == if fails then None else Single(OwnedWithId(memorials, id, userId))
    {
      log := log + [OwnedMemorialQuery(id, userId)];
      r := if fails then None else Single(OwnedWithId(memorials, id, userId));
    }

    /** `from('memorials').select(...).eq('user_id', userId).order('created_at', desc)`. */
    method ListOwned(userId: string, fails: bool) returns (r: Option<seq<MemorialRow>>)
      requires Valid()
      modifies this
      ensures Valid() && State() == old(State())
      ensures log == old(log) + [OwnedListQuery(userId)]
      ensures r == if fails then None else Some(NewestFirst(OwnedBy(memorials, userId)))
    {
      log := log + [OwnedListQuery(userId)];
      r := if fails then None else Some(NewestFirst(OwnedBy(memorials, userId)));
    }

    /** `from('memorials').insert(row).select('id').single()`: a fresh id and
        `created_at`, appended at the end. */
    method InsertMemorial(userId: string, slug: string, content: MemorialContent, fails: bool) returns (id: Option<Id>)
      requires Valid()
      modifies this
      ensures Valid()
      ensures log == old(log) + [MemorialInsert(userId, slug)]
      ensures fails <==> id.None?
      ensures fails ==> State() == old(State())
      ensures id.Some? ==> id.value !in Ids(old(memorials))
      ensures id.Some? ==> exists createdAt :: State() == old(State()).(memorials :=
                old(memorials) + [MemorialRow(id.value, userId, slug, createdAt, content)])
    {
      log := log + [MemorialInsert(userId, slug)];
      if fails {
        id := None;
      } else {
        var row := MemorialRow(nextId, userId, slug, clock, content);
        memorials := memorials + [row];
        id := Some(nextId);
        nextId, clock := nextId + 1, clock + 1;
      }
    }

    /** `from('memorials').update(content).eq('id', id)`. */
    method UpdateMemorial(id: Id, content: MemorialContent, fails: bool) returns (ok: bool)
      requires Valid()
      modifies this
      ensures Valid()
      ensures log == old(log) + [MemorialUpdate(id)]
      ensures ok == !fails
      ensures State() == if ok then old(State()).(memorials := Updated(old(memorials), id, content)) else old(State())
    {
      log := log + [MemorialUpdate(id)];
      ok := !fails;
      if ok {
        var before := memorials;
        memorials := Updated(memorials, id, content);
        assert Ids(memorials) == Ids(before) by {
          forall m | m in before ensures m.id in Ids(memorials) {
            var i :| 0 <= i < |before| && before[i] == m;
            assert memorials[i].id == m.id;
          }
        }
      }
    }

    /** `from('memorials').delete().eq('id', id)`. The photo rows' foreign key
        has no cascade: the delete fails while a photo row still points here. */
    method DeleteMemorial(id: Id, fails: bool) returns (ok: bool)
      requires Valid()
      modifies this
      ensures Valid()
      ensures log == old(log) + [MemorialDelete(id)]
      ensures ok == (!fails && PhotosOf(old(photos), id) == [])
      ensures State() == if ok then old(State()).(memorials := WithoutMemorial(old(memorials), id)) else old(State())
    {
      log := log + [MemorialDelete(id)];
      ok := !fails && PhotosOf(photos, id) == [];
      if ok {
        MemorialFilterValid(memorials, (m: MemorialRow) => m.id != id);
        var before := memorials;
        memorials := WithoutMemorial(memorials, id);
        forall p | p in photos ensures p.memorialId in Ids(memorials) {
          assert p.memorialId != id;
          var m :| m in before && m.id == p.memorialId;
          assert m in memorials;
        }
      }
    }

    /** `from('memorial_photos').select('id, photo_url').eq('memorial_id', id)`. */
    method SelectPhotos(memorialId: Id, fails: bool) returns (r: Option<seq<PhotoRow>>)
      requires Valid()
      modifies this
      ensures Valid() && State() == old(State())
      ensures log == old(log) + [PhotoQuery(memorialId)]
      ensures r == if fails then None else Some(PhotosOf(photos, memorialId))
    {
      log := log + [PhotoQuery(memorialId)];
      r := if fails then None else Some(PhotosOf(photos, memorialId));
    }

    /** `from('memorial_photos').insert({ memorial_id, photo_url })`; the foreign
        key rejects a memorial id that has no row. */
    method InsertPhoto(memorialId: Id, url: string, fails: bool) returns (ok: bool)
      requires Valid()
      modifies this
      ensures Valid()
      ensures log == old(log) + [PhotoInsert(memorialId, url)]
      ensures ok == (!fails && memorialId in Ids(memorials))
      ensures ok ==> exists id: Id :: State() == old(State()).(photos := old(photos) + [PhotoRow(id, memorialId, url)])
      ensures !ok ==> State() == old(State())
    {
      log := log + [PhotoInsert(memorialId, url)];
      ok := !fails && memorialId in Ids(memorials);
      if ok {
        photos := photos + [PhotoRow(nextId, memorialId, url)];
        nextId := nextId + 1;
      }
    }

    /** `from('memorial_photos').delete().eq('memorial_id', memorialId)`. */
    method DeletePhotosOf(memorialId: Id, fails: bool) returns (ok: bool)
      requires Valid()
      modifies this
      ensures Valid()
      ensures log == old(log) + [PhotoDeleteByMemorial(memorialId)]
      ensures ok == !fails
      ensures State() == if ok then old(State()).(photos := PhotosNotOf(old(photos), memorialId)) else old(State())
    {
      log := log + [PhotoDeleteByMemorial(memorialId)];
      ok := !fails;
      if ok {
        PhotoFilterValid(photos, (p: PhotoRow) => p.memorialId != memorialId);
        photos := PhotosNotOf(photos, memorialId);
      }
    }

    /** `from('memorial_photos').delete().eq('id', photoId)`. */
    method DeletePhoto(photoId: Id, fails: bool) returns (ok: bool)
      requires Valid()
      modifies this
      ensures Valid()
      ensures log == old(log) + [PhotoDelete(photoId)]
      ensures ok == !fails
      ensures State() == if ok then old(State()).(photos := PhotosWithoutId(old(photos), photoId)) else old(State())
    {
      log := log + [PhotoDelete(photoId)];
      ok := !fails;
      if ok {
        PhotoFilterValid(photos, (p: PhotoRow) => p.id != photoId);
        photos := PhotosWithoutId(photos, photoId);
      }
    }

    /** `storage.from('memorial-images').upload(path, file)`. */
    method Upload(path: string, fails: bool) returns (ok: bool)
      requires Valid()
      modifies this
      ensures Valid()
      ensures log == old(log) + [ObjectUpload(path)]
      ensures ok == !fails
      ensures State() == if ok then old(State()).(objects := old(objects) + {path}) else old(State())
    {
      log := log + [ObjectUpload(path)];
      ok := !fails;
      if ok {
        objects := objects + {path};
      }
    }

    /** `storage.from('memorial-images').remove(paths)`. */
    method Remove(paths: seq<string>, fails: bool) returns (ok: bool)
      requires Valid()
      modifies this
      ensures Valid()
      ensures log == old(log) + [ObjectRemoval(paths)]
      ensures ok == !fails
      ensures State() == if ok then old(State()).(objects := old(objects) - set p | p in paths) else old(State())
    {
      log := log + [ObjectRemoval(paths)];
      ok := !fails;
      if ok {
        objects := objects - set p | p in paths;
      }
    }

    /** `from('orders').insert([order])`. */
    method InsertOrder(order: OrderRow, fails: bool) returns (ok: bool)
      requires Valid()
      modifies this
      ensures Valid()
      ensures log == old(log) + [OrderInsert]
      ensures ok == !fails
      ensures State() == if ok then old(State()).(orders := old(orders) + [order]) else old(State())
    {
      log := log + [OrderInsert];
      ok := !fails;
      if ok {
        orders := orders + [order];
      }
    }

    /** `from('contacts').insert([message])`. */
    method InsertContact(message: ContactRow, fails: bool) returns (ok: bool)
      requires Valid()
      modifies this
      ensures Valid()
      ensures log == old(log) + [ContactInsert]
      ensures ok == !fails
      ensures State() == if ok then old(State()).(contacts := old(contacts) + [message]) else old(State())
    {
      log := log + [ContactInsert];
      ok := !fails;
      if ok {
        contacts := contacts + [message];
      }
    }
  }

  // ---------------------------------------------------------------------------
  // The identity provider

  datatype AuthRequest =
    | SignUpRequest(email: string, password: string, fullName: string)
    | ProfileUpdate(fullName: string)
    | PasswordUpdate(password: string)

  datatype Registration = Registration(email: string, password: string, fullName: string)

  /** The signed-in user's profile and credentials, and the accounts signed up. */
  class Identity {
    var profileName: string
    var password: string
    var registrations: seq<Registration>
    ghost var requests: seq<AuthRequest>

    constructor (profileName: string, password: string)
      ensures this.profileName == profileName && this.password == password
      ensures registrations == [] && requests == []
    {
      this.profileName := profileName;
      this.password := password;
      registrations := [];
      requests := [];
    }

    /** `signUp(email, password, fullName)`. */
    method SignUp(email: string, password: string, fullName: string, fails: bool) returns (ok: bool)
      modifies this
      ensures requests == old(requests) + [SignUpRequest(email, password, fullName)]
      ensures ok == !fails
      ensures registrations == if ok then old(registrations) + [Registration(email, password, fullName)] else old(registrations)
      ensures profileName == old(profileName) && this.password == old(this.password)
    {
      requests := requests + [SignUpRequest(email, password, fullName)];
      ok := !fails;
      if ok {
        registrations := registrations + [Registration(email, password, fullName)];
      }
    }

    /** `updateProfile(fullName)`. */
    method UpdateProfile(fullName: string, fails: bool) returns (ok: bool)
      modifies this
      ensures requests == old(requests) + [ProfileUpdate(fullName)]
      ensures ok == !fails
      ensures profileName == if ok then fullName else old(profileName)
      ensures password == old(password) && registrations == old(registrations)
    {
      requests := requests + [ProfileUpdate(fullName)];
      ok := !fails;
      if ok {
        profileName := fullName;
      }
    }

    /** `updatePassword(newPassword)`. */
    method UpdatePassword(newPassword: string, fails: bool) returns (ok: bool)
      modifies this
      ensures requests == old(requests) + [PasswordUpdate(newPassword)]
      ensures ok == !fails
      ensures password == if ok then newPassword else old(password)
      ensures profileName == old(profileName) && registrations == old(registrations)
    {
      requests := requests + [PasswordUpdate(newPassword)];
      ok := !fails;
      if ok {
        password := newPassword;
      }
    }
  }
}
