# Cherished Memories — the memorial lifecycle in Dafny

This project models the pages of a memorial website that create, list, edit,
show and delete memorials, and the smaller pages around them: keepsake orders,
sign-up, contact and account settings. Each page is a class whose fields are
the page's state and whose methods are its handlers. The backend the pages
talk to is modelled as the `Store` class. It holds the `memorials`,
`memorial_photos`, `orders` and `contacts` tables and the `memorial-images`
bucket. It also keeps a ghost log of the requests in the order the pages issue
them. The auth provider is modelled as the `Identity` class.

Every backend outcome is a parameter: a `fails` flag, the clock, the random
photo suffix. So is `new URL` (`parse`), and so are zod's URL and e-mail tests
(`isUrl`, `isEmail`). The proofs therefore cover every outcome of every
request.

Modules:

- `Common` — JavaScript string behaviour: trim, UTF-16 length, decimal
  rendering, substring search, `filter`.
- `Zod` — issues, the field-keyed error map the pages build, and the string
  checks.
- `Backend` — tables, queries (`LIKE`, `.single()`, ordering) and the `Store`
  and `Identity` classes.
- `Slug` — `slugify` and the `-{count+1}` disambiguation.
- `Assets` — storage paths, public URLs, the reverse path parse, and the
  gallery upload loop.
- `MemorialForms` — the seven-field memorial form and its schema.
- One module per page: `CreateMemorial`, `Dashboard`, `EditMemorial`,
  `MemorialView`, `Keepsake`, `SignupPage`, `ContactPage`, `SettingsPage`.

A second memorial named "Jane Doe" gets the slug `jane-doe-2`: the page
appends the number of slugs that start with the base plus one
(`Slug.SecondOfSameName`). On the keepsake page the cover is preselected only
when its URL is truthy, so an empty URL is not preselected
(`Keepsake.CustomizePage.SelectMemorial`).

## Model

| member | source | states |
|---|---|---|
| Common.Trim | src/pages/Signup.tsx:12 | the result has no whitespace at either end, and it is empty exactly when the input is all whitespace |
| Common.TrimIdempotent | src/pages/Settings.tsx:19-21 | trimming twice gives the same result as trimming once |
| Common.JsLength | src/pages/Settings.tsx:32 | `.length` counts UTF-16 code units: between the number of characters and twice it, and zero only for the empty string |
| Common.NullIfEmptyRoundTrip | src/pages/EditMemorial.tsx:63-64 | `x \|\| null` followed by `x \|\| ''` gives the text back; the reverse trip gives the value back unless that value is `""` |
| Common.DecimalRoundTrip | src/pages/CreateMemorial.tsx:67 | the decimal rendering of a count reads back as the same number |
| Common.Filter | src/pages/EditMemorial.tsx:85 | `filter` keeps exactly the elements the predicate accepts and never grows the list |
| Common.FilterKeepsOrder | src/pages/EditMemorial.tsx:85 | `filter` keeps the relative order of the kept elements |
| Common.QueryGet | src/pages/MemorialPage.tsx:26 | `searchParams.get` returns the value of the first pair with that key, and None exactly when no pair has the key |
| Zod.ErrorMapKeys | src/pages/CreateMemorial.tsx:47-48 | the error map has an entry for a field exactly when some issue is filed under it |
| Zod.ErrorMapLastWins | src/pages/Signup.tsx:31-34 | a field's entry holds the message of the last issue filed under it |
| Zod.CollectFieldErrors | src/pages/Contact.tsx:28-31 | the `forEach` loop builds exactly the error map of the issue list |
| Zod.MinIssue | src/pages/Signup.tsx:14 | `.min(n, message)` reports an issue exactly when the value is shorter than `n`, and then one issue with that message |
| Zod.MaxIssue | src/pages/Contact.tsx:11 | `.max(n)` reports an issue exactly when the value is longer than `n`, with zod's default message |
| Zod.EmailIssue | src/pages/Contact.tsx:12 | `.email(message)` reports an issue exactly when the value is not an address |
| Zod.ErrorMapFieldsOfConcat | src/pages/Contact.tsx:26-32 | across fields that report under their own keys, a key is in the map exactly when its field has issues |
| Zod.FlattenEmpty | src/pages/Signup.tsx:29-30 | the parse succeeds, that is the issue list is empty, exactly when no field has an issue |
| Backend.Single | src/pages/MemorialPage.tsx:46-51 | `.single()` yields a row exactly when one row matched, and then that row |
| Backend.SlugsLike | src/pages/CreateMemorial.tsx:62-65 | the `LIKE` lookup returns at most one slug per row |
| Backend.Updated | src/pages/EditMemorial.tsx:104-113 | the update by id replaces the content of the rows with that id and leaves every other row as it was |
| Backend.OwnedLookup | src/pages/EditMemorial.tsx:49-55 | the lookup by id and owner finds a row exactly when a row with that id belongs to that user, and then it is that row |
| Backend.ListingNewestFirst | src/pages/Dashboard.tsx:37-42 | the listing holds exactly the user's memorials, in strictly decreasing `created_at` order |
| Backend.Store.SelectSlugsLike | src/pages/CreateMemorial.tsx:62-65 | one lookup request; nothing stored changes; the result is the matching slugs, or None on failure |
| Backend.Store.SelectBySlug | src/pages/MemorialPage.tsx:46-50 | one query; nothing stored changes; the result is the only row with the slug, or None |
| Backend.Store.SelectOwned | src/pages/EditMemorial.tsx:49-54 | one query; nothing stored changes; the result is the only row with that id and owner, or None |
| Backend.Store.ListOwned | src/pages/Dashboard.tsx:37-41 | one query; nothing stored changes; the result is the user's rows newest first, or None |
| Backend.Store.InsertMemorial | src/pages/CreateMemorial.tsx:81-96 | on success, one row with a fresh id is appended with the given owner, slug and content; on failure nothing changes |
| Backend.Store.UpdateMemorial | src/pages/EditMemorial.tsx:104-113 | on success, the rows with that id get the new content; nothing else changes |
| Backend.Store.DeleteMemorial | src/pages/Dashboard.tsx:78 | the delete succeeds exactly when the request does not fail and no photo row still points at the memorial (the foreign key); it then removes the rows with that id |
| Backend.Store.SelectPhotos | src/pages/Dashboard.tsx:54-57 | one query; nothing stored changes; the result is the memorial's photo rows in order, or None |
| Backend.Store.InsertPhoto | src/pages/CreateMemorial.tsx:110 | a row is appended only when the insert succeeds and the memorial exists |
| Backend.Store.DeletePhotosOf | src/pages/Dashboard.tsx:77 | on success, exactly the photo rows of that memorial are removed |
| Backend.Store.DeletePhoto | src/pages/EditMemorial.tsx:84 | on success, exactly the photo row with that id is removed |
| Backend.Store.Upload | src/pages/CreateMemorial.tsx:72 | on success, the path is added to the bucket |
| Backend.Store.Remove | src/pages/Dashboard.tsx:64 | on success, the paths are removed from the bucket; the bucket never grows |
| Backend.Store.InsertOrder | src/pages/CustomizeProduct.tsx:106-121 | on success, the order is appended; on failure nothing changes |
| Backend.Store.InsertContact | src/pages/Contact.tsx:37 | on success, the message is appended; on failure nothing changes |
| Backend.Identity.SignUp | src/pages/Signup.tsx:40 | one sign-up request; on success the account is registered with the given address, password and name |
| Backend.Identity.UpdateProfile | src/pages/Settings.tsx:21 | one request; on success the profile name becomes the given name |
| Backend.Identity.UpdatePassword | src/pages/Settings.tsx:37 | one request; on success the password becomes the given one |
| Slug.Slugify | src/pages/CreateMemorial.tsx:22-23 | the result is always a slug (only `[a-z0-9-]`, no hyphen at either end, no two hyphens in a row) and is empty exactly when the lower-cased name has no ASCII letter or digit |
| Slug.SlugifyEmptyIff | src/pages/CreateMemorial.tsx:22-23 | the slug is empty exactly when no character of the name lower-cases to a letter or digit |
| Slug.SlugifyBangs | src/pages/CreateMemorial.tsx:22-23 | `"!!!"` gives the empty slug |
| Slug.SlugifyIdempotent | src/pages/CreateMemorial.tsx:22-23 | slugifying a slug changes nothing |
| Slug.TwoWordSlug | src/pages/CreateMemorial.tsx:22-23 | two words separated by a space become their lower-cased forms joined by one hyphen |
| Slug.LikePrefix | src/pages/CreateMemorial.tsx:65 | `LIKE base%` matches exactly the strings that start with `base` when `base` holds no wildcard |
| Slug.LookupIsPrefixTest | src/pages/CreateMemorial.tsx:62-65 | for a slug base, the lookup returns exactly the slugs that start with it |
| Slug.Disambiguate | src/pages/CreateMemorial.tsx:66-68 | a missing or empty lookup result keeps the base; otherwise `-{count+1}` is appended |
| Slug.FreshBaseIsKept | src/pages/CreateMemorial.tsx:61-68 | when no slug starts with the base, the base is used and no existing row has it |
| Slug.CollisionAppendsCount | src/pages/CreateMemorial.tsx:66-68 | otherwise the suffix is one more than the number of slugs that start with the base, longer unrelated names included |
| Slug.FailedLookupKeepsBase | src/pages/CreateMemorial.tsx:62-68 | a failed lookup leaves the base, whether or not it is taken |
| Slug.SecondOfSameName | src/pages/CreateMemorial.tsx:61-68 | a second memorial of the same name gets `-2` |
| Slug.AllocationCanCollide | src/pages/CreateMemorial.tsx:61-68 | when the only existing slug is `base-2`, the new memorial gets `base-2` again: the allocation does not guarantee uniqueness |
| Slug.EmptyBaseCountsEveryMemorial | src/pages/CreateMemorial.tsx:61-68 | a name without letters or digits gets `-{N+1}` for a table of N memorials, which is not a slug |
| Slug.AllocatedSlugIsSlug | src/pages/CreateMemorial.tsx:61-68 | from a non-empty base, the allocated slug is a slug |
| Assets.Extension | src/pages/CreateMemorial.tsx:71 | `split('.').pop()` is the text after the last dot, without a dot, or the whole name when there is no dot |
| Assets.ExtensionWithoutDot | src/pages/CreateMemorial.tsx:71 | a name without a dot is its own extension |
| Assets.CoverIsNotPhoto | src/pages/CreateMemorial.tsx:71-106 | a cover path (line 71) and a photo path (line 106) never coincide |
| Assets.CoverPathTimestamps | src/pages/EditMemorial.tsx:96 | two covers of one memorial uploaded at different times get different paths |
| Assets.SecondPiece | src/pages/Dashboard.tsx:62 | `split(marker)[1]` is undefined exactly when the pathname lacks the marker |
| Assets.ObjectPath | src/pages/Dashboard.tsx:60-63 | a kept path is non-empty and holds no marker; none is kept when the piece is missing or empty |
| Assets.PieceFollowsFirstMarker | src/pages/Dashboard.tsx:62 | the piece is the text right after the first marker and runs either to the end of the pathname or to the next marker |
| Assets.ObjectPathRoundTrip | src/pages/EditMemorial.tsx:81 | a marker-free path placed after the first marker of a pathname is recovered exactly |
| Assets.ObjectPathOfBucketUrl | src/pages/Dashboard.tsx:72 | the pathname of a public URL gives its object path back |
| Assets.ObjectPathWithoutMarker | src/pages/Dashboard.tsx:62-63 | a pathname without the marker yields no path |
| Assets.ObjectPathEmptyRemainder | src/pages/EditMemorial.tsx:81-82 | a pathname that ends in the marker yields no path |
| Assets.ObjectPathSecondMarker | src/pages/Dashboard.tsx:62 | a second marker cuts the path short |
| Assets.OverlappingPrefixBreaksRoundTrip | src/pages/Dashboard.tsx:62 | a prefix that overlaps the marker makes the recovered path longer than the stored one |
| Assets.BuiltPathsAreRecoverable | src/pages/CreateMemorial.tsx:71-106 | cover paths (line 71) and photo paths (line 106) built from slash-free parts come back from their public URLs |
| Assets.PhotoObjectPaths | src/pages/Dashboard.tsx:60-63 | the derived path list is no longer than the row list |
| Assets.PhotoObjectPathsThrows | src/pages/Dashboard.tsx:60-61 | the derivation throws exactly when some photo URL does not parse |
| Assets.PhotoObjectPathsSound | src/pages/Dashboard.tsx:60-63 | every derived path is the non-empty piece of some row's URL |
| Assets.PhotoObjectPathsComplete | src/pages/Dashboard.tsx:60-63 | when the derivation does not throw, the non-empty piece of every row's URL is among the derived paths |
| Assets.PhotoObjectPathsOfPublicUrls | src/pages/Dashboard.tsx:60-63 | the URLs of uploaded objects give back exactly their paths, in order |
| Assets.GalleryPaths | src/pages/CreateMemorial.tsx:106 | one photo path per selected file |
| Assets.UploadedMembers | src/pages/CreateMemorial.tsx:105-112 | the loop uploads exactly the paths of the files whose upload succeeded |
| Assets.AddedUrlsHaveObjects | src/pages/EditMemorial.tsx:116-123 | every photo row the loop adds has its object in the bucket, and no row is added when the memorial row is missing |
| Assets.UploadGallery | src/pages/CreateMemorial.tsx:105-112 | the loop adds the uploaded objects, appends one row per file whose upload and insert both succeed, in file order, and changes nothing else |
| Assets.GalleryStep | src/pages/EditMemorial.tsx:116-123 | one more file adds exactly its own upload, row and requests |
| MemorialForms.Set | src/pages/CreateMemorial.tsx:38 | `update(field, value)` sets that field and keeps every other field |
| MemorialForms.SetOwnValue | src/pages/EditMemorial.tsx:77 | setting a field to its own value changes nothing |
| MemorialForms.UrlIssue | src/pages/CreateMemorial.tsx:18 | the video link is accepted when it is empty or a URL; otherwise the issue says "Invalid url" |
| MemorialForms.MemorialSchemaAccepts | src/pages/CreateMemorial.tsx:12-20 | the schema passes exactly when every field meets its own rule; the data then holds the trimmed name, location and biography and the rest as typed |
| MemorialForms.MemorialErrorKeys | src/pages/CreateMemorial.tsx:45-49 | the error map has an entry for a field exactly when that field breaks its rule |
| MemorialForms.MemorialErrorKeysAreFields | src/pages/CreateMemorial.tsx:45-49 | no key outside the schema appears in the error map |
| MemorialForms.CreatedContent | src/pages/CreateMemorial.tsx:84-93 | empty video and tribute become null, and the cover is the uploaded cover's URL |
| MemorialForms.UnchangedFormPreservesContent | src/pages/EditMemorial.tsx:57-65 | loading a row into the form and saving it unchanged restores the row, unless the row stored an empty video link or tribute |
| MemorialForms.CreatedContentSurvivesEdit | src/pages/EditMemorial.tsx:104-113 | a memorial as the create page stores it survives an unchanged edit |
| CreateMemorial.AllocateSlugIn | src/pages/CreateMemorial.tsx:61-68 | one lookup request, nothing stored changes, and the slug is the allocation rule applied to the table |
| CreateMemorial.InsertWithCover | src/pages/CreateMemorial.tsx:70-102 | a failed cover upload changes nothing; a failed insert leaves only the cover object; otherwise one new row plus the cover object |
| CreateMemorial.GalleryCompletesPublish | src/pages/CreateMemorial.tsx:80-112 | the insert followed by the gallery loop is one publication |
| CreateMemorial.Publish | src/pages/CreateMemorial.tsx:70-112 | the publication: nothing on a failed cover upload, an orphaned cover on a failed insert, otherwise the row, the cover and the gallery, with the requests in order |
| CreateMemorial.Create | src/pages/CreateMemorial.tsx:60-112 | the slug lookup, then the publication under the allocated slug with the cover's public URL in the content, as `Submitted` states it |
| CreateMemorial.CreateMemorialPage.PublishForm | src/pages/CreateMemorial.tsx:58-114 | with the loading flag raised meanwhile, the typed name, parsed data, cover and files lead to `Submitted`; the form, files and error map are kept and loading ends false |
| CreateMemorial.CreateMemorialPage.Update | src/pages/CreateMemorial.tsx:38 | only the form changes, by `Set` |
| CreateMemorial.CreateMemorialPage.HandleSubmit | src/pages/CreateMemorial.tsx:40-117 | nothing is requested without a user, with a failing schema (which fills the error map) or without a cover (the cover error); otherwise the slug lookup and the publication under the allocated slug with the trimmed content |
| Dashboard.Find | src/pages/Dashboard.tsx:68 | `find` returns the first listed row with that id, and None only when no listed row has it |
| Dashboard.PhotoPathsOfUploads | src/pages/Dashboard.tsx:54-63 | when the rows hold public URLs of stored objects, the delete derives exactly those objects' paths, the ones a successful removal takes out of the bucket |
| Dashboard.CoverObjectOfUpload | src/pages/Dashboard.tsx:67-75 | a listed cover stored at a path is found again for removal |
| Dashboard.PhotosNotOfClears | src/pages/Dashboard.tsx:77 | after the photo delete no row points at the memorial, and other memorials keep their photos in order |
| Dashboard.RemoveObjects | src/pages/Dashboard.tsx:59-75 | only storage changes: the bucket loses the photo objects when their request succeeds and the cover object when its own request succeeds, and nothing else; the removals are issued in order |
| Dashboard.DeleteRows | src/pages/Dashboard.tsx:77-78 | the photo rows, then the memorial row; the memorial goes exactly when its delete does not fail and no photo row still points at it |
| Dashboard.DashboardPage.FetchMemorials | src/pages/Dashboard.tsx:35-44 | without a user nothing happens; otherwise the listing becomes the user's memorials newest first, kept on failure, and loading ends |
| Dashboard.RemoveAndDelete | src/pages/Dashboard.tsx:64-78 | the storage removals, then the photo-row delete and the memorial delete in that order; the bucket loses exactly the objects whose removal succeeded; the memorial goes exactly when its delete succeeds and no photo row is left for it |
| Dashboard.DashboardPage.Finish | src/pages/Dashboard.tsx:64-87 | after the removals and deletes the dialog is closed and `deleting` is false; the bucket loses exactly the objects whose removal succeeded; the listing is fetched again exactly after a successful delete |
| Dashboard.DashboardPage.HandleDelete | src/pages/Dashboard.tsx:50-88 | nothing without a pending id; a throwing photo URL stops with `deleting` still set and nothing deleted; otherwise removals that take the derived photo paths and the listed cover's object out of the bucket when their requests succeed, row deletes, a reset of the pending state, and a refresh on success |
| EditMemorial.UpdateKeepsIdentity | src/pages/EditMemorial.tsx:104-113 | the update never touches a row's id, owner, slug or creation time, and only the row with that id gets the new content |
| EditMemorial.NewCoverUrl | src/pages/EditMemorial.tsx:93-102 | the cover URL changes only when a new cover was uploaded, and then to its public URL |
| EditMemorial.SaveCover | src/pages/EditMemorial.tsx:93-102 | without a new cover nothing happens; otherwise one upload, and the URL is replaced only on success |
| EditMemorial.UpdateAndUpload | src/pages/EditMemorial.tsx:104-123 | the update by id, whose failure is ignored, then the gallery under the stored slug |
| EditMemorial.SaveComposes | src/pages/EditMemorial.tsx:93-123 | the cover upload followed by the update and the gallery is one save |
| EditMemorial.UpdatedKeepsIds | src/pages/EditMemorial.tsx:113 | the update leaves the set of memorial ids unchanged |
| EditMemorial.EditMemorialPage.Load | src/pages/EditMemorial.tsx:46-75 | nothing without an id and a user; the form is filled only from a row with that id and owner, with nulls as empty text; a failed photo query gives no photos |
| EditMemorial.EditMemorialPage.Update | src/pages/EditMemorial.tsx:77 | only the form changes, by `Set` |
| EditMemorial.EditMemorialPage.RemovePhoto | src/pages/EditMemorial.tsx:79-86 | the storage removal happens only for a parsable URL with a path, and the bucket loses exactly that object when the removal succeeds; the row delete is issued regardless; the local list loses exactly that id |
| EditMemorial.EditMemorialPage.HandleSubmit | src/pages/EditMemorial.tsx:88-128 | nothing without a memorial and a user; otherwise the cover, the update of that row with the form as typed, and the gallery under the stored slug |
| MemorialView.YouTubeEmbedUrl | src/pages/MemorialPage.tsx:22-34 | any embed address starts with the embed base, and an unparsable link has none |
| MemorialView.VideoEmbed | src/pages/MemorialPage.tsx:82 | a missing or empty video link has no embed |
| MemorialView.WatchLinkEmbeds | src/pages/MemorialPage.tsx:25-28 | a YouTube link embeds exactly when it has a non-empty `v`, and the video id can be read back from the embed address |
| MemorialView.ShortLinkEmbeds | src/pages/MemorialPage.tsx:29-31 | a `youtu.be` link embeds as the base followed by its path |
| MemorialView.OtherHostsHaveNoEmbed | src/pages/MemorialPage.tsx:33 | any other host has no embed |
| MemorialView.LookalikeHostIsAccepted | src/pages/MemorialPage.tsx:25 | the substring test also accepts a look-alike host such as `notyoutube.com` |
| MemorialView.UniqueSlugIsFound | src/pages/MemorialPage.tsx:46-51 | the page finds a row exactly when it is the only row with that slug |
| MemorialView.SharedSlugIsNotFound | src/pages/MemorialPage.tsx:50-51 | two rows with one slug make the page report not found |
| MemorialView.CollidingAllocationHidesBoth | src/pages/MemorialPage.tsx:46-51 | the slug collision of the allocation rule hides both memorials from their public page |
| MemorialView.MemorialViewPage.Load | src/pages/MemorialPage.tsx:43-62 | nothing without a slug; not found when the lookup yields no row, without a photo query; otherwise the row and its photos, or no photos on failure |
| MemorialView.MemorialViewPage.Embed | src/pages/MemorialPage.tsx:82 | an embed exists only for a memorial with a video link, and it starts with the embed base |
| Keepsake.DefaultTextParts | src/pages/CustomizeProduct.tsx:92-93 | the text opens with the heading and the name, carries a tribute line exactly when the tribute is non-empty, and the tribute can be read back from between the quotes |
| Keepsake.OrderFor | src/pages/CustomizeProduct.tsx:106-121 | quantity 1, unit price and total equal to the base price, and the photo null exactly when none is selected |
| Keepsake.OrderTotalIsConsistent | src/pages/CustomizeProduct.tsx:113-115 | the total is the quantity times the unit price |
| Keepsake.CustomizePage.SelectMemorial | src/pages/CustomizeProduct.tsx:82-96 | clearing the selection empties the photos without a request; a listed memorial sets the default text and, when its cover URL is non-empty, the selected photo |
| Keepsake.CustomizePage.HandleOrder | src/pages/CustomizeProduct.tsx:98-130 | an order is placed exactly when there is a product and a user, every shipping field is filled and the insert succeeds; otherwise nothing is requested, and `submitting` is reset after the insert |
| SignupPage.SignupSchemaAccepts | src/pages/Signup.tsx:11-16 | the form parses exactly when every rule holds; the name and address are trimmed, the password is not |
| SignupPage.SignupErrorKeys | src/pages/Signup.tsx:29-35 | the error map has an entry for a key exactly when its rule is broken |
| SignupPage.SignupErrorKeysAreFields | src/pages/Signup.tsx:29-35 | no other key appears in the error map |
| SignupPage.TermsMessage | src/pages/Signup.tsx:15 | unchecked terms are reported with "You must accept the terms" |
| SignupPage.SignupView.Submit | src/pages/Signup.tsx:29-48 | a failed parse fills the error map and sends nothing; parsed data is sent to `signUp` as parsed, an account exists afterwards exactly when the request succeeds, and the login page follows exactly then |
| SignupPage.SignupView.HandleSubmit | src/pages/Signup.tsx:26-49 | an invalid form fills the error map and sends nothing; a valid one signs up with the trimmed name and address; the login page follows exactly on success |
| ContactPage.ContactSchemaAccepts | src/pages/Contact.tsx:10-14 | the form parses exactly when every rule holds, and the record is the trimmed form |
| ContactPage.ContactErrorKeys | src/pages/Contact.tsx:26-32 | the error map has an entry for a key exactly when its rule is broken |
| ContactPage.ContactErrorKeysAreFields | src/pages/Contact.tsx:26-32 | no other key appears in the error map |
| ContactPage.StoredMessageIsNotBlank | src/pages/Contact.tsx:13 | a stored message is never blank and starts with a character that is not whitespace |
| ContactPage.ContactView.Submit | src/pages/Contact.tsx:26-45 | a failed parse fills the error map with no insert; a parsed record is inserted, counts as sent exactly when the insert succeeds, and the form is emptied exactly then |
| ContactPage.ContactView.HandleSubmit | src/pages/Contact.tsx:22-46 | an invalid form fills the error map with no insert; a valid one inserts the trimmed record, and the form is emptied exactly when the insert succeeds |
| SettingsPage.SentNameIsTrimmed | src/pages/Settings.tsx:19-21 | the name sent is non-blank, trimmed, and unchanged by trimming again |
| SettingsPage.PasswordBoundary | src/pages/Settings.tsx:32 | on plain text eight characters are accepted and seven are not |
| SettingsPage.AstralPasswordBoundary | src/pages/Settings.tsx:32 | four characters outside the Basic Multilingual Plane already reach the minimum |
| SettingsPage.PasswordIssueIffRejected | src/pages/Settings.tsx:32 | the settings page accepts exactly the passwords the sign-up schema accepts |
| SettingsPage.LongNameIsAccepted | src/pages/Settings.tsx:19 | a 101-character name, which sign-up rejects, passes the settings guard |
| SettingsPage.SettingsView.HandleNameUpdate | src/pages/Settings.tsx:17-28 | a blank name sends nothing; otherwise the trimmed name is sent and `savingName` ends false whatever the outcome |
| SettingsPage.SettingsView.HandlePasswordUpdate | src/pages/Settings.tsx:30-45 | a short password sends nothing; otherwise it is sent as typed, `savingPass` ends false, and the field is cleared exactly on success |

## Left out

- Toasts, navigation other than the sign-up page's move to the login page, spinners and rendering: they change no state the model keeps.
- The initial loads of the keepsake page (`Promise.all` over the product and the user's memorials): concurrency. The product and the memorial list are fields of the page.
- Races between sessions and between handlers: the model runs one handler at a time.
- Row-level security, the PostgREST row limit and the `created_at` clock: rows get their id and time from counters.
- Slug.ToLower / Slug.Slugify: only ASCII letters are lower-cased. JavaScript's `toLowerCase` also maps a few non-ASCII characters onto ASCII, so those names get a different slug: the Kelvin sign U+212A becomes `k` and U+0130 becomes `i` followed by U+0307, so the page slugifies them to `k` and `i` where the model gives the empty slug and then counts every memorial in the allocation (`Slug.EmptyBaseCountsEveryMemorial`).
- `new URL`, zod's URL pattern and zod's e-mail pattern: they are the parameters `parse`, `isUrl` and `isEmail`.
- `Date.now()` and `Math.random().toString(36)`: they are the timestamps and random suffixes in `PhotoAttempt` and the page environments.
- The file-input setters and `update` with a key outside the form: the model's `Field` names only the form's keys.
- The login and password-reset pages, and the remaining static pages: outside the memorial lifecycle.
- Assets.UploadGallery: it requires one environment attempt per file, which says how the environment is modelled rather than what the page demands.
- Backend.Store.InsertMemorial: the new row's `created_at` is stated only to exist; the model does not fix its value.
- Backend.Store.DeleteMemorial: the model assumes a foreign key from `memorial_photos.memorial_id` to `memorials.id` in its default no-action mode, so deleting a memorial that still has photo rows fails; the schema is not part of this model. With `ON DELETE CASCADE` that delete would succeed and remove the photo rows; with no key it would succeed and leave them orphaned, because the dashboard ignores the result of the photo-row delete. `Dashboard.DeleteRows`' promise that no photo row points at a deleted memorial rests on this assumption.
- Assets.PublicUrl: `getPublicUrl` percent-encodes the URL and `new URL(...).pathname` keeps the encoding; the model joins the strings as they are. The round trip of `Assets.PhotoObjectPathsOfPublicUrls` and `Dashboard.PhotoPathsOfUploads` (through `ParsesPublicUrls`) therefore holds only for paths whose characters need no encoding; a file name such as `photo.jpg copy` gives a path the dashboard would hand to `remove` in encoded form.
