# ig-preview: gallery endpoint and admin list logic in Dafny

ig-preview lets an owner upload photos into one feed, reorder them by
drag and drop, and hand out a link that shows the photos to anyone for
one hour. Almost everything goes through a hosted backend: a database,
an object store and sign-in. This model keeps the decisions the
application itself makes. Every backend reply is an input: the preview
lookup, the photo query, each signing outcome, the current time and the
random token.

- `Rows`: the rows of the `feeds`, `photos` and `previews` tables.
- `Gallery`: what the two signed-URL endpoints share. This is the shape
  of a backend reply (`Fetch`, `SignOutcome`, `Backend`), the response,
  the expiry rule, and the reference gallery `SignedPhotos`. The gallery
  is the photos that were signed successfully, in query order. Lemmas
  prove it is an order-preserving selection: entries keep id, caption
  and tags, and the length is the number of successes.
- `NetlifySignedUrls` and `ApiSignedUrls`: the two copies of the
  endpoint. Each is a pure function from method, token, backend and time
  to a `Response`. Each has its own map-then-filter pipeline, proved
  equal to `SignedPhotos`. The handler's contract is its full status
  table, with both directions for each status.
- `HandlerAgreement`: for a token given at most once, the two copies
  agree on status and photos except in three cases. An expired preview
  is 410 in one and 404 in the other. A photo query that returns no list
  and no error is 500 in the serverless function, whose `photos.map`
  throws, and an empty gallery in the API route, which reads
  `photos || []`. Only one copy adds `total`. A repeated token is a
  fourth divergence: the API route refuses it with 400, while the
  serverless function looks up the joined string, typically 404. This
  module also proves that the no-token, missing-preview, expired and
  query-error returns do not consult the later backend calls, and how
  long an issued link keeps resolving.
- `AdminLists`: the admin page's list logic as functions. This covers
  the move, the renumbering writes and how they land in the photos
  table, the delete filter, upload paths and rows, preview links, and
  choosing between the existing feed and a new one.
- `AdminPageState.AdminPage`: the page as a class. It holds the local
  list, the feed and the preview URL. It also holds the photos table,
  the bucket keys and the inserted previews, which the handlers write.
  The upload and reorder handlers are loops that can stop partway. The
  reorder loop makes one update per photo; the upload loop makes two
  calls per file, the storage upload and then the row insert.

Timestamps are integer milliseconds.

## Model

| member | source | states |
|---|---|---|
| `Gallery.ExpiryBoundary` | netlify/functions/signed-urls.ts:64-70 | a null expiry never expires; an expiry equal to now is still valid; expired exactly when strictly before now |
| `Gallery.KeptAt` | netlify/functions/signed-urls.ts:107-129 | every kept position lies in the query result and names a photo whose signing succeeded |
| `Gallery.SignedPhotosSelection` | netlify/functions/signed-urls.ts:89-129 | the gallery is the photos whose signing succeeded, in query order; entry k comes from an ascending position and keeps id, caption and tags with its signed URL; every success is included; length equals the number of successes |
| `Gallery.OneFailureDropsOne` | netlify/functions/signed-urls.ts:107-121 | if signing fails for exactly one of N photos, the gallery has N-1 entries and no error is raised |
| `Gallery.AllSignedKeepsAll` | netlify/functions/signed-urls.ts:89-121 | if every signing succeeds, the gallery is the query result entry for entry |
| `Gallery.GalleryFollowsOrderIndex` | netlify/functions/signed-urls.ts:72-77 | if the query result is sorted by ascending `order_index`, the gallery is too |
| `NetlifySignedUrls.SignOrBlank` | netlify/functions/signed-urls.ts:91-116 | a photo keeps id, caption and tags; its URL is non-empty exactly when the signing succeeded |
| `NetlifySignedUrls.SignAll` | netlify/functions/signed-urls.ts:89-118 | one entry per photo, in input order |
| `NetlifySignedUrls.NonEmptyUrls` | netlify/functions/signed-urls.ts:121 | keeps only entries of the input that have a non-empty URL |
| `NetlifySignedUrls.NonEmptyUrlsExact` | netlify/functions/signed-urls.ts:121 | an entry is kept exactly when it is in the input and its URL is non-empty |
| `NetlifySignedUrls.PipelineIsSignedPhotos` | netlify/functions/signed-urls.ts:89-121 | filtering the blank-on-failure map gives exactly the reference gallery |
| `NetlifySignedUrls.Handle` | netlify/functions/signed-urls.ts:11-139 | OPTIONS gives 200 with an empty body; other non-GET methods give 405; GET without a non-empty token gives 400; a lookup error or missing preview gives 404; an expired preview gives 410; success gives 200 with the signed gallery of the preview's feed and `total` equal to its length; each status is stated with both directions |
| `ApiSignedUrls.SignOrNull` | pages/api/signed-urls.ts:71-90 | null exactly when signing failed; otherwise the photo's id, caption and tags with the returned URL |
| `ApiSignedUrls.SignAll` | pages/api/signed-urls.ts:69-92 | one entry per photo, in input order |
| `ApiSignedUrls.NonNull` | pages/api/signed-urls.ts:95 | keeps only the non-null entries of the input |
| `ApiSignedUrls.NonNullExact` | pages/api/signed-urls.ts:95 | an entry is kept exactly when the input holds it as non-null |
| `ApiSignedUrls.PipelineIsSignedPhotos` | pages/api/signed-urls.ts:69-95 | filtering the null-on-failure map gives exactly the reference gallery |
| `ApiSignedUrls.Handle` | pages/api/signed-urls.ts:10-102 | OPTIONS gives 200 with an empty body; other non-GET methods give 405; a missing, empty or repeated token gives 400; a lookup error, missing preview or expired preview gives 404; a failed query gives 500; a null photo list counts as empty; success gives the signed gallery with no `total` |
| `ApiSignedUrls.RepeatedTokenRejected` | pages/api/signed-urls.ts:29-34 | a token given as an array gets 400 |
| `HandlerAgreement.AsQuery` | pages/api/signed-urls.ts:29-31 | a token passes the API route's check exactly when it passes the serverless function's |
| `HandlerAgreement.CopiesAgree` | pages/api/signed-urls.ts:44-97 | for a token given at most once, the two copies give the same status and photos, except for an expired preview (410 vs 404) and a null photo list (500 vs an empty 200); only one copy adds `total`, equal to the photo count |
| `HandlerAgreement.RepeatedTokenDiverges` | pages/api/signed-urls.ts:29-34 | a repeated token is 400 in the API route, while the serverless function looks up the joined string and gives 404 when no preview matches |
| `HandlerAgreement.MissingOrExpiredSkipsPhotos` | netlify/functions/signed-urls.ts:55-70 | a missing or expired preview ends the request (404 or 410; 404 in the API route) without consulting the photo query or signing |
| `HandlerAgreement.TokenCheckedBeforeLookup` | netlify/functions/signed-urls.ts:37-45 | without a token the response does not depend on the backend, and a GET gets 400 |
| `HandlerAgreement.QueryErrorSkipsSigning` | netlify/functions/signed-urls.ts:79-86 | a failed photo query gives 500 whatever signing would return |
| `HandlerAgreement.RejectedCallsAre500` | pages/api/signed-urls.ts:98-101 | a lookup or photo query that throws gives 500 in both copies |
| `HandlerAgreement.IssuedPreviewLifetime` | pages/admin.tsx:272-282 | a preview issued at t resolves up to and including t + 1 hour and is refused after that (410 or 404); while valid it serves its feed's gallery |
| `AdminLists.FindIndex` | pages/admin.tsx:221-222 | the first position holding the id, or -1 exactly when the id is absent |
| `AdminLists.FoundIffListed` | pages/admin.tsx:221-222 | the search finds a position exactly when the id is among the list's ids |
| `AdminLists.Move` | pages/admin.tsx:224 | `arrayMove`: take the element out and insert it at the target; the list keeps its length |
| `AdminLists.MoveShape` | pages/admin.tsx:224 | the moved element sits at the target; removing it gives the original minus its old position |
| `AdminLists.MovePermutes` | pages/admin.tsx:224 | a move keeps the same photos, as a multiset |
| `AdminLists.MoveUndo` | pages/admin.tsx:224 | moving back restores the original list |
| `AdminLists.MoveKeepsUniqueIds` | pages/admin.tsx:224 | a move keeps the ids of the list distinct |
| `AdminLists.OrderUpdates` | pages/admin.tsx:229-232 | one write per photo, in list order, each giving the photo its position |
| `AdminLists.SetOrderIndex` | pages/admin.tsx:235-238 | only the `order_index` of rows with that id changes |
| `AdminLists.ApplyUpdates` | pages/admin.tsx:234-242 | the writes issued one at a time, an error return ignored, stopping at the first throw; the table keeps its rows |
| `AdminLists.FirstThrow` | pages/admin.tsx:234-242 | the position of the first write that throws, with no throw before it |
| `AdminLists.ApplyUpdatesRow` | pages/admin.tsx:234-242 | writing in sequence keeps every row except its `order_index`, which becomes the last value written for that id before the first throw |
| `AdminLists.WrittenIndexOfDistinct` | pages/admin.tsx:234-239 | with distinct ids, a write lands exactly when it was applied and no earlier write threw |
| `AdminLists.ReorderWritesPositions` | pages/admin.tsx:228-242 | after a reorder, a photo's row holds its new position if its write landed before any throw, and otherwise its old index; rows of other photos are unchanged |
| `AdminLists.DragWritesPositions` | pages/admin.tsx:220-242 | for the writes a drag issues over a list with distinct ids, the moved list keeps distinct ids, the photo now at position i gets i if its write landed before any throw and otherwise keeps its index, and other rows are untouched |
| `AdminLists.WithoutPhotoMembers` | pages/admin.tsx:262 | the filter keeps exactly the entries whose id differs |
| `AdminLists.WithoutPhoto` | pages/admin.tsx:262 | `filter` by id: never longer than the input |
| `AdminLists.WithoutAbsentPhoto` | pages/admin.tsx:246-249 | deleting an id not in the list changes nothing |
| `AdminLists.WithoutPresentPhoto` | pages/admin.tsx:262 | deleting the photo at position i removes only that entry; the rest keep their order and their `order_index` |
| `AdminLists.ExtensionIsLastSegment` | pages/admin.tsx:185 | the extension is the text after the last '.' (dot-free, a suffix preceded by '.'), or the whole name when there is no '.' |
| `AdminLists.Extension` | pages/admin.tsx:185 | `split('.').pop()`: never longer than the name |
| `AdminLists.ExtensionAfterDot` | pages/admin.tsx:185-186 | a dot followed by dot-free text fixes the extension |
| `AdminLists.StoragePathPrefix` | pages/admin.tsx:187 | an upload path starts with `feedId/` |
| `AdminLists.StoragePathExtension` | pages/admin.tsx:185-187 | an upload path keeps the file name's extension |
| `AdminLists.FirstFailedFile` | pages/admin.tsx:184-206 | a position within the batch, and when inside it, a file whose upload or insert failed |
| `AdminLists.FirstFailedFileIsFirst` | pages/admin.tsx:184-206 | every file before the first failing one went through |
| `AdminLists.FirstFailedFileAt` | pages/admin.tsx:184-206 | up to the first failure, a file goes through exactly when the failure lies further on |
| `AdminLists.BatchRowsShape` | pages/admin.tsx:184-206 | a batch inserts one row per file up to the first failure; every row has the same `order_index`, the list length before the batch, and points at its file's path |
| `AdminLists.BatchObjectsAreRowsAndOrphan` | pages/admin.tsx:189-205 | the stored objects are the inserted rows' paths, plus the failing file's path when its upload worked but its insert did not |
| `AdminLists.ObjectsFromRest` | pages/admin.tsx:189-205 | the objects written from file i on, counted by position, are those of the rest of the batch |
| `AdminLists.PreviewExpiry` | pages/admin.tsx:273-274 | a new preview expires exactly one hour after now |
| `AdminLists.PreviewLinkParts` | pages/admin.tsx:286 | the link is origin, then `/preview/`, then the token, which can be read back |
| `AdminLists.ResolveFeed` | pages/admin.tsx:118-138 | use the existing feed; if no row matched, use the created feed; any other error gives no feed |
| `AdminPageState.AdminPage.LoadPhotos` | pages/admin.tsx:147-175 | the list becomes the query result, or stays as it was when the query fails |
| `AdminPageState.AdminPage.LoadOrCreateFeed` | pages/admin.tsx:115-145 | sets the resolved feed and loads its photos; loading ends in every case |
| `AdminPageState.AdminPage.HandleFileUpload` | pages/admin.tsx:177-215 | with no files or no feed nothing changes; otherwise the table gains the batch's rows, the bucket gains its objects, and the list is reloaded only when every file went through |
| `AdminPageState.AdminPage.UploadBatch` | pages/admin.tsx:183-204 | the table gains the rows of the files up to the first failure; the bucket gains the objects written from the first file on (their paths, plus that of a failing file whose upload went through); it reports success exactly when no file failed |
| `AdminPageState.AdminPage.UploadFile` | pages/admin.tsx:184-204 | one file: the bucket gains its object exactly when the upload succeeds, the table gains its row (the list length before the batch as `order_index`) exactly when the insert also succeeds, and the batch goes on only then |
| `AdminPageState.AdminPage.HandleDragEnd` | pages/admin.tsx:217-226 | dropping a photo on itself changes nothing; otherwise the list is the moved list, and the table has the position writes applied in order up to the first throw |
| `AdminPageState.AdminPage.WriteOrder` | pages/admin.tsx:228-242 | the table has the updates applied one at a time in list order, an update that returns an error skipped and the first one that throws ending the loop |
| `AdminPageState.AdminPage.DeletePhoto` | pages/admin.tsx:246-266 | an id not in the list changes nothing; otherwise the object and then the row are removed when applied, and the photo leaves the list unless a call threw |
| `AdminPageState.AdminPage.GeneratePreviewLink` | pages/admin.tsx:268-292 | with no feed, or when the insert fails, nothing changes; otherwise a preview expiring in one hour is recorded and the link shown |

## Left out

- AdminPageState.AdminPage.HandleDragEnd: a drop with no target (`over == null`) is excluded by its requires. The source then passes index -1 to the drag-and-drop library's `arrayMove`, which is not part of this model. Its requires also asks for one write outcome per photo.
- Backend calls (database queries, storage upload, remove and signing, sign-in and sign-out) are not implemented. Their results are inputs: `Backend`, `FileOutcome`, `WriteOutcome`, `FeedSelect`, and the reload lists.
- The database's sort by `order_index` is not modelled. The query result is an input, and `SortedByOrderIndex` is a hypothesis where order matters.
- Signing is a function of storage path and lifetime. Two photos with the same path therefore get the same outcome.
- `nanoid` randomness and token unguessability are not modelled: tokens and file names are parameters.
- ISO-8601 strings and `new Date` are replaced by integer milliseconds. `setHours(getHours() + 1)` is modelled as exactly 3 600 000 ms, so daylight-saving shifts are ignored.
- The concurrency of `Promise.all` is not modelled: it keeps input order, so it is a sequential map.
- On the serverless function, a repeated query parameter arrives as one joined string. Its query map is taken as given.
- CORS headers, error log lines, `alert`, and the `uploading` flag are left out.
- The `signedUrl` that `loadPhotos` attaches to each admin thumbnail is left out. The local list holds plain rows.
- AdminLists.ResolveFeed: it takes the created feed as the insert returned it. The insert payload's title, "Draft IG Grid", is not checked.
- The public preview page, the site's app wrapper and index page, and `signOut` are UI wiring and not part of this model.
