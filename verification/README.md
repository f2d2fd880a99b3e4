# Video upload front end: upload form and query hooks

This project models the stateful logic of a small video-sharing web front end.
Users pick a video file, give it a title and upload it to a backend.
A gallery then lists every uploaded video with its title, upload date and size.
Two pieces of the front end hold real logic:

- **The upload form** (`VideoUpload.tsx`) tracks four state fields: `title`, `selectedFile`,
  `uploadProgress` and `isDragging`. The model is the class `VideoUpload.UploadForm`, with one
  method per handler: file selection, drag over, drag leave, drop, "Change File", title edits,
  progress callbacks and the upload itself. The upload button's enable condition is a function
  of the form. The default title comes from the file name with its extension stripped, as the
  regular expression `/\.[^/.]+$/` does. This is modelled as a pure function,
  `VideoUpload.StripExtension`.
- **The query hooks** (`useQueries.ts`) hold the list query and the upload mutation.
  - The list query is enabled only when an actor is present and not fetching.
  - Its fetch falls back to the empty list when there is no actor.
  - The upload mutation rejects when there is no actor.
  - Otherwise the mutation stamps the upload date in nanoseconds and makes one remote write.
  - After a successful write, it invalidates the `['videos']` cache entry.

  The class `UseQueries.QueryClient` models this state. It holds the actor state, the
  backend's list, a log of issued remote writes, and the query cache. The cache is a map from
  query keys to entries carrying the cached list and a stale flag.

The JavaScript built-ins these rely on are modelled in their own modules:
- `JsString`: `trim` with the ECMAScript white-space set, and `startsWith`.
- `JsNumber`: rounding an integer to the nearest binary64 value.

The class invariant `QueryClient.Valid` states the consistency the hooks maintain:
- the cached list is always a prefix of the backend's list, which only grows at its end;
- an entry that is not stale equals the whole list.

So an entry that has not been invalidated always equals the backend's list. Every successful
upload invalidates the entry, and a failed upload leaves the cache untouched.

Three behaviours of the code differ from what a reader of the interface might expect, and the model follows the code:
- selecting a file does not reset `uploadProgress`;
- `handleUpload` does not re-check the file's type. Selection is the only way a file gets into the form, and it refuses non-video types. The class invariant `UploadForm.HeldIsVideo` states this, and every form method keeps it;
- the list query's error path keeps the previously cached list.

## Model

| member | source | states |
|---|---|---|
| JsString.Trim | src/frontend/src/components/VideoUpload.tsx:58 | `title.trim()` is empty exactly when the title is blank (empty or only white space), and otherwise neither starts nor ends with white space |
| JsString.TrimKeepsInfix | src/frontend/src/components/VideoUpload.tsx:75 | what trim keeps is a contiguous piece of the title, and everything it drops is white space |
| JsString.TrimFixedPoints | src/frontend/src/components/VideoUpload.tsx:75 | trim leaves a title unchanged exactly when the title is empty or neither starts nor ends with white space |
| JsString.TrimIdempotent | src/frontend/src/components/VideoUpload.tsx:75 | the trimmed title sent to the mutation is unchanged by trimming again |
| JsNumber.RoundToDouble | src/frontend/src/hooks/useQueries.ts:34 | a JavaScript product of integers becomes a binary64 value: a whole multiple of the spacing (ulp) of binary64 values at the exact product, within half an ulp of it, and equal to it below 2^53. On a tie it is the even multiple, as IEEE round-half-to-even does |
| JsNumber.RoundToDoubleNearest | src/frontend/src/hooks/useQueries.ts:34 | no multiple of that spacing is closer to the exact product than the rounded value, so the rounding picks a nearest binary64 value |
| UseQueries.ListEnabled | src/frontend/src/hooks/useQueries.ts:15 | the list query runs only when an actor is present, and never while the actor is still being fetched |
| UseQueries.InvalidationTargetsListKey | src/frontend/src/hooks/useQueries.ts:38 | the `['videos']` invalidation filter selects the list query's key (line 10) and only keys that begin with `"videos"` |
| UseQueries.ListVideosFn | src/frontend/src/hooks/useQueries.ts:11-14 | no actor yields the empty list; with an actor the result is the backend's whole list verbatim when the call succeeds, and a transport failure otherwise |
| UseQueries.EnabledQueryReadsStore | src/frontend/src/hooks/useQueries.ts:11-15 | whenever the enabled predicate holds, the fetch never takes the empty-list fallback: it returns the backend list or a transport failure |
| UseQueries.UploadDateAsWritten | src/frontend/src/hooks/useQueries.ts:34 | the as-written upload date is the millisecond clock times 1,000,000, rounded to binary64: a multiple of the ulp at the exact product and off by at most half an ulp. Below 2^53 it is exact; above 2^53 it may or may not be |
| UseQueries.UploadDateAsWrittenRoundsOff | src/frontend/src/hooks/useQueries.ts:34 | for the clock value 1760000000001 the as-written date is 1760000000000999936, not the exact nanosecond value, and does not convert back to the same millisecond |
| UseQueries.UploadDateNs | src/frontend/src/hooks/useQueries.ts:34 | the upload date in nanoseconds is a whole number of milliseconds, and dividing it by 1,000,000 recovers the clock value |
| UseQueries.UploadDateNsMonotone | src/frontend/src/hooks/useQueries.ts:34 | later clock readings give strictly later upload dates |
| UseQueries.MarkStale | src/frontend/src/hooks/useQueries.ts:38 | invalidation marks every selected entry stale, keeps every other stale flag, and changes no key and no cached data |
| UseQueries.QueryClient.constructor | src/frontend/src/hooks/useQueries.ts:20-21 | a session starts with an empty cache and no writes issued |
| UseQueries.QueryClient.SetActorState | src/frontend/src/hooks/useQueries.ts:7 | a new actor state from the actor hook keeps the cache invariant |
| UseQueries.QueryClient.FreshEntryIsCurrent | src/frontend/src/hooks/useQueries.ts:9-15 | a `['videos']` entry that has not been invalidated equals exactly the backend's list. An invalidated entry is a prefix of it, given that the backend lists videos in upload order |
| UseQueries.QueryClient.FetchVideos | src/frontend/src/hooks/useQueries.ts:9-16 | a disabled query does nothing; an enabled one replaces the `['videos']` entry with the fetched list (not merged) and marks it fresh; a failed fetch keeps the previous entry |
| UseQueries.QueryClient.InvalidateQueries | src/frontend/src/hooks/useQueries.ts:38 | the cache becomes `MarkStale` of the previous cache, and the invariant is kept |
| UseQueries.QueryClient.UploadVideo | src/frontend/src/hooks/useQueries.ts:23-40 | with no actor: rejects with no remote call and nothing changed. Otherwise: exactly one remote write, carrying the given title, blob and size unchanged, with the exact nanosecond date `UploadDateNs` (the corrected date; see the Findings section). On success the backend list gains that record and `['videos']` must be refetched. On failure the backend list and the cache, stale flag included, are unchanged |
| JsString.StartsWith | src/frontend/src/components/VideoUpload.tsx:21 | a string starts with a prefix exactly when it is that prefix followed by some rest |
| VideoUpload.IsVideo | src/frontend/src/components/VideoUpload.tsx:21 | a file is accepted exactly when its content type is `video/` followed by some subtype |
| VideoUpload.ExtensionStart | src/frontend/src/components/VideoUpload.tsx:27 | finds the index where `\.[^/.]+$` matches the file name, or reports that it matches nowhere |
| VideoUpload.StripExtension | src/frontend/src/components/VideoUpload.tsx:27 | the stripped name is always a prefix of the name. It is cut at the matching dot when the pattern matches, and is the whole name when it does not |
| VideoUpload.ExtensionAtUnique | src/frontend/src/components/VideoUpload.tsx:27 | the pattern matches at one index at most, so removing the first match removes exactly the last `.ext` |
| VideoUpload.StripExtensionExamples | src/frontend/src/components/VideoUpload.tsx:27 | `dance.mp4` becomes `dance`, `a.b.c` becomes `a.b`, and `.mov` becomes the empty string. `file.` and `dir.x/file` are unchanged |
| VideoUpload.UploadReady | src/frontend/src/components/VideoUpload.tsx:58 | `handleUpload` goes on exactly when a file is selected and the title is not blank |
| VideoUpload.UploadReadyMeaning | src/frontend/src/components/VideoUpload.tsx:58 | the upload guard passes exactly when a file is selected and the title has a non-white-space character |
| VideoUpload.UploadForm.constructor | src/frontend/src/components/VideoUpload.tsx:13-16 | the form starts with an empty title, no file, progress 0 and no drag in progress |
| VideoUpload.UploadForm.EditTitle | src/frontend/src/components/VideoUpload.tsx:117 | the title becomes the typed text, and nothing else changes |
| VideoUpload.UploadForm.SelectFile | src/frontend/src/components/VideoUpload.tsx:20-29 | a non-`video/` file changes nothing. A video file replaces the selected file, so at most one file is held. The title is filled from the stripped name only when it is the empty string, so a blank or typed title is kept |
| VideoUpload.UploadForm.FileInputChange | src/frontend/src/components/VideoUpload.tsx:31-36 | an empty pick changes nothing; otherwise the first file goes through file selection |
| VideoUpload.UploadForm.DragOver | src/frontend/src/components/VideoUpload.tsx:38-41 | the drag flag is set, and nothing else changes |
| VideoUpload.UploadForm.DragLeave | src/frontend/src/components/VideoUpload.tsx:43-46 | the drag flag is cleared, and nothing else changes |
| VideoUpload.UploadForm.Drop | src/frontend/src/components/VideoUpload.tsx:48-55 | the drag flag ends false, and the first dropped file, if any, goes through file selection |
| VideoUpload.UploadForm.ChangeFile | src/frontend/src/components/VideoUpload.tsx:161-167 | the file is cleared and the title is kept |
| VideoUpload.UploadForm.ReportProgress | src/frontend/src/components/VideoUpload.tsx:68-72 | the progress shown is exactly the percentage the transfer reports |
| VideoUpload.UploadForm.UploadEnabled | src/frontend/src/components/VideoUpload.tsx:225 | the button is enabled iff a file is selected, the title is not blank and no upload is pending; an enabled button always passes the upload guard |
| VideoUpload.PickDanceScenario | src/frontend/src/components/VideoUpload.tsx:20-29 | picking `dance.mp4` into an empty form selects it and proposes the title `dance` |
| VideoUpload.UploadThenFetchScenario | src/frontend/src/components/VideoUpload.tsx:57-92 | from a ready form and an empty backend, a successful upload followed by one enabled fetch clears the form, and the fetch caches exactly the one record sent, fresh |
| VideoUpload.UploadForm.Upload | src/frontend/src/components/VideoUpload.tsx:57-92 | a failed guard changes nothing and sends nothing. Otherwise progress ends at 0. When the bytes are read and an actor is present, exactly one remote write is made; otherwise none is. The write carries the trimmed title, the file's bytes, the file's size and the exact nanosecond date. Success clears the title and file and appends the record to the backend list. It also marks the cache's `['videos']` entries stale and changes nothing else in the cache. Any failure keeps the title and file, and leaves the backend list and the cache unchanged. The form only ever holds a video file, so only a video file is ever written |

## Findings

| source | as written | input that shows it | evidently intended | confidence | as-written member | corrected member |
|---|---|---|---|---|---|---|
| src/frontend/src/hooks/useQueries.ts:34 | the clock is multiplied by 1,000,000 as a JavaScript number, so the product is rounded to binary64 before `BigInt` converts it. For present-day clocks the product exceeds 2^53 and the spacing of binary64 values there is 256 | `Date.now()` = 1760000000001 gives 1760000000000999936, which is 64 ns early and converts back to millisecond 1760000000000 | the exact product, multiplied as big integers, as the comment "Convert to nanoseconds" says | high (not executed) | UseQueries.UploadDateAsWrittenRoundsOff | UseQueries.UploadDateNs |

The rest of the model uses the corrected upload date, `UploadDateNs`.

## Left out

- Rendering, styling, toasts, the `fileInputRef` DOM resets and the megabyte display (`VideoUpload.tsx:154`): these are presentation. The display is also floating point.
- `VideoGallery.tsx`, `VideoPlayer.tsx` and `App.tsx`: presentation, locale date formatting and browser calls. They are not part of this model.
- `selectedFile.arrayBuffer()`: reduced to whether reading succeeds (the `bytesRead` parameter of `Upload`). A `File` carries its bytes in the model.
- `ExternalBlob`: its source is not part of this model. A blob is the bytes it was built from. The transfer's progress values reach the form through `ReportProgress` exactly as given. No monotonicity and no final 100 are claimed.
- UseQueries.QueryClient.UploadVideo: the record it writes carries the corrected date `UploadDateNs(clockMs)`, not the binary64-rounded `UploadDateAsWritten(clockMs)` that line 34 of `useQueries.ts` sends. For present-day clocks the two differ whenever the clock is not a multiple of 4 ms. The as-written value and its discrepancy are stated by `UploadDateAsWritten` and `UploadDateAsWrittenRoundsOff`.
- VideoUpload.UploadForm.Upload: the record it sends, `SentRecord`, carries the corrected date `UploadDateNs(clockMs)` for the same reason, not the rounded date the program sends.
- `VideoUpload.UploadForm.Upload` is one atomic step. The state between its awaits cannot be observed, including progress set to 0 before the callbacks run. The mutation's `isPending`, `isSuccess` and `isError` flags are not state: `isPending` is a parameter of `UploadEnabled`.
- React-query internals: request de-duplication, retries, refetch eagerness, and when an invalidated query refetches. Invalidation only marks entries stale, and a refetch is a separate `FetchVideos` call. Key matching for invalidation is modelled as a prefix match on array keys. The error path of a query keeps the previous entry.
- `useActor` internals: the actor state is set from outside through `SetActorState`.
- Remote calls: each succeeds or fails as a `reachable` parameter says. A failed remote write is taken to leave no record in the backend.
- Other clients: the backend list is assumed to change only through this client's uploads. Cache freshness in `QueryClient.Valid` depends on this single-writer assumption.
- Backend order: `listVideos()` is assumed to return the videos in upload order, with each new record last. `QueryClient.Valid`'s prefix clause for an invalidated entry depends on this. The clause that a non-invalidated entry equals the list does not.
- Serving stale data: react-query keeps returning an invalidated entry's old list to `useListVideos()` until its refetch completes. The model has no cache read. `MustFetch` only says that a refetch is due, not that the old list stops being shown.
- `Date.now()` is the `clockMs` parameter, a non-negative whole number. Clocks before 1970 and binary64 overflow to Infinity are not modelled; valid time values never get near it.
- JavaScript strings are UTF-16 code units. The model uses Dafny characters, so unpaired surrogates cannot occur.
