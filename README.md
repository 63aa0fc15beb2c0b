# zettapaper gallery logic in Dafny

zettapaper is a static wallpaper gallery. Its browser scripts hold several small
pieces of logic, each modelled here with its properties proved:

- **WebP previews** (`WebpPreview`, main.js). A gallery image in one of seven
  directories gets a preview: `prefix + "webp/" + base + ".webp"`, derived from
  `src`. Each `<img>` is switched to its preview while the original URL is kept in
  `data-original-src` and `data-download`. A one-shot `error` listener puts the
  original back.
- **Quality tiers** (`QualityPaths`, `mapQualitySource` in gallery-common.js).
  Three `(high, medium)` directory pairs are applied in order. For each pair, the
  first whole path segment that spells the source directory (case-insensitively,
  after the start of the URL or a `/`) is renamed.
- **The gallery modal download** (`GalleryModal`, gallery-common.js). `openModal`
  records the selection. `downloadImage(quality)` fetches the URL mapped to the
  tier. When that response is not OK and the mapped URL differs from the
  original, it fetches the original once more. It then
  saves under a title-derived name or shows a failure toast.
- **The home page modal** (`SimpleModal`, main.js). Clicking an image records a
  download link and a `.jpg` file name. The download button fetches the link and
  saves the body.
- **Counters** (`Counters`, main.js). `likeImage` and the counting
  `downloadImage` post to `like.php` or `download_count.php`. On any failure they
  add one to a count kept in `localStorage`. The counting download always saves
  the image afterwards.
- **Search and category filter** (`SearchFilter`, `filterImages` in main.js). It
  decides which images, section headers and the "no results" message are shown.
- **Shuffle** (`Shuffle`, `shuffleGallery` in gallery-common.js). A descending
  Fisher–Yates shuffle of the gallery's children, in place.

Supporting modules:

- `JsStrings` holds the JavaScript string built-ins these scripts use: `trim`,
  `includes`, `toLowerCase`, `split(...).pop()`, `replace(/\s+/g, "_")` and `||`
  on strings.
- `JsNumbers` holds `Number`/`String` for the stored counts.
- `Browser` holds what the scripts do to the page, as data:
  - an `Effect` is a toast, a fetch or a file save;
  - a `FetchResult` is a rejected promise, or a response with its `ok` flag and
    whether its body could be read.

Environment:

- A fetch is a function `net` from URL to `FetchResult`.
- `localStorage` and the counter labels are maps.
- `Math.random` is a sequence `picks` of chosen indices.
- The browser's resolution of a `src` attribute to the absolute `img.src` is a
  function `resolve`.
- An operation that awaits or shows toasts returns the list of effects it causes,
  in order.

Where the source changes state in place, the model is imperative:

- `PreviewImage` is a class whose attribute fields the preview pass updates.
- `FilterPage` writes one display flag per image and header into arrays.
- `ShuffleGallery` swaps cells of an array.
- `CounterPage`, `GalleryState` and `Modal` hold the scripts' variables and
  storage as fields.

Each such method is proved against a function of its inputs and old state. The
properties themselves are proved as lemmas about those functions.

The model follows the code as written, including where it behaves in ways a
reader might not expect:

- The preview of `/wall/pcnsw/x.jpg` is `/wall/webp/x.webp`. It replaces the
  quality directory, not a `webp/` directory under it.
- The pattern `^(.+\/)?([^/]+)\/([^/]+)$` needs at least one character before the
  `/` of the optional prefix. So `/pcnsw/x.jpg`, a rooted path with only two
  segments, has no preview (`RootedTwoSegmentsHaveNoPreview`).
- The home page modal saves whatever body it could read. It never looks at the
  response status.
- The gallery modal's object URL is released only on the success path; there is
  no `try`/`finally`.
- The gallery modal shows "Selected quality not found" only after the second fetch
  has answered. When that fetch rejects, the failure toast comes instead.

## Model

| member | source | states |
|---|---|---|
| WebpPreview.SplitPath | main.js:66-71 | the result is `Some(p)` exactly for the unique groups `p` with which `^(.+\/)?([^/]+)\/([^/]+)$` matches, and `None` when it does not match |
| WebpPreview.IsPreviewDir | main.js:52-60 | the seven directories of `WEBP_PREVIEW_DIRS`: `nsi` and the three high and three medium quality directories; `OtherDirectoryHasNoPreview`, `PreviewInSiblingDirectory` and `NoPreviewOfPreview` state its role |
| WebpPreview.DropExtension | main.js:74 | the name changes exactly when it has a `.` and does not end with one; then the result is the part before the last `.` |
| WebpPreview.BuildWebpPreviewSrc | main.js:62-78 | null for an empty `src` and when the path without its `?`/`#` part does not match; otherwise `prefix + "webp/" + base + ".webp"` when the directory is a preview directory and the base name is not empty, and null when it is not |
| WebpPreview.QueryIgnored | main.js:65 | anything from the first `?` or `#` on does not change the preview |
| WebpPreview.NoPreviewOfPreview | main.js:62-78 | a preview URL has no preview of its own |
| WebpPreview.PreviewParts | main.js:65-77 | a derived preview is always built from a match of the path with a non-empty prefix of the file name as base |
| WebpPreview.PreviewInSiblingDirectory | main.js:69-77 | `prefix + dir + "/" + name + "." + ext`, with `dir` a preview directory, maps to `prefix + "webp/" + name + ".webp"` |
| WebpPreview.OtherDirectoryHasNoPreview | main.js:72 | an image outside the seven preview directories gets no preview |
| WebpPreview.BareExtensionHasNoPreview | main.js:74-75 | a file name that is only an extension, like `.jpg`, gets no preview |
| WebpPreview.RootedTwoSegmentsHaveNoPreview | main.js:66 | `"/" + dir + "/" + file` does not match the pattern, so it gets no preview |
| WebpPreview.MatchesPath | main.js:66 | the conditions under which `^(.+\/)?([^/]+)\/([^/]+)$` matches a path with given groups; `SplitPath` is proved to return exactly the groups it accepts |
| WebpPreview.WithHints | main.js:83-89 | the loading hints of one image: `decoding` "async" when unset, `fetchpriority` "low" for a lazy image when unset; `SetLoadingHints` is proved to produce it |
| WebpPreview.ShowingPreview | main.js:100-113 | the switch itself: the original recorded in whichever of `data-original-src` and `data-download` is empty, one more one-shot error listener, and `src` set to the preview; `PreviewRecordsOriginal` states it and `PreviewImage.ShowPreview` is proved to produce it |
| WebpPreview.ApplyPreview | main.js:82-114 | one image's pass: the hints, then, unless the image opts out or has no preview, the switch to the preview; `SkippedKeepsSource`, `PreviewRecordsOriginal` and `ApplyPreviewIdempotent` state its effect |
| WebpPreview.LoadError | main.js:104-111 | the `error` event: a pending one-shot listener runs and is removed, putting back a non-empty `data-original-src`; `ErrorRestoresOriginal` states its effect after the pass |
| WebpPreview.SkippedKeepsSource | main.js:92-98 | an opted-out image, or one with no preview, keeps `src`, `data-original-src`, `data-download` and its listeners |
| WebpPreview.PreviewRecordsOriginal | main.js:96-113 | otherwise `src` becomes the preview; the resolved original fills `data-original-src` and `data-download` only where they are empty; one error listener is added |
| WebpPreview.ApplyPreviewIdempotent | main.js:80-115 | running the preview pass a second time changes nothing |
| WebpPreview.ErrorRestoresOriginal | main.js:100-111 | a load error after the switch shows `data-original-src` as it was before the pass when it was set, else the resolved original `img.src`, and only when both are empty the preview stays; the listener is removed, so a second error changes nothing |
| WebpPreview.PreviewImage.SetLoadingHints | main.js:83-89 | sets `decoding` "async" where unset, and `fetchpriority` "low" on a lazy image where unset, leaving the rest |
| WebpPreview.PreviewImage.ShowPreview | main.js:100-113 | records the original where empty, adds the one-shot listener and shows the preview |
| WebpPreview.PreviewImage.ApplyWebpPreview | main.js:82-114 | the image's new attributes are the one-image pass applied to its old ones |
| WebpPreview.PreviewImage.FireLoadError | main.js:104-111 | a pending listener runs once and is removed, restoring `data-original-src` when set |
| WebpPreview.ApplyWebpPreviews | main.js:80-115 | each of the distinct images ends in its own one-image pass |
| QualityPaths.SearchFrom | gallery-common.js:31 | the leftmost case-insensitive match of `name/` at the start of the string or after a `/`, at or after a position, or none in the rest of the string |
| QualityPaths.ReplaceFirst | gallery-common.js:30-38 | one case-insensitive `replace` of `name/` at the start or after a `/` by `repl/`: the match `SearchFrom` finds is spliced, anchor kept; `ReplaceAbsent` and `ReplaceLeftmost` state what it does |
| QualityPaths.MapPairs | gallery-common.js:28-40 | the `forEach` over the pairs, each replacing the first match of the directory `quality` renames; `MapQualitySource`, `SegmentOfName`, `RoundTrip` and `NoMatchUnchanged` state what it does |
| QualityPaths.From | gallery-common.js:29-38 | the directory a pair renames: the high one for "medium", the medium one for any other tier; `SegmentOfName` states the result |
| QualityPaths.To | gallery-common.js:29-38 | the name a pair renames it to: the medium one for "medium", the high one otherwise; `SegmentOfName` and `RoundTrip` state the result |
| QualityPaths.ReplaceAbsent | gallery-common.js:30-38 | with no whole-segment match the replace returns the string unchanged |
| QualityPaths.ReplaceLeftmost | gallery-common.js:30-38 | the replace renames exactly the leftmost whole-segment match and keeps the anchor and the rest |
| QualityPaths.MapQualitySource | gallery-common.js:20-43 | the loop's result is the three pairs applied in order |
| QualityPaths.MapOnOneSegment | gallery-common.js:28-40 | when no other segment names a quality directory, the mapping acts only on the one middle segment |
| QualityPaths.SegmentOfName | gallery-common.js:22-39 | "medium" turns each high directory into its medium one, and "high" turns it back |
| QualityPaths.RoundTrip | gallery-common.js:20-43 | for a URL whose only quality segment is a high directory, mapping to "medium" renames it, and mapping back to "high" gives the original URL |
| QualityPaths.NoMatchUnchanged | gallery-common.js:21-42 | a URL with no anchored segment for the requested tier is returned unchanged |
| QualityPaths.ContainingSegmentUntouched | gallery-common.js:31-36 | segments that merely contain a directory name, like `xpcnsw` or `pcnswmedx`, are not rewritten |
| QualityPaths.AnySegmentNotNamedUntouched | gallery-common.js:28-40 | any segment that does not spell, in any case, a directory the requested tier renames is left as it is, when no other segment names a directory |
| QualityPaths.UpperCaseLosesCase | gallery-common.js:30-38 | the match is case-insensitive but the replacement is lower-case, so `PCNSW` maps to `pcnswmed` and back to `pcnsw`, not to itself |
| QualityPaths.CaseEqLower | gallery-common.js:31 | on lower-case text, the case-insensitive comparison is plain equality |
| GalleryModal.SelectionPrecedence | gallery-common.js:62-64 | the source is `data-original-src`, else `data-download`, else `src`; the title is `data-title`, else alt, else "Wallpaper" |
| GalleryModal.SelectionTitle | gallery-common.js:64 | the recorded title is never empty |
| GalleryModal.SelectionSource | gallery-common.js:62 | the URL recorded on opening: `data-original-src`, else `data-download`, else `src`; `SelectionPrecedence` states the order |
| GalleryModal.SavedName | gallery-common.js:107 | the saved file name: the title with each white-space run turned into `_`, then `_<tier>.jpg`; `SavedNameShape` states its shape |
| GalleryModal.TierSuffix | gallery-common.js:107 | the `_<tier>.jpg` ending of the saved name; `SavedNameShape` states that the name ends with it and that it has no white space |
| GalleryModal.Mapped | gallery-common.js:86-87 | the URL first fetched: the selection mapped to the tier; `FetchPlan` states that it is fetched first |
| GalleryModal.NeedsFallback | gallery-common.js:92 | the fallback test `!response.ok && sourceToDownload !== currentImageSrc`, a rejected fetch never passing it; `FetchPlan` states that the original is fetched exactly then |
| GalleryModal.AfterFallback | gallery-common.js:93-117 | after the second fetch: the failure toast when it rejects, else the "Selected quality not found" toast and the end of the download for the original; `FallbackTrace` and `ToastOrder` state it |
| GalleryModal.Finish | gallery-common.js:98-116 | after the last response: a save of the URL that answered and the done toast when it is OK and its body is read, the failure toast otherwise; `SaveIffSuccess` and `ToastOrder` state it |
| GalleryModal.DoneToast | gallery-common.js:113-116 | the last toast: "Download complete (<tier>)." on success, the failure toast otherwise; `ToastOrder` states that it comes last |
| GalleryModal.AfterFirst | gallery-common.js:91-117 | after the first fetch: the failure toast on rejection, the fallback fetch of the original and its toast after a response that is not OK for a different URL, else the end of the download; `FetchPlan`, `SaveIffSuccess`, `ToastOrder` and `FallbackTrace` state it |
| GalleryModal.Tier | gallery-common.js:86 | the tier is "medium" exactly when the argument is "medium", and "high" otherwise |
| GalleryModal.SavedNameShape | gallery-common.js:107 | the saved name has no white space and ends in `_<tier>.jpg`; a title without white space is kept as it is |
| GalleryModal.DownloadTrace | gallery-common.js:81-118 | a download without a selection causes nothing, and one with a selection always causes something |
| GalleryModal.FetchPlan | gallery-common.js:91-96 | the mapped URL is fetched; the original is fetched at most once more, exactly after a response that is not OK for a mapped URL that differs from it |
| GalleryModal.SaveIffSuccess | gallery-common.js:91-112 | exactly one save on success, of the URL that decided it, under the title-derived name; none otherwise |
| GalleryModal.ToastOrder | gallery-common.js:88-116 | toasts: "Starting <tier> quality download...", then "Selected quality not found..." when the second fetch answered, then "Download complete (<tier>)." on success or the failure toast |
| GalleryModal.FallbackTrace | gallery-common.js:91-113 | the whole effect sequence when the mapped file is missing and the original downloads |
| GalleryModal.GalleryState.constructor | gallery-common.js:4-5 | no selection, title "Wallpaper" |
| GalleryModal.GalleryState.OpenModal | gallery-common.js:55-72 | records the selection by precedence when the modal exists, and changes nothing otherwise |
| GalleryModal.GalleryState.DownloadImage | gallery-common.js:81-88 | the effects are the download trace of the current selection and title |
| GalleryModal.AwaitFirst | gallery-common.js:90-96 | the effects after the first fetch, including the fallback fetch and its toast |
| GalleryModal.AwaitBody | gallery-common.js:98-116 | a response that is not OK, or an unreadable body, ends in the failure toast; otherwise the file is saved and the done toast follows |
| SimpleModal.FileNameIsJpg | main.js:234 | the file name has no white space and ends in `.jpg`; a plain title stays as it is |
| SimpleModal.DownloadLink | main.js:233 | the recorded link: `data-download`, else `src`; `HandlersKeepConsistent` and `DownloadOutcome` state how it is used |
| SimpleModal.FileName | main.js:234 | the recorded name: `data-title`, else alt, else "wallpaper", runs of white space replaced by `_`, then `.jpg`; `FileNameIsJpg` states its shape |
| SimpleModal.IsJpgName | main.js:234 | the shape every recorded name has: longer than `.jpg`, ending in it, with no white space; `FileNameIsJpg` and `HandlersKeepConsistent` state that names keep it |
| SimpleModal.Clicked | main.js:225-235 | the state after a click on an image: modal shown, the preview, title and description displayed, link and name recorded; `HandlersKeepConsistent` states that it keeps the name consistent |
| SimpleModal.Closed | main.js:240-243 | the close button: the modal hidden and `modal-open` removed, the rest kept; `CloseKeepsSelection` states it and `Modal.Close` is proved to produce it |
| SimpleModal.WindowClick | main.js:247-252 | a window click closes only when its target is the backdrop; `Modal.OnWindowClick` is proved to produce it |
| SimpleModal.KeyDown | main.js:255-260 | Escape closes a shown modal and every other key changes nothing; `EscapeClosesShown` states it and `Modal.OnKeyDown` is proved to produce it |
| SimpleModal.DownloadTrace | main.js:264-288 | the effects of the download button for a recorded link and name; `DownloadOutcome` and `NothingBeforeClick` state them |
| SimpleModal.AfterFetch | main.js:268-286 | after the fetch: the failure toast on rejection or an unreadable body, else a save of the link under the recorded name (default "download.jpg") and "Download complete!"; `DownloadOutcome` states it |
| SimpleModal.HandlersKeepConsistent | main.js:218-260 | every handler keeps "a recorded link has a `.jpg` name" |
| SimpleModal.CloseKeepsSelection | main.js:240-252 | closing hides the modal, keeps the recorded link and name, and is idempotent |
| SimpleModal.EscapeClosesShown | main.js:255-260 | Escape closes a shown modal, and any other key, or a hidden modal, changes nothing |
| SimpleModal.DownloadOutcome | main.js:264-288 | one fetch of the link when there is one; a save exactly when the body was read, whatever the status; "Downloading..." then "Download complete!" or the failure toast |
| SimpleModal.NothingBeforeClick | main.js:265 | before any image was clicked, the button does nothing |
| SimpleModal.Modal.constructor | main.js:218-219 | the page starts with no link and no name |
| SimpleModal.Modal.OnImageClick | main.js:225-235 | the modal state after a click on an image |
| SimpleModal.Modal.Close | main.js:240-243 | the close button hides the modal |
| SimpleModal.Modal.OnWindowClick | main.js:247-252 | a click on the backdrop hides the modal, and any other click changes nothing |
| SimpleModal.Modal.OnKeyDown | main.js:255-260 | Escape on a shown modal hides it |
| SimpleModal.Modal.OnDownloadClick | main.js:264-287 | the effects are the download trace of the recorded link and name |
| Counters.RemoteCount | main.js:342-352 | the remote count is used exactly for an OK response whose JSON is truthy, has no truthy `error` and defines the count |
| Counters.LikeKey | main.js:335 | the like count's storage key `local_like_count:<name>`; `KeysDistinct` states that keys never clash |
| Counters.DownloadKey | main.js:363 | the download count's storage key `local_download_count:<name>`; `KeysDistinct` states that keys never clash |
| Counters.Show | main.js:348-385 | `counterEl.innerText = ...`, changing the label only when the element exists; `RemoteSuccess` and `FallbackIncrements` state what is shown |
| Counters.StoredCount | main.js:355 | the count read from storage with a default of 0: 0 for an absent or empty entry, else the stored value read as a number; `NaNIsSticky` and `FailuresCount` state its effect |
| Counters.Bumped | main.js:355-356 | the `catch` branch's storage: the stored count plus one written back with `String`, no other key touched; `FallbackIncrements` states it |
| Counters.Counted | main.js:342-358 | the outcome of one reply: the remote count in the label on success, else the bumped storage and its value in the label; `RemoteSuccess` and `FallbackIncrements` state both cases |
| Counters.RemoteSuccess | main.js:346-350 | on success, storage is untouched and the label shows the remote count |
| Counters.FallbackIncrements | main.js:353-358 | on any failure, the stored count becomes old + 1 (absent or empty counts as 0) and reads back as that number; no other key changes; the label shows it |
| Counters.NaNIsSticky | main.js:355-356 | a stored value that is not a number stays "NaN" |
| Counters.FailuresCount | main.js:353-358 | starting from no entry, `n` failures leave the count `n`, stored as its decimal digits |
| Counters.KeysDistinct | main.js:335 | like and download keys never clash, and distinct images have distinct keys |
| Counters.SaveOf | main.js:387-395 | the save links `imageName` under its last `/`-segment: a suffix of the name that contains no `/`, is preceded by a `/` when shorter than the name, and is the whole name when it has no `/` |
| Counters.CounterPage.Settle | main.js:342-358 | the new storage and labels are the outcome of the reply |
| Counters.CounterPage.LikeImage | main.js:333-359 | posts to `like.php` and settles the like count |
| Counters.CounterPage.DownloadImage | main.js:361-396 | posts to `download_count.php`, settles the download count, and then always saves the image |
| JsNumbers.NumberOfString | main.js:355-356 | `Number(String(x)) == x` for every stored count, NaN included |
| JsNumbers.DigitsOfNat | main.js:356 | the decimal digits written for `n` denote `n` |
| JsNumbers.ToNumber | main.js:355 | `Number` on a stored count: a string of decimal digits is its value, anything else NaN; `NumberOfString` states that it reads back what `NumToString` wrote |
| JsNumbers.NumToString | main.js:356 | `String` of a count: its decimal digits, or "NaN"; `DigitsOfNat` states that the digits denote it |
| JsNumbers.Increment | main.js:355 | `+ 1` on a number, NaN staying NaN; `NaNIsSticky` and `FailuresCount` state its effect on the stored count |
| JsStrings.ReplaceWhiteSpaceRuns | gallery-common.js:107 | the result has no white space, is unchanged when there was none, is no longer than the input, and is empty only for empty input |
| JsStrings.ReplaceRunSplits | gallery-common.js:107 | each maximal run of white space becomes exactly one `_`: at a run with no white space on either side, the result is the replacement before it, one `_`, and the replacement after it |
| JsStrings.ReplaceLeadingRun | main.js:234 | a leading run of white space, however long, becomes a single `_` |
| JsStrings.ReplaceConcat | main.js:234 | text that does not end in white space is replaced independently of what follows it |
| JsStrings.Trim | main.js:416 | the result is a window of the input with only white space around it, and does not start or end with white space |
| JsStrings.ToLowerCase | main.js:415-426 | `toLowerCase` applied letter by letter, ASCII letters only; the filter compares and collects categories through it (`SearchFilter.SectionsOfVisible`) |
| JsStrings.ToLowerCaseIdempotent | main.js:415-429 | lower-casing is idempotent and keeps lower-case ASCII text, so a lower-cased category compares with itself unchanged |
| JsStrings.Includes | main.js:433-435 | true exactly when the query occurs at some index |
| JsStrings.AfterLast | main.js:391 | the suffix after the last `/`, which contains none; the whole string when there is no `/` |
| JsStrings.BeforeQuery | main.js:65 | the prefix before the first `?` or `#`, which contains neither |
| SearchFilter.CountZeroIffNoneVisible | main.js:418-462 | the count of shown images is 0 exactly when no image is visible |
| SearchFilter.SectionsOfVisible | main.js:418-445 | a category is collected exactly when a visible image has it, lower-cased |
| SearchFilter.HeaderIffImageOfSection | main.js:448-457 | a header is shown exactly when a visible image is of its section |
| SearchFilter.ChosenCategoryOnly | main.js:429-455 | with a category chosen, only that category's section can be shown |
| SearchFilter.EverythingShown | main.js:429-435 | "all" with an empty search shows every image |
| SearchFilter.BlankSearchMatchesAll | main.js:416-432 | a search box holding only white space filters nothing |
| SearchFilter.SearchText | main.js:416 | the search value lower-cased and trimmed; `BlankSearchMatchesAll` states that a blank box gives the empty search |
| SearchFilter.CategoryMatch | main.js:429 | the category test: "all", or the lower-cased image category equals the chosen one; `ChosenCategoryOnly` and `EverythingShown` use it |
| SearchFilter.SearchMatch | main.js:432-435 | the search test: an empty search, or the search text in the lower-cased title, description or alt text; `BlankSearchMatchesAll` and `EverythingShown` use it |
| SearchFilter.Visible | main.js:438 | an image is shown exactly when both tests pass; `FilterPage.ShowImages` is proved to show exactly these |
| SearchFilter.VisibleCount | main.js:418-445 | the count of visible images, at most their number; `CountZeroIffNoneVisible` ties 0 to no image being visible |
| SearchFilter.VisibleSections | main.js:419-441 | the set of lower-cased categories of the visible images; `SectionsOfVisible` states exactly what it holds |
| SearchFilter.HeaderShown | main.js:448-457 | the header rule for both modes; `HeaderIffImageOfSection` and `ChosenCategoryOnly` state what it means |
| SearchFilter.FilterPage.FilterImages | main.js:414-463 | each image is shown exactly when its category and text match; each header by its section; "no results" when none is shown |
| SearchFilter.FilterPage.ShowImages | main.js:418-445 | the loop shows exactly the visible images and returns their count and their sections |
| SearchFilter.FilterPage.ShowHeaders | main.js:448-457 | each header is shown by its section rule |
| Shuffle.SwapPermutes | gallery-common.js:138 | a swap keeps the multiset of children |
| Shuffle.Swap | gallery-common.js:138 | `[images[i], images[j]] = [images[j], images[i]]` on a sequence: the two entries are exchanged |
| Shuffle.SwapKeepsOthers | gallery-common.js:138 | a swap keeps every other entry |
| Shuffle.Shuffled | gallery-common.js:135-139 | the loop from the last index down to 1, each step swapping with its pick; `ShuffledPermutes`, `LastPlaceChosenFirst` and `FinalPlaceKept` state what it does |
| Shuffle.ShuffledPermutes | gallery-common.js:135-141 | the shuffle is a permutation of the children |
| Shuffle.LastPlaceChosenFirst | gallery-common.js:136-138 | the last place ends up holding the child the first pick chose |
| Shuffle.FinalPlaceKept | gallery-common.js:136-139 | places above the loop index are never touched again |
| Shuffle.SwapCells | gallery-common.js:138 | the destructuring swap exchanges two cells of the array |
| Shuffle.ShuffleGallery | gallery-common.js:131-143 | no grid: nothing; otherwise the grid's children are the shuffle of the old ones and a permutation of them, and one toast follows |

## Left out

- Menu toggle, sticky header, text rotator, callout, shockwave, and the modal
  click/escape wiring in gallery-common.js (`initGalleryPage`, `closeModal`,
  `quickFilter`, `toggleQualityOptions`, `hideQualityOptions`): DOM class toggling
  and timers with no logic to prove.
- Toast timing and the toast element: a toast is recorded as an effect with its
  message; `emitToast`'s two ways of showing it are not distinguished.
- Real `fetch`, `blob`, `createObjectURL` and the anchor click: a fetch is an
  oracle answer, and a save is recorded with the URL whose body is saved, not an
  object URL.
- The request body `image_name=<encodeURIComponent(name)>` of the counter posts:
  the fetch effect records only the endpoint.
- `console.error`, the 150 ms search debounce, `DOMContentLoaded`/`readyState`
  scheduling, and the element-existence guards. A guard that changes behaviour is
  a parameter (`modalPresent`, the counter label map, `hasNoResults`).
- `nsw/py.py`: this directory listing and HTML writing script is not part of this
  model.
- JsStrings.ToLowerCase: lower-cases ASCII letters only, because full Unicode case
  mapping is not modelled. The quality directory names are ASCII, so the pairs are
  unaffected; the filter's comparisons of non-ASCII text are.
- JsNumbers.ToNumber: only strings of decimal digits are numbers, and anything
  else is NaN. The full `Number` grammar (signs, decimals, exponents, white space)
  and the 2^53 precision limit are not modelled. Every value the counters
  themselves write is covered.
- Counters.Counted: when the endpoint returns a non-string count, the label shows
  it as text; the model takes the count as a string.
- GalleryModal.GalleryState.DownloadImage: reads `currentImageSrc` and
  `currentImageTitle` once, before the first await. The source reads
  `currentImageSrc` again after the first fetch (gallery-common.js:92-93), for the
  fallback test and the fallback URL, and `currentImageTitle` after the body
  arrives (gallery-common.js:107). An `openModal` in between would change the
  fallback decision, the URL fetched and the saved name; concurrent handlers are
  not modelled.
- SimpleModal.Modal.OnDownloadClick: reads `currentFileName` once, at the click.
  The source reads it only after `await fetch` and `await response.blob()`
  (main.js:268-274), so a click on another image while a download is pending would
  change the saved name; concurrent handlers are not modelled.
- WebpPreview.ApplyWebpPreviews: the images are a sequence of distinct objects,
  as `querySelectorAll` returns them; which images match `img[src]` is not
  modelled. The `skip-preview` test is one flag for "`data-skip-preview` present
  or 'true'".
- Shuffle.ShuffleGallery: `Math.floor(Math.random() * (i + 1))` is replaced by a
  given sequence of picks, each within `[0, i]`. Uniformity of the shuffle is not
  stated.
