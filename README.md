# LocDec client core in Dafny

LocDec is a browser client. A user uploads a photo, a hosted multimodal model is asked where it was taken, and the answer is shown as a location, a confidence, and evidence grouped by category. This project models the three pieces of sequential logic in the client and proves properties of them:

- **The analysis service** (`services/geminiService.ts`, module `GeminiService`).
  - It strips the data-URL prefix from the encoded image.
  - It folds the model's `justification` array into a category-to-details map.
  - It fills the `location` and `confidence` fallbacks.
  - It rejects an empty result.
  - It maps every failure to a user message.
  - The JSON reply is an input datatype (`Reply`). It is either a parse failure, the value `null`, or any other value seen through its three fields.
  - The remote call is a function parameter, from the `ImagePart` sent to the `CallOutcome` returned.
  - The `forEach` build of the map is an imperative loop (`BuildJustification`). It is proved equal to the left fold `Fold`, and the fold's properties are proved as lemmas.
- **The page state controller** (`App.tsx`, module `AppState`).
  - It is a class `App` with the five state fields.
  - Object URLs are handles from a counter (`nextHandle`). A ghost set `live` holds the handles created and not yet revoked. A ghost counter `pending` counts analyses whose `await` has not resumed yet.
  - `handleImageSelect` is split into its synchronous part (`HandleImageSelect`) and the resumption after the `await` (`Complete`). This makes "reset while loading, then the completion arrives" expressible.
  - The render conditions are predicates over a `UiState` snapshot.
  - Client methods at the end of the module prove what whole event sequences do.
- **The upload gate** (`components/ImageUploader.tsx`, module `ImageUploader`). The function `Accepted` decides which file a drop or a file-input change forwards. The class `Uploader` holds the `isDragging` flag.

Supporting modules:
- `Wrappers` holds `Option` and `Result`.
- `Types` holds the records of `types.ts`, plus a `File` whose declared type is the only part the core reads.
- `JsString` holds `String.prototype.split` with a one-character separator. Its round trip with `join` is proved in both directions. It also holds `startsWith`.

Where the intended design and the code differ, the model follows the code:
- `confidence` falls back when it is the empty string too, not only when it is absent, because the code uses `||`.
- A selection that replaces an image does not release the previous object URL; see Findings.
- A reset during loading does not discard the late result. The completion stores it (`ResetThenLateSuccess`, `ResetThenLateFailure`). After such a reset a second select can start while the first analysis is still in flight; when both complete, the result and the error are both stored (`ResetReselectThenBothComplete`). These paths are only reachable by calling the handlers directly, because both reset buttons are mounted only when not loading (`ResetOffered`).
- A failed file read does not reach the user as the generic analysis message. It rejects before the `try` with the reader's error event, which is not an `Error`. The page therefore shows "An unknown error occurred. Please try again." (`FailuresAreOneOfTwoMessages`, `AppState.ErrorText`).
- A category named `__proto__` passes the filter, but assigning it on the plain `justification` object runs the prototype setter and adds no own key, so `Object.keys` does not count it (`SetProperty`, `ProtoCategoryAddsNoKey`).
- The empty-result error is raised inside the `try`. Its own message never reaches the user, who sees the generic analysis message instead.

## Model

| member | source | states |
|---|---|---|
| JsString.JoinSplit | services/geminiService.ts:17 | no piece of `split(sep)` contains the separator, and joining the pieces gives back the string |
| JsString.SplitJoin | services/geminiService.ts:17 | splitting a join of separator-free pieces gives back exactly those pieces |
| JsString.Split | services/geminiService.ts:17 | `split` with a one-character separator yields at least one piece, and exactly one iff the separator does not occur |
| JsString.StartsWith | components/ImageUploader.tsx:38 | `startsWith`: the string is the prefix followed by the rest of it |
| GeminiService.Base64Payload | services/geminiService.ts:17 | `split(',')[1]` is `undefined` exactly when the data URL has no comma, and a present payload holds no comma |
| GeminiService.PayloadIsSecondSegment | services/geminiService.ts:17 | the payload is the segment after the first comma, up to a second comma or the end |
| GeminiService.DataUrlPayload | services/geminiService.ts:13-17 | for `data:<mime>;base64,<b64>` with no comma in mime or body, the payload is exactly `<b64>` |
| GeminiService.OrElse | services/geminiService.ts:107-108 | the or-default of a field: the raw string when it is present and non-empty, otherwise the fallback |
| GeminiService.SetProperty | services/geminiService.ts:101 | `obj[key] = value` on a plain object stores the own key for every name but `__proto__`, which leaves the own keys unchanged; other keys keep their values |
| GeminiService.Fold | services/geminiService.ts:99-103 | the `forEach` as a left fold: every stored category is a non-empty name other than `__proto__`, mapped to non-empty details |
| GeminiService.JustificationOf | services/geminiService.ts:97-104 | the built map holds only non-empty names other than `__proto__`, mapped to non-empty details |
| GeminiService.BuildJustification | services/geminiService.ts:97-104 | the loop over the raw array produces exactly the left fold of the entries (`None` when a `null` element throws), and the empty map when the field is absent or not an array |
| GeminiService.FoldFailureIsFinal | services/geminiService.ts:99-100 | once an element has thrown, the rest of the array cannot undo it |
| GeminiService.FoldFailsIffNullEntry | services/geminiService.ts:99-100 | the build throws (a `TypeError` on `item.category`) exactly when the array holds a `null` element |
| GeminiService.FoldContents | services/geminiService.ts:97-104 | a category is an own key exactly when some kept entry names it and the name is not `__proto__`; its stored details are those of the last kept entry with that name |
| GeminiService.ProtoCategoryAddsNoKey | services/geminiService.ts:100-114 | an entry under `__proto__` adds no key, so a reply with only that entry and no location is rejected as empty |
| GeminiService.EmptyDetailsDroppedExample | services/geminiService.ts:100-101 | `[{A, []}, {B, ["x"]}]` yields `{B: ["x"]}` |
| GeminiService.NonArrayJustificationIsEmpty | services/geminiService.ts:97-98 | an absent, falsy or non-array `justification` yields the empty map |
| GeminiService.Normalise | services/geminiService.ts:95-115 | a reply that does not parse is exactly a `SyntaxError`; a success comes from a parsed object, is never an empty result and has no sources |
| GeminiService.SuccessIsNormalisedRecord | services/geminiService.ts:106-117 | a successful normalisation comes from a parsed object, and is exactly the record of the two fallbacks, the built map and empty `sources`; its location is not the fallback or its map is non-empty |
| GeminiService.RejectedIffFallbackAndNoCategories | services/geminiService.ts:113-115 | a reply whose array throws nowhere is rejected iff its normalised location equals the fallback text and its map is empty; the rejection is the empty-result error |
| GeminiService.LiteralFallbackLocationRejected | services/geminiService.ts:107-114 | a raw location literally equal to the fallback text, with no categories, is rejected |
| GeminiService.UserMessage | services/geminiService.ts:118-125 | a `SyntaxError` maps to exactly the format message; every other fault maps to exactly the generic message |
| GeminiService.Caught | services/geminiService.ts:118-125 | a result passes through the `catch` unchanged; every fault becomes an `Error` carrying one of the two user messages |
| GeminiService.RequestPart | services/geminiService.ts:36-41 | the image part carries the file's own MIME type, and its data is `undefined` exactly when the data URL has no comma |
| GeminiService.Analysis | services/geminiService.ts:23-125 | a read failure rejects with the non-`Error` event before the `try`; any later rejection is an `Error`; a success is never empty and has no sources |
| GeminiService.FailuresAreOneOfTwoMessages | services/geminiService.ts:23-125 | the exported function rejects only with the format message, the generic message or the reader's non-`Error` event; the empty-result message never escapes |
| GeminiService.ParseFailureMessage | services/geminiService.ts:95-122 | a reply that does not parse yields exactly the format message |
| GeminiService.EmptyReplyMessage | services/geminiService.ts:97-124 | a reply with no usable location and a justification field that yields no key (absent, not an array, or every entry dropped) is reported with the generic message |
| GeminiService.SuccessCarriesPayloadReply | services/geminiService.ts:36-41 | the request for a data URL carries the file's MIME type and exactly the stripped payload, and success has empty `sources` |
| GeminiService.AnalyzeImageForLocation | services/geminiService.ts:23-125 | the operation, built on the imperative justification loop, returns exactly `Analysis` of its inputs |
| AppState.ErrorText | App.tsx:30 | an `Error`'s own message, or the unknown-error text for any other rejection value |
| AppState.ShowUploader | App.tsx:52-53 | the uploader is mounted iff there is no result and not loading; so its `isLoading` prop is always false |
| AppState.ShowLoader | App.tsx:55 | the progress indicator is mounted iff loading, and then neither the uploader nor the error panel is |
| AppState.ShowErrorPanel | App.tsx:56 | the error panel is mounted iff the error is a non-empty string and not loading |
| AppState.ShowResult | App.tsx:68 | the result view is mounted iff a result and a URL are stored and not loading; it is never mounted together with the uploader or the progress indicator |
| AppState.ResetOffered | App.tsx:56-72 | both reset buttons are mounted only when not loading |
| AppState.UploaderSeesNotLoading | App.tsx:52-55 | when the uploader is mounted, neither the progress indicator nor the result view is |
| AppState.BlankScreenIff | App.tsx:52-68 | nothing is rendered iff, not loading, a result is stored without an image URL and no error text is shown |
| AppState.App.constructor | App.tsx:9-13 | all five fields start empty or false, with no live handle and nothing pending |
| AppState.App.HandleImageSelect | App.tsx:16-23 | ignored while loading; otherwise stores the file and a fresh handle, clears result and error, starts loading, and leaves the previous handle live |
| AppState.App.Complete | App.tsx:25-33 | loading always ends; success stores the result and leaves the error as it was; failure stores the error text and leaves the result as it was; no request check |
| AppState.App.HandleReset | App.tsx:36-45 | from any state, all fields become empty and loading false; the previous handle is revoked iff there was one |
| AppState.App.HandleImageSelectReleasing | App.tsx:16-23 | the corrected select, which revokes the replaced handle and keeps every live handle the displayed one |
| AppState.SelectThenComplete | App.tsx:16-33 | a select followed by its own completion leaves at most one of result and error set, and which one matches the outcome |
| AppState.SelectThenAnalyse | App.tsx:16-33 | end to end, the stored error is one of three fixed texts, never the empty-result message, and whatever is stored is rendered |
| AppState.SelectWhileLoading | App.tsx:17 | a second select while loading changes nothing and starts no second analysis |
| AppState.ResetThenLateSuccess | App.tsx:26-45 | a reset during loading does not stop the late result being stored, after which nothing is rendered |
| AppState.ResetThenLateFailure | App.tsx:28-45 | a reset during loading does not stop the late error being stored |
| AppState.ResetReselectThenBothComplete | App.tsx:16-45 | a reset during loading lets a second select start; when both analyses complete, result and error are both stored |
| AppState.ResetFromAnyState | App.tsx:36-45 | after a reset the state is initial, the uploader is shown and the old handle is no longer live |
| AppState.FailureThenReselectLeaks | App.tsx:20 | after a failure the uploader returns, and a new select leaves the first handle live although nothing refers to it |
| AppState.FailureThenReselectReleasing | App.tsx:20 | the same sequence with the corrected select leaves no unreferenced live handle |
| AppState.DropOnUploader | components/ImageUploader.tsx:30-42 | a drop on the mounted uploader starts an analysis iff the gate accepts its first file; otherwise the page state is unchanged |
| ImageUploader.IsImage | components/ImageUploader.tsx:38 | `type.startsWith('image/')`; when it holds, the declared type is `image/` followed by a subtype |
| ImageUploader.Accepted | components/ImageUploader.tsx:34-50 | a file is forwarded iff not loading, a file list with at least one file is present, and the first file's type starts with `image/`; the forwarded file is `files[0]` |
| ImageUploader.OnlyFirstFileMatters | components/ImageUploader.tsx:37-39 | files after the first never affect the outcome; a non-image first file forwards nothing |
| ImageUploader.TypeExamples | components/ImageUploader.tsx:38 | a `text/plain` file is ignored; an `image/png` file is forwarded unless loading |
| ImageUploader.Uploader.constructor | components/ImageUploader.tsx:10 | the drag flag starts false |
| ImageUploader.Uploader.HandleDragEnter | components/ImageUploader.tsx:13-17 | sets the drag flag |
| ImageUploader.Uploader.HandleDragLeave | components/ImageUploader.tsx:19-23 | clears the drag flag |
| ImageUploader.Uploader.HandleDragOver | components/ImageUploader.tsx:25-28 | leaves the drag flag unchanged |
| ImageUploader.Uploader.HandleDrop | components/ImageUploader.tsx:30-42 | clears the drag flag even when loading, and forwards exactly what the gate accepts |
| ImageUploader.Uploader.HandleFileChange | components/ImageUploader.tsx:44-52 | forwards exactly what the gate accepts, and does not touch the drag flag |

## Left out

- The remote model call (`generateContent`), the prompt text, the response schema, the model name and the temperature. These are a foreign API and fixed configuration. The call is the `service` parameter of `Analysis`.
- `FileReader` and the asynchronous encoding. The reader's outcome is the `ReadOutcome` input.
- `JSON.parse` itself. Field values of the wrong JSON type are not represented: a numeric location, a non-string category, or details given as a string rather than an array. Each field is an optional string, or an optional string sequence for details.
- The module-load check for the API key, which is environment plumbing. Also the `console.error` logging.
- `URL.createObjectURL` and `URL.revokeObjectURL` are modelled only as handle allocation and release.
- React batching and closure capture. Each handler sees the latest committed state; the values captured by `useCallback` are not modelled.
- `AppState.App.Complete`: requires an analysis to be pending, since a completion only arrives for a started analysis.
- `handleClick`, the hidden input's `accept="image/*"` and `disabled` attributes, and drag-event propagation. These are DOM behaviour.
- `components/ResultDisplay.tsx`, `components/Header.tsx`, `components/icons/LocationIcon.tsx` and `index.tsx`. They are markup and DOM bootstrap. The hostname fallback in the result view relies on the browser's `URL` parser. `components/Loader.tsx` is not part of this model.
- The key order of the `Justification` object; a Dafny `map` has none.
- `JsString.Split` covers only one-character separators, the only kind the core uses.

## Findings

| source | as written | input that shows it | evidently intended | confidence | as-written member | corrected member |
|---|---|---|---|---|---|---|
| App.tsx:20 | a new selection overwrites `imageUrl` without revoking the previous object URL | select a file; the analysis fails; the uploader is shown again; select a second file; the first URL stays allocated and is never revoked | revoke the replaced URL, as `handleReset` does for the current one | medium, not executed | AppState.FailureThenReselectLeaks | AppState.App.HandleImageSelectReleasing |

The other event sequences in `AppState` use `HandleImageSelect` as written. The behaviour they document follows the code's handler.
