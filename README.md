# Videos API: validators and in-memory store

This project models the `/videos` resource of a small Express service in Dafny:

- the two request validators `CreateInputValidation` and `UpdateInputValidation`;
- the `isoPattern` timestamp regex that update validation uses;
- the five route handlers (list, create, get by id, replace by id, delete by id). They act on the shared in-memory array `dbVideos`.

Modules:

- `VideoTypes`: the stored record, as the handlers send it (`VideoView`), and the two request bodies. Resolutions are raw strings, so the enumeration check means something. `canBeDownloaded` on update is `Boolean(b) | NotBoolean`, so the `typeof` check can be stated. `minAgeRestriction` is `Option<int>` (`null` is `None`).
- `IsoPattern`: `^\d{4}-\d{2}-\d{2}T\d{2}:\d{2}:\d{2}\.\d{3}Z$` written as 24 per-position character classes. Beside it sits an independent description: seven zero-padded numbers rendered by `Format` and read back by `Parse`.
- `Validation`:
  - One function per check, plus `CreateErrors` and `UpdateErrors` for the whole lists. These are the specifications.
  - The validators as imperative methods that push one error at a time. The resolution scan is a loop that stops at the first unknown value.
  - Lemmas on what the lists contain, and in what order.
- `VideosRouter`:
  - `Video` is a class: the update handler assigns six fields of the record it found, in place. `id` and `createdAt` are constant fields, because no handler writes them.
  - `VideoStore` holds `dbVideos: seq<Video>`. Each handler is a method whose postcondition gives its result and the new contents (`Contents()`, the list as values). The new contents are stated through value-level functions: `FirstIndex` for `find`/`findIndex`, `NewVideo`, `Overwrite`, and `RemoveAt` for `splice`.
  - The store invariant holds before and after every method: ids are unique, and every record meets the rules it was validated against.
- `VideosE2E`: the end-to-end test sequence. The first `it(...)` block is inline in `TestsForVideos`; each later block, or run of consecutive blocks on the same step, is one method. Each expectation is an assertion proved from the store's contracts. The sequence ends with an empty list.

## Model

| member | source | states |
|---|---|---|
| IsoPattern.PatternLayout | __tests__/videos.e2e.test.ts:7 | the pattern has 24 positions: `-` at 4 and 7, `T` at 10, `:` at 13 and 16, `.` at 19, `Z` at 23, and a digit class everywhere else |
| IsoPattern.FormatMatches | __tests__/videos.e2e.test.ts:7 | every rendering of seven zero-padded numbers (widths 4,2,2,2,2,2,3) is accepted |
| IsoPattern.ParseFormat | __tests__/videos.e2e.test.ts:7 | when every field fits its width, reading back a rendered timestamp gives the same timestamp |
| IsoPattern.FormatParse | __tests__/videos.e2e.test.ts:7 | every accepted string is exactly the rendering of the numbers it spells, and those numbers fit their widths |
| IsoPattern.MatchesIffFormatted | __tests__/videos.e2e.test.ts:7 | the pattern accepts a string if and only if it is the rendering of some in-range timestamp |
| IsoPattern.RejectsTest | __tests__/videos.e2e.test.ts:124-126 | the test body's `publicationDate: 'test'` is rejected |
| IsoPattern.AcceptsIsoInstant | __tests__/videos.e2e.test.ts:60-61 | a `toISOString()`-shaped instant is accepted |
| Validation.Utf16Length | src/routes/videos-router.ts:31 | `.length` counts UTF-16 code units: at least the number of characters and at most twice that |
| Validation.Utf16LengthOfBmp | src/routes/videos-router.ts:31-43 | for text without astral characters, `.length` is the number of characters |
| Validation.PushResolutionErrors | src/routes/videos-router.ts:14-29 | the empty check followed by the scan that breaks at the first unknown value appends exactly the resolution errors |
| Validation.CreateInputValidation | src/routes/videos-router.ts:69-106 | the pushed list equals the create specification: resolutions, then title, then author |
| Validation.UpdateInputValidation | src/routes/videos-router.ts:9-68 | the pushed list equals the update specification: the three shared checks, then age range, date format, download type |
| Validation.UpdateErrorsSplit | src/routes/videos-router.ts:9-68 | the update list is the create list for the same title, author and resolutions, followed by the age, date and download checks |
| Validation.ErrorRanks | src/routes/videos-router.ts:14-66 | each error names its field in the fixed checking order, and the two resolution errors are distinct |
| Validation.ResolutionErrorsAtMostOne | src/routes/videos-router.ts:14-29 | at most one resolution error; an empty list gives exactly `'error!!!'`; a non-empty list gives the format error if and only if some value is outside the enumeration |
| Validation.CreateErrorsInOrder | src/routes/videos-router.ts:69-106 | create errors name only resolutions, title and author, with strictly increasing fields, so no field twice |
| Validation.UpdateErrorsInOrder | src/routes/videos-router.ts:9-68 | update errors come in the order resolutions, title, author, minAgeRestriction, publicationDate, canBeDownloaded, with no field twice |
| Validation.CreateErrorsExact | src/routes/videos-router.ts:74-103 | each create error is present if and only if its rule is broken, and the list is empty if and only if the resolutions are non-empty and known, the title has 1 to 40 and the author 1 to 20 code units |
| Validation.UpdateSharedChecksExact | src/routes/videos-router.ts:14-43 | on update, the four shared errors are present exactly under the same conditions as on create |
| Validation.UpdateOwnChecksExact | src/routes/videos-router.ts:45-66 | the age error is present if and only if an age is given outside 1..18; the date error if and only if the pattern rejects the date; the type error if and only if `canBeDownloaded` is not a boolean |
| Validation.UpdateAcceptedIff | src/routes/videos-router.ts:9-68 | an update body is accepted if and only if all six rules hold |
| Validation.UpdateExtendsCreate | src/routes/videos-router.ts:14-43 | the create list for the same three fields is a prefix of the update list, and every later error is an update-only field |
| Validation.NullAgeAccepted | src/routes/videos-router.ts:45-52 | a null `minAgeRestriction` never yields an error on that field |
| Validation.InvalidCreateExample | __tests__/videos.e2e.test.ts:22-32 | the all-empty create body gives exactly the three errors, in order |
| Validation.InvalidUpdateExample | __tests__/videos.e2e.test.ts:119-141 | the all-wrong update body gives exactly the six errors, in order |
| VideosRouter.FirstIndex | src/routes/videos-router.ts:188 | the `findIndex` result: -1 if and only if no record has the id; otherwise the record there has the id and no earlier record does |
| VideosRouter.RemoveAt | src/routes/videos-router.ts:194 | `splice(k, 1)` leaves one record fewer, with those before `k` in place and those after shifted down by one |
| VideosRouter.FirstIndexOfUnique | src/routes/videos-router.ts:145 | with unique ids, looking up a record's id finds that record |
| VideosRouter.NewVideoConforms | src/routes/videos-router.ts:120-138 | a record built from a body that passed create validation meets the store's rules |
| VideosRouter.AppendKeepsInvariant | src/routes/videos-router.ts:128-139 | appending a conforming record under a fresh id keeps the invariant, and lookup then finds it at the end |
| VideosRouter.OverwriteKeepsInvariant | src/routes/videos-router.ts:163-175 | a validated update keeps the invariant, leaves the record at its index with its id and createdAt, and sets the six fields to the submitted values |
| VideosRouter.RemoveKeepsInvariant | src/routes/videos-router.ts:187-194 | deleting keeps the invariant, leaves no record with the deleted id, and removes exactly one occurrence of that record |
| VideosRouter.Video.constructor | src/routes/videos-router.ts:128-137 | the new record copies title, author and resolutions, with `canBeDownloaded = false` and `minAgeRestriction = null` |
| VideosRouter.Video.AssignFields | src/routes/videos-router.ts:170-175 | the six assignments change exactly those six fields of this record |
| VideosRouter.VideoStore.constructor | src/app.ts:10 | the store starts empty and valid |
| VideosRouter.VideoStore.List | src/routes/videos-router.ts:116-118 | returns the whole list, in insertion order |
| VideosRouter.VideoStore.IndexOf | src/routes/videos-router.ts:188 | the linear scan returns the `findIndex` result |
| VideosRouter.VideoStore.Get | src/routes/videos-router.ts:144-152 | returns the first record with the id, or not-found, and changes nothing |
| VideosRouter.VideoStore.Create | src/routes/videos-router.ts:119-143 | on errors: returns them and leaves the list unchanged; otherwise: appends exactly the new record at the end and returns it, earlier records untouched |
| VideosRouter.VideoStore.Replace | src/routes/videos-router.ts:153-186 | a missing id gives not-found whatever the body, because lookup precedes validation; a bad body gives its errors; both leave the list unchanged; otherwise only the first matching record changes, in its six fields, with the same length and order |
| VideosRouter.VideoStore.OverwriteAt | src/routes/videos-router.ts:170-175 | assigning the fields of the record at `k` changes that record only |
| VideosRouter.VideoStore.Delete | src/routes/videos-router.ts:187-197 | not-found leaves the list unchanged; otherwise the first matching record is removed and the rest keep their order |
| VideosRouter.VideoStore.RemoveIndex | src/routes/videos-router.ts:194 | the splice removes the record at `k` and keeps the invariant |
| VideosE2E.TestsForVideos | __tests__/videos.e2e.test.ts:9-191 | the whole test sequence on a fresh store leaves an empty list |
| VideosE2E.RejectsInvalidCreate | __tests__/videos.e2e.test.ts:22-37 | the invalid create reports three errors and the list stays empty |
| VideosE2E.CreatesFirst | __tests__/videos.e2e.test.ts:40-68 | the first create returns the expected record, and the list becomes `[A]`; the stand-in createdAt and publicationDate both match `isoPattern` |
| VideosE2E.CreatesSecond | __tests__/videos.e2e.test.ts:71-99 | the second create makes the list `[A, B]` |
| VideosE2E.FindsOrReports404 | __tests__/videos.e2e.test.ts:101-117 | an unknown id is not found by get or put; a created id is found with its record |
| VideosE2E.RejectsInvalidUpdate | __tests__/videos.e2e.test.ts:119-142 | the all-wrong update reports the six errors and changes nothing |
| VideosE2E.UpdatesSecond | __tests__/videos.e2e.test.ts:144-170 | the valid update succeeds; get then returns the old record with the six fields replaced and the same id and createdAt |
| VideosE2E.DeletesBoth | __tests__/videos.e2e.test.ts:172-190 | deleting an unknown id is not-found; deleting both records empties the list |
| VideosE2E.ValidCreateA | __tests__/videos.e2e.test.ts:41-45 | the first create body passes validation |
| VideosE2E.ValidCreateB | __tests__/videos.e2e.test.ts:72-76 | the second create body passes validation |
| VideosE2E.ValidUpdate | __tests__/videos.e2e.test.ts:145-152 | the valid update body passes all six checks |
| VideosE2E.StandInTimestampsMatch | __tests__/videos.e2e.test.ts:60-61 | the two stand-in timestamps used for `createdAt` and `publicationDate` match `isoPattern` |

## Left out

- Express routing, HTTP status codes, `res.send`/`json` and JSON body parsing. A handler's answer is the `Outcome` datatype: `Ok` stands for 200/201/204, `NotFound` for 404 and `Invalid` for 400 with its error list.
- Id generation (`Date.now() + Math.random()`, a float). The fresh id is an integer parameter of `Create`, with the precondition that no record has it.
- The clock: `createdAt` (`new Date().toISOString()`) and `dateGeneration` (one day later, via the JavaScript Date library and the local timezone). Both timestamps are caller-supplied strings, so the store invariant says nothing about them.
- The `+req.params.id` coercion of the path parameter: ids are `int`.
- JavaScript dynamic typing in request bodies, where the code does something other than reject the value:
  - A string `availableResolutions` is iterable. For `"P144"` the code pushes `'error!!!'` (it is not an array), then scans the characters, finds `'P'` unknown, pushes the format error and breaks. Only non-iterable values (absent, `null`, a number, an object) make the `for...of` throw.
  - A falsy `title` or `author` (absent, `null`, `0`, `false`) is rejected by `!title`. A truthy non-string such as `5`, `true`, `{}` or a short array has `.length` undefined or small, so no error is pushed. The record is then stored with a value the store invariant (`Conforms`) does not describe.
  - An absent `minAgeRestriction` is `undefined`, and `undefined !== null` holds, so the range test runs. It pushes nothing, because `undefined < 1` and `undefined > 18` are both false. PUT then stores `undefined`, not `null`.
  - A non-integer age is compared numerically.

  The model uses typed sequences, strings and `Option<int>`, so none of these inputs can be written in it.
- Strings are taken to be well-formed Unicode. A Dafny `char` is a Unicode scalar value, so a JavaScript string holding a lone surrogate (JSON `"\ud800"`, with `.length` 1) has no counterpart in the model.
- The `Resolutions` enumeration (src/types/Videos/Video.ts) is not part of this model. It is taken to be a string enum whose values are `P144` through `P2160`.
- Field names are the `Field` enumeration. `Field.Name()` gives the string sent to the client.
- The testing route `DELETE /testing/all-data` (src/routes/testing-all-data-route.ts:9) only rebinds its own parameter, so it does not empty the list the videos router holds. The model has no clear-all operation, because the code has none.
- `foundVideo.canBeDownloaded = req.body.canBeDownloaded` stores whatever value was sent. In the model it is the boolean, which validation guarantees by then.
- No handler is concurrent. Express runs each one to completion, so the model has no interleaving.
