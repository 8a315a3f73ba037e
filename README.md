# firehose-watcher core, modelled in Dafny

firehose-watcher follows the Bluesky repository event stream ("firehose") of
one account. When that account creates a record in a `feed` collection (a
like, a repost, a post), it resolves the post the record refers to, fetches
the post's details, downloads every image and video blob of the post and
writes them, with the post's JSON metadata, into a directory. File names are
built from the post's record key, the author's handle and the post text,
cut to a byte budget without splitting a UTF-8 character.

This project models the synchronous logic of that pipeline and proves its
properties:

- `prelude.dfy`: Go strings as byte sequences (`Bytes`), `Option`,
  `Result` and the error values the pipeline builds.
- `utf8.dfy`: well-formed UTF-8 as the UTF8-octets grammar of RFC 3629,
  section 4 defines it. It stands in for Go's `utf8.Valid`.
- `filename.dfy`: `FilenameLengthLimit` (the source's accumulating loop, as a
  method proved equal to a specification function) and `MakeFilepath` in its
  three variants (`pkg/utils/filename.go`, `pkg/utils/filename_unix.go`,
  `pkg/utils/filename_windows.go`). The variant is an explicit parameter.
- `findexpression.dfy`: `FindExpression` for the two patterns the program
  uses: `[^/]*$` (last path segment) and `^[^/]*` (first path segment).
- `extractmedia.dfy`: `ExtractMedia` as written (a method that fills the
  record step by step) and the reference function `MediaOf`.
- `repocommit.dfy`: the `RepoCommit` callback as a class whose method
  appends dispatched downloads and logged operations and bumps the wait
  counter.
- `fetchpost.dfy`: `FetchPostIdentifier` and `FetchPostDetails` as functions
  over oracle API and codec results.
- `ports.dfy`: the blob endpoint and the `FileSystem`/`File` interfaces as
  one class whose answers are fixed oracles and which records every call in
  a trace.
- `writefile.dfy`: `WriteFile`'s open/write/close protocol.
- `downloadposts.dfy`: `DownloadBlobs` and `DownloadPost` as methods over
  the ports, proved equal to specification functions that give the calls
  made and the outcome; lemmas state order, numbering, early abort and the
  file discipline.

The download steps are stated for any path builder with `MakeFilepath`'s
parameters. The three filename files are modelled as alternative versions
of `MakeFilepath`, chosen by the parameter `v`: `DownloadPosts.Builder(v)`
is the version of variant `v`, and `DownloadPost` uses it. As written,
`pkg/utils/filename.go` has no build constraint, so on Unix or Windows it
is compiled together with `filename_unix.go` or `filename_windows.go`, and
`MakeFilepath` and `FilenameLengthLimit` are then declared twice in one
package.

The model follows the code, also where it departs from what one might
expect:

- The index reserves `i` bytes of the budget (plus one for `_`), not the
  digit count of `i` (`Filename.IndexReservesValueNotDigits`).
- The `feed` test searches the whole path, not only the collection segment
  (`RepoCommit.FeedInRkeySelected`).
- `Media` is set whenever the post record has an embed, even one with no
  media shape (a link card): it is then the empty record
  (`ExtractMedia.NoShapeNoMedia`, `FetchPost.FetchPostDetails`).
- The video id is the empty string when there is no video, not an absent
  value.
- `WriteFile` ignores the byte count `Write` reports, so a short write with
  no error is a success (`FileWriter.ShortWriteSucceeds`).
- The Unix builder makes a positive index a path element of its own,
  `<dir>/<base>/<i>.<ext>`. The Plain and Windows builders write
  `<base>_<i>.<ext>`, which is what `tests/utils_test.go` expects
  (`Filename.UnixIndexIsOwnElement`, `Filename.PlainLastElement`).

## Model

| member | source | states |
|---|---|---|
| `Filename.LongestValidPrefix` | pkg/utils/filename.go:29-36 | the result is at most the bound, the prefix of that length is well-formed UTF-8, and every longer prefix within the bound is not |
| `Utf8.Valid` | pkg/utils/filename.go:33 | the check `utf8.Valid` performs: the UTF8-octets grammar of RFC 3629, section 4, a sequence of well-formed characters with no overlong form, surrogate or code point above U+10FFFF |
| `Utf8.ValidStartsWithLead` | pkg/utils/filename.go:33 | well-formed text never starts with a continuation byte or a byte no character uses |
| `Utf8.ValidEndsOnBoundary` | pkg/utils/filename.go:33 | well-formed text ends with an ASCII byte or a continuation byte, never with the lead byte of a longer character |
| `Filename.LengthLimited` | pkg/utils/filename.go:24-38 | the result is a byte prefix of the input; it is the input itself when the input is shorter than `maxBytes`; it is empty when `maxBytes <= 0`; it has at most `maxBytes` bytes; otherwise it is well-formed and no longer prefix within the budget is |
| `Filename.FilenameLengthLimit` | pkg/utils/filename.go:24-38 | the byte-appending loop returns exactly `LengthLimited`; `pkg/utils/filename_unix.go:28-42` and `pkg/utils/filename_windows.go:42-56` are the same code |
| `Filename.LengthLimitedIdempotent` | pkg/utils/filename.go:26-37 | truncating a second time changes nothing |
| `Filename.LengthLimitedKeepsCharacters` | pkg/utils/filename.go:31-37 | on well-formed input both the kept prefix and the dropped rest are well-formed, so no character is split |
| `Filename.AsciiLengthLimited` | pkg/utils/filename.go:29-37 | ASCII input at least `maxBytes` long is cut at exactly `maxBytes` bytes |
| `Filename.SmileRunLimited` | pkg/utils/filename.go:29-37 | a run of four-byte emoji cut to `maxBytes` keeps `maxBytes / 4` whole emoji |
| `Filename.EmojiExample` | tests/utils_test.go:122-137 | 140 four-byte emoji limited to 255 bytes give 63 emoji |
| `Filename.Sanitize` | pkg/utils/filename_windows.go:13-24 | sanitising never lengthens the string and leaves none of the bytes its variant replaces; what each byte becomes is stated by `SanitizeSingleByte` |
| `Filename.SanitizeSingleByte` | pkg/utils/filename_windows.go:13-24 | what each byte becomes: Plain deletes `/`; Unix keeps every byte; Windows deletes `" \ / \| : < > ? *`, turns a newline into a space and keeps every other byte. Together with `SanitizeConcat` (the result of a concatenation is the concatenation of the results) this fixes `Sanitize` on every input |
| `Filename.SanitizeConcat` | pkg/utils/filename_windows.go:13-24 | the replacer works byte by byte: sanitising a concatenation gives the concatenation of the sanitised parts |
| `Filename.SanitizeFixedPoint` | pkg/utils/filename_windows.go:13-28 | a string is left unchanged exactly when it holds none of the replaced bytes |
| `Filename.SanitizeIdempotent` | pkg/utils/filename_windows.go:28 | sanitising twice is sanitising once |
| `Filename.SanitizeValid` | pkg/utils/filename_windows.go:13-24 | sanitising well-formed UTF-8 gives well-formed UTF-8 |
| `Filename.UnixBaseVerbatim` | pkg/utils/filename_unix.go:14 | the Unix base is `<rkey>_<handle>_<text>` with nothing stripped |
| `Filename.DecimalLength` | pkg/utils/filename.go:14-16 | a positive index has no more decimal digits than its value |
| `Filename.Decimal` | pkg/utils/filename.go:16 | the `%d` rendering of the index: at least one digit, only digits, no leading zero for a positive number |
| `Filename.DecimalRoundTrip` | pkg/utils/filename.go:16 | reading the digits of the rendering back gives the index itself |
| `Filename.Budget` | pkg/utils/filename.go:14-18 | the budget plus the reserved `.<ext>`, and for a positive index also `_` and `i` bytes, is exactly `maxBytes` |
| `Filename.TruncatedBaseBounds` | pkg/utils/filename.go:11-18 | the base is a prefix of the sanitised `<rkey>_<handle>_<text>`, and it is empty or within the budget |
| `Filename.NameTail` | pkg/utils/filename.go:14-19 | what follows the base is `.<ext>` for `i <= 0`; for `i > 0` it is `_` (Unix: `/`), digits that read back as `i`, then `.<ext>` |
| `Filename.MakeFilepath` | pkg/utils/filename_unix.go:13-26 | every variant's path ends in `.` followed by the extension |
| `Filename.FilepathLayout` | pkg/utils/filename.go:13-21 | the path is the directory, one separator (`/`, or `\` for Windows) and the file name: `<base>_<i>.<ext>` for `i > 0` (Unix: `<base>/<i>.<ext>`), `<base>.<ext>` otherwise |
| `Filename.FileNameWithinLimit` | pkg/utils/filename.go:14-19 | when the budget is not negative, the file name after the directory has at most `maxBytes` bytes |
| `Filename.IndexReservesValueNotDigits` | pkg/utils/filename.go:14-16 | for a long ASCII base a positive index costs `i` bytes: the name is `maxBytes - i + digits(i)` bytes long |
| `Filename.TruncatedBaseValid` | pkg/utils/filename_windows.go:28-35 | the base is sanitised first and truncated second: it is a prefix of the sanitised base, well-formed, and ends on a character boundary |
| `Filename.FileNameClean` | pkg/utils/filename.go:11-19 | Plain and Windows file names hold none of the bytes their variant strips (for Plain: no `/`) |
| `Filename.ShortCleanBaseKept` | pkg/utils/filename.go:10-19 | a base that fits and holds nothing to strip is kept verbatim; the Plain path is then `<dir>/<rkey>_<handle>_<text>_<i>.<ext>` |
| `Filename.PlainLastElement` | pkg/utils/filename.go:11-16 | the last element of a Plain path is the whole file name |
| `Filename.UnixIndexIsOwnElement` | pkg/utils/filename_unix.go:16-19 | for `i > 0` the last element of a Unix path is `<i>.<ext>` |
| `FindExpression.LastSegment` | pkg/utils/findexpression.go:5-8 | the `[^/]*$` match is a suffix without `/`, preceded by a `/` whenever it is not the whole input |
| `FindExpression.FirstSegment` | pkg/core/fetchpost.go:14 | the `^[^/]*` match is a prefix without `/`, followed by a `/` whenever it is not the whole input |
| `FindExpression.LastSegmentSplit` | pkg/utils/findexpression.go:7 | the input is some `P` followed by the last segment, with `P` empty or ending in `/` |
| `FindExpression.NoSlashIsOneSegment` | pkg/utils/findexpression.go:7 | a string without `/` is its own first and last segment |
| `FindExpression.LastSegmentAfterSlash` | pkg/utils/findexpression.go:7 | whatever follows the last `/` is the last segment |
| `FindExpression.PathSplitRoundTrip` | pkg/core/fetchpost.go:13-14 | `collection/rkey` splits back into `collection` and `rkey` |
| `FindExpression.HelloWorldExample` | tests/utils_test.go:198-205 | `hello/world` has first segment `hello` and last segment `world` |
| `ExtractMedia.MediaOf` | pkg/utils/extractmedia.go:13-48 | the number of image ids is the quoted images' plus the top-level images'; the extension holds no `/` |
| `ExtractMedia.ExtractMedia` | pkg/utils/extractmedia.go:13-48 | the code as written, wherever it does not dereference a missing value, returns exactly `MediaOf` |
| `ExtractMedia.ExtractQuoted` | pkg/utils/extractmedia.go:16-32 | the quoted images' ids; the quoted video's id with the top-level video's extension, else the first quoted image's extension |
| `ExtractMedia.AppendCids` | pkg/utils/extractmedia.go:20-22 | the loop appends every image's id to the ids so far, in list order |
| `ExtractMedia.NoShapeNoMedia` | pkg/utils/extractmedia.go:14-47 | with no media shape the record has no video id, no image ids and no extension |
| `ExtractMedia.LastShapeWins` | pkg/utils/extractmedia.go:23-44 | the extension is that of the last shape in the order quoted images, quoted video, images, video |
| `ExtractMedia.ImageOrder` | pkg/utils/extractmedia.go:19-36 | whichever image shapes are present, the image ids are the quote's, in order, followed by the top-level ones, in order, and nothing else |
| `ExtractMedia.VideoChoice` | pkg/utils/extractmedia.go:26-41 | the video id is the top-level video's when there is one, else the quoted video's, else empty |
| `ExtractMedia.ImageExample` | tests/utils_test.go:147-155 | one `image/jpeg` image gives its id and `jpeg` |
| `ExtractMedia.VideoExample` | tests/utils_test.go:157-165 | a `video/mp4` video gives its id and `mp4` |
| `ExtractMedia.QuotedVideoUnbacked` | pkg/utils/extractmedia.go:26-30 | a quote-with-video post has no top-level video, so the code's precondition fails there; `MediaOf` gives the quoted video's id and extension |
| `RepoCommit.Selection` | pkg/core/repocommit.go:29-31 | at most as many ops as given, every one of them selected |
| `RepoCommit.Selected` | pkg/core/repocommit.go:30 | an op is selected when it is a creation whose path contains `feed` anywhere |
| `RepoCommit.SelectedIffOccurrence` | pkg/core/repocommit.go:30 | an op is selected exactly when it is a creation and `feed` occurs in its path at some offset |
| `RepoCommit.Rejection` | pkg/core/repocommit.go:38-40 | at most as many ops as given, none of them selected |
| `RepoCommit.Dispatches` | pkg/core/repocommit.go:29-37 | one download per selected op, in order, each with the event's repository, that op's path and the fixed directory |
| `RepoCommit.CommitHandler.RepoCommit` | pkg/core/repocommit.go:25-43 | another repository's event changes nothing; otherwise the dispatches, the wait counter (one per dispatch) and the log grow by exactly the selected and the rejected ops; the result is always no error |
| `RepoCommit.Partition` | pkg/core/repocommit.go:30-40 | every op is dispatched or logged, never both and never neither |
| `RepoCommit.SelectionMembers` | pkg/core/repocommit.go:29-31 | an op is among the dispatched exactly when it is in the event and is a creation whose path contains `feed` |
| `RepoCommit.FeedInRkeySelected` | pkg/core/repocommit.go:30 | `feed` in the record key is enough for a creation in any collection to be dispatched |
| `RepoCommit.OwnPostSelected` | pkg/core/repocommit.go:30 | creating an `app.bsky.feed.post` record is dispatched |
| `RepoCommit.DeleteNotSelected` | pkg/core/repocommit.go:30 | a deletion is never dispatched |
| `FetchPost.FetchPostIdentifier` | pkg/core/fetchpost.go:12-34 | the code as written fails exactly when fetching, marshalling or decoding the record fails |
| `FetchPost.FetchPostIdentifierChecked` | pkg/core/fetchpost.go:12-34 | succeeds exactly when the record decodes and has a subject, and then gives the subject's URI |
| `FetchPost.CheckedAgrees` | pkg/core/fetchpost.go:26-33 | wherever the code does not dereference a missing subject, the checked version returns the same |
| `FetchPost.IdentifierLookup` | pkg/core/fetchpost.go:13-31 | a `collection/rkey` path fetches `(collection, repo, rkey)`, and each failure of fetch, marshal or decode is returned as it is |
| `FetchPost.OwnPostHasNoSubject` | pkg/core/fetchpost.go:26-33 | an own post passes the commit filter and decodes to no subject: the code's precondition fails, the checked version reports `MissingSubject` |
| `FetchPost.DetailsOfView` | pkg/core/fetchpost.go:49-71 | success exactly when the record marshals and decodes; then the response is the decoded post, the text is its text, the handle and repository are the author's, the rkey is the URI's last segment, and the media is `MediaOf` of the embed exactly when there is one |
| `FetchPost.FetchPostDetails` | pkg/core/fetchpost.go:36-74 | success needs at least one post view whose record marshals and decodes; the response is that decoded post, and text, handle, repository, rkey and media are derived from it and the first view as `DetailsOfView` does |
| `FetchPost.DetailsFailures` | pkg/core/fetchpost.go:37-63 | an API error, zero posts, a marshal failure and an undecodable record each give their own error, wrapping the cause and the URI; otherwise the fetch succeeds |
| `FetchPost.FetchPostDetailsAsWritten` | pkg/core/fetchpost.go:36-74 | the code's steps, with `ExtractMedia` called on the embed, give exactly the details of `FetchPostDetails` wherever the embed meets `ExtractMedia`'s preconditions |
| `FetchPost.OnlyFirstPostUsed` | pkg/core/fetchpost.go:49 | views after the first change nothing |
| `FetchPost.RkeyExample` | tests/core_test.go:202-209 | `at://example/repo/rkey` gives the rkey `rkey` |
| `Ports.Host.GetBlob` | pkg/core/downloadposts.go:87 | records the fetch in the trace and returns the oracle's answer |
| `Ports.Host.OpenFile` | pkg/utils/writefile.go:9 | records the open in the trace and returns the oracle's error |
| `Ports.Host.Write` | pkg/utils/writefile.go:13 | records the write in the trace and returns the oracle's count and error |
| `Ports.Host.Close` | pkg/utils/writefile.go:14 | records the close in the trace and returns the oracle's error |
| `FileWriter.WriteFileCalls` | pkg/utils/writefile.go:35-49 | the first call opens the given path with create and write-only flags and mode 0644; one call if that fails, three otherwise |
| `FileWriter.WriteFileError` | pkg/utils/writefile.go:35-49 | the open error when the open fails, otherwise the write error; the close error is never returned |
| `FileWriter.WriteFile` | pkg/utils/writefile.go:35-49 | the calls made are `WriteFileCalls` and the error is the open error, else the write error |
| `FileWriter.WriteFileDisciplined` | pkg/utils/writefile.go:36-43 | the file is written and closed only after a successful open, and then closed exactly once |
| `FileWriter.FlagsDoNotTruncate` | pkg/utils/writefile.go:36 | the flags are create and write-only without truncate; the mode is 0644 |
| `FileWriter.ShortWriteSucceeds` | pkg/utils/writefile.go:41-48 | a write with no error succeeds whatever its count; a close error never surfaces |
| `FileWriter.FailedOpenWritesNothing` | pkg/utils/writefile.go:37-40 | a failed open is returned and neither write nor close follows |
| `DownloadPosts.ItemRun` | pkg/core/downloadposts.go:87-106 | one blob is fetched first, from the given repository |
| `DownloadPosts.BlobRunCalls` | pkg/core/downloadposts.go:84-130 | an empty plan makes no call and no error; a run that ends without error makes at least one call per blob |
| `DownloadPosts.Plan` | pkg/core/downloadposts.go:85-122 | the image items in order, then one video item exactly when the video id is not empty |
| `DownloadPosts.ItemPathExtension` | pkg/core/downloadposts.go:95-103 | `ItemPath` with the code's builder is `MakeFilepath` of the post's rkey, handle, text and media extension with limit 255, and ends with `.` and that extension |
| `DownloadPosts.AbortIsFinal` | pkg/core/downloadposts.go:88-90 | once a run has failed, further blobs change neither the calls nor the error |
| `DownloadPosts.FetchAndStore` | pkg/core/downloadposts.go:87-106 | fetch, name and write one blob: its calls and error are `ItemRun`'s |
| `DownloadPosts.DownloadImages` | pkg/core/downloadposts.go:85-109 | the image loop makes exactly the calls of the image plan, stopping at the first error |
| `DownloadPosts.DownloadBlobs` | pkg/core/downloadposts.go:84-130 | the calls and the error are those of running the plan (images, then the video) with the author's repository |
| `DownloadPosts.BlobRunFetches` | pkg/core/downloadposts.go:85-111 | the blobs are fetched in plan order from the author's repository, and all of them when the run succeeds |
| `DownloadPosts.BlobRunOpens` | pkg/core/downloadposts.go:104-124 | the files are opened in plan order, and all of them when the run succeeds |
| `DownloadPosts.BlobRunDisciplined` | pkg/core/downloadposts.go:86-128 | no blob is fetched while a file is open, and every opened file is closed |
| `DownloadPosts.PlanNumbering` | pkg/core/downloadposts.go:91-122 | several images are numbered 1, 2, … in order, a single image and the video get 0, and every path uses the post's own extension |
| `DownloadPosts.EmptyMediaNoCalls` | pkg/core/downloadposts.go:85-110 | a media record with no image and no video makes no call |
| `DownloadPosts.StoreRun` | pkg/core/downloadposts.go:58-80 | storing a post never fails at the identifier or detail stage; the blob calls come first; it stops at the blobs exactly when they fail, at marshalling exactly when the blobs succeeded and the marshal failed, and it reaches the write only when both succeeded |
| `DownloadPosts.StorePost` | pkg/core/downloadposts.go:58-81 | the calls and outcome are `StoreRun`'s |
| `DownloadPosts.DownloadPost` | pkg/core/downloadposts.go:43-82 | run as written with the default client, wherever it does not panic, its calls and outcome are those of the intended run `PostRunOf`: the stages in order, stopping at the first failure |
| `DownloadPosts.DownloadResolved` | pkg/core/downloadposts.go:51-82 | once the URI is known, run with the code's `FetchPostDetails` wherever it does not panic: the calls and outcome are those of `ResolvedRun`, which ends with the details error or stores the post |
| `DownloadPosts.OwnPostRun` | pkg/core/fetchpost.go:26-33 | for the account's own post create the code is not defined, and the intended run stops at the first stage with `MissingSubject`, making no blob or file-system call (the `getRecord` lookup is an oracle and is not traced) |
| `DownloadPosts.EarlyFailureTouchesNothing` | pkg/core/downloadposts.go:44-55 | a failure to resolve the post or its details makes no blob or file-system call (the `getRecord` and `getPosts` lookups are oracles and are not traced); any later outcome comes from storing the resolved details |
| `DownloadPosts.MetadataWrittenLast` | pkg/core/downloadposts.go:69-80 | the metadata file, named with extension `json` and index 0, is opened only after every blob succeeded and the record was marshalled, and it is the last file opened |
| `DownloadPosts.MetadataPathExtension` | pkg/core/downloadposts.go:69 | `MetadataPath` with the code's builder is `MakeFilepath` with extension `json`, index 0 and limit 255, and ends with `.json` |
| `DownloadPosts.BlobsOnlyWithMedia` | pkg/core/downloadposts.go:58-67 | a post without a media record downloads no blob |
| `DownloadPosts.PostRunDisciplined` | pkg/core/downloadposts.go:43-82 | the whole workflow keeps the file discipline |

## Left out

- Concurrency: the goroutine per dispatch, the semaphore and `wg.Done`
  (`pkg/core/repocommit.go:32-37`, `cmd/root.go`). Only the synchronous
  filter and the counter increment are modelled.
- The retry policy (`pkg/api/requests.go`): it lives in an external backoff
  library with timed, randomised jitter. `GetBlob`, `GetRecord` and `GetPost`
  are oracles that give the final success or error.
- The 500 ms pauses between blobs: timing only.
- JSON and CBOR encoding and decoding: oracles that may fail (`FetchPost.Codec`).
  `Ref.String()` is taken as the content id's bytes.
- `path.Clean`: every path property is stated on the string before cleaning.
  `filepath.Join` is modelled as joining its non-empty elements with the
  separator, without cleaning.
- `utf8.Valid` from Go's library is replaced by the RFC 3629 predicate.
- `FindExpression` as a general regular-expression search: only its two
  patterns are modelled. Both can match the empty string, so neither ever
  fails to match.
- Logging, CLI parsing and handle resolution (`cmd/root.go`,
  `pkg/utils/logger.go`, `pkg/utils/resolvehandle.go`). What `DownloadPost`
  would log is its `Outcome`.
- The `DownloadClient` interface as an open extension point: only the
  default client is modelled, whose methods call the package functions
  (`pkg/core/downloadposts.go:29-41`).
- `DownloadPosts.DownloadPost`: it calls the code's own
  `FetchPostIdentifier` and `FetchPostDetails` (with `ExtractMedia`), so it
  requires `RunDefined`, where the code does not panic. It does not model
  the panics on an own `app.bsky.feed.post` create (nil subject,
  `pkg/core/fetchpost.go:33`), on a quote of a post with a video
  (`pkg/utils/extractmedia.go:29`), or on an image shape with an empty
  list (`pkg/utils/extractmedia.go:23,37`).
- `DownloadPosts.PostRunOf`: the intended run, composed of the corrected
  `FetchPostIdentifierChecked` and of `FetchPostDetails` with `MediaOf`. On
  the three panic inputs above it reports `MissingSubject` or extracts the
  media where the code crashes. Elsewhere it is what the code does
  (`DownloadPosts.DownloadPost`).
- `FetchPost.DetailsOfView` and `FetchPost.FetchPostDetails`: the media is
  the corrected `MediaOf`, defined on every embed, not the code's
  `ExtractMedia`. `FetchPost.FetchPostDetailsAsWritten` is the code's
  version, and it agrees wherever `DetailsExtractable` holds.
- `DownloadPosts.Builder`: the three versions of `MakeFilepath` are taken as
  alternatives. The duplicate declarations that would arise from compiling
  the unconstrained `pkg/utils/filename.go` beside a platform file are not
  modelled.
- The `ctx` parameter: it carries no logic here.
- `Ports.Host`: its answers are fixed functions of the call's arguments. The
  open error depends on the path alone, and the write outcome on the path
  and the data. So the same call made twice gets the same answer, and
  answers that change over time (a disk filling up, a blob appearing later)
  are not modelled.
- `FetchPost.FeedPost`: of `bsky.FeedPost`, only the text and the embed
  are modelled field by field. Its other fields (reply, facets, langs,
  labels, tags, creation time) are carried together as one opaque value,
  `rest`. `decodePost` fills it and `marshalIndent` reads it, so the
  metadata file still depends on them, but their structure is not
  modelled.
- The thin network wrappers and the superseded copies of the same functions
  (`main.go`, `core/`, `utils/`, `pkg/core/downloadblobs.go`,
  `pkg/core/downloadBlobs.go`).
- `ExtractMedia.ExtractMedia`: the two dereferences that panic (the first
  image of an empty image list; the top-level video read for a quoted video)
  are preconditions, not modelled crashes.
- `FetchPost.FetchPostIdentifier`: the dereference of a missing subject is a
  precondition, not a modelled crash.

## Findings

| source | as written | input that shows it | evidently intended | confidence | as-written member | corrected member |
|---|---|---|---|---|---|---|
| pkg/utils/extractmedia.go:26-30 | the quote-with-media video branch reads the MIME type of the top-level `EmbedVideo` | a post quoting another post with an attached video: only `EmbedRecordWithMedia` is set, so `record.EmbedVideo` is nil and is dereferenced | read `media.EmbedVideo.Video.MimeType` | high, not executed | `ExtractMedia.ExtractMedia` with `ExtractMedia.QuotedVideoUnbacked` | `ExtractMedia.MediaOf` |
| pkg/core/fetchpost.go:26-33 | every dispatched record is decoded as a like and `Subject.Uri` is read without a nil check | the account creates an `app.bsky.feed.post` record: the filter dispatches it, the post decodes as a like with no subject, and the nil subject is dereferenced | report a missing subject as an error | medium, not executed | `FetchPost.FetchPostIdentifier` with `FetchPost.OwnPostHasNoSubject` | `FetchPost.FetchPostIdentifierChecked` |
