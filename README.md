# download-links-zip: a Dafny model of the job pipeline

The service takes a list of links, a name, a format and a recipient address.
It downloads every link into a working directory, zips the directory,
uploads the archive to Google Drive, and emails a link to it. Then it cleans
up. Two variants of the pipeline exist:

- `download.js` is the queue worker. Each link gets a random start delay and
  a destination file named after the link's last path segment. After the
  batch joins, `zipAndUpload` runs zip, upload (create, then grant public
  read) and email inside one `try/catch/finally`. The `finally` block
  unlinks the archive.
- `index.js` is the single-process prototype. Its POST handler creates
  `'./' + name` if nothing is there yet. The batch's completion callback then
  zips, and is meant to upload (create only), email and clean up with no
  surrounding `try`; its `cleanUp` deletes nothing. As written, its upload
  builds the Drive client from the wrong callback argument, throws before
  the create call and never settles, so the callback stops after the zip
  step (see "Findings").

The model has six modules:

- `Strings` holds JavaScript's `split('/')`, `join` and `includes` on
  `seq<char>`. It also holds the reference definition "the part after the
  last separator" (`AfterLast`).
- `Naming` covers origin classification and destination naming in
  `download.js`.
- `Jitter` covers `randomIntFromInterval` and the per-link delay. The random
  number in [0, 1) is a fraction `num / den` with `num < den`.
- `Host` has the class `Machine`. It holds the local file system as sets of
  directory and file paths, the remote store as sets of object identifiers
  (stored and publicly readable), and the trace of pipeline steps. It also
  has the primitives `mkdirSync`, `createWriteStream`, `unlink`, the two
  Drive calls and the archiver.
- `Download` models the imperative part of `download.js`: `ensureDirSync`,
  the per-link setup, `zipDirectory`, `uploadZipToCloud`,
  `sendLinkViaEmail`, `cleanUp` and `zipAndUpload`.
- `Server` models `index.js`: `getLessonName`, the POST handler,
  `uploadZipToCloud`, the completion callback and its `cleanUp`.

The outcome of each foreign stage is an input to a run. The archiver
finishes, fails or never finishes. Each Drive callback gets a result or an
error. These outcomes are gathered in `Host.Env`. Each pipeline method is
proved against a function that gives the trace of steps it executes (and the
files it leaves). Lemmas about those functions state the ordering and
clean-up properties.

Three behaviours of the code are worth stating:

- Delays lie in the closed interval [3000, N * 15000] ms, because
  `randomIntFromInterval` includes `max`.
- Clean-up in `download.js` removes only `dir + '.zip'`, never the working
  directory or the downloaded files. In `index.js` it removes nothing.
- In `index.js` the upload has no permission step. A zip failure does not
  stop the upload. An upload rejection skips email and clean-up.

## Model

| member | source | states |
|---|---|---|
| `Strings.Split` | download.js:236 | `split('/')` always yields at least one piece, and no piece contains the separator |
| `Strings.JoinSplit` | download.js:236 | joining the pieces of a split with the separator gives back the original string |
| `Strings.SplitJoin` | download.js:236 | splitting the join of separator-free pieces gives back exactly those pieces |
| `Strings.AfterLast` | download.js:235-238 | the last segment has no separator, is a suffix of the string, and is either the whole string or preceded by a separator |
| `Strings.AfterLastUnique` | download.js:235-238 | those three properties determine the last segment uniquely |
| `Strings.AfterLastWhole` | download.js:235-238 | a string without a separator is its own last segment |
| `Strings.LastOfSplit` | download.js:236-237 | `parts[parts.length - 1]` of the split is the part after the last separator |
| `Strings.IncludesIff` | download.js:118 | `includes` holds exactly when the pattern occurs at some index of the string |
| `Naming.GetOriginType` | download.js:117-123 | `YouTube` exactly when the link contains `www.youtube.com/watch?v` anywhere, `default` exactly otherwise |
| `Naming.GetUniqueName` | download.js:235-238 | the name is the part after the link's last `/`, contains no `/`, and is the whole link when it has no `/` |
| `Naming.GetEnding` | download.js:218-233 | `'.' + format` for `mp3` and `mp4`, the empty string for any other format |
| `Naming.EndingIgnoresLink` | download.js:224-228 | the ending is the same for every link, since the `forEach` callback's `return ''` has no effect |
| `Naming.GetDest` | download.js:214-216 | the destination is `dir + '/'`, then the last segment, then the suffix of a supported format; the origin type plays no part |
| `Naming.DestIsDirectChild` | download.js:214-216 | every destination, for any format, is a direct child of the working directory |
| `Naming.DestCollision` | download.js:214-216 | two links get the same destination exactly when their last segments agree |
| `Naming.BatchDests` | download.js:29-50 | the loop opens one destination per link, in link order; each is a file directly inside the working directory whose name starts with the link's last segment |
| `Naming.BatchDestsDistinct` | download.js:44-50 | a batch's destinations are pairwise distinct exactly when its links' last segments are |
| `Jitter.MaxDelay` | download.js:33 | the upper delay bound `N * 60 * 1000 / 4` is exactly `N * 15000` ms |
| `Jitter.RandomIntFromInterval` | download.js:25-27 | for `min <= max`, every draw in [0, 1) gives a value in [min, max], both ends included |
| `Jitter.FloorFractionBound` | download.js:26 | `floor(r * span)` lies in [0, span - 1] for `r` in [0, 1) and a positive span |
| `Jitter.EveryValueReachable` | download.js:25-27 | every integer of [min, max] is produced by some draw |
| `Jitter.LinkDelay` | download.js:33 | for a batch of `N >= 1` links, each delay lies in [3000, N * 15000] |
| `Jitter.BatchDelays` | download.js:30-34 | one delay per link of the batch, each within [3000, N * 15000] |
| `Host.Machine.MkdirSync` | download.js:56 | EEXIST when anything is at the path; otherwise the environment's fault with nothing changed, or the new directory |
| `Host.Machine.OpenWrite` | download.js:243 | opening a write stream creates the file and changes nothing else |
| `Host.Machine.Unlink` | download.js:126 | the file is gone afterwards; ENOENT when it was not there |
| `Host.Machine.FilesCreate` | download.js:145-153 | a successful create stores the object remotely; the call is recorded |
| `Host.Machine.PermissionsCreate` | download.js:154-164 | a successful grant makes the object readable by anyone; the call is recorded |
| `Host.Machine.Archive` | download.js:240-254 | the output file exists afterwards whatever the archiver does, and the promise follows the archiver's outcome |
| `Download.EnsureDir` | download.js:54-60 | on a normal return the path exists; on a throw nothing changed and the error is the environment's fault; an existing path gives no change and no throw; any fault on a missing path is rethrown with nothing changed; at most the one directory is added |
| `Download.EnsureDirIdempotent` | download.js:54-60 | after a normal return, a second call changes nothing and throws nothing, whatever the environment would raise |
| `Download.EnsureDirSync` | download.js:54-60 | directories and thrown error are those of `EnsureDir`; files, remote store and trace are unchanged |
| `Download.DownloadCourseFromLink` | download.js:43-52 | when set-up succeeds, the working directory exists and the returned `DownloadTask` carries the link's origin type and `getDest` destination; the new directory set and the thrown error are exactly those of `EnsureDir`, so nothing changes when it throws |
| `Download.ZipPath` | download.js:241 | the archive path is the directory path followed by `.zip` |
| `Download.ZipNotInsideDir` | download.js:241-247 | the archive is never a direct child of the directory it packs |
| `Download.ZipDirectory` | download.js:240-254 | resolves with `source + '.zip'` exactly when the archiver finishes; the archive file exists afterwards; the zip step is recorded |
| `Download.UploadOutcome` | download.js:149-165 | resolves with `webViewLink` exactly when create and grant both succeed; rejects exactly when create fails; never settles exactly when create succeeds and the grant fails |
| `Download.UploadZipToCloud` | download.js:132-174 | result as `UploadOutcome`; the object is stored when create succeeds and readable only when the grant succeeds too |
| `Download.SendLinkViaEmail` | download.js:176-212 | records one message to the recipient with the link; nothing else changes |
| `Download.CleanUpDir` | download.js:125-130 | removes exactly `dir + '.zip'` and no directory |
| `Download.ZipAndUpload` | download.js:63-77 | returns whether every stage settled; the trace, files and remote store after the run are those of the specification functions; directories are unchanged |
| `Download.CleanUpOnceIffSettled` | download.js:71-76 | clean-up runs exactly once, as the last step, when every awaited stage settles, and never otherwise |
| `Download.UploadOnlyAfterZip` | download.js:65-67 | the run starts with the zip step; an upload happens only right after it, only when the archiver finished, and uploads `dir + '.zip'` |
| `Download.EmailOnlyAfterGrant` | download.js:67-69 | an email is sent only when create and grant succeeded, right after the grant step, with the created object's `webViewLink` |
| `Download.RejectionCaught` | download.js:71-72 | an error is logged exactly when the archiver or the create call failed |
| `Download.ArchiveRemovedIffSettled` | download.js:73-76 | the archive is gone after a run exactly when the run settled; no other path changes |
| `Download.PartialPublish` | download.js:154-164 | when the grant fails after a successful create, the run stops after the grant step, with no email and no clean-up, and the archive stays |
| `Server.GetLessonName` | index.js:145-148 | the name is the part after the link's last `/` and contains no `/` |
| `Server.LessonNameIsUniqueName` | index.js:145-148 | `getLessonName` equals the worker's `getUniqueName` on every link |
| `Server.LessonDest` | index.js:32 | a link's destination is `dir + '/'` and its last segment, with no format suffix |
| `Server.LessonDestMatchesWorker` | index.js:32 | the worker's destination is this one plus the format ending; without a supported format the two agree |
| `Server.WorkingDir` | index.js:19 | the working directory is `./` followed by the request's name |
| `Server.HandlePost` | index.js:18-32 | the directory is created only when nothing is at its path; the request is accepted unless `mkdirSync` throws; destinations are `dir + '/'` plus each link's last segment |
| `Server.UploadAsWrittenNeverResolves` | index.js:74-75 | as written, with the callback arguments taken in the order `(auth, google)`, the upload never settles, whatever the store replies |
| `Server.UploadOutcome` | index.js:86-97 | the intended upload resolves with `webViewLink` exactly when create succeeds and rejects exactly when it fails; there is no grant step |
| `Server.UploadWithApiModule` | index.js:74-75 | building the Drive client from the first callback argument gives the intended upload |
| `Server.UploadZipToCloud` | index.js:71-106 | with the corrected client construction: result as `Server.UploadOutcome`; the create call is the only step recorded |
| `Server.SendLinkViaEmail` | index.js:108-143 | records one message with the link to the fixed address `fvitkovski@mail.de` |
| `Server.CleanUpDir` | index.js:63-69 | records the clean-up step and deletes nothing |
| `Server.OnBatchComplete` | index.js:48-59 | with the corrected upload: ends completed, stalled or with an unhandled rejection as `CompletionOf` says; trace as `CompletionTrace`; the archive stays in every case |
| `Server.CallbackAsWrittenStalls` | index.js:48-75 | as written, the callback always stalls inside the upload: its trace is the zip step plus the logged error of a failed archive, with no create, no email and no clean-up |
| `Server.ZipFailureStillUploads` | index.js:50-56 | after a zip failure the error is logged and the upload of `dir + '.zip'` follows at once |
| `Server.UploadRejectionEscapes` | index.js:56-58 | an upload rejection ends the callback at the create step, with no email and no clean-up |
| `Server.CleanUpOnceIffCompleted` | index.js:56-69 | clean-up runs once exactly when the callback completes; no grant step ever runs; every email carries the created object's link and goes to the fixed address |

## Findings

| source | as written | input that shows it | evidently intended | confidence | as-written member | corrected member |
|---|---|---|---|---|---|---|
| index.js:74-75 | the callback declares its parameters as `(auth, google)` and calls `google.drive`. auth.js:23 passes the API module first and the JWT client second. So `drive` is looked up on the JWT client, the callback throws, and the upload promise never settles | any upload, e.g. a create reply `Done(RemoteFile("id", "https://drive/x"))` | take `(google, auth)` as download.js:134 does, so the promise settles with the create call's outcome | high (not executed) | `Server.UploadAsWrittenNeverResolves` | `Server.UploadOutcome` |

## Left out

- The fetches themselves are left out because they are network I/O. This covers `ytdl` streaming, `https.get` and the piping into the file (download.js:79-93, index.js:33-47). Only the set-up of each link is modelled: its origin type, the working directory and its destination.
- The write-stream event handlers (download.js:95-115) are left out because they are event-driven I/O. Note that their `'close'` handler unlinks every finished file before zipping, and `cb` at line 108 is undefined.
- `async.forEachOf`, the `setTimeout` scheduling and the batch join (download.js:30-40, index.js:31-48) are left out because they are concurrency and timers. Only the integer delay bound is modelled. A run of the post-join pipeline starts from the join.
- The Bull queue, the `throng` worker pool and the Redis configuration (download.js:9-16, 256-264) are left out because they are process-level concurrency.
- Message composition and the mail transport (download.js:176-212, index.js:108-143) are left out because they are foreign calls. Sending is a step that cannot fail, because the function returns no promise.
- The archiver's compression and the archive's contents are left out because they belong to a library. Only the output path and the archiver's outcome, which is an input, are kept.
- Express routing, body parsing and the reply text (index.js:1-17, 27, 172-175) are left out because they are HTTP plumbing.
- auth.js is left out because it is only credential bootstrap. Its one relevant fact, the order of the callback's arguments, is in `Server.AuthArg`.
- freeUpGoogleDrive.js is left out because it is a one-shot script of foreign calls.
- `Math.random` is replaced by an exact fraction in [0, 1). Floating-point rounding of the product is not modelled.
- The retention window and the access callback that deletes remote objects are not part of these two files, so they are not part of this model.
- `Download.DownloadCourseFromLink`: an error that `ensureDirSync` throws inside the timer callback is returned as `Threw`. In Node it is an uncaught exception that ends the process. That crash is not modelled.
- `Server.UploadAsWrittenNeverResolves`: how Node reports the `TypeError` thrown in the credential callback depends on the credential library, which is not part of this model. The model records only that the upload promise is never settled.
- `Server.UploadZipToCloud`: models the upload with the Drive client built from the API module, the corrected construction. As written (index.js:74-75) the create call is never made and the promise never settles; `Server.UploadAsWrittenNeverResolves` states that.
- `Server.OnBatchComplete`: composes the corrected upload. As written, the callback stalls after the zip step with no create, email or clean-up; `Server.CallbackAsWrittenStalls` states that. It also reports an unhandled rejection as `Unhandled`; whether Node then terminates the process depends on its version and is not modelled.
- `Host.Machine.MkdirSync`: the environment's faults are three representative codes (ENOENT, EACCES, ENOSPC). Parent directories and permissions are not modelled.
