/** The single-process variant of the pipeline (index.js): the POST handler
    creates the working directory and starts the download; the batch's
    completion callback zips, uploads, emails and cleans up in sequence,
    without a surrounding try/catch. */
module Server {
  import opened Strings
  import opened Host
  import Naming
  import Download

  /** `getLessonName`: the last `/`-separated piece of the link. */
  function GetLessonName(link: string): (name: string)
    ensures name == AfterLast(link, '/')
    ensures '/' !in name
  {
    LastOfSplit(link, '/');
    Last(Split(link, '/'))
  }

  /** The name is the worker's unique name for the same link. */
  lemma LessonNameIsUniqueName(link: string, originType: Naming.OriginType)
    ensures GetLessonName(link) == Naming.GetUniqueName(link, originType)
  {
  }

  /** The destination of one link in `download`: no format suffix. */
  function LessonDest(dir: Path, link: string): (dest: Path)
    ensures dest == dir + "/" + AfterLast(link, '/')
  {
    dir + "/" + GetLessonName(link)
  }

  /** The worker's destination is this one plus the format suffix; for a
      format without a suffix both variants write a link to the same file. */
  lemma LessonDestMatchesWorker(dir: Path, link: string, format: string, originType: Naming.OriginType)
    ensures Naming.GetDest(dir, link, format, originType)
            == LessonDest(dir, link) + Naming.GetEnding(format, link)
    ensures format != "mp3" && format != "mp4" ==>
              Naming.GetDest(dir, link, format, originType) == LessonDest(dir, link)
  {
  }

  /** The working directory of a request: `'./' + name`. */
  function WorkingDir(name: string): (dir: Path)
    ensures |dir| == |name| + 2 && dir[..2] == "./" && dir[2..] == name
  {
    "./" + name
  }

  /** What the POST handler does: accepts the request with the directory and
      the destinations of its links, or fails when `mkdirSync` throws (the
      handler's promise rejects and no reply is sent). */
  datatype PostResult = Accepted(dir: Path, dests: seq<Path>) | Rejected(fault: IoFault)

  /** The POST handler up to sending the reply: the directory is made only
      when nothing is at its path yet; then `download(links, dir)` computes
      one destination per link. The write streams opened on them and the
      fetches are not modelled, so the file set is unchanged. */
  method HandlePost(m: Machine, name: string, links: seq<string>, fault: Option<IoFault>)
    returns (r: PostResult)
    modifies m
    ensures r.Accepted? <==> old(m.ExistsSync(WorkingDir(name))) || fault == None
    ensures r.Accepted? ==> r.dir == WorkingDir(name) && m.ExistsSync(r.dir)
    ensures r.Accepted? ==> |r.dests| == |links|
    ensures r.Accepted? ==>
              forall i :: 0 <= i < |links| ==> r.dests[i] == WorkingDir(name) + "/" + AfterLast(links[i], '/')
    ensures r.Rejected? ==> Some(r.fault) == fault
    ensures m.dirs == if !old(m.ExistsSync(WorkingDir(name))) && fault == None
                      then old(m.dirs) + {WorkingDir(name)} else old(m.dirs)
    ensures m.files == old(m.files) && m.remote == old(m.remote)
    ensures m.readable == old(m.readable) && m.trace == old(m.trace)
  {
    var dir := WorkingDir(name);
    if !m.ExistsSync(dir) {
      var err := m.MkdirSync(dir, fault);
      if err.Some? {
        return Rejected(err.value.fault);
      }
    }
    var dests := seq(|links|, i requires 0 <= i < |links| => LessonDest(dir, links[i]));
    r := Accepted(dir, dests);
  }

  // ----- uploadZipToCloud ----------------------------------------------------

  /** The two values the credential helper passes to its callback, in order:
      the API module, then the authorised client. */
  datatype AuthArg = ApiModule | JwtClient

  /** Only the API module can build a Drive client. */
  predicate HasDriveFactory(a: AuthArg)
  {
    a == ApiModule
  }

  /** The argument the upload builds its Drive client from. As written, the
      callback names its parameters `(auth, google)` and calls
      `google.drive`, i.e. on the SECOND argument. */
  function DriveSourceAsWritten(first: AuthArg, second: AuthArg): AuthArg
  {
    second
  }

  /** How the upload promise ends when the callback receives `first, second`
      and uses `use` to build its client: a value without a `drive` method
      throws inside the callback, and the promise is never settled. */
  function UploadWith(use: AuthArg, create: Reply<RemoteFile>): Outcome<string>
  {
    if !HasDriveFactory(use) then Hangs else UploadOutcome(create)
  }

  /** `uploadZipToCloud` exactly as written, with the credential helper
      passing the API module first. */
  function UploadAsWritten(create: Reply<RemoteFile>): Outcome<string>
  {
    UploadWith(DriveSourceAsWritten(ApiModule, JwtClient), create)
  }

  /** As written, the upload can never resolve, whatever the store replies. */
  lemma {:induction false} UploadAsWrittenNeverResolves(create: Reply<RemoteFile>)
    ensures UploadAsWritten(create) == Hangs
  {
  }

  /** The intended upload: the promise resolves with the link straight after
      the create call, rejects when it fails, and has no permission step. */
  function UploadOutcome(create: Reply<RemoteFile>): (r: Outcome<string>)
    ensures r.Ok? <==> create.Done?
    ensures r.Ok? ==> r.value == create.value.webViewLink
    ensures r.Err? <==> create.Failed?
  {
    match create
    case Failed => Err
    case Done(file) => Ok(file.webViewLink)
  }

  /** Building the client from the first argument is the intended upload. */
  lemma UploadWithApiModule(create: Reply<RemoteFile>)
    ensures UploadWith(ApiModule, create) == UploadOutcome(create)
  {
  }

  /** `uploadZipToCloud(zip)`, with the client built from the API module
      (the corrected construction; see `UploadAsWritten`). */
  method UploadZipToCloud(m: Machine, zip: Path, create: Reply<RemoteFile>) returns (link: Outcome<string>)
    modifies m
    ensures link == UploadOutcome(create)
    ensures m.trace == old(m.trace) + [CreateRemote(zip)]
    ensures m.remote == if create.Done? then old(m.remote) + {create.value.id} else old(m.remote)
    ensures m.dirs == old(m.dirs) && m.files == old(m.files) && m.readable == old(m.readable)
  {
    m.FilesCreate(zip, create);
    match create
    case Failed => link := Err;
    case Done(file) => link := Ok(file.webViewLink);
  }

  // ----- the completion callback -------------------------------------------

  /** The fixed address every message of this variant goes to. */
  const Recipient: string := "fvitkovski@mail.de"

  /** `sendLinkViaEmail(link)`: hands the message to the transport; errors
      are only logged. */
  method SendLinkViaEmail(m: Machine, link: string)
    modifies m
    ensures m.trace == old(m.trace) + [SendMail(Recipient, link)]
    ensures m.dirs == old(m.dirs) && m.files == old(m.files)
    ensures m.remote == old(m.remote) && m.readable == old(m.readable)
  {
    m.Record(SendMail(Recipient, link));
  }

  /** `cleanUp(dir)`: only logs; the unlink is commented out. */
  method CleanUpDir(m: Machine, dir: Path)
    modifies m
    ensures m.trace == old(m.trace) + [CleanUp(dir)]
    ensures m.dirs == old(m.dirs) && m.files == old(m.files)
    ensures m.remote == old(m.remote) && m.readable == old(m.readable)
  {
    m.Record(CleanUp(dir));
  }

  /** How the completion callback ends: it ran to the end, it waits forever
      on a pending promise, or an upload rejection escapes it. */
  datatype Completion = Completed | Stalled | Unhandled

  /** The end of a completion callback. */
  function CompletionOf(env: Env): Completion
  {
    if env.archive.Hangs? then Stalled
    else if env.create.Failed? then Unhandled
    else Completed
  }

  /** The steps the completion callback executes. */
  function CompletionTrace(dir: Path, env: Env): seq<Step>
  {
    var out := Download.ZipPath(dir);
    var zipped := [Zip(dir, out)];
    if env.archive.Hangs? then zipped
    else
      var caught := if env.archive.Err? then [LogError] else [];
      var uploaded := zipped + caught + [CreateRemote(out)];
      match UploadOutcome(env.create)
      case Ok(link) => uploaded + [SendMail(Recipient, link), CleanUp(dir)]
      case _ => uploaded
  }

  /** The completion callback of `download(links, dir)`, composing the
      corrected upload. The callback as written is `CompletionTraceAsWritten`. */
  method OnBatchComplete(m: Machine, dir: Path, env: Env) returns (c: Completion)
    modifies m
    ensures c == CompletionOf(env)
    ensures m.trace == old(m.trace) + CompletionTrace(dir, env)
    ensures m.files == old(m.files) + {Download.ZipPath(dir)}
    ensures m.dirs == old(m.dirs) && m.readable == old(m.readable)
    ensures m.remote == if !env.archive.Hangs? && env.create.Done?
                        then old(m.remote) + {env.create.value.id} else old(m.remote)
  {
    var out := Download.ZipPath(dir);
    var zipped := m.Archive(dir, out, env.archive);
    if zipped.Hangs? {
      return Stalled;
    }
    if zipped.Err? {
      m.Record(LogError);
    }
    var link := UploadZipToCloud(m, out, env.create);
    if !link.Ok? {
      return Unhandled;
    }
    SendLinkViaEmail(m, link.value);
    CleanUpDir(m, dir);
    c := Completed;
  }

  // ----- properties of the completion callback ------------------------------

  /** A zip failure is caught and logged, and the upload of the (broken)
      archive is still attempted right after. */
  lemma ZipFailureStillUploads(dir: Path, env: Env)
    requires env.archive.Err?
    ensures CompletionTrace(dir, env)[..3]
            == [Zip(dir, Download.ZipPath(dir)), LogError, CreateRemote(Download.ZipPath(dir))]
  {
  }

  /** An upload rejection escapes: the callback ends there, without email and
      without clean-up. */
  lemma {:induction false} UploadRejectionEscapes(dir: Path, env: Env)
    requires !env.archive.Hangs? && env.create.Failed?
    ensures CompletionOf(env) == Unhandled
    ensures Last(CompletionTrace(dir, env)) == CreateRemote(Download.ZipPath(dir))
    ensures forall i :: 0 <= i < |CompletionTrace(dir, env)| ==> !CompletionTrace(dir, env)[i].SendMail?
    ensures CleanUps(CompletionTrace(dir, env)) == 0
  {
    NoCleanUps(CompletionTrace(dir, env));
  }

  /** Clean-up runs once exactly when the callback completes; the email
      before it carries the link of the create call, with no permission
      step anywhere, and goes to the fixed address. */
  lemma {:induction false} CleanUpOnceIffCompleted(dir: Path, env: Env)
    ensures CleanUps(CompletionTrace(dir, env)) == if CompletionOf(env) == Completed then 1 else 0
    ensures forall i :: 0 <= i < |CompletionTrace(dir, env)| ==> !CompletionTrace(dir, env)[i].GrantRead?
    ensures forall i :: 0 <= i < |CompletionTrace(dir, env)| && CompletionTrace(dir, env)[i].SendMail? ==>
              CompletionTrace(dir, env)[i] == SendMail(Recipient, env.create.value.webViewLink)
  {
    var t := CompletionTrace(dir, env);
    if CompletionOf(env) == Completed {
      var n := |t|;
      assert t == t[..n - 1] + [CleanUp(dir)];
      NoCleanUps(t[..n - 1]);
      CleanUpsAppend(t[..n - 1], [CleanUp(dir)]);
    } else {
      NoCleanUps(t);
    }
  }

  // ----- the completion callback as written ---------------------------------

  /** How the completion callback as written ends: as `CompletionOf`, but
      with the upload of `UploadAsWritten`. */
  function CompletionOfAsWritten(env: Env): Completion
  {
    if env.archive.Hangs? then Stalled
    else match UploadAsWritten(env.create)
      case Hangs => Stalled
      case Err => Unhandled
      case Ok(_) => Completed
  }

  /** The steps the completion callback as written executes: the create call
      is made only when the Drive client could be built. */
  function CompletionTraceAsWritten(dir: Path, env: Env): seq<Step>
  {
    var out := Download.ZipPath(dir);
    var zipped := [Zip(dir, out)];
    if env.archive.Hangs? then zipped
    else
      var caught := if env.archive.Err? then [LogError] else [];
      match UploadAsWritten(env.create)
      case Hangs => zipped + caught
      case Err => zipped + caught + [CreateRemote(out)]
      case Ok(link) => zipped + caught + [CreateRemote(out), SendMail(Recipient, link), CleanUp(dir)]
  }

  /** As written, every run of the callback stalls inside the upload: after
      the zip step (and the logged error of a failed archive) nothing more
      happens, so no object is created, no email is sent and no clean-up
      runs, whatever the archiver and the store do. */
  lemma {:induction false} CallbackAsWrittenStalls(dir: Path, env: Env)
    ensures CompletionOfAsWritten(env) == Stalled
    ensures CompletionTraceAsWritten(dir, env)
            == [Zip(dir, Download.ZipPath(dir))] + (if env.archive.Err? then [LogError] else [])
    ensures CleanUps(CompletionTraceAsWritten(dir, env)) == 0
  {
    UploadAsWrittenNeverResolves(env.create);
    NoCleanUps(CompletionTraceAsWritten(dir, env));
  }
}
