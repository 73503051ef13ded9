/** The queue worker's job pipeline (download.js): preparing each link's
    download, then, once the batch has joined, zip -> upload -> email inside
    one try/catch/finally whose finally block cleans up. */
module Download {
  import opened Strings
  import opened Host
  import opened Naming

  // ----- ensureDirSync -------------------------------------------------------

  /** What `ensureDirSync` does to the directory set, and the error it
      rethrows. `mkdirSync` fails with EEXIST when anything is at the path,
      which is swallowed; any other error propagates unchanged. */
  function EnsureDir(dirs: set<Path>, files: set<Path>, path: Path, fault: Option<IoFault>)
    : (r: (set<Path>, Option<IoFault>))
    ensures r.1 == None ==> path in r.0 || path in files
    ensures r.1 != None ==> r.0 == dirs && r.1 == fault
    ensures path in dirs || path in files ==> r == (dirs, None)
    ensures r.0 - dirs <= {path} && dirs <= r.0
    ensures path !in dirs && path !in files && fault.Some? ==> r == (dirs, fault)
  {
    if path in dirs || path in files then (dirs, None)
    else if fault.Some? then (dirs, fault)
    else (dirs + {path}, None)
  }

  /** Once `ensureDirSync` has returned normally, calling it again, whatever
      the environment would raise, changes nothing and throws nothing. */
  lemma EnsureDirIdempotent(dirs: set<Path>, files: set<Path>, path: Path,
                            fault1: Option<IoFault>, fault2: Option<IoFault>)
    requires EnsureDir(dirs, files, path, fault1).1 == None
    ensures EnsureDir(EnsureDir(dirs, files, path, fault1).0, files, path, fault2)
            == (EnsureDir(dirs, files, path, fault1).0, None)
  {
  }

  /** `ensureDirSync(dirpath)` */
  method EnsureDirSync(m: Machine, path: Path, fault: Option<IoFault>) returns (thrown: Option<IoFault>)
    modifies m
    ensures (m.dirs, thrown) == EnsureDir(old(m.dirs), old(m.files), path, fault)
    ensures m.files == old(m.files) && m.remote == old(m.remote)
    ensures m.readable == old(m.readable) && m.trace == old(m.trace)
  {
    var err := m.MkdirSync(path, fault);
    if err.Some? && err.value != AlreadyExists {
      thrown := Some(err.value.fault);
    } else {
      thrown := None;
    }
  }

  // ----- one link of the batch ---------------------------------------------

  /** One link's download as the worker sets it up. */
  datatype DownloadTask = DownloadTask(link: string, originType: OriginType, dest: Path)

  /** How starting one link's download ends. */
  datatype Start = Started(task: DownloadTask) | Threw(fault: IoFault)

  /** `downloadCourseFromLink` up to the fetch: classify the link, make sure
      the working directory exists (an error escapes the timer callback),
      and compute the destination. The fetch itself is not modelled. */
  method DownloadCourseFromLink(m: Machine, link: string, dir: Path, format: string,
                                fault: Option<IoFault>) returns (s: Start)
    modifies m
    ensures s.Started? ==> m.ExistsSync(dir)
    ensures s.Started? ==> s.task == DownloadTask(link, GetOriginType(link),
                                                  GetDest(dir, link, format, GetOriginType(link)))
    ensures s.Started? <==> old(m.ExistsSync(dir)) || fault == None
    ensures s.Threw? ==> m.dirs == old(m.dirs) && Some(s.fault) == fault
    ensures (m.dirs, if s.Threw? then Some(s.fault) else None)
            == EnsureDir(old(m.dirs), old(m.files), dir, fault)
    ensures m.files == old(m.files) && m.remote == old(m.remote)
    ensures m.readable == old(m.readable) && m.trace == old(m.trace)
  {
    var originType := GetOriginType(link);
    var thrown := EnsureDirSync(m, dir, fault);
    if thrown.Some? {
      return Threw(thrown.value);
    }
    s := Started(DownloadTask(link, originType, GetDest(dir, link, format, originType)));
  }

  // ----- zipDirectory --------------------------------------------------------

  /** The archive of a working directory: the directory's path plus `.zip`. */
  function ZipPath(dir: Path): (out: Path)
    ensures |out| == |dir| + 4 && out[..|dir|] == dir && out[|dir|..] == ".zip"
  {
    dir + ".zip"
  }

  /** The archive is a sibling of the directory it packs, never one of its
      direct children, so it is not swept into itself. */
  lemma ZipNotInsideDir(dir: Path)
    ensures !DirectChild(dir, ZipPath(dir))
  {
    var out := ZipPath(dir);
    assert out[|dir|] == '.';
    assert (dir + "/")[|dir|] == '/';
  }

  /** `zipDirectory(source)`: writes `source + '.zip'` and resolves with that
      path when the archiver finishes. */
  method ZipDirectory(m: Machine, source: Path, archive: Outcome<()>) returns (r: Outcome<Path>)
    modifies m
    ensures r.Ok? <==> archive.Ok?
    ensures r.Err? <==> archive.Err?
    ensures r.Ok? ==> r.value == ZipPath(source)
    ensures m.files == old(m.files) + {ZipPath(source)}
    ensures m.trace == old(m.trace) + [Zip(source, ZipPath(source))]
    ensures m.dirs == old(m.dirs) && m.remote == old(m.remote) && m.readable == old(m.readable)
  {
    var out := ZipPath(source);
    var done := m.Archive(source, out, archive);
    match done
    case Ok(_) => r := Ok(out);
    case Err => r := Err;
    case Hangs => r := Hangs;
  }

  // ----- uploadZipToCloud ----------------------------------------------------

  /** How the upload promise ends, given the replies of the create call and
      of the permission call. The permission callback only logs an error,
      so a failed grant leaves the promise pending for good. */
  function UploadOutcome(create: Reply<RemoteFile>, grant: Reply<()>): (r: Outcome<string>)
    ensures r.Ok? <==> create.Done? && grant.Done?
    ensures r.Ok? ==> r.value == create.value.webViewLink
    ensures r.Err? <==> create.Failed?
    ensures r.Hangs? <==> create.Done? && grant.Failed?
  {
    match create
    case Failed => Err
    case Done(file) => if grant.Done? then Ok(file.webViewLink) else Hangs
  }

  /** The steps an upload records: the create call, and the permission call
      when the create call succeeded. */
  function UploadSteps(zip: Path, create: Reply<RemoteFile>): seq<Step>
  {
    if create.Done? then [CreateRemote(zip), GrantRead(create.value.id)] else [CreateRemote(zip)]
  }

  /** `uploadZipToCloud(zip)` */
  method UploadZipToCloud(m: Machine, zip: Path, create: Reply<RemoteFile>, grant: Reply<()>)
    returns (link: Outcome<string>)
    modifies m
    ensures link == UploadOutcome(create, grant)
    ensures m.trace == old(m.trace) + UploadSteps(zip, create)
    ensures m.remote == if create.Done? then old(m.remote) + {create.value.id} else old(m.remote)
    ensures m.readable == if create.Done? && grant.Done? then old(m.readable) + {create.value.id}
                          else old(m.readable)
    ensures m.dirs == old(m.dirs) && m.files == old(m.files)
  {
    m.FilesCreate(zip, create);
    match create
    case Failed =>
      link := Err;
    case Done(file) =>
      m.PermissionsCreate(file.id, grant);
      if grant.Done? {
        link := Ok(file.webViewLink);
      } else {
        link := Hangs;
      }
  }

  // ----- sendLinkViaEmail and cleanUp ---------------------------------------

  /** `sendLinkViaEmail(link, dir, email)`: hands the message to the mail
      transport and returns at once; a transport error is only logged. */
  method SendLinkViaEmail(m: Machine, link: string, dir: Path, email: string)
    modifies m
    ensures m.trace == old(m.trace) + [SendMail(email, link)]
    ensures m.dirs == old(m.dirs) && m.files == old(m.files)
    ensures m.remote == old(m.remote) && m.readable == old(m.readable)
  {
    m.Record(SendMail(email, link));
  }

  /** `cleanUp(dir)`: unlinks the archive `dir + '.zip'`; a missing file is
      only logged. The working directory stays. */
  method CleanUpDir(m: Machine, dir: Path)
    modifies m
    ensures m.files == old(m.files) - {ZipPath(dir)}
    ensures m.trace == old(m.trace) + [CleanUp(dir)]
    ensures m.dirs == old(m.dirs) && m.remote == old(m.remote) && m.readable == old(m.readable)
  {
    m.Record(CleanUp(dir));
    var _ := m.Unlink(ZipPath(dir));
  }

  // ----- zipAndUpload --------------------------------------------------------

  /** Every awaited stage of a run settles: the archiver finishes or fails,
      and, when it finishes, the upload resolves or rejects. */
  predicate Settles(env: Env)
  {
    match env.archive
    case Hangs => false
    case Err => true
    case Ok(_) => !UploadOutcome(env.create, env.grant).Hangs?
  }

  /** The steps `zipAndUpload(dir, email)` executes. */
  function ZipAndUploadTrace(dir: Path, email: string, env: Env): seq<Step>
  {
    var zipped := [Zip(dir, ZipPath(dir))];
    match env.archive
    case Hangs => zipped
    case Err => zipped + [LogError, CleanUp(dir)]
    case Ok(_) =>
      var uploaded := zipped + UploadSteps(ZipPath(dir), env.create);
      match UploadOutcome(env.create, env.grant)
      case Hangs => uploaded
      case Err => uploaded + [LogError, CleanUp(dir)]
      case Ok(link) => uploaded + [SendMail(email, link), CleanUp(dir)]
  }

  /** The local files after a run: the archive is created, and removed again
      exactly when the finally block is reached. */
  function FilesAfter(files: set<Path>, dir: Path, env: Env): set<Path>
  {
    if Settles(env) then files - {ZipPath(dir)} else files + {ZipPath(dir)}
  }

  /** The upload stage runs: the archive was built. */
  predicate Uploads(env: Env)
  {
    env.archive.Ok?
  }

  /** `zipAndUpload(dir, recipientEmail)`. Returns whether the run reached
      its end; a run that does not waits forever on a pending promise. */
  method ZipAndUpload(m: Machine, dir: Path, email: string, env: Env) returns (settled: bool)
    modifies m
    ensures settled == Settles(env)
    ensures m.trace == old(m.trace) + ZipAndUploadTrace(dir, email, env)
    ensures m.files == FilesAfter(old(m.files), dir, env)
    ensures m.dirs == old(m.dirs)
    ensures m.remote == if Uploads(env) && env.create.Done? then old(m.remote) + {env.create.value.id}
                        else old(m.remote)
    ensures m.readable == if Uploads(env) && env.create.Done? && env.grant.Done?
                          then old(m.readable) + {env.create.value.id} else old(m.readable)
  {
    var zip := ZipDirectory(m, dir, env.archive);
    if zip.Hangs? {
      return false;
    }
    if zip.Err? {
      m.Record(LogError);
    } else {
      var link := UploadZipToCloud(m, zip.value, env.create, env.grant);
      if link.Hangs? {
        return false;
      }
      if link.Err? {
        m.Record(LogError);
      } else {
        SendLinkViaEmail(m, link.value, dir, email);
      }
    }
    CleanUpDir(m, dir);
    settled := true;
  }

  // ----- properties of a run ---------------------------------------------------

  /** The finally block runs exactly once when every stage settles, as the
      last step, and not at all when a stage never settles. */
  lemma {:induction false} CleanUpOnceIffSettled(dir: Path, email: string, env: Env)
    ensures CleanUps(ZipAndUploadTrace(dir, email, env)) == if Settles(env) then 1 else 0
    ensures Settles(env) ==> Last(ZipAndUploadTrace(dir, email, env)) == CleanUp(dir)
  {
    var t := ZipAndUploadTrace(dir, email, env);
    var zipped := [Zip(dir, ZipPath(dir))];
    NoCleanUps(zipped);
    match env.archive
    case Hangs =>
    case Err =>
      CleanUpsAppend(zipped, [LogError, CleanUp(dir)]);
      NoCleanUps([LogError]);
      CleanUpsAppend([LogError], [CleanUp(dir)]);
    case Ok(_) =>
      var steps := UploadSteps(ZipPath(dir), env.create);
      var uploaded := zipped + steps;
      NoCleanUps(steps);
      CleanUpsAppend(zipped, steps);
      match UploadOutcome(env.create, env.grant)
      case Hangs =>
      case Err =>
        CleanUpsAppend(uploaded, [LogError, CleanUp(dir)]);
        NoCleanUps([LogError]);
        CleanUpsAppend([LogError], [CleanUp(dir)]);
      case Ok(link) =>
        CleanUpsAppend(uploaded, [SendMail(email, link), CleanUp(dir)]);
        NoCleanUps([SendMail(email, link)]);
        CleanUpsAppend([SendMail(email, link)], [CleanUp(dir)]);
  }

  /** The upload runs only after the zip step, only when the archiver
      finished, and it uploads exactly the archive of the directory. */
  lemma UploadOnlyAfterZip(dir: Path, email: string, env: Env)
    ensures ZipAndUploadTrace(dir, email, env)[0] == Zip(dir, ZipPath(dir))
    ensures forall i :: 0 <= i < |ZipAndUploadTrace(dir, email, env)| &&
                        ZipAndUploadTrace(dir, email, env)[i].CreateRemote? ==>
              i == 1 && env.archive.Ok? && ZipAndUploadTrace(dir, email, env)[i].name == ZipPath(dir)
  {
  }

  /** An email is sent only after the public-read grant succeeded, right
      after it, to the recipient, with the link the store returned. */
  lemma EmailOnlyAfterGrant(dir: Path, email: string, env: Env)
    ensures forall i :: 0 <= i < |ZipAndUploadTrace(dir, email, env)| &&
                        ZipAndUploadTrace(dir, email, env)[i].SendMail? ==>
              && env.archive.Ok? && env.create.Done? && env.grant.Done?
              && i >= 1 && ZipAndUploadTrace(dir, email, env)[i - 1] == GrantRead(env.create.value.id)
              && ZipAndUploadTrace(dir, email, env)[i] == SendMail(email, env.create.value.webViewLink)
  {
  }

  /** A rejection at any stage is caught and logged, and only then; the
      run never ends with an escaping error. */
  lemma RejectionCaught(dir: Path, email: string, env: Env)
    ensures LogError in ZipAndUploadTrace(dir, email, env)
            <==> env.archive.Err? || (env.archive.Ok? && env.create.Failed?)
  {
  }

  /** After a run the archive is gone exactly when the run settled; the
      working directory is never removed. */
  lemma ArchiveRemovedIffSettled(files: set<Path>, dir: Path, env: Env)
    ensures ZipPath(dir) !in FilesAfter(files, dir, env) <==> Settles(env)
    ensures forall p :: p != ZipPath(dir) ==> (p in FilesAfter(files, dir, env) <==> p in files)
  {
  }

  /** The partial publish: the create call succeeded but the grant failed.
      The object is stored but nobody was emailed, nothing was cleaned up,
      and the local archive stays behind. */
  lemma PartialPublish(files: set<Path>, dir: Path, email: string, env: Env)
    requires env.archive.Ok? && env.create.Done? && env.grant.Failed?
    ensures !Settles(env)
    ensures ZipAndUploadTrace(dir, email, env)
            == [Zip(dir, ZipPath(dir)), CreateRemote(ZipPath(dir)), GrantRead(env.create.value.id)]
    ensures ZipPath(dir) in FilesAfter(files, dir, env)
  {
  }
}
