/** What the pipeline acts on: the local file system as sets of paths, the
    remote object store as sets of object identifiers, and a trace of the
    pipeline steps executed so far. The outcomes of the foreign calls
    (archiver, the Drive API) are inputs, not computed here. */
module Host {
  import opened Strings

  datatype Option<T> = None | Some(value: T)

  /** How an awaited promise ends: resolved with a value, rejected, or never
      settled (neither callback is ever called). */
  datatype Outcome<T> = Ok(value: T) | Err | Hangs

  /** What a Node-style callback receives: a result, or an error. */
  datatype Reply<T> = Done(value: T) | Failed

  /** File-system error codes other than EEXIST, which the environment may
      raise for a path that does not exist yet. */
  datatype IoFault = NoEntry | AccessDenied | NoSpace

  /** An error thrown by a file-system call. */
  datatype FsError = AlreadyExists | Fault(fault: IoFault)

  /** An object the remote store created: its identifier and its link. */
  datatype RemoteFile = RemoteFile(id: string, webViewLink: string)

  /** How each foreign stage of one pipeline run ends: the archiver, the
      remote create call and the remote permission call. */
  datatype Env = Env(archive: Outcome<()>, create: Reply<RemoteFile>, grant: Reply<()>)

  /** The steps of the pipeline that a run records, in order. */
  datatype Step =
    | Zip(source: Path, out: Path)
    | CreateRemote(name: Path)
    | GrantRead(fileId: string)
    | SendMail(to: string, link: string)
    | LogError
    | CleanUp(dir: Path)

  /** The number of clean-up steps in a trace. */
  function CleanUps(t: seq<Step>): nat
  {
    if t == [] then 0
    else (if t[0].CleanUp? then 1 else 0) + CleanUps(t[1..])
  }

  /** Counting clean-ups distributes over concatenation. */
  lemma {:induction false} CleanUpsAppend(a: seq<Step>, b: seq<Step>)
    ensures CleanUps(a + b) == CleanUps(a) + CleanUps(b)
  {
    if a != [] {
      assert (a + b)[0] == a[0];
      assert (a + b)[1..] == a[1..] + b;
      CleanUpsAppend(a[1..], b);
    } else {
      assert a + b == b;
    }
  }

  /** A trace without clean-up steps counts none. */
  lemma {:induction false} NoCleanUps(t: seq<Step>)
    requires forall i :: 0 <= i < |t| ==> !t[i].CleanUp?
    ensures CleanUps(t) == 0
  {
    if t != [] {
      NoCleanUps(t[1..]);
    }
  }

  /** The machine a worker runs on. */
  class Machine {
    /** Existing directories. */
    var dirs: set<Path>
    /** Existing regular files. */
    var files: set<Path>
    /** Identifiers of objects stored remotely. */
    var remote: set<string>
    /** Identifiers of remote objects anyone may read. */
    var readable: set<string>
    /** The pipeline steps executed so far. */
    var trace: seq<Step>

    constructor (dirs0: set<Path>, files0: set<Path>)
      ensures dirs == dirs0 && files == files0
      ensures remote == {} && readable == {} && trace == []
    {
      dirs, files := dirs0, files0;
      remote, readable, trace := {}, {}, [];
    }

    /** `fs.existsSync`: a directory or a file is there. */
    predicate ExistsSync(p: Path)
      reads this
    {
      p in dirs || p in files
    }

    /** `fs.mkdirSync`: EEXIST when anything is at the path; otherwise the
        fault the environment raises, if any, or a new directory. */
    method MkdirSync(p: Path, fault: Option<IoFault>) returns (err: Option<FsError>)
      modifies this
      ensures err == if old(ExistsSync(p)) then Some(AlreadyExists)
                     else if fault.Some? then Some(Fault(fault.value)) else None
      ensures dirs == if err == None then old(dirs) + {p} else old(dirs)
      ensures files == old(files) && remote == old(remote)
      ensures readable == old(readable) && trace == old(trace)
    {
      if ExistsSync(p) {
        err := Some(AlreadyExists);
      } else if fault.Some? {
        err := Some(Fault(fault.value));
      } else {
        err := None;
        dirs := dirs + {p};
      }
    }

    /** `fs.createWriteStream`: opening the stream creates (or truncates)
        the file. */
    method OpenWrite(p: Path)
      modifies this
      ensures files == old(files) + {p}
      ensures dirs == old(dirs) && remote == old(remote)
      ensures readable == old(readable) && trace == old(trace)
    {
      files := files + {p};
    }

    /** `fs.unlink`: removes a file; ENOENT when there is none. */
    method Unlink(p: Path) returns (err: Option<FsError>)
      modifies this
      ensures err == if p in old(files) then None else Some(Fault(NoEntry))
      ensures files == old(files) - {p}
      ensures dirs == old(dirs) && remote == old(remote)
      ensures readable == old(readable) && trace == old(trace)
    {
      if p in files {
        err := None;
        files := files - {p};
      } else {
        err := Some(Fault(NoEntry));
      }
    }

    /** `drive.files.create`: on success the object is stored remotely. */
    method FilesCreate(name: Path, reply: Reply<RemoteFile>)
      modifies this
      ensures remote == if reply.Done? then old(remote) + {reply.value.id} else old(remote)
      ensures trace == old(trace) + [CreateRemote(name)]
      ensures dirs == old(dirs) && files == old(files) && readable == old(readable)
    {
      if reply.Done? {
        remote := remote + {reply.value.id};
      }
      trace := trace + [CreateRemote(name)];
    }

    /** `drive.permissions.create` with role reader for anyone. */
    method PermissionsCreate(id: string, reply: Reply<()>)
      modifies this
      ensures readable == if reply.Done? then old(readable) + {id} else old(readable)
      ensures trace == old(trace) + [GrantRead(id)]
      ensures dirs == old(dirs) && files == old(files) && remote == old(remote)
    {
      if reply.Done? {
        readable := readable + {id};
      }
      trace := trace + [GrantRead(id)];
    }

    /** Appends a step that changes nothing local (mail sent, error logged,
        clean-up started). */
    method Record(s: Step)
      modifies this
      ensures trace == old(trace) + [s]
      ensures dirs == old(dirs) && files == old(files)
      ensures remote == old(remote) && readable == old(readable)
    {
      trace := trace + [s];
    }

    /** The archiver streaming `source` into `out` (both variants): the
        output stream creates `out` before archiving starts, and the
        promise then follows the archiver's outcome. */
    method Archive(source: Path, out: Path, archive: Outcome<()>) returns (r: Outcome<()>)
      modifies this
      ensures r == archive
      ensures files == old(files) + {out}
      ensures trace == old(trace) + [Zip(source, out)]
      ensures dirs == old(dirs) && remote == old(remote) && readable == old(readable)
    {
      OpenWrite(out);
      Record(Zip(source, out));
      r := archive;
    }
  }
}
