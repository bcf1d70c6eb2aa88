/** `FileStore`: the per-job bookkeeping every file store shares, that
    is, where the job's scratch space is, which job it runs, the log
    messages it sends to the leader, fresh local temporary files and
    directories, upload streams that count their bytes, and the
    process-liveness probe. The process's working directory, the names
    `tempfile` draws and the outcome of `os.kill` are inputs. */
module FileStores {
  import opened Base
  import opened Paths
  import opened Text
  import opened LocalDisk
  import opened Streams

  /** The parts of the job description the file store reads. */
  datatype JobGraph = JobGraph(command: string, jobStoreID: string)

  /** One entry of `loggingMessages`: `dict(text=..., level=...)`. */
  datatype LogRecord = LogRecord(text: string, level: int)

  /** `logging.INFO`. */
  const INFO: int := 20

  /** `command.split()[1]` fails on a command of fewer than two words. */
  datatype InitError = IndexError

  /** What `os.kill(pid, 0)` did: the signal could be delivered, or the
      call raised `OSError` with this errno. */
  datatype Probe = Delivered | Refused(error: OSError)

  /** No drawn name contains a '/' and none is "." or "..": prefixed and
      suffixed, each is a single plain path component. */
  lemma DrawnNamePlain(prefix: string, name: string, suffix: string)
    requires RandomName(name) && Sep !in prefix && Sep !in suffix
    ensures Plain(prefix + name + suffix)
  {
    assert Sep !in NameAlphabet;
    var c := prefix + name + suffix;
    forall i | 0 <= i < |c|
      ensures c[i] != Sep
    {
      if i < |prefix| {
        assert c[i] == prefix[i];
      } else if i < |prefix| + |name| {
        assert c[i] == name[i - |prefix|];
      } else {
        assert c[i] == suffix[i - |prefix| - |name|];
      }
    }
  }

  /** Every path `tempfile` tries in a normal absolute directory is a
      normal absolute path whose parent is that directory. */
  lemma CandidatesInDir(dir: string, prefix: string, suffix: string, names: seq<string>)
    requires IsAbs(dir) && NormPath(dir) == dir && Sep !in prefix && Sep !in suffix
    requires forall i :: 0 <= i < |names| ==> RandomName(names[i])
    ensures forall c :: c in Candidates(dir, prefix, suffix, names) ==>
      IsAbs(c) && NormPath(c) == c && DirName(c) == dir
  {
    var cands := Candidates(dir, prefix, suffix, names);
    forall c | c in cands
      ensures IsAbs(c) && NormPath(c) == c && DirName(c) == dir
    {
      var i :| 0 <= i < |cands| && cands[i] == c;
      DrawnNamePlain(prefix, names[i], suffix);
      JoinPlainNormal(dir, prefix + names[i] + suffix);
      DirNameOfChild(dir, prefix + names[i] + suffix);
    }
  }

  /** A job's scratch directory placed directly inside the workflow's
      directory has that directory as its `workFlowDir`, whatever the
      working directory. */
  lemma WorkflowDirOfJobDir(cwd: string, workflowDir: string, c: string)
    requires IsAbs(workflowDir) && NormPath(workflowDir) == workflowDir && Plain(c)
    ensures DirName(AbsPath(cwd, JoinPath(workflowDir, c))) == workflowDir
  {
    JoinPlainNormal(workflowDir, c);
    DirNameOfChild(workflowDir, c);
  }

  /** Joining a relative path to a normal absolute directory appends it
      after one separator; a plain component gives a normal child path. */
  lemma JoinRelative(dir: string, p: string)
    requires IsAbs(dir) && NormPath(dir) == dir && !IsAbs(p)
    ensures var j := JoinPath(dir, p);
      && IsAbs(j) && dir <= j && j[|dir|..] == (if dir[|dir| - 1] == Sep then p else [Sep] + p)
      && (Plain(p) ==> NormPath(j) == j && DirName(j) == dir)
  {
    if Plain(p) {
      JoinPlainNormal(dir, p);
      DirNameOfChild(dir, p);
    }
  }

  /** The job's name is the second word of a command whose words were
      joined by single spaces. */
  lemma JobNameOfCommand(words: seq<string>)
    requires |words| >= 2 && forall i :: 0 <= i < |words| ==> words[i] != "" && NoSpace(words[i])
    ensures |Words(JoinWords(words))| >= 2 && Words(JoinWords(words))[1] == words[1]
  {
    WordsOfJoined(words);
  }

  /** `FileStore._pidExists(pid)`: the process exists when the null signal
      can be sent to it, does not when the kernel reports ESRCH, and any
      other error is raised again. */
  function PidExists(pid: int, probe: Probe): (r: Result<bool, OSError>)
    requires pid > 0
    ensures r == Success(true) <==> probe.Delivered?
    ensures r == Success(false) <==> probe == Refused(OSError(ESRCH))
    ensures r.Failure? <==> probe.Refused? && probe.error.errno != ESRCH
    ensures r.Failure? ==> r.error == probe.error
  {
    match probe
    case Delivered => Success(true)
    case Refused(err) => if err.errno == ESRCH then Success(false) else Failure(err)
  }


  class FileStore {
    const jobGraph: JobGraph
    /** The job's scratch directory, absolute and normalised. */
    const localTempDir: string
    /** The directory holding `localTempDir`. */
    const workFlowDir: string
    /** The second word of the job's command. */
    const jobName: string
    var loggingMessages: seq<LogRecord>
    var filesToDelete: set<string>
    var jobsToDelete: set<string>

    /** The scratch directory is a normal absolute path inside `workFlowDir`. */
    ghost predicate Valid()
    {
      && IsAbs(localTempDir) && NormPath(localTempDir) == localTempDir
      && workFlowDir == DirName(localTempDir) && IsAbs(workFlowDir)
    }

    /** The state `__init__` leaves for these arguments. */
    ghost predicate Initialised(jobGraph: JobGraph, localTempDir: string, cwd: string)
      reads this
    {
      && this.jobGraph == jobGraph
      && this.localTempDir == AbsPath(cwd, localTempDir)
      && |Words(jobGraph.command)| >= 2 && jobName == Words(jobGraph.command)[1]
      && loggingMessages == [] && filesToDelete == {} && jobsToDelete == {}
    }

    /** `FileStore.__init__` past the point where the job's name is found. */
    constructor (jobGraph: JobGraph, localTempDir: string, cwd: string)
      requires IsAbs(cwd) && |Words(jobGraph.command)| >= 2
      ensures Initialised(jobGraph, localTempDir, cwd) && Valid()
    {
      var dir := AbsPath(cwd, localTempDir);
      AbsPathNormal(cwd, localTempDir);
      this.jobGraph := jobGraph;
      this.localTempDir := dir;
      this.workFlowDir := DirName(dir);
      this.jobName := Words(jobGraph.command)[1];
      loggingMessages := [];
      filesToDelete := {};
      jobsToDelete := {};
    }

    /** `FileStore.__init__`: raises `IndexError` when the command has no
        second word, and otherwise sets up an empty file store. */
    static method Create(jobGraph: JobGraph, localTempDir: string, cwd: string) returns (r: Result<FileStore, InitError>)
      requires IsAbs(cwd)
      ensures r.Failure? <==> |Words(jobGraph.command)| < 2
      ensures r.Success? ==> fresh(r.value) && r.value.Initialised(jobGraph, localTempDir, cwd) && r.value.Valid()
    {
      if |Words(jobGraph.command)| < 2 {
        return Failure(IndexError);
      }
      var store := new FileStore(jobGraph, localTempDir, cwd);
      r := Success(store);
    }

    /** `getLocalTempDir`: a new directory `t<name>` inside the scratch
        directory, from `tempfile.mkdtemp`; it raises when every drawn
        name is taken. */
    method GetLocalTempDir(fs: FileSystem, names: seq<string>) returns (r: Result<string, OSError>)
      requires Valid()
      requires |names| == TMP_MAX && forall i :: 0 <= i < |names| ==> RandomName(names[i])
      modifies fs
      ensures var cands := Candidates(localTempDir, "t", "", names);
        && (r.Failure? <==> forall c :: c in cands ==> c in old(fs.files))
        && (r.Failure? ==> r.error == OSError(EEXIST) && fs.files == old(fs.files) && fs.history == old(fs.history))
        && (r.Success? ==>
             && r.value in cands && r.value !in old(fs.files)
             && fs.files == old(fs.files)[r.value := Directory]
             && fs.history == old(fs.history) + [fs.files]
             && IsAbs(r.value) && DirName(r.value) == localTempDir)
    {
      var cands := Candidates(localTempDir, "t", "", names);
      CandidatesInDir(localTempDir, "t", "", names);
      var made := MakeTemp(fs, localTempDir, "t", "", names, Directory);
      if made.Failure? {
        return made;
      }
      // `os.path.abspath` of an absolute path normalises it.
      r := Success(NormPath(made.value));
    }

    /** `getLocalTempFile`: a new empty file `tmp<name>.tmp` inside the
        scratch directory, from `tempfile.mkstemp`. */
    method GetLocalTempFile(fs: FileSystem, names: seq<string>) returns (r: Result<string, OSError>)
      requires Valid()
      requires |names| == TMP_MAX && forall i :: 0 <= i < |names| ==> RandomName(names[i])
      modifies fs
      ensures var cands := Candidates(localTempDir, "tmp", ".tmp", names);
        && (r.Failure? <==> forall c :: c in cands ==> c in old(fs.files))
        && (r.Failure? ==> r.error == OSError(EEXIST) && fs.files == old(fs.files) && fs.history == old(fs.history))
        && (r.Success? ==>
             && r.value in cands && r.value !in old(fs.files)
             && fs.files == old(fs.files)[r.value := File([])]
             && fs.history == old(fs.history) + [fs.files]
             && IsAbs(r.value) && DirName(r.value) == localTempDir)
    {
      var cands := Candidates(localTempDir, "tmp", ".tmp", names);
      CandidatesInDir(localTempDir, "tmp", ".tmp", names);
      var made := MakeTemp(fs, localTempDir, "tmp", ".tmp", names, File([]));
      if made.Failure? {
        return made;
      }
      r := Success(NormPath(made.value));
    }

    /** `getLocalTempFileName`: a path inside the scratch directory where
        nothing exists, found by creating a temporary file and removing
        it again; the disk ends as it began. */
    method GetLocalTempFileName(fs: FileSystem, names: seq<string>) returns (r: Result<string, OSError>)
      requires Valid()
      requires |names| == TMP_MAX && forall i :: 0 <= i < |names| ==> RandomName(names[i])
      modifies fs
      ensures fs.files == old(fs.files)
      ensures var cands := Candidates(localTempDir, "tmp", ".tmp", names);
        && (r.Failure? <==> forall c :: c in cands ==> c in old(fs.files))
        && (r.Failure? ==> r.error == OSError(EEXIST) && fs.history == old(fs.history))
        && (r.Success? ==>
             && r.value in cands && r.value !in fs.files
             && fs.history == old(fs.history) + [old(fs.files)[r.value := File([])], old(fs.files)]
             && IsAbs(r.value) && DirName(r.value) == localTempDir)
    {
      r := GetLocalTempFile(fs, names);
      if r.Failure? {
        return;
      }
      var removed := fs.Remove(r.value);
      assert fs.files == old(fs.files);
    }

    /** `writeGlobalFileStream`: asks the job store for an upload stream
        owned by this job when `cleanup` is set and by nobody otherwise
        (`owner` is that argument), then wraps the stream it gets back so
        that every write adds its length to the returned `FileID`, which
        starts at size 0. The key is the one the job store chose. */
    method WriteGlobalFileStream(cleanup: bool, backingStream: OutputStream, fileStoreID: string)
      returns (owner: Option<string>, wrappedStream: WriteWatchingStream, fileID: FileID)
      requires backingStream.data == []
      ensures owner.Some? <==> cleanup
      ensures owner.Some? ==> owner.value == jobGraph.jobStoreID
      ensures fresh(wrappedStream) && fresh(fileID)
      ensures wrappedStream.backingStream == backingStream && backingStream.data == []
      ensures fileID.key == fileStoreID && fileID.size == 0
      ensures wrappedStream.notifications == []
      ensures wrappedStream.writeListeners == [SizeCounter(fileID)]
      ensures wrappedStream.Tracks(fileID)
    {
      owner := if cleanup then Some(jobGraph.jobStoreID) else None;
      fileID := new FileID(fileStoreID, 0);
      wrappedStream := new WriteWatchingStream(backingStream);
      wrappedStream.OnWrite(SizeCounter(fileID));
      assert wrappedStream.writeListeners == [SizeCounter(fileID)];
      CountSole(fileID);
    }

    /** `_resolveAbsoluteLocalPath`: an absolute path is normalised; a
        relative one is taken as relative to the scratch directory. */
    function ResolveAbsoluteLocalPath(filePath: string): (r: string)
      requires Valid()
      ensures IsAbs(r)
      ensures IsAbs(filePath) ==> r == NormPath(filePath) && NormPath(r) == r
      ensures !IsAbs(filePath) ==> localTempDir <= r && r[|localTempDir|..] == (if localTempDir[|localTempDir| - 1] == Sep then filePath else [Sep] + filePath)
      ensures !IsAbs(filePath) && Plain(filePath) ==> NormPath(r) == r && DirName(r) == localTempDir
    {
      if IsAbs(filePath) then
        NormPathKeepsAbsoluteness(filePath);
        NormPathIdempotent(filePath);
        NormPath(filePath)
      else
        JoinRelative(localTempDir, filePath);
        JoinPath(localTempDir, filePath)
    }

    /** `logToMaster`: queues one message for the leader. */
    method LogToMaster(text: string, level: int := INFO)
      modifies this`loggingMessages
      ensures loggingMessages == old(loggingMessages) + [LogRecord(text, level)]
    {
      loggingMessages := loggingMessages + [LogRecord(text, level)];
    }
  }
}
