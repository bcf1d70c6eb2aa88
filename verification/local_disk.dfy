/** The worker's local disk as the file store sees it: a map from path to
    file contents or directory, changed only by the system calls the core
    makes (`open` for writing, `os.rename`, `os.remove`, exclusive
    creation), and the unique-name search of Python's `tempfile.mkstemp`
    and `tempfile.mkdtemp`. Every change appends the new state to a ghost
    history, which is what a concurrent reader could observe. */
module LocalDisk {
  import opened Base
  import opened Paths

  datatype Node = File(data: Bytes) | Directory

  class FileSystem {
    var files: map<string, Node>
    /** Every state the disk has been in, oldest first; the last is `files`. */
    ghost var history: seq<map<string, Node>>

    constructor (initial: map<string, Node>)
      ensures files == initial && history == [initial]
    {
      files := initial;
      history := [initial];
    }

    /** `open(path, 'rb').read()`. */
    function Read(path: string): (r: Result<Bytes, OSError>)
      reads this
      ensures r.Success? <==> path in files && files[path].File?
      ensures r.Success? ==> r.value == files[path].data
      ensures r.Failure? ==> r.error == OSError(if path in files then EISDIR else ENOENT)
    {
      if path !in files then Failure(OSError(ENOENT))
      else if files[path].Directory? then Failure(OSError(EISDIR))
      else Success(files[path].data)
    }

    /** `open(path, 'wb')`, writing `data`, and closing: creates or
        truncates a regular file; a directory in the way is an error. */
    method WriteFile(path: string, data: Bytes) returns (r: Result<(), OSError>)
      modifies this
      ensures r.Failure? <==> path in old(files) && old(files)[path].Directory?
      ensures r.Failure? ==> r.error == OSError(EISDIR) && files == old(files) && history == old(history)
      ensures r.Success? ==> files == old(files)[path := File(data)] && history == old(history) + [files]
    {
      if path in files && files[path].Directory? {
        return Failure(OSError(EISDIR));
      }
      files := files[path := File(data)];
      history := history + [files];
      r := Success(());
    }

    /** `os.rename(src, dst)` of a regular file: replaces `dst` in one step. */
    method Rename(src: string, dst: string) returns (r: Result<(), OSError>)
      requires src in files ==> files[src].File?
      modifies this
      ensures r.Failure? <==> src !in old(files) || (src != dst && dst in old(files) && old(files)[dst].Directory?)
      ensures r.Failure? ==> files == old(files) && history == old(history)
      ensures r.Failure? ==> r.error == OSError(if src !in old(files) then ENOENT else EISDIR)
      ensures r.Success? && src == dst ==> files == old(files) && history == old(history)
      ensures r.Success? && src != dst ==>
        files == old(files)[dst := old(files)[src]] - {src} && history == old(history) + [files]
    {
      if src !in files {
        return Failure(OSError(ENOENT));
      }
      if src == dst {
        return Success(());
      }
      if dst in files && files[dst].Directory? {
        return Failure(OSError(EISDIR));
      }
      files := files[dst := files[src]] - {src};
      history := history + [files];
      r := Success(());
    }

    /** `os.remove(path)`: unlinks a regular file. */
    method Remove(path: string) returns (r: Result<(), OSError>)
      modifies this
      ensures r.Success? <==> path in old(files) && old(files)[path].File?
      ensures r.Failure? ==> r.error == OSError(if path in old(files) then EISDIR else ENOENT)
      ensures r.Failure? ==> files == old(files) && history == old(history)
      ensures r.Success? ==> files == old(files) - {path} && history == old(history) + [files]
    {
      if path !in files {
        return Failure(OSError(ENOENT));
      }
      if files[path].Directory? {
        return Failure(OSError(EISDIR));
      }
      files := files - {path};
      history := history + [files];
      r := Success(());
    }

    /** `os.open(path, O_CREAT | O_EXCL)` for a file, `os.mkdir(path)` for
        a directory: creates `node` only where nothing exists yet. */
    method CreateExclusive(path: string, node: Node) returns (r: Result<(), OSError>)
      modifies this
      ensures r.Success? <==> path !in old(files)
      ensures r.Failure? ==> r.error == OSError(EEXIST) && files == old(files) && history == old(history)
      ensures r.Success? ==> files == old(files)[path := node] && history == old(history) + [files]
    {
      if path in files {
        return Failure(OSError(EEXIST));
      }
      files := files[path := node];
      history := history + [files];
      r := Success(());
    }
  }

  /** How many names `tempfile` tries: `os.TMP_MAX`, which on Linux is
      glibc's `TMP_MAX` (62 cubed). */
  const TMP_MAX: nat := 238328

  /** The characters `tempfile`'s random name sequence draws from. */
  const NameAlphabet: string := "abcdefghijklmnopqrstuvwxyz0123456789_"

  /** A name `tempfile`'s random name sequence can produce: eight
      characters of its alphabet. */
  predicate RandomName(n: string)
  {
    |n| == 8 && forall i :: 0 <= i < |n| ==> n[i] in NameAlphabet
  }

  /** The paths `tempfile` tries, in order: `join(dir, prefix + name + suffix)`. */
  function Candidates(dir: string, prefix: string, suffix: string, names: seq<string>): (c: seq<string>)
    ensures |c| == |names|
  {
    seq(|names|, i requires 0 <= i < |names| => JoinPath(dir, prefix + names[i] + suffix))
  }

  /** The first candidate at or after `from` that is free on the disk. */
  function FirstFree(files: map<string, Node>, cands: seq<string>, from: nat): (r: Option<nat>)
    ensures r.Some? ==> from <= r.value < |cands| && cands[r.value] !in files
    ensures r.Some? ==> forall j :: from <= j < r.value ==> cands[j] in files
    ensures r.None? ==> forall j :: from <= j < |cands| ==> cands[j] in files
    decreases |cands| - from
  {
    if from >= |cands| then None
    else if cands[from] !in files then Some(from)
    else FirstFree(files, cands, from + 1)
  }

  /** The search loop shared by `tempfile.mkstemp` (creating an empty
      file) and `tempfile.mkdtemp` (creating a directory): try each drawn
      name in turn, create at the first free candidate, and raise
      `FileExistsError` once all `TMP_MAX` names are taken. */
  method MakeTemp(fs: FileSystem, dir: string, prefix: string, suffix: string, names: seq<string>, node: Node)
    returns (r: Result<string, OSError>)
    requires |names| == TMP_MAX
    modifies fs
    ensures var cands := Candidates(dir, prefix, suffix, names);
      match FirstFree(old(fs.files), cands, 0)
      case None =>
        r == Failure(OSError(EEXIST)) && fs.files == old(fs.files) && fs.history == old(fs.history)
      case Some(i) =>
        && r == Success(cands[i])
        && fs.files == old(fs.files)[cands[i] := node]
        && fs.history == old(fs.history) + [fs.files]
  {
    var cands := Candidates(dir, prefix, suffix, names);
    var i := 0;
    while i < |cands|
      invariant 0 <= i <= |cands|
      invariant fs.files == old(fs.files) && fs.history == old(fs.history)
      invariant FirstFree(fs.files, cands, 0) == FirstFree(fs.files, cands, i)
    {
      var created := fs.CreateExclusive(cands[i], node);
      if created.Success? {
        return Success(cands[i]);
      }
      i := i + 1;
    }
    r := Failure(OSError(EEXIST));
  }
}
