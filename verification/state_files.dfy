/** `FileStore._StateFile`: a namespace of attributes saved to and loaded
    from a state file on the local disk. Saving writes the serialised
    attributes to `<fileName>.tmp` and renames that over `<fileName>`, so a
    reader of `<fileName>` sees the old contents or the new ones, never a
    half-written file. The serialiser is a pair of functions given by the
    caller. */
module StateFiles {
  import opened Base
  import opened LocalDisk

  /** A serialiser for attribute dictionaries: `encode` writes one out,
      `decode` reads one back or reports the bytes as unreadable. */
  datatype Codec<!V> = Codec(encode: map<string, V> -> Bytes, decode: Bytes -> Option<map<string, V>>)

  /** Reading back what was written gives the same dictionary. */
  ghost predicate RoundTrips<V(!new)>(codec: Codec<V>)
  {
    forall attrs :: codec.decode(codec.encode(attrs)) == Some(attrs)
  }

  /** Why loading failed: opening the file raised, or its bytes do not
      decode. */
  datatype LoadError = OpenFailed(error: OSError) | Undecodable

  /** The name the new contents are written under before the rename. */
  function TempName(fileName: string): (tmp: string)
    ensures |tmp| == |fileName| + 4 && tmp[..|fileName|] == fileName && tmp != fileName
  {
    fileName + ".tmp"
  }

  /** What a save does to the disk: the states it moves through, oldest
      first, and how it ends. */
  datatype Steps = Steps(states: seq<map<string, Node>>, result: Result<(), OSError>)

  /** The disk after a save, given the states it moved through. */
  function Final(files: map<string, Node>, s: Steps): map<string, Node>
  {
    if s.states == [] then files else s.states[|s.states| - 1]
  }

  /** The two system calls of a save: write `data` to the temporary file,
      then rename it over the state file. Each raises on a directory in
      its way; a failed rename leaves the temporary file behind. */
  function SaveSteps(files: map<string, Node>, fileName: string, data: Bytes): Steps
  {
    var tmp := TempName(fileName);
    if tmp in files && files[tmp].Directory? then Steps([], Failure(OSError(EISDIR)))
    else
      var written := files[tmp := File(data)];
      if fileName in written && written[fileName].Directory? then Steps([written], Failure(OSError(EISDIR)))
      else Steps([written, written[fileName := File(data)] - {tmp}], Success(()))
  }

  /** `_StateFile._load`: read the file and decode the attributes. */
  function LoadState<V>(files: map<string, Node>, fileName: string, codec: Codec<V>): (r: Result<map<string, V>, LoadError>)
    ensures r.Failure? && r.error.OpenFailed? <==> fileName !in files || files[fileName].Directory?
    ensures r.Failure? && r.error.OpenFailed? ==> r.error.error == OSError(if fileName in files then EISDIR else ENOENT)
    ensures r == Failure(Undecodable) <==> fileName in files && files[fileName].File? && codec.decode(files[fileName].data).None?
    ensures r.Success? ==> fileName in files && files[fileName].File? && codec.decode(files[fileName].data) == Some(r.value)
  {
    if fileName !in files then Failure(OpenFailed(OSError(ENOENT)))
    else if files[fileName].Directory? then Failure(OpenFailed(OSError(EISDIR)))
    else match codec.decode(files[fileName].data)
      case None => Failure(Undecodable)
      case Some(attrs) => Success(attrs)
  }

  class StateFile<V> {
    var attrs: map<string, V>

    /** `_StateFile(stateDict)`: the attributes are the dictionary's entries. */
    constructor (stateDict: map<string, V>)
      ensures attrs == stateDict
    {
      attrs := stateDict;
    }

    /** `_StateFile._load`: a new namespace holding what the file decodes to. */
    static method Load(fs: FileSystem, fileName: string, codec: Codec<V>) returns (r: Result<StateFile<V>, LoadError>)
      ensures var expected := LoadState(fs.files, fileName, codec);
        && (r.Success? <==> expected.Success?)
        && (r.Success? ==> fresh(r.value) && r.value.attrs == expected.value)
        && (r.Failure? ==> r.error == expected.error)
    {
      var read := fs.Read(fileName);
      if read.Failure? {
        return Failure(OpenFailed(read.error));
      }
      var decoded := codec.decode(read.value);
      if decoded.None? {
        return Failure(Undecodable);
      }
      var state := new StateFile(decoded.value);
      r := Success(state);
    }

    /** `_StateFile.write`: save the attributes to `fileName` by way of a
        temporary file and a rename. */
    method Write(fs: FileSystem, fileName: string, codec: Codec<V>) returns (r: Result<(), OSError>)
      modifies fs
      ensures var s := SaveSteps(old(fs.files), fileName, codec.encode(attrs));
        && r.Success? == s.result.Success?
        && (r.Failure? ==> r.error == s.result.error)
        && fs.history == old(fs.history) + s.states
        && fs.files == Final(old(fs.files), s)
    {
      var tmp := TempName(fileName);
      var data := codec.encode(attrs);
      var written := fs.WriteFile(tmp, data);
      if written.Failure? {
        return written;
      }
      r := fs.Rename(tmp, fileName);
    }
  }

  /** A save succeeds unless a directory sits at the temporary name or at
      the state file's name; then the state file holds the new data, the
      temporary file is gone and every other path is as it was. */
  lemma SaveOutcome(files: map<string, Node>, fileName: string, data: Bytes)
    ensures var s := SaveSteps(files, fileName, data);
      var tmp := TempName(fileName);
      && (s.result.Success? <==>
           !(tmp in files && files[tmp].Directory?) && !(fileName in files && files[fileName].Directory?))
      && (s.result.Success? ==>
           var after := Final(files, s);
           && after[fileName] == File(data) && tmp !in after
           && forall p :: p != fileName && p != tmp ==> (p in after <==> p in files) && (p in files ==> after[p] == files[p]))
  {
  }

  /** The state file changes in one step: in every state a save passes
      through, `fileName` holds either what it held before or the new
      data, and only the rename (the last step) can change it. */
  lemma SaveIsAtomic(files: map<string, Node>, fileName: string, data: Bytes)
    ensures var s := SaveSteps(files, fileName, data);
      forall k :: 0 <= k < |s.states| ==>
        if k < |s.states| - 1 || s.result.Failure? then
          (fileName in s.states[k] <==> fileName in files) && (fileName in files ==> s.states[k][fileName] == files[fileName])
        else
          fileName in s.states[k] && s.states[k][fileName] == File(data)
  {
  }

  /** Loading after a successful save gives back the saved attributes. */
  lemma LoadAfterSave<V(!new)>(files: map<string, Node>, fileName: string, attrs: map<string, V>, codec: Codec<V>)
    requires RoundTrips(codec)
    requires SaveSteps(files, fileName, codec.encode(attrs)).result.Success?
    ensures LoadState(Final(files, SaveSteps(files, fileName, codec.encode(attrs))), fileName, codec) == Success(attrs)
  {
  }

  /** A reader loading the state file at any moment of a save sees the
      attributes as they were before it or as they are after it. */
  lemma LoadDuringSave<V(!new)>(files: map<string, Node>, fileName: string, attrs: map<string, V>, codec: Codec<V>)
    requires RoundTrips(codec)
    ensures var s := SaveSteps(files, fileName, codec.encode(attrs));
      forall k :: 0 <= k < |s.states| ==>
        LoadState(s.states[k], fileName, codec) == LoadState(files, fileName, codec)
        || LoadState(s.states[k], fileName, codec) == Success(attrs)
  {
  }
}
