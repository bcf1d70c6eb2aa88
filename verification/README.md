# Toil file store core, in Dafny

This project models the shared core of Toil's `FileStore`
(`src/toil/fileStore/fileStore.py`), the object a running job uses for its
local scratch space and its uploads to the job store. It also proves
properties of that model. The modelled parts are:

- **Size-tracked upload stream.** `WriteWatchingStream` forwards every
  write to the job store's stream. It then calls each registered listener
  with the number of bytes written. `writeGlobalFileStream` registers a
  listener that adds that number to the size of the returned `FileID`.
- **Deferred functions.** A `DeferredFunction` is a captured callable with
  its arguments. `_runDeferredFunctions` invokes a batch of them, catches
  whatever each raises, and returns the names of those that failed.
- **State file.** `_StateFile` saves a dictionary of attributes to a
  temporary file and renames it over the state file. It loads the
  dictionary back from there.
- **Per-job bookkeeping:**
  - the scratch directory and the workflow directory above it;
  - the job's name;
  - messages queued for the leader;
  - fresh temporary files, directories and file names;
  - resolving local paths;
  - the liveness probe for a process id.

The model is organised in these modules:

| module | file | what it holds |
|---|---|---|
| `Base` | `base.dfy` | bytes, `Result`/`Option`, `OSError` with Linux errno values, chunk lengths |
| `Paths` | `paths.dfy` | Python's `posixpath`: `isabs`, `join`, `normpath`, `abspath`, `dirname` |
| `Text` | `text.dfy` | `str.split()` with no separator |
| `LocalDisk` | `local_disk.dfy` | the local disk as a map from path to node; `open`/`rename`/`remove`; the `tempfile` name search |
| `Streams` | `streams.dfy` | `WriteWatchingStream`, `FileID`, the job store's output stream |
| `Deferred` | `deferred.dfy` | `DeferredFunction` and the batch runner |
| `StateFiles` | `state_files.dfy` | `_StateFile` save and load |
| `FileStores` | `file_store.dfy` | the `FileStore` class |

The outside world is given as inputs:

- **Disk.** The local disk is a `FileSystem` object. Its history of states
  records what a concurrent reader could observe.
- **Temporary names.** The names `tempfile` draws are a sequence of
  `TMP_MAX` random names.
- **Working directory and `os.kill`.** The process's working directory and
  the outcome of `os.kill(pid, 0)` are parameters.
- **Serialiser.** dill is a `Codec`: an encode function and a decode
  function. Properties that need reading back what was written assume
  `RoundTrips(codec)`.
- **Invoking a deferred function.** This is the function `invoke`. It
  moves an abstract world to its next state and says whether the call
  raised.

Two behaviours of the code that the model keeps as written:

- **`_pidExists` and errors other than ESRCH.** `_pidExists` re-raises
  every error from `os.kill` other than ESRCH, EPERM included, so a
  process owned by another user is reported by an exception, not by
  `True`. `PidExists` does the same.
- **`_load` errors.** `_load` lets the `OSError` from `open` escape (a
  missing file, a directory) and lets dill's error escape separately.
  `LoadState` therefore returns `OpenFailed(OSError)` or `Undecodable`.

## Model

| member | source | states |
|---|---|---|
| Base.LengthOfConcat | src/toil/fileStore/fileStore.py:75-93 | adding up `len(data)` write by write gives the length of everything written, laid end to end |
| Base.SizeIndependentOfChunking | src/toil/fileStore/fileStore.py:306-313 | two ways of cutting the same bytes into writes give the same byte count |
| Paths.NormPathIdempotent | src/toil/fileStore/fileStore.py:387-388 | normalising a path twice is the same as normalising it once |
| Paths.NormPathKeepsAbsoluteness | src/toil/fileStore/fileStore.py:387-388 | normalising keeps a path absolute, and keeps a relative one relative |
| Paths.AbsPathNormal | src/toil/fileStore/fileStore.py:203 | `abspath` against an absolute working directory gives an absolute path that `normpath` leaves unchanged |
| Paths.JoinPlainNormal | src/toil/fileStore/fileStore.py:242 | joining one plain component to a normal absolute directory gives a normal absolute path: the directory, a separator unless the directory is the root, then the component |
| Paths.DirNameOfChild | src/toil/fileStore/fileStore.py:204 | the `dirname` of a directory joined with one plain component is that directory |
| Paths.SplitJoin | src/toil/fileStore/fileStore.py:387-388 | splitting at '/' undoes joining components that contain no '/' |
| Paths.JoinSplit | src/toil/fileStore/fileStore.py:387-388 | joining the pieces of a split with '/' gives the path back |
| Text.Words | src/toil/fileStore/fileStore.py:205 | `split()` returns non-empty words that contain no whitespace |
| Text.WordsOfJoined | src/toil/fileStore/fileStore.py:205 | splitting words that were joined by single spaces gives the same words back |
| LocalDisk.FileSystem.Read | src/toil/fileStore/fileStore.py:422-423 | reading succeeds exactly on a regular file and gives its bytes; a missing path raises ENOENT and a directory raises EISDIR |
| LocalDisk.FileSystem.WriteFile | src/toil/fileStore/fileStore.py:433-438 | opening for writing creates or truncates the file to exactly the data; a directory at the path raises EISDIR and changes nothing |
| LocalDisk.FileSystem.Rename | src/toil/fileStore/fileStore.py:439 | a rename moves the file to its target in one step, replacing any file there and leaving no source; a missing source or a directory target raises and changes nothing |
| LocalDisk.FileSystem.Remove | src/toil/fileStore/fileStore.py:267 | `os.remove` deletes exactly that regular file; a missing path or a directory raises and changes nothing |
| LocalDisk.FileSystem.CreateExclusive | src/toil/fileStore/fileStore.py:252 | exclusive creation succeeds exactly where nothing exists yet |
| LocalDisk.FirstFree | src/toil/fileStore/fileStore.py:242 | the chosen candidate is free and every earlier candidate is taken; "none" means every candidate is taken |
| LocalDisk.MakeTemp | src/toil/fileStore/fileStore.py:242-253 | `mkstemp`/`mkdtemp` create the node at the first free drawn name and return that path; they raise EEXIST, changing nothing, when all `TMP_MAX` names are taken |
| Streams.FileID.constructor | src/toil/fileStore/fileStore.py:116-123 | a `FileID` carries the job-store key and the given size |
| Streams.FileID.ForPath | src/toil/fileStore/fileStore.py:125-127 | the size is what `os.stat` reports; an error from `os.stat` propagates |
| Streams.Notify | src/toil/fileStore/fileStore.py:83-85 | one write calls every listener exactly once, in registration order, each with the write's length |
| Streams.AddedIsProduct | src/toil/fileStore/fileStore.py:83-85 | what the listeners add to a `FileID` in one write is the number of its counters times the write's length |
| Streams.WriteWatchingStream.constructor | src/toil/fileStore/fileStore.py:57-64 | a new wrapper has the given backing stream and no listeners |
| Streams.WriteWatchingStream.OnWrite | src/toil/fileStore/fileStore.py:66-71 | the listener is appended after the ones registered before it; a `FileID` the stream tracked is still tracked unless the new listener is another counter for it |
| Streams.WriteWatchingStream.Write | src/toil/fileStore/fileStore.py:75-85 | the data is appended to the backing stream first. Only if that succeeds is each listener called once with `len(data)`, in order. Each counted `FileID` grows by the write's length once per counter. A stream that tracks a `FileID` still tracks it afterwards |
| Streams.WriteWatchingStream.NotifyListeners | src/toil/fileStore/fileStore.py:83-85 | the listener loop makes exactly the calls `Notify` lists and adds the write's length per counter |
| Streams.WriteWatchingStream.WriteNext | src/toil/fileStore/fileStore.py:90-93 | one step of `writelines` extends what has gone through by exactly one chunk |
| Streams.WriteWatchingStream.WriteLines | src/toil/fileStore/fileStore.py:87-93 | the backing stream gets the chunks concatenated with no separators. The listener calls are one `write`'s worth per chunk, in order. Sizes grow by the total length. Tracking is preserved. A closed backing stream fails the first write and nothing changes |
| Streams.WriteWatchingStream.Flush | src/toil/fileStore/fileStore.py:95-100 | flushing succeeds exactly when the backing stream is open |
| Streams.WriteWatchingStream.Close | src/toil/fileStore/fileStore.py:102-107 | closing closes the backing stream and keeps what was written |
| Deferred.Describe | src/toil/fileStore/fileStore.py:165-168 | `str(df)` is the class name, the function's name in parentheses, then `, ...` |
| Deferred.DescribeShowsName | src/toil/fileStore/fileStore.py:165-168 | the function's name can be read back from the description, and two descriptions agree exactly when the names do |
| Deferred.Run | src/toil/fileStore/fileStore.py:462-478 | a batch never reports more failures than it has functions |
| Deferred.RunDeferredFunctions | src/toil/fileStore/fileStore.py:462-478 | the loop invokes the functions in order from the starting world. It ends with the failures and the world that `Run` gives |
| Deferred.FailuresAreRaisingNames | src/toil/fileStore/fileStore.py:470-478 | the returned list holds exactly the names of the invocations that raised, in input order |
| Deferred.NoFailuresIff | src/toil/fileStore/fileStore.py:470-478 | the list is empty if and only if no invocation raised |
| Deferred.RunSplit | src/toil/fileStore/fileStore.py:470-478 | running a batch in two parts, the second from the world the first left, equals running it whole |
| Deferred.InvokesEachOnceInOrder | src/toil/fileStore/fileStore.py:470-478 | however the invocations raise, every function is invoked exactly once, in input order; a failure never stops the batch |
| Deferred.FailuresOfFixedOutcomes | src/toil/fileStore/fileStore.py:470-478 | when whether a function fails depends only on the function, the failures are the failing names in input order |
| StateFiles.TempName | src/toil/fileStore/fileStore.py:433 | the temporary name is the state file's name with `.tmp` appended, so it never equals the state file's name |
| StateFiles.LoadState | src/toil/fileStore/fileStore.py:411-424 | loading fails with the `open` error exactly when the path is missing (ENOENT) or a directory (EISDIR), fails as undecodable exactly when the file's bytes do not decode, and otherwise gives what they decode to |
| StateFiles.StateFile.constructor | src/toil/fileStore/fileStore.py:396-398 | the namespace's attributes are the dictionary's entries |
| StateFiles.StateFile.Load | src/toil/fileStore/fileStore.py:411-424 | a fresh namespace holding what `LoadState` gives, or `LoadState`'s error |
| StateFiles.StateFile.Write | src/toil/fileStore/fileStore.py:426-439 | the save writes the encoded attributes to the temporary file, then renames it. The disk passes through exactly the states `SaveSteps` lists, and the result is theirs |
| StateFiles.SaveOutcome | src/toil/fileStore/fileStore.py:426-439 | a save fails only on a directory at the temporary or the target name. On success the state file holds the new bytes, the temporary file is gone, and every other path is untouched |
| StateFiles.SaveIsAtomic | src/toil/fileStore/fileStore.py:426-439 | in every state a save passes through, the state file holds its old contents, except after the final rename, where it holds the new bytes |
| StateFiles.LoadAfterSave | src/toil/fileStore/fileStore.py:411-439 | loading after a successful save gives back the saved attributes |
| StateFiles.LoadDuringSave | src/toil/fileStore/fileStore.py:411-439 | a reader loading at any moment of a save sees the old attributes or the new ones, never a partial file |
| FileStores.PidExists | src/toil/fileStore/fileStore.py:510-530 | the result is true exactly when the null signal is delivered, and false exactly when `os.kill` reports ESRCH. Every other error is raised unchanged |
| FileStores.CandidatesInDir | src/toil/fileStore/fileStore.py:242-253 | every path `tempfile` tries in the scratch directory is normal, absolute, and directly inside the scratch directory |
| FileStores.DrawnNamePlain | src/toil/fileStore/fileStore.py:242-253 | a prefixed, suffixed drawn name is one plain path component |
| FileStores.WorkflowDirOfJobDir | src/toil/fileStore/fileStore.py:203-204 | a scratch directory directly inside a workflow directory has that directory as its `workFlowDir` |
| FileStores.JoinRelative | src/toil/fileStore/fileStore.py:389-390 | joining a relative path to the scratch directory appends it after a separator unless the directory is the root; a plain component gives a normal path inside that directory |
| FileStores.JobNameOfCommand | src/toil/fileStore/fileStore.py:205 | for a command built by joining non-empty, whitespace-free words with single spaces, the job's name is the second of those words |
| FileStores.FileStore.constructor | src/toil/fileStore/fileStore.py:200-209 | `localTempDir` is the absolute, normalised scratch directory and `workFlowDir` is its `dirname`. `jobName` is the command's second word. The log, files-to-delete and jobs-to-delete collections start empty |
| FileStores.FileStore.Create | src/toil/fileStore/fileStore.py:200-209 | construction raises `IndexError` exactly when the command has fewer than two words; otherwise it gives the initial state above |
| FileStores.FileStore.GetLocalTempDir | src/toil/fileStore/fileStore.py:232-242 | the new directory is a previously free, absolute `t<name>` path directly inside the scratch directory, created in one step; EEXIST exactly when every drawn name is taken, and then the disk is untouched |
| FileStores.FileStore.GetLocalTempFile | src/toil/fileStore/fileStore.py:244-254 | the new empty file is at a previously free, absolute `tmp<name>.tmp` path directly inside the scratch directory; EEXIST exactly when every drawn name is taken |
| FileStores.FileStore.GetLocalTempFileName | src/toil/fileStore/fileStore.py:256-268 | the returned path is absolute, directly inside the scratch directory, and has nothing at it. The disk passes through one state with an empty file there and ends as it began; EEXIST, touching nothing, exactly when every drawn name is taken |
| FileStores.FileStore.WriteGlobalFileStream | src/toil/fileStore/fileStore.py:286-315 | the job store is asked for a stream owned by the job's `jobStoreID` exactly when `cleanup` is set, and by nobody otherwise. The yielded stream wraps the job store's stream. The yielded `FileID` has the job store's key and size 0, and its size counter is the stream's only listener, so its size tracks the bytes written |
| FileStores.FileStore.ResolveAbsoluteLocalPath | src/toil/fileStore/fileStore.py:376-390 | an absolute path comes back as its `normpath`, which is itself normal. A relative path comes back as the scratch directory, a separator unless that directory is the root, then the path. The result is always absolute |
| FileStores.FileStore.LogToMaster | src/toil/fileStore/fileStore.py:481-490 | exactly one record with the text and level (INFO by default) is appended to the messages for the leader |

## Left out

- `DeferredFunction.create` and `DeferredFunction.invoke`: serialising with dill and loading the module through `ModuleDescriptor` are foreign code. The captured parts are opaque bytes and strings. A call's effect and whether it raises are the `invoke` parameter.
- Logging: the worker-side logger output is not modelled. This covers the `LOG-TO-MASTER` line in `logToMaster`, the exception log in `_runDeferredFunctions` and the debug line in `invoke`.
- Concurrency: `_pendingFileWritesLock`, `_pendingFileWrites` and `_terminateEvent` are not modelled. Neither are other processes that share the disk. The disk history shows which states a concurrent reader could observe.
- `FileStore.GetLocalTempFileName`: the window in which another process could take the name after it is removed is outside the model.
- Abstract methods are declarations with no behaviour here: `open`, `writeGlobalFile`, `readGlobalFile`, `readGlobalFileStream`, `deleteLocalFile`, `deleteGlobalFile`, `exportFile`, `findAndHandleDeadJobs`, `_registerDeferredFunction`, `_updateJobWhenDone`, `_blockFn`, `shutdown` and `_StateFile.open`.
- `createFileStore` and `shutdownFileStore` choose and load subclasses that are not part of this model. `importFile` only delegates to the job store.
- The `jobStore` and `inputBlockFn` attributes are not fields. `inputBlockFn` is used only by code outside this model. `jobStore` is used by `importFile` and by the `writeFileStream` call in `writeGlobalFileStream`; the model replaces that call with the `backingStream` and `fileStoreID` parameters of `WriteGlobalFileStream` and its `owner` result.
- `FileStores.FileStore.WriteGlobalFileStream`: the job store's `writeFileStream` context manager is not part of this model. Its stream and chosen key are parameters, and `owner` is the argument it receives. Closing the stream on leaving the `with` block is not modelled.
- `Streams.FileID`: the key stands in for the `str` that `FileID` subclasses; string methods on it are not modelled.
- Listeners other than the file store's size counter are recorded as calls only; their effects are not modelled.
- The disk model is keyed by the literal path string: symlinks, `.`/`..` and repeated slashes are not resolved, so "every other path is untouched" in `StateFiles.SaveOutcome` is about path strings, not files. It has no permissions and does not require a path's parent directory to exist. It renames regular files only, and a write to it either happens whole or not at all.
- `StateFiles.StateFile.Write`: encoding is total here. An error raised by dill part-way through, which would leave a partial temporary file, is not modelled.
- `StateFiles.StateFile.Write`: the result is stated by its success and its error, not by equality with the `()` value.
- `FileStores.PidExists`: `assert pid > 0` is a precondition, so the `AssertionError` path is not modelled.
- `FileStores.FileStore.constructor`: it requires a command of at least two words. `FileStore.Create` models the `IndexError` raised otherwise.
- `LocalDisk.MakeTemp`: the drawn names are an input. The random generator and the `O_NOFOLLOW`/permission flags `mkstemp` passes are not modelled, and neither is closing the returned descriptor.
- Listeners never raise here. In the code, a listener that raises skips the listeners after it and, inside `writelines`, the remaining chunks.
- `Streams.OutputStream`: the backing stream fails only when it is closed; other I/O errors of the job store's stream are not modelled.
- `StateFiles.LoadState`: `_StateFile.__init__`'s `assert isinstance(stateDict, dict)` is folded into `Undecodable`, since `decode` only ever yields dictionaries.
- `Text.IsSpace`: whitespace is that of Python 3 `str.split()`. Under Python 2 a byte string splits on ASCII whitespace only.
- `LocalDisk.RandomName`: a drawn name is eight characters of `abcdefghijklmnopqrstuvwxyz0123456789_`, as Python 3's `tempfile` draws them. Python 2's `tempfile` draws six characters and includes upper-case letters; only the absence of '/' from a drawn name is used here.
