/** The size-tracked stream: `WriteWatchingStream` forwards every write to
    the stream it wraps and then tells each registered listener how many
    bytes went through; `FileID` is a job-store key carrying the size of
    the file behind it. The file store registers a listener that adds to a
    `FileID`'s size, so the size is known once the upload ends. */
module Streams {
  import opened Base

  /** The writable stream the job store hands out for an upload. */
  class OutputStream {
    var data: Bytes
    var closed: bool

    constructor ()
      ensures data == [] && !closed
    {
      data := [];
      closed := false;
    }

    /** Appends `chunk`; writing to a closed stream raises. */
    method Write(chunk: Bytes) returns (ok: bool)
      modifies this
      ensures ok == !old(closed) && closed == old(closed)
      ensures data == if ok then old(data) + chunk else old(data)
    {
      ok := !closed;
      if ok {
        data := data + chunk;
      }
    }

    /** Flushing changes nothing visible here; it raises on a closed stream. */
    method Flush() returns (ok: bool)
      ensures ok == !closed
    {
      ok := !closed;
    }

    /** Closing is allowed any number of times and keeps what was written. */
    method Close()
      modifies this
      ensures closed && data == old(data)
    {
      closed := true;
    }
  }

  /** A file's job-store key together with its size in bytes. */
  class FileID {
    const key: string
    var size: nat

    constructor (key: string, size: nat)
      ensures this.key == key && this.size == size
    {
      this.key := key;
      this.size := size;
    }

    /** `FileID.forPath`: the size is what `os.stat` reports for the local
        file, given here as the outcome of that call. */
    static method ForPath(key: string, stat: Result<nat, OSError>) returns (r: Result<FileID, OSError>)
      ensures r.Success? <==> stat.Success?
      ensures r.Success? ==> fresh(r.value) && r.value.key == key && r.value.size == stat.value
      ensures r.Failure? ==> r.error == stat.error
    {
      if stat.Failure? {
        return Failure(stat.error);
      }
      var id := new FileID(key, stat.value);
      r := Success(id);
    }
  }

  /** A callable registered with `onWrite`: either the file store's own
      handler that adds the byte count to a `FileID`'s size, or some other
      callable whose effect is not modelled beyond being called. */
  datatype Listener = SizeCounter(target: FileID) | Observer(id: nat)

  /** One call `listener(numBytes)`. */
  datatype Notification = Notification(listener: Listener, numBytes: nat)

  /** The calls one write makes: each listener once, in order, with `n`. */
  function Notify(listeners: seq<Listener>, n: nat): (calls: seq<Notification>)
    ensures |calls| == |listeners|
    ensures forall i :: 0 <= i < |listeners| ==> calls[i] == Notification(listeners[i], n)
  {
    if listeners == [] then []
    else Notify(listeners[..|listeners| - 1], n) + [Notification(listeners[|listeners| - 1], n)]
  }

  /** The calls a sequence of writes makes, write after write. */
  function NotifyEach(listeners: seq<Listener>, chunks: seq<Bytes>): seq<Notification>
  {
    if chunks == [] then []
    else NotifyEach(listeners, chunks[..|chunks| - 1]) + Notify(listeners, |chunks[|chunks| - 1]|)
  }

  /** The `FileID`s that some listener adds to. */
  function Targets(listeners: seq<Listener>): set<FileID>
  {
    set i | 0 <= i < |listeners| && listeners[i].SizeCounter? :: listeners[i].target
  }

  /** How many of the listeners add to `f`. */
  function Count(listeners: seq<Listener>, f: FileID): nat
  {
    if listeners == [] then 0
    else Count(listeners[..|listeners| - 1], f) + (if listeners[|listeners| - 1] == SizeCounter(f) then 1 else 0)
  }

  /** What one write of `n` bytes adds to `f`'s size, listener by listener. */
  function Added(listeners: seq<Listener>, f: FileID, n: nat): nat
  {
    if listeners == [] then 0
    else Added(listeners[..|listeners| - 1], f, n) + (if listeners[|listeners| - 1] == SizeCounter(f) then n else 0)
  }

  lemma AddedSnoc(listeners: seq<Listener>, l: Listener, f: FileID, n: nat)
    ensures Added(listeners + [l], f, n) == Added(listeners, f, n) + if l == SizeCounter(f) then n else 0
  {
    assert (listeners + [l])[..|listeners|] == listeners;
  }

  lemma NotifySnoc(listeners: seq<Listener>, l: Listener, n: nat)
    ensures Notify(listeners + [l], n) == Notify(listeners, n) + [Notification(l, n)]
  {
    assert (listeners + [l])[..|listeners|] == listeners;
  }

  /** Each listener that adds to `f` adds the whole byte count. */
  lemma {:induction false} AddedIsProduct(listeners: seq<Listener>, f: FileID, n: nat)
    ensures Added(listeners, f, n) == Count(listeners, f) * n
  {
    if listeners != [] {
      AddedIsProduct(listeners[..|listeners| - 1], f, n);
    }
  }

  lemma Distribute(c: nat, a: nat, b: nat)
    ensures c * a + c * b == c * (a + b)
  {
  }

  lemma TotalLengthSnoc(chunks: seq<Bytes>, chunk: Bytes)
    ensures TotalLength(chunks + [chunk]) == TotalLength(chunks) + |chunk|
    ensures Concat(chunks + [chunk]) == Concat(chunks) + chunk
  {
    assert (chunks + [chunk])[..|chunks|] == chunks;
  }

  lemma NotifyEachSnoc(listeners: seq<Listener>, chunks: seq<Bytes>, chunk: Bytes)
    ensures NotifyEach(listeners, chunks + [chunk]) == NotifyEach(listeners, chunks) + Notify(listeners, |chunk|)
  {
    assert (chunks + [chunk])[..|chunks|] == chunks;
  }

  /** Appending one more chunk to what was written so far. */
  lemma AppendStep(data0: Bytes, done: seq<Bytes>, chunk: Bytes)
    ensures data0 + Concat(done) + chunk == data0 + Concat(done + [chunk])
  {
    TotalLengthSnoc(done, chunk);
  }

  /** One more write's calls after the calls made so far. */
  lemma NotifyStep(notes0: seq<Notification>, listeners: seq<Listener>, done: seq<Bytes>, chunk: Bytes)
    ensures notes0 + NotifyEach(listeners, done) + Notify(listeners, |chunk|) == notes0 + NotifyEach(listeners, done + [chunk])
  {
    NotifyEachSnoc(listeners, done, chunk);
  }

  /** A counter's growth over the writes so far plus one more write. */
  lemma SizeStep(size0: nat, c: nat, done: seq<Bytes>, chunk: Bytes)
    ensures size0 + c * TotalLength(done) + c * |chunk| == size0 + c * TotalLength(done + [chunk])
  {
    TotalLengthSnoc(done, chunk);
    Distribute(c, TotalLength(done), |chunk|);
  }

  lemma CountSole(f: FileID)
    ensures Count([SizeCounter(f)], f) == 1 && f in Targets([SizeCounter(f)])
  {
    assert [SizeCounter(f)][..0] == [];
  }

  lemma CountSnoc(listeners: seq<Listener>, l: Listener, f: FileID)
    ensures Count(listeners + [l], f) == Count(listeners, f) + if l == SizeCounter(f) then 1 else 0
  {
    assert (listeners + [l])[..|listeners|] == listeners;
  }

  lemma TargetsSnoc(listeners: seq<Listener>, l: Listener)
    ensures Targets(listeners) <= Targets(listeners + [l])
  {
    forall f | f in Targets(listeners)
      ensures f in Targets(listeners + [l])
    {
      var i :| 0 <= i < |listeners| && listeners[i].SizeCounter? && listeners[i].target == f;
      assert (listeners + [l])[i] == listeners[i];
    }
  }

  class WriteWatchingStream {
    const backingStream: OutputStream
    var writeListeners: seq<Listener>
    /** The listener calls made so far, oldest first. */
    ghost var notifications: seq<Notification>

    constructor (backingStream: OutputStream)
      ensures this.backingStream == backingStream
      ensures writeListeners == [] && notifications == []
    {
      this.backingStream := backingStream;
      writeListeners := [];
      notifications := [];
    }

    /** `onWrite`: `listener` is called after every later write. */
    method OnWrite(listener: Listener)
      modifies this
      ensures writeListeners == old(writeListeners) + [listener]
      ensures notifications == old(notifications)
      ensures forall f :: old(allocated(f)) && old(Tracks(f)) && listener != SizeCounter(f) ==> Tracks(f)
    {
      ghost var before := writeListeners;
      writeListeners := writeListeners + [listener];
      forall f | old(allocated(f)) && old(Tracks(f)) && listener != SizeCounter(f)
        ensures Tracks(f)
      {
        CountSnoc(before, listener, f);
        TargetsSnoc(before, listener);
      }
    }

    /** `f` is counted by exactly one listener of this stream and its size
        is the length of the data written. */
    ghost predicate Tracks(f: FileID)
      reads this, backingStream, f
    {
      f in Targets(writeListeners) && Count(writeListeners, f) == 1 && f.size == |backingStream.data|
    }

    /** `write`: the data goes to the backing stream first; only when
        that succeeds is every listener called with `|data|`, in the
        order they were registered. */
    method Write(data: Bytes) returns (ok: bool)
      modifies this, backingStream, Targets(writeListeners)
      ensures writeListeners == old(writeListeners)
      ensures ok == !old(backingStream.closed) && backingStream.closed == old(backingStream.closed)
      ensures backingStream.data == if ok then old(backingStream.data) + data else old(backingStream.data)
      ensures notifications == old(notifications) + if ok then Notify(writeListeners, |data|) else []
      ensures forall f :: f in Targets(writeListeners) ==>
        f.size == old(f.size) + if ok then Count(writeListeners, f) * |data| else 0
      ensures forall f :: f in Targets(writeListeners) && old(Tracks(f)) ==> Tracks(f)
    {
      ok := backingStream.Write(data);
      if ok {
        NotifyListeners(|data|);
        forall f | f in Targets(writeListeners)
          ensures f.size == old(f.size) + Count(writeListeners, f) * |data|
        {
          AddedIsProduct(writeListeners, f, |data|);
        }
      }
    }

    /** The listener loop of `write`: each listener in turn, `n` bytes. */
    method NotifyListeners(n: nat)
      modifies this`notifications, Targets(writeListeners)
      ensures notifications == old(notifications) + Notify(writeListeners, n)
      ensures forall f :: f in Targets(writeListeners) ==> f.size == old(f.size) + Added(writeListeners, f, n)
    {
      var listeners := writeListeners;
      var i := 0;
      while i < |listeners|
        invariant 0 <= i <= |listeners|
        invariant notifications == old(notifications) + Notify(listeners[..i], n)
        invariant forall f :: f in Targets(listeners) ==> f.size == old(f.size) + Added(listeners[..i], f, n)
      {
        var listener := listeners[i];
        assert listeners[..i + 1] == listeners[..i] + [listener];
        NotifySnoc(listeners[..i], listener, n);
        forall f | f in Targets(listeners)
          ensures Added(listeners[..i + 1], f, n) == Added(listeners[..i], f, n) + if listener == SizeCounter(f) then n else 0
        {
          AddedSnoc(listeners[..i], listener, f, n);
        }
        if listener.SizeCounter? {
          assert listener.target in Targets(listeners);
          listener.target.size := listener.target.size + n;
        }
        notifications := notifications + [Notification(listener, n)];
        i := i + 1;
      }
      assert listeners[..|listeners|] == listeners;
    }

    /** Since the state (`data0`, `notes0`, `sizes0`), the chunks `done`
        have gone through this stream, one write per chunk. */
    ghost predicate Wrote(data0: Bytes, notes0: seq<Notification>, sizes0: map<FileID, nat>, done: seq<Bytes>)
      reads this, backingStream, sizes0.Keys
    {
      && backingStream.data == data0 + Concat(done)
      && notifications == notes0 + NotifyEach(writeListeners, done)
      && forall f :: f in sizes0 ==> f.size == sizes0[f] + Count(writeListeners, f) * TotalLength(done)
    }

    /** One step of `writelines`: the next chunk is written. */
    method WriteNext(chunk: Bytes, ghost data0: Bytes, ghost notes0: seq<Notification>,
                     ghost sizes0: map<FileID, nat>, ghost done: seq<Bytes>) returns (ok: bool)
      requires sizes0.Keys == Targets(writeListeners)
      requires Wrote(data0, notes0, sizes0, done)
      modifies this, backingStream, Targets(writeListeners)
      ensures writeListeners == old(writeListeners)
      ensures ok == !old(backingStream.closed) && backingStream.closed == old(backingStream.closed)
      ensures Wrote(data0, notes0, sizes0, if ok then done + [chunk] else done)
    {
      AppendStep(data0, done, chunk);
      NotifyStep(notes0, writeListeners, done, chunk);
      label BeforeWrite:
      ok := Write(chunk);
      if ok {
        forall f | f in sizes0
          ensures f.size == sizes0[f] + Count(writeListeners, f) * TotalLength(done + [chunk])
        {
          SizeStep(sizes0[f], Count(writeListeners, f), done, chunk);
        }
      }
    }

    /** `writelines`: writes each chunk in order with nothing in between;
        a closed backing stream fails the first write, and then nothing at
        all has been written or reported. */
    method WriteLines(datas: seq<Bytes>) returns (ok: bool)
      modifies this, backingStream, Targets(writeListeners)
      ensures writeListeners == old(writeListeners)
      ensures ok == (!old(backingStream.closed) || datas == [])
      ensures backingStream.closed == old(backingStream.closed)
      ensures backingStream.data == if ok then old(backingStream.data) + Concat(datas) else old(backingStream.data)
      ensures notifications == old(notifications) + if ok then NotifyEach(writeListeners, datas) else []
      ensures forall f :: f in Targets(writeListeners) ==>
        f.size == old(f.size) + if ok then Count(writeListeners, f) * TotalLength(datas) else 0
      ensures forall f :: f in Targets(writeListeners) && old(Tracks(f)) ==> Tracks(f)
    {
      LengthOfConcat(datas);
      ghost var sizes0 := map f | f in Targets(writeListeners) :: f.size;
      ghost var data0, notes0 := backingStream.data, notifications;
      ok := true;
      var i := 0;
      while i < |datas|
        invariant 0 <= i <= |datas|
        invariant writeListeners == old(writeListeners)
        invariant backingStream.closed == old(backingStream.closed)
        invariant i > 0 ==> !backingStream.closed
        invariant Wrote(data0, notes0, sizes0, datas[..i])
      {
        assert datas[..i + 1] == datas[..i] + [datas[i]];
        ok := WriteNext(datas[i], data0, notes0, sizes0, datas[..i]);
        if !ok {
          return;
        }
        i := i + 1;
      }
      assert datas[..|datas|] == datas;
    }

    /** `flush`: forwarded to the backing stream. */
    method Flush() returns (ok: bool)
      ensures ok == !backingStream.closed
    {
      ok := backingStream.Flush();
    }

    /** `close`: forwarded to the backing stream. */
    method Close()
      modifies backingStream
      ensures backingStream.closed && backingStream.data == old(backingStream.data)
    {
      backingStream.Close();
    }
  }
}
