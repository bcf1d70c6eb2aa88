/** Deferred functions: a callable captured together with its arguments,
    to be run after the job ends, and the runner that invokes a batch of
    them. The captured parts are kept serialised; loading and calling them
    is given to the runner as `invoke`, which moves an abstract world `W`
    (everything the call may change) to its next state and says whether
    the call raised. */
module Deferred {
  import opened Base

  /** `DeferredFunction(function, args, kwargs, name, module)`: the
      serialised callable and arguments, the callable's name and the
      descriptor of the module it comes from. */
  datatype DeferredFunction = DeferredFunction(callable: Bytes, args: Bytes, kwargs: Bytes, name: string, moduleDescriptor: string)

  const DescribePrefix: string := "DeferredFunction("
  const DescribeSuffix: string := ", ...)"

  /** `str(df)` and `repr(df)`. */
  function Describe(df: DeferredFunction): (s: string)
    ensures |s| == |DescribePrefix| + |df.name| + |DescribeSuffix|
    ensures s[..|DescribePrefix|] == DescribePrefix && s[|s| - |DescribeSuffix|..] == DescribeSuffix
  {
    DescribePrefix + df.name + DescribeSuffix
  }

  /** The name sits between the fixed prefix and suffix. */
  function NameInDescription(s: string): string
    requires |s| >= |DescribePrefix| + |DescribeSuffix|
  {
    s[|DescribePrefix|..|s| - |DescribeSuffix|]
  }

  /** The description names the function and nothing else: two deferred
      functions read the same exactly when their names agree. */
  lemma DescribeShowsName(a: DeferredFunction, b: DeferredFunction)
    ensures NameInDescription(Describe(a)) == a.name
    ensures Describe(a) == Describe(b) <==> a.name == b.name
  {
  }

  /** What one `invoke()` does: the world afterwards, and whether it raised. */
  datatype Invocation<W> = Invocation(world: W, raised: bool)

  /** The outcome of a batch: the names of the functions that raised, and
      the world after the last call. */
  datatype Batch<W> = Batch(failures: seq<string>, world: W)

  /** Runs `fns` one after the other from `w0`: every function is invoked
      whatever the earlier ones did, and a raising one adds its name. */
  function Run<W>(fns: seq<DeferredFunction>, w0: W, invoke: (W, DeferredFunction) -> Invocation<W>): (b: Batch<W>)
    ensures |b.failures| <= |fns|
  {
    if fns == [] then Batch([], w0)
    else
      var before := Run(fns[..|fns| - 1], w0, invoke);
      var df := fns[|fns| - 1];
      var call := invoke(before.world, df);
      Batch(before.failures + (if call.raised then [df.name] else []), call.world)
  }

  /** Whether each invocation raised, in the order they ran. */
  function Raised<W>(fns: seq<DeferredFunction>, w0: W, invoke: (W, DeferredFunction) -> Invocation<W>): (r: seq<bool>)
    ensures |r| == |fns|
  {
    if fns == [] then []
    else
      var before := Run(fns[..|fns| - 1], w0, invoke);
      Raised(fns[..|fns| - 1], w0, invoke) + [invoke(before.world, fns[|fns| - 1]).raised]
  }

  /** The names of the functions whose flag is set, in their order. */
  function NamesWhere(fns: seq<DeferredFunction>, flags: seq<bool>): seq<string>
    requires |flags| == |fns|
  {
    if fns == [] then []
    else NamesWhere(fns[..|fns| - 1], flags[..|flags| - 1]) + (if flags[|flags| - 1] then [fns[|fns| - 1].name] else [])
  }

  /** `FileStore._runDeferredFunctions`: invokes each function in turn,
      catching whatever it raises, and returns the failing names. */
  method RunDeferredFunctions<W>(deferredFunctions: seq<DeferredFunction>, w0: W, invoke: (W, DeferredFunction) -> Invocation<W>)
    returns (failures: seq<string>, w: W)
    ensures Batch(failures, w) == Run(deferredFunctions, w0, invoke)
  {
    failures := [];
    w := w0;
    var i := 0;
    while i < |deferredFunctions|
      invariant 0 <= i <= |deferredFunctions|
      invariant Batch(failures, w) == Run(deferredFunctions[..i], w0, invoke)
    {
      var df := deferredFunctions[i];
      assert deferredFunctions[..i + 1][..i] == deferredFunctions[..i];
      var call := invoke(w, df);
      if call.raised {
        failures := failures + [df.name];
      }
      w := call.world;
      i := i + 1;
    }
    assert deferredFunctions[..|deferredFunctions|] == deferredFunctions;
  }

  /** The failures are exactly the names of the functions whose invocation
      raised, in input order. */
  lemma {:induction false} FailuresAreRaisingNames<W>(fns: seq<DeferredFunction>, w0: W, invoke: (W, DeferredFunction) -> Invocation<W>)
    ensures Run(fns, w0, invoke).failures == NamesWhere(fns, Raised(fns, w0, invoke))
  {
    if fns != [] {
      var init := fns[..|fns| - 1];
      FailuresAreRaisingNames(init, w0, invoke);
      var flags := Raised(fns, w0, invoke);
      assert flags[..|flags| - 1] == Raised(init, w0, invoke);
    }
  }

  /** No name is reported exactly when no invocation raised. */
  lemma {:induction false} NoFailuresIff<W>(fns: seq<DeferredFunction>, w0: W, invoke: (W, DeferredFunction) -> Invocation<W>)
    ensures Run(fns, w0, invoke).failures == [] <==> true !in Raised(fns, w0, invoke)
  {
    if fns != [] {
      var init := fns[..|fns| - 1];
      NoFailuresIff(init, w0, invoke);
      var before := Run(init, w0, invoke);
      var last := invoke(before.world, fns[|fns| - 1]).raised;
      assert Raised(fns, w0, invoke) == Raised(init, w0, invoke) + [last];
    }
  }

  /** Running a batch in two parts is running it whole: the second part
      starts from the world the first left, and the failure lists join. */
  lemma {:induction false} RunSplit<W>(a: seq<DeferredFunction>, b: seq<DeferredFunction>, w0: W, invoke: (W, DeferredFunction) -> Invocation<W>)
    ensures var first := Run(a, w0, invoke);
      var second := Run(b, first.world, invoke);
      Run(a + b, w0, invoke) == Batch(first.failures + second.failures, second.world)
  {
    if b != [] {
      var init := b[..|b| - 1];
      assert (a + b)[..|a + b| - 1] == a + init;
      RunSplit(a, init, w0, invoke);
    } else {
      assert a + b == a;
    }
  }

  /** A world that is the list of calls made so far, with any rule for
      which calls raise. */
  function Logged(raises: (seq<DeferredFunction>, DeferredFunction) -> bool): (seq<DeferredFunction>, DeferredFunction) -> Invocation<seq<DeferredFunction>>
  {
    (log: seq<DeferredFunction>, df: DeferredFunction) => Invocation(log + [df], raises(log, df))
  }

  /** A raising function never stops the batch: every function is invoked
      exactly once, in input order. */
  lemma {:induction false} InvokesEachOnceInOrder(fns: seq<DeferredFunction>, log: seq<DeferredFunction>, raises: (seq<DeferredFunction>, DeferredFunction) -> bool)
    ensures Run(fns, log, Logged(raises)).world == log + fns
  {
    if fns != [] {
      var init := fns[..|fns| - 1];
      InvokesEachOnceInOrder(init, log, raises);
      assert log + init + [fns[|fns| - 1]] == log + fns;
    }
  }

  /** The names of the functions that `raises` picks, in input order. */
  function FailingNames(fns: seq<DeferredFunction>, raises: DeferredFunction -> bool): seq<string>
  {
    if fns == [] then []
    else FailingNames(fns[..|fns| - 1], raises) + (if raises(fns[|fns| - 1]) then [fns[|fns| - 1].name] else [])
  }

  /** When whether a function raises depends on the function alone, the
      failures are the names of the functions that raise, in input order. */
  lemma {:induction false} FailuresOfFixedOutcomes<W>(fns: seq<DeferredFunction>, w0: W, invoke: (W, DeferredFunction) -> Invocation<W>,
                                                      raises: DeferredFunction -> bool)
    requires forall w, df :: invoke(w, df).raised == raises(df)
    ensures Run(fns, w0, invoke).failures == FailingNames(fns, raises)
  {
    if fns != [] {
      FailuresOfFixedOutcomes(fns[..|fns| - 1], w0, invoke, raises);
    }
  }
}
