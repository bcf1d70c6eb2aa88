/** POSIX path arithmetic as Python's `posixpath` performs it: `isabs`,
    `join`, `normpath`, `abspath` and `dirname`. The file store resolves
    every local path with these, so their behaviour is part of what the
    model's path properties rest on. */
module Paths {

  const Sep: char := '/'

  /** `os.path.isabs`: a path is absolute exactly when it starts with '/'. */
  predicate IsAbs(p: string)
  {
    |p| > 0 && p[0] == Sep
  }

  /** `os.path.join(a, b)` for one extra component. */
  function JoinPath(a: string, b: string): string
  {
    if |b| > 0 && b[0] == Sep then b
    else if a == "" || a[|a| - 1] == Sep then a + b
    else a + [Sep] + b
  }

  /** A single path component that `normpath` keeps unchanged. */
  predicate Plain(c: string)
  {
    c != "" && c != "." && c != ".." && Sep !in c
  }

  /** Position of the first '/', or the length when there is none. */
  function IndexOfSep(s: string): (i: nat)
    ensures i <= |s|
    ensures forall k :: 0 <= k < i ==> s[k] != Sep
    ensures i < |s| ==> s[i] == Sep
  {
    if s == "" || s[0] == Sep then 0 else 1 + IndexOfSep(s[1..])
  }

  /** `s.split('/')`: always at least one part, none containing '/'. */
  function Split(s: string): (parts: seq<string>)
    ensures |parts| >= 1
    ensures forall i :: 0 <= i < |parts| ==> Sep !in parts[i]
    decreases |s|
  {
    var i := IndexOfSep(s);
    if i == |s| then [s] else [s[..i]] + Split(s[i + 1..])
  }

  /** `'/'.join(parts)`. */
  function JoinWithSep(parts: seq<string>): string
  {
    if parts == [] then ""
    else if |parts| == 1 then parts[0]
    else parts[0] + [Sep] + JoinWithSep(parts[1..])
  }

  /** `'/' * k`. */
  function Slashes(k: nat): (s: string)
    ensures |s| == k && forall i :: 0 <= i < k ==> s[i] == Sep
  {
    seq(k, _ => Sep)
  }

  /** How many leading slashes `normpath` keeps: POSIX lets exactly two
      leading slashes mean something of their own, three or more mean one. */
  function LeadingSlashes(p: string): (k: nat)
    ensures k <= 2
    ensures k > 0 <==> IsAbs(p)
  {
    if !IsAbs(p) then 0
    else if |p| >= 2 && p[1] == Sep && !(|p| >= 3 && p[2] == Sep) then 2
    else 1
  }

  /** One step of `normpath`'s component loop over the stack `acc`. */
  function Step(acc: seq<string>, comp: string, rooted: bool): seq<string>
  {
    if comp == "" || comp == "." then acc
    else if comp != ".." || (!rooted && acc == []) || (acc != [] && acc[|acc| - 1] == "..") then acc + [comp]
    else if acc != [] then acc[..|acc| - 1]
    else acc
  }

  /** `normpath`'s loop over all components, left to right. */
  function Fold(acc: seq<string>, comps: seq<string>, rooted: bool): seq<string>
    decreases |comps|
  {
    if comps == [] then acc else Fold(Step(acc, comps[0], rooted), comps[1..], rooted)
  }

  /** `os.path.normpath`. */
  function NormPath(path: string): string
  {
    if path == "" then "."
    else
      var k := LeadingSlashes(path);
      var p := Slashes(k) + JoinWithSep(Fold([], Split(path), k > 0));
      if p == "" then "." else p
  }

  /** `os.path.abspath`, with the process's working directory as input. */
  function AbsPath(cwd: string, p: string): string
  {
    NormPath(if IsAbs(p) then p else JoinPath(cwd, p))
  }

  /** `p.rfind('/')`. */
  function RFindSep(p: string): (i: int)
    ensures -1 <= i < |p|
    ensures i >= 0 ==> p[i] == Sep
    ensures forall k :: i < k < |p| ==> p[k] != Sep
  {
    if p == "" then -1 else if p[|p| - 1] == Sep then |p| - 1 else RFindSep(p[..|p| - 1])
  }

  /** `s.rstrip('/')`. */
  function RStripSeps(s: string): (r: string)
    ensures r <= s
    ensures r == "" || r[|r| - 1] != Sep
    ensures forall k :: |r| <= k < |s| ==> s[k] == Sep
  {
    if s == "" || s[|s| - 1] != Sep then s else RStripSeps(s[..|s| - 1])
  }

  predicate AllSeps(s: string)
  {
    forall k :: 0 <= k < |s| ==> s[k] == Sep
  }

  /** `os.path.dirname`: the prefix up to the last '/', with trailing
      slashes removed unless it consists of slashes only. */
  function DirName(p: string): (d: string)
    ensures d <= p
    ensures IsAbs(p) ==> IsAbs(d)
  {
    var head := p[..RFindSep(p) + 1];
    if head != "" && !AllSeps(head) then RStripSeps(head) else head
  }

  /** The components `normpath` leaves: no empty or "." component, no '/',
      and ".." only as a leading run of a relative path. */
  ghost predicate Normal(comps: seq<string>, rooted: bool)
  {
    forall i :: 0 <= i < |comps| ==>
      && comps[i] != "" && comps[i] != "." && Sep !in comps[i]
      && (comps[i] == ".." ==> !rooted && forall j :: 0 <= j < i ==> comps[j] == "..")
  }

  // ---------------------------------------------------------------------
  // Splitting and joining on '/'

  /** The first '/' after a separator-free prefix is the one that ends it. */
  lemma {:induction false} IndexOfSepAfter(a: string, b: string)
    requires Sep !in a
    ensures IndexOfSep(a + [Sep] + b) == |a|
  {
    if a != [] {
      assert a[0] in a;
      assert (a + [Sep] + b)[1..] == a[1..] + [Sep] + b;
      IndexOfSepAfter(a[1..], b);
    }
  }

  lemma SplitLeadingSep(s: string)
    ensures Split([Sep] + s) == [""] + Split(s)
  {
    assert IndexOfSep([Sep] + s) == 0;
    assert ([Sep] + s)[1..] == s;
  }

  /** Splitting at the '/' that ends a separator-free prefix. */
  lemma SplitAfter(a: string, rest: string)
    requires Sep !in a
    ensures Split(a + [Sep] + rest) == [a] + Split(rest)
  {
    var s := a + [Sep] + rest;
    IndexOfSepAfter(a, rest);
    assert s[..|a|] == a;
    assert s[|a| + 1..] == rest;
  }

  /** Splitting what was joined gives back the parts. */
  lemma {:induction false} SplitJoin(parts: seq<string>)
    requires |parts| >= 1
    requires forall i :: 0 <= i < |parts| ==> Sep !in parts[i]
    ensures Split(JoinWithSep(parts)) == parts
  {
    if |parts| == 1 {
      assert IndexOfSep(parts[0]) == |parts[0]|;
    } else {
      SplitAfter(parts[0], JoinWithSep(parts[1..]));
      SplitJoin(parts[1..]);
    }
  }

  /** Joining what was split gives back the string. */
  lemma {:induction false} JoinSplit(s: string)
    ensures JoinWithSep(Split(s)) == s
    decreases |s|
  {
    var i := IndexOfSep(s);
    if i < |s| {
      JoinSplit(s[i + 1..]);
      assert s == s[..i] + [Sep] + s[i + 1..];
    }
  }

  lemma {:induction false} JoinAppend(parts: seq<string>, c: string)
    requires parts != []
    ensures JoinWithSep(parts + [c]) == JoinWithSep(parts) + [Sep] + c
  {
    if |parts| > 1 {
      assert (parts + [c])[1..] == parts[1..] + [c];
      JoinAppend(parts[1..], c);
    }
  }

  /** A path in normal form ends with '/' exactly when it has no components. */
  lemma EndsWithSepIffNoComponents(k: nat, comps: seq<string>)
    requires k >= 1 && Normal(comps, true)
    ensures (Slashes(k) + JoinWithSep(comps))[k + |JoinWithSep(comps)| - 1] == Sep <==> comps == []
  {
    if comps != [] {
      var last := comps[|comps| - 1];
      if |comps| > 1 {
        assert comps == comps[..|comps| - 1] + [last];
        JoinAppend(comps[..|comps| - 1], last);
      }
      assert JoinWithSep(comps)[|JoinWithSep(comps)| - 1] == last[|last| - 1];
      assert last[|last| - 1] in last;
    }
  }

  lemma FoldSkipsEmpty(acc: seq<string>, cs: seq<string>, rooted: bool)
    ensures Fold(acc, [""] + cs, rooted) == Fold(acc, cs, rooted)
  {
    assert ([""] + cs)[1..] == cs;
  }

  lemma JoinStartsWithFirst(parts: seq<string>)
    requires parts != []
    ensures parts[0] <= JoinWithSep(parts)
  {
  }

  // ---------------------------------------------------------------------
  // The component loop of normpath

  lemma StepNormal(acc: seq<string>, comp: string, rooted: bool)
    requires Normal(acc, rooted) && Sep !in comp
    ensures Normal(Step(acc, comp, rooted), rooted)
  {
    if comp == "" || comp == "." {
    } else if comp != ".." {
      assert forall i :: 0 <= i < |acc| ==> (acc + [comp])[i] == acc[i];
    } else if !rooted && acc == [] {
    } else if acc != [] && acc[|acc| - 1] == ".." {
      assert !rooted;
      forall i | 0 <= i < |acc| + 1
        ensures (acc + [comp])[i] == ".."
      {
        if i < |acc| - 1 {
          assert acc[i] == "..";
        }
      }
    } else if acc != [] {
      assert forall i :: 0 <= i < |acc| - 1 ==> acc[..|acc| - 1][i] == acc[i];
    }
  }

  lemma {:induction false} FoldNormal(acc: seq<string>, comps: seq<string>, rooted: bool)
    requires Normal(acc, rooted)
    requires forall i :: 0 <= i < |comps| ==> Sep !in comps[i]
    ensures Normal(Fold(acc, comps, rooted), rooted)
    decreases |comps|
  {
    if comps != [] {
      StepNormal(acc, comps[0], rooted);
      FoldNormal(Step(acc, comps[0], rooted), comps[1..], rooted);
    }
  }

  /** On components that are already normal the loop changes nothing. */
  lemma {:induction false} FoldIdentity(acc: seq<string>, comps: seq<string>, rooted: bool)
    requires Normal(acc + comps, rooted)
    ensures Fold(acc, comps, rooted) == acc + comps
    decreases |comps|
  {
    if comps != [] {
      var c := comps[0];
      assert c == (acc + comps)[|acc|];
      if c == ".." && acc != [] {
        assert acc[|acc| - 1] == (acc + comps)[|acc| - 1];
      }
      assert Step(acc, c, rooted) == acc + [c];
      assert acc + comps == (acc + [c]) + comps[1..];
      FoldIdentity(acc + [c], comps[1..], rooted);
    }
  }

  // ---------------------------------------------------------------------
  // normpath

  /** The loop over the parts of joined normal components gives them back. */
  lemma FoldOfJoined(comps: seq<string>, rooted: bool)
    requires Normal(comps, rooted)
    ensures Fold([], Split(JoinWithSep(comps)), rooted) == comps
    ensures comps != [] ==> JoinWithSep(comps)[0] != Sep
  {
    var j := JoinWithSep(comps);
    FoldIdentity([], comps, rooted);
    assert [] + comps == comps;
    if comps != [] {
      JoinStartsWithFirst(comps);
      assert j[0] == comps[0][0];
      assert j[0] != Sep by { assert comps[0][0] in comps[0]; }
      SplitJoin(comps);
    } else {
      assert Split(j) == [""];
      FoldSkipsEmpty([], [], rooted);
    }
  }

  /** Leading slashes only add empty parts, which the loop skips. */
  lemma FoldAfterSlashes(k: nat, j: string, rooted: bool)
    requires k <= 2
    ensures Fold([], Split(Slashes(k) + j), rooted) == Fold([], Split(j), rooted)
  {
    if k == 1 {
      assert Slashes(k) + j == [Sep] + j;
      SplitLeadingSep(j);
      FoldSkipsEmpty([], Split(j), rooted);
    } else if k == 2 {
      assert Slashes(k) + j == [Sep] + ([Sep] + j);
      SplitLeadingSep([Sep] + j);
      SplitLeadingSep(j);
      FoldSkipsEmpty([], [""] + Split(j), rooted);
      FoldSkipsEmpty([], Split(j), rooted);
    } else {
      assert Slashes(k) + j == j;
    }
  }

  /** A path already in normal form is its own `normpath`. */
  lemma NormPathOfNormal(k: nat, comps: seq<string>)
    requires k <= 2 && Normal(comps, k > 0)
    requires k == 0 ==> comps != []
    ensures NormPath(Slashes(k) + JoinWithSep(comps)) == Slashes(k) + JoinWithSep(comps)
  {
    var j := JoinWithSep(comps);
    var p := Slashes(k) + j;
    FoldOfJoined(comps, k > 0);
    FoldAfterSlashes(k, j, k > 0);
    assert p != "";
    assert k < |p| ==> p[k] == j[0];
    assert LeadingSlashes(p) == k;
  }

  /** What `normpath` returns for a non-empty path, taken apart. */
  lemma NormPathShape(path: string)
    requires path != ""
    ensures Normal(Fold([], Split(path), LeadingSlashes(path) > 0), LeadingSlashes(path) > 0)
  {
    FoldNormal([], Split(path), LeadingSlashes(path) > 0);
  }

  /** `normpath` is idempotent. */
  lemma NormPathIdempotent(path: string)
    ensures NormPath(NormPath(path)) == NormPath(path)
  {
    assert Split(".") == ["."];
    assert NormPath(".") == ".";
    if path != "" {
      var k := LeadingSlashes(path);
      var comps := Fold([], Split(path), k > 0);
      NormPathShape(path);
      if Slashes(k) + JoinWithSep(comps) != "" {
        NormPathOfNormal(k, comps);
      }
    }
  }

  /** `normpath` keeps a path absolute, and a relative one relative. */
  lemma NormPathKeepsAbsoluteness(path: string)
    ensures IsAbs(NormPath(path)) <==> IsAbs(path)
  {
    if path != "" {
      var k := LeadingSlashes(path);
      var comps := Fold([], Split(path), k > 0);
      NormPathShape(path);
      if k == 0 && comps != [] {
        JoinStartsWithFirst(comps);
        assert JoinWithSep(comps)[0] == comps[0][0];
        assert comps[0][0] != Sep by { assert comps[0][0] in comps[0]; }
      }
    }
  }

  /** `abspath` against an absolute working directory gives an absolute
      path in normal form. */
  lemma AbsPathNormal(cwd: string, p: string)
    requires IsAbs(cwd)
    ensures IsAbs(AbsPath(cwd, p))
    ensures NormPath(AbsPath(cwd, p)) == AbsPath(cwd, p)
  {
    var q := if IsAbs(p) then p else JoinPath(cwd, p);
    assert IsAbs(q);
    NormPathKeepsAbsoluteness(q);
    NormPathIdempotent(q);
  }

  /** An absolute path in normal form, taken apart into its slashes and
      its components. */
  lemma NormalAbsShape(dir: string) returns (k: nat, comps: seq<string>)
    requires IsAbs(dir) && NormPath(dir) == dir
    ensures 1 <= k <= 2 && Normal(comps, true)
    ensures dir == Slashes(k) + JoinWithSep(comps)
  {
    k := LeadingSlashes(dir);
    comps := Fold([], Split(dir), true);
    NormPathShape(dir);
  }

  /** A plain component may follow any rooted normal components. */
  lemma NormalSnocPlain(comps: seq<string>, c: string)
    requires Normal(comps, true) && Plain(c)
    ensures Normal(comps + [c], true)
  {
    assert forall i :: 0 <= i < |comps| ==> (comps + [c])[i] == comps[i];
  }

  /** Appending a plain component to a path in normal form appends it
      to the components. */
  lemma JoinPlainShape(k: nat, comps: seq<string>, c: string)
    requires 1 <= k <= 2 && Normal(comps, true) && Plain(c)
    ensures Normal(comps + [c], true)
    ensures JoinPath(Slashes(k) + JoinWithSep(comps), c) == Slashes(k) + JoinWithSep(comps + [c])
  {
    NormalSnocPlain(comps, c);
    EndsWithSepIffNoComponents(k, comps);
    assert c[0] != Sep by { assert c[0] in c; }
    if comps != [] {
      JoinAppend(comps, c);
    } else {
      assert comps + [c] == [c];
    }
  }

  /** Appending a plain component to an absolute path in normal form
      gives an absolute path in normal form: the one-separator join. */
  lemma JoinPlainNormal(dir: string, c: string)
    requires IsAbs(dir) && NormPath(dir) == dir && Plain(c)
    ensures IsAbs(JoinPath(dir, c))
    ensures NormPath(JoinPath(dir, c)) == JoinPath(dir, c)
    ensures JoinPath(dir, c) == dir + (if dir[|dir| - 1] == Sep then c else [Sep] + c)
  {
    var k, comps := NormalAbsShape(dir);
    JoinPlainShape(k, comps, c);
    NormPathOfNormal(k, comps + [c]);
    assert c[0] != Sep by { assert c[0] in c; }
  }

  /** The last '/' of a path that ends in a separator-free name is the
      one just before that name. */
  lemma LastSepBeforeName(q: string, n: nat, c: string)
    requires 1 <= n <= |q| && q[n - 1] == Sep && q[n..] == c && Sep !in c
    ensures RFindSep(q) == n - 1
  {
    forall i | n <= i < |q|
      ensures q[i] != Sep
    {
      assert q[i] == c[i - n];
      assert c[i - n] in c;
    }
  }

  /** An absolute path in normal form that ends with '/' is the root. */
  lemma NormalEndingInSepIsRoot(dir: string)
    requires IsAbs(dir) && NormPath(dir) == dir && dir[|dir| - 1] == Sep
    ensures AllSeps(dir)
  {
    var k, comps := NormalAbsShape(dir);
    EndsWithSepIffNoComponents(k, comps);
    assert dir == Slashes(k);
  }

  /** `dirname` undoes the join of a plain component onto an absolute
      path in normal form. */
  lemma DirNameOfChild(dir: string, c: string)
    requires IsAbs(dir) && NormPath(dir) == dir && Plain(c)
    ensures DirName(JoinPath(dir, c)) == dir
  {
    JoinPlainNormal(dir, c);
    var q := JoinPath(dir, c);
    var n := |q| - |c|;
    LastSepBeforeName(q, n, c);
    var head := q[..n];
    if dir[|dir| - 1] == Sep {
      NormalEndingInSepIsRoot(dir);
      assert head == dir;
    } else {
      assert head == dir + [Sep];
      assert !AllSeps(head) by { assert head[|dir| - 1] != Sep; }
      assert RStripSeps(head) == dir by { assert head[..|head| - 1] == dir; }
    }
  }
}
