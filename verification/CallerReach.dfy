// Which package functions may reach a runtime-caller function: positives are
// propagated backwards over the call graph, in whatever order functions are visited.
module CallerReach {

  // Per package function: the resolved targets of its calls and of the function
  // literals it contains, and whether some call could not be resolved.
  datatype Fn = Fn(targets: seq<nat>, unresolved: bool)

  // `funcs` are the package's functions; `callerFrames` the runtime-caller functions,
  // inside the package or not.
  datatype Pkg = Pkg(funcs: map<nat, Fn>, callerFrames: set<nat>)

  // ---- the reference ----

  // f is positive by itself.
  predicate Source(p: Pkg, f: nat) {
    f in p.funcs && (f in p.callerFrames || p.funcs[f].unresolved
                     || exists k :: 0 <= k < |p.funcs[f].targets| && p.funcs[f].targets[k] in p.callerFrames)
  }

  predicate Calls(p: Pkg, f: nat, h: nat) {
    f in p.funcs && h in p.funcs && h in p.funcs[f].targets && h !in p.callerFrames
  }

  // A call path of package functions.
  ghost predicate Path(p: Pkg, fs: seq<nat>) {
    fs != [] && fs[0] in p.funcs && forall k :: 0 <= k < |fs| - 1 ==> Calls(p, fs[k], fs[k + 1])
  }

  ghost predicate Reaches(p: Pkg, f: nat) {
    exists fs :: Path(p, fs) && fs[0] == f && Source(p, fs[|fs| - 1])
  }

  lemma ReachesSource(p: Pkg, f: nat)
    requires Source(p, f)
    ensures Reaches(p, f)
  {
    assert Path(p, [f]);
  }

  lemma ReachesStep(p: Pkg, f: nat, h: nat)
    requires Calls(p, f, h) && Reaches(p, h)
    ensures Reaches(p, f)
  {
    var fs :| Path(p, fs) && fs[0] == h && Source(p, fs[|fs| - 1]);
    var gs := [f] + fs;
    forall k | 0 <= k < |gs| - 1 ensures Calls(p, gs[k], gs[k + 1]) {
      if k > 0 {
        assert Calls(p, fs[k - 1], fs[k - 1 + 1]);
      }
    }
    assert Path(p, gs) && gs[|gs| - 1] == fs[|fs| - 1];
  }

  // A set that holds all sources and all callers of its members holds every function
  // that reaches a source.
  lemma {:induction false} BackwardClosed(p: Pkg, s: set<nat>, fs: seq<nat>)
    requires forall f :: Source(p, f) ==> f in s
    requires forall f, h :: h in s && Calls(p, f, h) ==> f in s
    requires Path(p, fs) && Source(p, fs[|fs| - 1])
    ensures fs[0] in s
    decreases |fs|
  {
    if |fs| > 1 {
      assert Calls(p, fs[0], fs[1]);
      forall k | 0 <= k < |fs[1..]| - 1 ensures Calls(p, fs[1..][k], fs[1..][k + 1]) {
        assert Calls(p, fs[k + 1], fs[k + 1 + 1]);
      }
      BackwardClosed(p, s, fs[1..]);
    }
  }

  // A set that a sound analysis stays in.
  ghost predicate UpperBound(p: Pkg, s: set<nat>) {
    && (forall f :: Source(p, f) ==> f in s)
    && (forall f, h :: h in s && Calls(p, f, h) ==> f in s)
  }

  ghost function Positives(p: Pkg): (s: set<nat>)
    ensures UpperBound(p, s) && forall f :: f in s <==> f in p.funcs && Reaches(p, f)
  {
    var s := set f | f in p.funcs && Reaches(p, f);
    PositivesBound(p, s);
    s
  }

  lemma PositivesBound(p: Pkg, s: set<nat>)
    requires forall f :: f in s <==> f in p.funcs && Reaches(p, f)
    ensures UpperBound(p, s)
  {
    forall f | Source(p, f) ensures f in s {
      ReachesSource(p, f);
    }
    forall f, h | h in s && Calls(p, f, h) ensures f in s {
      ReachesStep(p, f, h);
    }
  }

  // ---- the analysis ----

  class RuntimeCallerAnalysis {
    const p: Pkg
    var memo: set<nat>
    var callers: map<nat, seq<nat>>
    var pending: seq<nat>
    ghost var bound: set<nat>

    constructor (p: Pkg)
      ensures this.p == p && Valid() && memo == {} && callers == map[]
    {
      this.p := p;
      memo, callers, pending := {}, map[], [];
      bound := {};
    }

    // Marked functions are queued and within the bound; recorded callers call.
    ghost predicate Valid()
      reads this
    {
      && Queued(memo, pending)
      && memo <= bound && memo <= p.funcs.Keys
      && (forall h, f :: h in callers && f in callers[h] ==> Calls(p, f, h))
    }

    method Mark(f: nat)
      requires Valid() && f in p.funcs && f in bound
      modifies this`memo, this`pending
      ensures Valid() && memo == old(memo) + {f} && old(pending) <= pending
      ensures memo == old(memo) ==> pending == old(pending)
    {
      if f !in memo {
        memo := memo + {f};
        pending := pending + [f];
      }
    }

    method AddTarget(f: nat, callee: nat)
      requires Valid() && UpperBound(p, bound) && f in p.funcs && callee in p.funcs[f].targets
      modifies this`memo, this`pending, this`callers
      ensures Valid() && old(memo) <= memo
      ensures callee in p.callerFrames ==> f in memo
      ensures Calls(p, f, callee) ==> Records(callers, callee, f)
      ensures forall h, c :: Records(old(callers), h, c) ==> Records(callers, h, c)
    {
      if callee in p.callerFrames {
        assert Source(p, f);
        Mark(f);
      } else if callee in p.funcs {
        callers := callers[callee := (if callee in callers then callers[callee] else []) + [f]];
      }
    }

    // All calls of one function.
    method Visit(f: nat)
      requires Valid() && UpperBound(p, bound) && f in p.funcs
      modifies this`memo, this`pending, this`callers
      ensures Valid() && old(memo) <= memo
      ensures Source(p, f) ==> f in memo
      ensures forall h :: Calls(p, f, h) ==> Records(callers, h, f)
      ensures forall h, c :: Records(old(callers), h, c) ==> Records(callers, h, c)
    {
      if f in p.callerFrames || p.funcs[f].unresolved {
        assert Source(p, f);
        Mark(f);
      }
      var targets := p.funcs[f].targets;
      var k := 0;
      while k < |targets|
        invariant 0 <= k <= |targets|
        invariant Valid() && old(memo) <= memo
        invariant f in p.callerFrames || p.funcs[f].unresolved ==> f in memo
        invariant forall j :: 0 <= j < k && targets[j] in p.callerFrames ==> f in memo
        invariant forall j :: 0 <= j < k && Calls(p, f, targets[j]) ==> Records(callers, targets[j], f)
        invariant forall h, c :: Records(old(callers), h, c) ==> Records(callers, h, c)
      {
        AddTarget(f, targets[k]);
        k := k + 1;
      }
    }

    // Marks exactly the functions from which a call path leads to a source.
    method ComputeReachability()
      requires Valid() && memo == {} && callers == map[]
      modifies this
      ensures forall f :: f in memo <==> f in p.funcs && Reaches(p, f)
    {
      bound := Positives(p);
      Record();
      Propagate();
      forall f | f in p.funcs && Reaches(p, f) ensures f in memo {
        var fs :| Path(p, fs) && fs[0] == f && Source(p, fs[|fs| - 1]);
        BackwardClosed(p, memo, fs);
      }
    }

    // The first phase: every function is visited once, in any order.
    method Record()
      requires Valid() && UpperBound(p, bound)
      modifies this`memo, this`pending, this`callers
      ensures Valid() && forall f :: Source(p, f) ==> f in memo
      ensures forall f, h :: Calls(p, f, h) ==> Records(callers, h, f)
    {
      var todo := p.funcs.Keys;
      while todo != {}
        invariant Valid() && todo <= p.funcs.Keys
        invariant forall f :: f !in todo && Source(p, f) ==> f in memo
        invariant forall f, h :: f !in todo && Calls(p, f, h) ==> Records(callers, h, f)
        decreases |todo|
      {
        var f :| f in todo;
        todo := todo - {f};
        Visit(f);
      }
    }

    method MarkAll(cs: seq<nat>)
      requires Valid() && forall k :: 0 <= k < |cs| ==> cs[k] in p.funcs && cs[k] in bound
      modifies this`memo, this`pending
      ensures Valid() && old(memo) <= memo && old(pending) <= pending
      ensures forall k :: 0 <= k < |cs| ==> cs[k] in memo
      ensures memo == old(memo) ==> pending == old(pending)
    {
      var k := 0;
      while k < |cs|
        invariant 0 <= k <= |cs| && Valid() && old(memo) <= memo && old(pending) <= pending
        invariant forall j :: 0 <= j < k ==> cs[j] in memo
        invariant memo == old(memo) ==> pending == old(pending)
      {
        Mark(cs[k]);
        k := k + 1;
      }
    }

    // Marks the recorded callers of a marked function.
    method MarkCallers(h: nat)
      requires Valid() && UpperBound(p, bound) && h in memo
      modifies this`memo, this`pending
      ensures Valid() && old(memo) <= memo && old(pending) <= pending
      ensures forall f :: Records(callers, h, f) ==> f in memo
      ensures memo == old(memo) ==> pending == old(pending)
    {
      if h in callers {
        forall k | 0 <= k < |callers[h]| ensures callers[h][k] in p.funcs && callers[h][k] in bound {
          assert Calls(p, callers[h][k], h);
        }
        MarkAll(callers[h]);
      }
    }

    // The second phase, the worklist: each queued function marks its callers.
    method Propagate()
      requires Valid() && UpperBound(p, bound)
      requires forall f, h :: Calls(p, f, h) ==> Records(callers, h, f)
      modifies this`memo, this`pending
      ensures Valid() && old(memo) <= memo
      ensures forall f, h :: h in memo && Calls(p, f, h) ==> f in memo
    {
      var i := 0;
      while i < |pending|
        invariant 0 <= i <= |pending| && Valid() && old(memo) <= memo
        invariant forall k, f :: 0 <= k < i && Records(callers, pending[k], f) ==> f in memo
        decreases |p.funcs.Keys - memo|, |pending| - i
      {
        ghost var left := p.funcs.Keys - memo;
        MarkCallers(pending[i]);
        Shrinks(left, p.funcs.Keys - memo);
        i := i + 1;
      }
    }
  }

  ghost predicate Records(callers: map<nat, seq<nat>>, h: nat, f: nat) {
    h in callers && f in callers[h]
  }

  ghost predicate Queued(memo: set<nat>, pending: seq<nat>) {
    (forall k :: 0 <= k < |pending| ==> pending[k] in memo) && forall f :: f in memo ==> f in pending
  }

  lemma Shrinks(a: set<nat>, b: set<nat>)
    requires b <= a
    ensures |b| <= |a| && (b == a || |b| < |a|)
  {
    var rest := a - b;
    assert a == b + rest && |a| == |b| + |rest|;
  }
}
