// The recover-scope cache: for any sequence of queries on any call graph, cycles of
// wrappers included, it answers whether a recover-capable function is reachable
// through transparent wrappers.
module RecoverScopes {
  import opened Common

  // An instruction as far as recover analysis looks: a call of the recover builtin,
  // a call through an interface method, a call with or without a static callee, or
  // anything else.
  datatype Instr = RecoverCall | MethodCall | StaticCall(callee: Option<nat>) | NoCall

  // A function: its blocks, and whether it is a compiler-generated forwarding frame.
  datatype Fn = Fn(blocks: seq<seq<Instr>>, transparent: bool)

  type Graph = seq<Fn>

  ghost predicate WellFormed(g: Graph) {
    forall f: nat, x: Instr :: f < |g| && Contains(g[f], x) && x.StaticCall? && x.callee.Some? ==> x.callee.value < |g|
  }

  ghost predicate Contains(f: Fn, x: Instr) {
    exists b, i :: 0 <= b < |f.blocks| && 0 <= i < |f.blocks[b]| && f.blocks[b][i] == x
  }

  // ---- the reference ----

  // A function that decides the answer by itself.
  ghost predicate Hit(f: Fn) {
    Contains(f, RecoverCall) || f.blocks == [] || (f.transparent && Contains(f, MethodCall))
  }

  // One forwarding step.
  ghost predicate Forwards(g: Graph, f: nat, h: nat) {
    f < |g| && h < |g| && g[f].transparent && Contains(g[f], StaticCall(Some(h)))
  }

  ghost predicate Path(g: Graph, p: seq<nat>) {
    p != [] && p[0] < |g| && forall k :: 0 <= k < |p| - 1 ==> Forwards(g, p[k], p[k + 1])
  }

  ghost predicate Needs(g: Graph, f: nat) {
    exists p :: Path(g, p) && p[0] == f && p[|p| - 1] < |g| && Hit(g[p[|p| - 1]])
  }

  lemma NeedsHit(g: Graph, f: nat)
    requires f < |g| && Hit(g[f])
    ensures Needs(g, f)
  {
    assert Path(g, [f]);
  }

  lemma NeedsStep(g: Graph, f: nat, h: nat)
    requires Forwards(g, f, h) && Needs(g, h)
    ensures Needs(g, f)
  {
    var p :| Path(g, p) && p[0] == h && p[|p| - 1] < |g| && Hit(g[p[|p| - 1]]);
    var q := [f] + p;
    assert forall k :: 0 <= k < |q| - 1 ==> Forwards(g, q[k], q[k + 1]) by {
      forall k | 0 <= k < |q| - 1 ensures Forwards(g, q[k], q[k + 1]) {
        if k > 0 {
          assert Forwards(g, p[k - 1], p[k - 1 + 1]);
        }
      }
    }
    assert Path(g, q) && q[0] == f && q[|q| - 1] == p[|p| - 1];
  }

  // A set without hits and closed under forwarding needs nothing.
  ghost predicate ClosedQuiet(g: Graph, s: set<nat>) {
    forall f :: f in s ==> f < |g| && !Hit(g[f]) && forall h: nat :: Forwards(g, f, h) ==> h in s
  }

  lemma {:induction false} QuietPath(g: Graph, s: set<nat>, p: seq<nat>)
    requires ClosedQuiet(g, s) && Path(g, p) && p[0] in s
    ensures p[|p| - 1] in s
    decreases |p|
  {
    if |p| > 1 {
      assert Forwards(g, p[0], p[1]);
      forall k | 0 <= k < |p[1..]| - 1 ensures Forwards(g, p[1..][k], p[1..][k + 1]) {
        assert Forwards(g, p[k + 1], p[k + 1 + 1]);
      }
      QuietPath(g, s, p[1..]);
    }
  }

  lemma QuietNeedsNothing(g: Graph, s: set<nat>, f: nat)
    requires ClosedQuiet(g, s) && f in s
    ensures !Needs(g, f)
  {
    forall p | Path(g, p) && p[0] == f && p[|p| - 1] < |g| ensures !Hit(g[p[|p| - 1]]) {
      QuietPath(g, s, p);
    }
  }

  // ---- the cache ----

  class RecoverFacts {
    const g: Graph
    var uses: map<nat, bool>
    var scopes: map<nat, bool>

    constructor (g: Graph)
      requires WellFormed(g)
      ensures this.g == g && Valid()
    {
      this.g := g;
      uses, scopes := map[], map[];
    }

    // Every cached answer is the true one.
    ghost predicate Valid()
      reads this
    {
      && WellFormed(g)
      && (forall f :: f in uses ==> f < |g| && uses[f] == Contains(g[f], RecoverCall))
      && (forall f :: f in scopes ==> f < |g| && scopes[f] == Needs(g, f))
    }

    method FunctionUsesRecover(f: nat) returns (r: bool)
      requires Valid() && f < |g|
      modifies this`uses
      ensures Valid() && r == Contains(g[f], RecoverCall)
    {
      if f in uses {
        return uses[f];
      }
      r := HasInstr(g[f], RecoverCall);
      uses := uses[f := r];
    }

    // Depth-first search with an explicit stack. A negative answer is cached for
    // every function visited.
    method NeedsRecoverScope(f: nat) returns (r: bool)
      requires Valid() && f < |g|
      modifies this
      ensures Valid() && r == Needs(g, f)
    {
      hide Needs, Forwards, Hit;
      if f in scopes {
        return scopes[f];
      }
      var seen: set<nat> := {};
      var work: seq<Option<nat>> := [Some(f)];
      ghost var all := Ids(|g|);
      while work != []
        invariant Valid() && seen <= all
        invariant forall k :: 0 <= k < |work| && work[k].Some? ==>
                    work[k].value < |g| && (Needs(g, work[k].value) ==> Needs(g, f))
        invariant forall h :: h in seen ==> h < |g| && !Hit(g[h]) && (Needs(g, h) ==> Needs(g, f))
        invariant forall h, k: nat :: h in seen && Forwards(g, h, k) ==>
                    k in seen || Some(k) in work || (k in scopes && !scopes[k])
        invariant f in seen || Some(f) in work || (f in scopes && !scopes[f])
        decreases all - seen, |work|
      {
        var current := work[|work| - 1];
        ghost var before := work;
        work := work[..|work| - 1];
        assert forall x :: x in before ==> x in work || x == current;
        if current.None? || current.value in seen {
          continue;
        }
        var c := current.value;
        if c in scopes {
          if scopes[c] {
            scopes := scopes[f := true];
            return true;
          }
          continue;
        }
        var hit, targets := Inspect(c);
        if hit {
          NeedsHit(g, c);
          scopes := scopes[f := true];
          return true;
        }
        seen := seen + {c};
        TargetsNeed(c, targets, f);
        work := work + targets;
      }
      QuietSeen(seen);
      scopes := scopes + map h | h in seen :: false;
      r := false;
    }

    // Looks at one function: whether it decides by itself, else where it forwards to.
    method Inspect(c: nat) returns (hit: bool, targets: seq<Option<nat>>)
      requires Valid() && c < |g|
      modifies this`uses
      ensures Valid() && hit == Hit(g[c])
      ensures !hit ==> forall k: nat :: Forwards(g, c, k) <==> Some(k) in targets
    {
      hit := FunctionUsesRecover(c);
      if !hit {
        hit := g[c].blocks == [];
      }
      targets := [];
      if !hit && g[c].transparent {
        hit, targets := Callees(g[c]);
        assert forall k: nat :: Contains(g[c], StaticCall(Some(k))) ==> k < |g|;
      }
    }

    lemma TargetsNeed(c: nat, targets: seq<Option<nat>>, f: nat)
      requires (Needs(g, c) ==> Needs(g, f)) && forall k: nat :: Forwards(g, c, k) <==> Some(k) in targets
      ensures forall k :: 0 <= k < |targets| && targets[k].Some? ==>
                targets[k].value < |g| && (Needs(g, targets[k].value) ==> Needs(g, f))
    {
      forall k | 0 <= k < |targets| && targets[k].Some?
        ensures targets[k].value < |g| && (Needs(g, targets[k].value) ==> Needs(g, f))
      {
        assert targets[k] == Some(targets[k].value);
        assert Forwards(g, c, targets[k].value);
        if Needs(g, targets[k].value) {
          NeedsStep(g, c, targets[k].value);
        }
      }
    }

    // What was seen, with what is known to need nothing, is closed and has no hits.
    lemma QuietSeen(seen: set<nat>)
      requires Valid()
      requires forall h :: h in seen ==> h < |g| && !Hit(g[h])
      requires forall h, k: nat :: h in seen && Forwards(g, h, k) ==> k in seen || (k in scopes && !scopes[k])
      ensures forall h :: h in seen ==> !Needs(g, h)
    {
      var s := seen + Quiet(g);
      forall f | f in s ensures !Hit(g[f]) && forall h: nat :: Forwards(g, f, h) ==> h in s {
        if f in Quiet(g) {
          QuietCloses(g, f);
        }
      }
      forall h | h in seen ensures !Needs(g, h) {
        QuietNeedsNothing(g, s, h);
      }
    }
  }

  ghost function Quiet(g: Graph): (s: set<nat>) {
    set f | f in Ids(|g|) && !Needs(g, f)
  }

  lemma QuietCloses(g: Graph, f: nat)
    requires f in Quiet(g)
    ensures !Hit(g[f]) && forall h: nat :: Forwards(g, f, h) ==> h in Quiet(g)
  {
    if Hit(g[f]) {
      NeedsHit(g, f);
    }
    forall h: nat | Forwards(g, f, h) ensures h in Quiet(g) {
      if Needs(g, h) {
        NeedsStep(g, f, h);
      }
    }
  }

  method HasInstr(f: Fn, x: Instr) returns (r: bool)
    ensures r == Contains(f, x)
  {
    var b := 0;
    while b < |f.blocks|
      invariant 0 <= b <= |f.blocks|
      invariant forall c, i :: 0 <= c < b && 0 <= i < |f.blocks[c]| ==> f.blocks[c][i] != x
    {
      var i := 0;
      while i < |f.blocks[b]|
        invariant 0 <= i <= |f.blocks[b]|
        invariant forall j :: 0 <= j < i ==> f.blocks[b][j] != x
      {
        if f.blocks[b][i] == x {
          return true;
        }
        i := i + 1;
      }
      b := b + 1;
    }
    r := false;
  }

  // The callees of a wrapper, unless it calls through an interface.
  method Callees(f: Fn) returns (method_: bool, targets: seq<Option<nat>>)
    ensures method_ == Contains(f, MethodCall)
    ensures !method_ ==> forall t :: t in targets <==> Contains(f, StaticCall(t))
  {
    targets := [];
    var b := 0;
    while b < |f.blocks|
      invariant 0 <= b <= |f.blocks|
      invariant forall c, i :: 0 <= c < b && 0 <= i < |f.blocks[c]| ==> f.blocks[c][i] != MethodCall
      invariant forall c, i :: 0 <= c < b && 0 <= i < |f.blocks[c]| && f.blocks[c][i].StaticCall? ==>
                  f.blocks[c][i].callee in targets
      invariant forall t :: t in targets ==> Contains(f, StaticCall(t))
    {
      var i := 0;
      while i < |f.blocks[b]|
        invariant 0 <= i <= |f.blocks[b]|
        invariant forall c, i :: 0 <= c < b && 0 <= i < |f.blocks[c]| && f.blocks[c][i].StaticCall? ==>
                    f.blocks[c][i].callee in targets
        invariant forall j :: 0 <= j < i ==> f.blocks[b][j] != MethodCall
        invariant forall j :: 0 <= j < i && f.blocks[b][j].StaticCall? ==> f.blocks[b][j].callee in targets
        invariant forall t :: t in targets ==> Contains(f, StaticCall(t))
      {
        var x := f.blocks[b][i];
        if x == MethodCall {
          return true, targets;
        }
        if x.StaticCall? {
          assert Contains(f, x);
          assert x == StaticCall(x.callee);
          targets := targets + [x.callee];
        }
        i := i + 1;
      }
      b := b + 1;
    }
    method_ := false;
  }
}
