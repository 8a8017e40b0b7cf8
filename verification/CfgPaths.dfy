// Paths and dominance in a control-flow graph whose entry is node 0.
module CfgPaths {

  ghost predicate IsPath(succs: seq<set<nat>>, p: seq<nat>) {
    && p != [] && p[0] == 0
    && (forall k :: 0 <= k < |p| ==> p[k] < |succs|)
    && (forall k :: 0 <= k < |p| - 1 ==> p[k + 1] in succs[p[k]])
  }

  // Node d lies on every path to node b.
  ghost predicate Dominates(succs: seq<set<nat>>, d: nat, b: nat) {
    forall p :: IsPath(succs, p) && p[|p| - 1] == b ==> d in p
  }

  // Cutting a loop out of a path leaves a path with the same end.
  lemma Splice(succs: seq<set<nat>>, p: seq<nat>, i: nat, k: nat)
    requires IsPath(succs, p) && i <= k < |p| && p[i] == p[k]
    ensures var q := p[..i + 1] + p[k + 1..]; IsPath(succs, q) && q[|q| - 1] == p[|p| - 1]
  {
    var q := p[..i + 1] + p[k + 1..];
    forall t | 0 <= t < |q| - 1 ensures q[t + 1] in succs[q[t]] {
      var u := if t < i then t else t - i + k;
      assert q[t] == p[u] && q[t + 1] == p[u + 1];
    }
  }

  // A dominated node does not come before the first visit to its dominator.
  lemma DominatorFirst(succs: seq<set<nat>>, p: seq<nat>, h: nat, b: nat, i: nat, t: nat)
    requires IsPath(succs, p) && h != b && Dominates(succs, h, b)
    requires i < |p| && (forall u :: 0 <= u < i ==> p[u] != h) && t < i
    ensures p[t] != b
  {
    var q := p[..t + 1];
    assert IsPath(succs, q);
    assert h !in q;
    assert q[|q| - 1] == p[t];
  }

  // After the last visit to b the path does not return to a dominator of b: cutting out
  // the loop back to it would reach the end without b.
  lemma NoReturn(succs: seq<set<nat>>, p: seq<nat>, h: nat, b: nat, l: nat, k: nat)
    requires IsPath(succs, p) && l < k < |p| && h != b
    requires Dominates(succs, h, b) && Dominates(succs, b, p[|p| - 1])
    requires forall t :: l < t < |p| ==> p[t] != b
    ensures p[k] != h
  {
    if p[k] == h {
      var i := FirstOf(p, h, k);
      var q := p[..i + 1] + p[k + 1..];
      Splice(succs, p, i, k);
      forall t | 0 <= t < |q| ensures q[t] != b {
        if t < i {
          DominatorFirst(succs, p, h, b, i, t);
        } else if t > i {
          assert q[t] == p[t - i + k];
        }
      }
    }
  }

  lemma {:induction false} FirstOf(p: seq<nat>, h: nat, k: nat) returns (i: nat)
    requires k < |p| && p[k] == h
    ensures i <= k && p[i] == h && forall t :: 0 <= t < i ==> p[t] != h
    decreases k
  {
    if t :| 0 <= t < k && p[t] == h {
      i := FirstOf(p, h, t);
    } else {
      i := k;
    }
  }

  // A dominator of the path's end has a last visit on it.
  lemma {:induction false} LastOf(succs: seq<set<nat>>, p: seq<nat>, h: nat) returns (l: nat)
    requires IsPath(succs, p) && Dominates(succs, h, p[|p| - 1])
    ensures l < |p| && p[l] == h && forall t :: l < t < |p| ==> p[t] != h
  {
    l := |p| - 1;
    while p[l] != h
      decreases l
      invariant l < |p| && h in p[..l + 1] && forall t :: l < t < |p| ==> p[t] != h
    {
      assert p[..l + 1] == p[..l] + [p[l]];
      l := l - 1;
    }
  }

  lemma DominatesTransitive(succs: seq<set<nat>>, a: nat, b: nat, c: nat)
    requires Dominates(succs, a, b) && Dominates(succs, b, c)
    ensures Dominates(succs, a, c)
  {
    forall p | IsPath(succs, p) && p[|p| - 1] == c ensures a in p {
      var i :| 0 <= i < |p| && p[i] == b;
      var q := p[..i + 1];
      assert IsPath(succs, q) && q[|q| - 1] == b;
      assert a in q;
    }
  }
}
