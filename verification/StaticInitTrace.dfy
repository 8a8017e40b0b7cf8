// What running an initializer does to one object, as a list of stores and clears: a
// copied temporary first clears its place and then repeats its own stores there.
// Folding keeps the stores and forgets the clears; that loses exactly the non-zero
// stores which a later clear covers.
module StaticInitTrace {
  import opened Common
  import opened StaticInitTrie
  import opened StaticInitCollect

  datatype Item = Put(s: LStore) | Clear(at: seq<nat>)

  function PathOf(x: Item): (q: seq<nat>) {
    if x.Put? then x.s.path else x.at
  }

  function Moved(path: seq<nat>, x: Item): (y: Item) {
    if x.Put? then Put(LStore(path + x.s.path, x.s.leaf)) else Clear(path + x.at)
  }

  function MovedAll(path: seq<nat>, xs: seq<Item>): (ys: seq<Item>)
    ensures |ys| == |xs| && forall i :: 0 <= i < |xs| ==> ys[i] == Moved(path, xs[i])
  {
    seq(|xs|, i requires 0 <= i < |xs| => Moved(path, xs[i]))
  }

  function Puts(xs: seq<Item>): (l: seq<LStore>) {
    if xs == [] then []
    else
      var front, last := Puts(xs[..|xs| - 1]), xs[|xs| - 1];
      if last.Put? then front + [last.s] else front
  }

  // ---- the trace of an object ----

  function Trace(p: Init, visited: set<nat>, root: Root, k: nat): (xs: seq<Item>)
    requires WellFormed(p) && k <= |p.stores| && Collect(p, visited, root, k).Some?
    decreases Temps(p) - visited, k, 2
  {
    if k == 0 then []
    else if p.stores[k - 1].root != root then Trace(p, visited, root, k - 1)
    else Trace(p, visited, root, k - 1) + TraceStore(p, visited, k - 1)
  }

  function TraceStore(p: Init, visited: set<nat>, k: nat): (xs: seq<Item>)
    requires WellFormed(p) && k < |p.stores| && CollectStore(p, visited, k).Some?
    decreases Temps(p) - visited, k, 1
  {
    var s := p.stores[k];
    if s.val.VLoad? then
      var a := s.val.a;
      assert a in Temps(p);
      assert Temps(p) - (visited + {a}) < Temps(p) - visited;
      assert Inner(p, visited, k, a) == Collect(p, visited + {a}, RAlloc(a), |p.stores|);
      [Clear(s.path)] + MovedAll(s.path, Trace(p, visited + {a}, RAlloc(a), |p.stores|))
    else [Put(CollectStore(p, visited, k).value[0])]
  }

  // One more store of the initializer.
  lemma TraceNext(p: Init, visited: set<nat>, root: Root, k: nat)
    requires WellFormed(p) && k < |p.stores| && Collect(p, visited, root, k + 1).Some?
    ensures Collect(p, visited, root, k).Some?
    ensures p.stores[k].root == root ==>
              && CollectStore(p, visited, k).Some?
              && Collect(p, visited, root, k + 1).value == Collect(p, visited, root, k).value
                 + CollectStore(p, visited, k).value
              && Trace(p, visited, root, k + 1) == Trace(p, visited, root, k) + TraceStore(p, visited, k)
    ensures p.stores[k].root != root ==>
              && Collect(p, visited, root, k + 1) == Collect(p, visited, root, k)
              && Trace(p, visited, root, k + 1) == Trace(p, visited, root, k)
  {
    hide CollectStore, TraceStore;
  }

  lemma {:induction false} PutsConcat(a: seq<Item>, b: seq<Item>)
    ensures Puts(a + b) == Puts(a) + Puts(b)
    decreases |b|
  {
    if b == [] {
      assert a + b == a;
    } else {
      PutsConcat(a, b[..|b| - 1]);
      assert (a + b)[..|a + b| - 1] == a + b[..|b| - 1];
    }
  }

  lemma {:induction false} PutsMoved(path: seq<nat>, xs: seq<Item>)
    ensures Puts(MovedAll(path, xs)) == Prefixed(path, Puts(xs))
  {
    if xs != [] {
      PutsMoved(path, xs[..|xs| - 1]);
      assert MovedAll(path, xs)[..|xs| - 1] == MovedAll(path, xs[..|xs| - 1]);
    }
  }

  // The stores of a trace are the collected stores.
  lemma {:induction false} TracePuts(p: Init, visited: set<nat>, root: Root, k: nat)
    requires WellFormed(p) && k <= |p.stores| && Collect(p, visited, root, k).Some?
    ensures Puts(Trace(p, visited, root, k)) == Collect(p, visited, root, k).value
    decreases Temps(p) - visited, k, 2
  {
    if k > 0 {
      hide Puts, Trace, Collect, TraceStore, CollectStore, WellFormed;
      TraceNext(p, visited, root, k - 1);
      TracePuts(p, visited, root, k - 1);
      if p.stores[k - 1].root == root {
        TraceStorePuts(p, visited, k - 1);
        PutsConcat(Trace(p, visited, root, k - 1), TraceStore(p, visited, k - 1));
      }
    }
  }

  lemma {:induction false} TraceStorePuts(p: Init, visited: set<nat>, k: nat)
    requires WellFormed(p) && k < |p.stores| && CollectStore(p, visited, k).Some?
    ensures Puts(TraceStore(p, visited, k)) == CollectStore(p, visited, k).value
    decreases Temps(p) - visited, k, 1
  {
    var s := p.stores[k];
    if s.val.VLoad? {
      var a := s.val.a;
      assert a in Temps(p);
      assert Temps(p) - (visited + {a}) < Temps(p) - visited;
      var inner := Trace(p, visited + {a}, RAlloc(a), |p.stores|);
      TracePuts(p, visited + {a}, RAlloc(a), |p.stores|);
      PutsConcat([Clear(s.path)], MovedAll(s.path, inner));
      PutsMoved(s.path, inner);
      assert Puts([Clear(s.path)]) == [];
    } else {
      var x := Put(CollectStore(p, visited, k).value[0]);
      assert [x][..0] == [] && Puts([x]) == [x.s];
    }
  }

  // ---- running a trace ----

  ghost function Value(ty: Ty, x: Item): (c: C) {
    if x.Put? then ShallowLeaf(TypeAt(ty, x.s.path), x.s.leaf) else Zero(TypeAt(ty, x.at))
  }

  ghost function Do(ty: Ty, v: C, x: Item): (v': C) {
    Update(ty, v, PathOf(x), Value(ty, x))
  }

  ghost function Play(ty: Ty, v: C, xs: seq<Item>): (v': C) {
    if xs == [] then v else Do(ty, Play(ty, v, xs[..|xs| - 1]), xs[|xs| - 1])
  }

  lemma {:induction false} PlayConcat(ty: Ty, v: C, a: seq<Item>, b: seq<Item>)
    ensures Play(ty, v, a + b) == Play(ty, Play(ty, v, a), b)
    decreases |b|
  {
    if b == [] {
      assert a + b == a;
    } else {
      PlayConcat(ty, v, a, b[..|b| - 1]);
      assert (a + b)[..|a + b| - 1] == a + b[..|b| - 1];
    }
  }

  // Nothing happens below a place that v does not have.
  lemma {:induction false} UpdateDeaf(ty: Ty, v: C, path: seq<nat>, q: seq<nat>, x: C)
    requires !Reachable(ty, path) || Select(v, path).None?
    ensures Update(ty, v, path + q, x) == v
    decreases |path|
  {
    if path != [] && Reaches(ty, path[0]) && v.CAgg? && path[0] < |v.parts| {
      UpdateDeaf(PartTy(ty, path[0]), v.parts[path[0]], path[1..], q, x);
      assert (path + q)[1..] == path[1..] + q;
    }
  }

  // Copying a temporary is clearing its place and repeating its trace there.
  lemma {:induction false} CopyTrace(ty: Ty, v: C, path: seq<nat>, t: Ty, xs: seq<Item>)
    requires Reachable(ty, path) ==> TypeAt(ty, path) == t
    ensures Update(ty, v, path, Play(t, Zero(t), xs)) == Play(ty, Do(ty, v, Clear(path)), MovedAll(path, xs))
    decreases |xs|
  {
    hide Update, Select, Reachable, TypeAt, Zero, Moved, MovedAll;
    if !Reachable(ty, path) || Select(v, path).None? {
      CopyDeaf(ty, v, path, Play(t, Zero(t), xs), xs);
    } else if xs != [] {
      var front, last := xs[..|xs| - 1], xs[|xs| - 1];
      CopyTrace(ty, v, path, t, front);
      MovedFront(path, xs);
      CopyItem(ty, v, path, t, Play(t, Zero(t), front), last);
    }
  }

  lemma MovedFront(path: seq<nat>, xs: seq<Item>)
    requires xs != []
    ensures MovedAll(path, xs) != [] && MovedAll(path, xs)[..|xs| - 1] == MovedAll(path, xs[..|xs| - 1])
    ensures MovedAll(path, xs)[|xs| - 1] == Moved(path, xs[|xs| - 1])
  {
  }

  lemma CopyDeaf(ty: Ty, v: C, path: seq<nat>, w: C, xs: seq<Item>)
    requires !Reachable(ty, path) || Select(v, path).None?
    ensures Update(ty, v, path, w) == v && Play(ty, Do(ty, v, Clear(path)), MovedAll(path, xs)) == v
  {
    hide Update, Select, Reachable, TypeAt;
    assert path + [] == path;
    UpdateDeaf(ty, v, path, [], w);
    UpdateDeaf(ty, v, path, [], Zero(TypeAt(ty, path)));
    PlayDeaf(ty, v, path, xs);
  }

  lemma CopyItem(ty: Ty, v: C, path: seq<nat>, t: Ty, w: C, x: Item)
    requires Reachable(ty, path) && TypeAt(ty, path) == t && Select(v, path).Some?
    ensures Update(ty, v, path, Do(t, w, x)) == Do(ty, Update(ty, v, path, w), Moved(path, x))
  {
    hide Update, Select, Reachable, TypeAt;
    UpdateInside(ty, v, path, w, PathOf(x), Value(t, x));
  }

  lemma {:induction false} PlayDeaf(ty: Ty, v: C, path: seq<nat>, xs: seq<Item>)
    requires !Reachable(ty, path) || Select(v, path).None?
    ensures Play(ty, v, MovedAll(path, xs)) == v
    decreases |xs|
  {
    if xs != [] {
      var front, last := xs[..|xs| - 1], xs[|xs| - 1];
      PlayDeaf(ty, v, path, front);
      assert MovedAll(path, xs)[..|xs| - 1] == MovedAll(path, front);
      UpdateDeaf(ty, v, path, PathOf(last), Value(ty, Moved(path, last)));
    }
  }

  lemma TraceStart(p: Init, visited: set<nat>, root: Root)
    requires WellFormed(p) && root in p.tys && Collect(p, visited, root, 0).Some?
    ensures After(p, 0)[root] == Play(p.tys[root], Zero(p.tys[root]), Trace(p, visited, root, 0))
  {
  }

  // After k stores, an object's memory is what its trace leaves.
  lemma {:induction false} TraceTracks(p: Init, visited: set<nat>, root: Root, k: nat)
    requires WellFormed(p) && Staged(p) && k <= |p.stores| && root in p.tys && Collect(p, visited, root, k).Some?
    ensures After(p, k)[root] == Play(p.tys[root], Zero(p.tys[root]), Trace(p, visited, root, k))
    decreases Temps(p) - visited, k, 2
  {
    hide Play, Zero, After, Staged, Trace, Collect, TraceStore, CollectStore, WellFormed;
    if k == 0 {
      TraceStart(p, visited, root);
    } else {
      TraceNext(p, visited, root, k - 1);
      TraceTracks(p, visited, root, k - 1);
      if p.stores[k - 1].root == root {
        var t := p.tys[root];
        TracksStore(p, visited, k - 1);
        PlayConcat(t, Zero(t), Trace(p, visited, root, k - 1), TraceStore(p, visited, k - 1));
      } else {
        Settled(p, root, k - 1, k);
      }
    }
  }

  lemma {:induction false} TracksStore(p: Init, visited: set<nat>, k: nat)
    requires WellFormed(p) && Staged(p) && k < |p.stores| && CollectStore(p, visited, k).Some?
    ensures var root := p.stores[k].root;
            After(p, k + 1)[root] == Play(p.tys[root], After(p, k)[root], TraceStore(p, visited, k))
    decreases Temps(p) - visited, k, 1
  {
    var s := p.stores[k];
    var t, v := p.tys[s.root], After(p, k)[s.root];
    if s.val.VLoad? {
      var a := s.val.a;
      assert a in Temps(p);
      assert Temps(p) - (visited + {a}) < Temps(p) - visited;
      var inner := Trace(p, visited + {a}, RAlloc(a), |p.stores|);
      TraceTracks(p, visited + {a}, RAlloc(a), |p.stores|);
      Settled(p, RAlloc(a), k, |p.stores|);
      CopyTrace(t, v, s.path, p.tys[RAlloc(a)], inner);
      PlayConcat(t, v, [Clear(s.path)], MovedAll(s.path, inner));
      assert [Clear(s.path)][..0] == [] && Play(t, v, [Clear(s.path)]) == Do(t, v, Clear(s.path));
    } else {
      var x := Put(CollectStore(p, visited, k).value[0]);
      assert [x][..0] == [] && Play(t, v, [x]) == Do(t, v, x);
    }
  }

  // ---- what forgetting the clears loses ----

  // A store that a clear cannot hurt: it puts zero, or nothing at all.
  ghost predicate Blank(ty: Ty, s: LStore) {
    Reachable(ty, s.path) ==> ShallowLeaf(TypeAt(ty, s.path), s.leaf) == Zero(TypeAt(ty, s.path))
  }

  // Clear i covers the earlier store j.
  ghost predicate Covers(xs: seq<Item>, i: nat, j: nat) {
    j < i < |xs| && xs[i].Clear? && xs[j].Put? && xs[i].at <= xs[j].s.path
  }

  ghost predicate NoLoss(ty: Ty, xs: seq<Item>) {
    forall i: nat, j: nat :: Covers(xs, i, j) ==> Blank(ty, xs[j].s)
  }

  // Writing zero into zero changes nothing.
  lemma {:induction false} ZeroInZero(ty: Ty, q: seq<nat>)
    ensures Update(ty, Zero(ty), q, Zero(TypeAt(ty, q))) == Zero(ty)
    decreases |q|
  {
    if Reachable(ty, q) {
      SelectZero(ty, q);
      UpdateSame(ty, Zero(ty), q, Zero(TypeAt(ty, q)));
    } else {
      UpdateDeaf(ty, Zero(ty), q, [], Zero(TypeAt(ty, q)));
      assert q + [] == q;
    }
  }

  // v is as a clear at the path leaves it.
  ghost predicate Cleared(ty: Ty, v: C, path: seq<nat>) {
    Update(ty, v, path, Zero(TypeAt(ty, path))) == v
  }

  lemma ClearedPart(ty: Ty, v: C, path: seq<nat>)
    requires path != [] && Reaches(ty, path[0]) && v.CAgg? && path[0] < |v.parts|
    ensures Cleared(ty, v, path) <==> Cleared(PartTy(ty, path[0]), v.parts[path[0]], path[1..])
  {
    var i, t := path[0], PartTy(ty, path[0]);
    var w := Update(t, v.parts[i], path[1..], Zero(TypeAt(t, path[1..])));
    assert v.parts[i := w][i] == w;
    assert v.parts[i := v.parts[i]] == v.parts;
  }

  // Zero written below a cleared place changes nothing.
  lemma {:induction false} ZeroBelow(ty: Ty, v: C, path: seq<nat>, q: seq<nat>)
    requires Cleared(ty, v, path)
    ensures Update(ty, v, path + q, Zero(TypeAt(ty, path + q))) == v
    decreases |path|
  {
    if path == [] {
      assert path + q == q;
      ZeroInZero(ty, q);
    } else if Reaches(ty, path[0]) && v.CAgg? && path[0] < |v.parts| {
      ClearedPart(ty, v, path);
      ZeroBelow(PartTy(ty, path[0]), v.parts[path[0]], path[1..], q);
      assert (path + q)[1..] == path[1..] + q;
      ClearedPart(ty, v, path + q);
    }
  }

  // A value put above a cleared place leaves it cleared, if it is flat or zero.
  lemma {:induction false} PutAbove(ty: Ty, v: C, q: seq<nat>, rest: seq<nat>, x: C)
    requires rest != [] && Cleared(ty, v, q + rest) && (!x.CAgg? || x == Zero(TypeAt(ty, q)))
    ensures Cleared(ty, Update(ty, v, q, x), q + rest)
    decreases |q|
  {
    if q == [] {
      assert q + rest == rest;
      if x.CAgg? {
        ZeroInZero(ty, rest);
      }
    } else if Reaches(ty, q[0]) && v.CAgg? && q[0] < |v.parts| {
      assert (q + rest)[1..] == q[1..] + rest;
      ClearedPart(ty, v, q + rest);
      PutAbove(PartTy(ty, q[0]), v.parts[q[0]], q[1..], rest, x);
      ClearedPart(ty, Update(ty, v, q, x), q + rest);
    }
  }

  lemma ShallowFlat(ty: Ty, leaf: Leaf)
    ensures var x := ShallowLeaf(ty, leaf); !x.CAgg? || x == Zero(ty)
  {
  }

  // One item keeps a place cleared.
  lemma DoKeepsCleared(ty: Ty, v: C, x: Item, path: seq<nat>)
    requires Cleared(ty, v, path)
    requires x.Put? && path <= x.s.path ==> Blank(ty, x.s)
    ensures Cleared(ty, Do(ty, v, x), path)
  {
    var q, c := PathOf(x), Value(ty, x);
    if path <= q {
      assert path + q[|path|..] == q;
      if Reachable(ty, q) {
        ZeroBelow(ty, v, path, q[|path|..]);
      } else {
        UpdateDeaf(ty, v, q, [], c);
        assert q + [] == q;
      }
    } else if q <= path {
      if x.Put? {
        ShallowFlat(TypeAt(ty, q), x.s.leaf);
      }
      assert q + path[|q|..] == path;
      PutAbove(ty, v, q, path[|q|..], c);
    } else {
      UpdatesCommute(ty, v, q, c, path, Zero(TypeAt(ty, path)));
    }
  }

  lemma {:induction false} ClearIdle(ty: Ty, xs: seq<Item>, path: seq<nat>)
    requires forall j :: 0 <= j < |xs| && xs[j].Put? && path <= xs[j].s.path ==> Blank(ty, xs[j].s)
    ensures Cleared(ty, Play(ty, Zero(ty), xs), path)
  {
    if xs == [] {
      ZeroInZero(ty, path);
    } else {
      ClearIdle(ty, xs[..|xs| - 1], path);
      DoKeepsCleared(ty, Play(ty, Zero(ty), xs[..|xs| - 1]), xs[|xs| - 1], path);
    }
  }

  // Without losses the clears can be forgotten.
  lemma {:induction false} LossFree(ty: Ty, xs: seq<Item>)
    requires NoLoss(ty, xs)
    ensures Play(ty, Zero(ty), xs) == Apply(ty, Zero(ty), Puts(xs))
  {
    if xs != [] {
      var n := |xs| - 1;
      var front, last := xs[..n], xs[n];
      forall i: nat, j: nat | Covers(front, i, j) ensures Blank(ty, front[j].s) {
        assert Covers(xs, i, j);
      }
      LossFree(ty, front);
      if last.Clear? {
        forall j: nat | j < n && front[j].Put? && last.at <= front[j].s.path ensures Blank(ty, front[j].s) {
          assert Covers(xs, n, j);
        }
        ClearIdle(ty, front, last.at);
      } else {
        assert Puts(xs)[..|Puts(xs)| - 1] == Puts(front);
      }
    }
  }

  // ---- a loss shows ----

  ghost predicate ApartItems(xs: seq<Item>) {
    forall i, j :: 0 <= i < j < |xs| && xs[i].Put? && xs[j].Put? ==> !Comparable(xs[i].s.path, xs[j].s.path)
  }

  lemma {:induction false} PutAt(xs: seq<Item>, j: nat) returns (k: nat)
    requires j < |xs| && xs[j].Put?
    ensures k < |Puts(xs)| && Puts(xs)[k] == xs[j].s
    ensures k == |Puts(xs[..j])|
  {
    var n := |xs| - 1;
    if j < n {
      k := PutAt(xs[..n], j);
      assert xs[..n][..j] == xs[..j];
    } else {
      k := |Puts(xs[..n])|;
      assert xs[..j] == xs[..n];
    }
  }

  lemma {:induction false} PutsGrow(xs: seq<Item>, i: nat, j: nat)
    requires i < j <= |xs| && xs[i].Put?
    ensures |Puts(xs[..i])| < |Puts(xs[..j])|
    decreases j
  {
    assert xs[..j][..j - 1] == xs[..j - 1];
    if i < j - 1 {
      PutsGrow(xs, i, j - 1);
    }
  }

  lemma PutsApart(xs: seq<Item>)
    requires Apart(Puts(xs))
    ensures ApartItems(xs)
  {
    forall i, j | 0 <= i < j < |xs| && xs[i].Put? && xs[j].Put? ensures !Comparable(xs[i].s.path, xs[j].s.path) {
      var k := PutAt(xs, i);
      var l := PutAt(xs, j);
      PutsGrow(xs, i, j);
    }
  }

  // What was written is there, if there was a place for it.
  lemma {:induction false} SelectWritten(ty: Ty, v: C, q: seq<nat>, x: C)
    requires Reachable(ty, q) && Select(v, q).Some?
    ensures Select(Update(ty, v, q, x), q) == Some(x)
    decreases |q|
  {
    if q != [] {
      SelectWritten(PartTy(ty, q[0]), v.parts[q[0]], q[1..], x);
    }
  }

  lemma {:induction false} SelectConcat(v: C, p: seq<nat>, q: seq<nat>)
    ensures Select(v, p + q) == if Select(v, p).None? then None else Select(Select(v, p).value, q)
    decreases |p|
  {
    if p == [] {
      assert p + q == q;
    } else if v.CAgg? && p[0] < |v.parts| {
      SelectConcat(v.parts[p[0]], p[1..], q);
      assert (p + q)[1..] == p[1..] + q;
    }
  }

  lemma {:induction false} ReachableConcat(ty: Ty, p: seq<nat>, q: seq<nat>)
    requires Reachable(ty, p + q)
    ensures Reachable(ty, p) && Reachable(TypeAt(ty, p), q) && TypeAt(ty, p + q) == TypeAt(TypeAt(ty, p), q)
    decreases |p|
  {
    if p == [] {
      assert p + q == q;
    } else {
      assert (p + q)[1..] == p[1..] + q;
      ReachableConcat(PartTy(ty, p[0]), p[1..], q);
    }
  }

  // A store or clear keeps the places above and beside it.
  lemma {:induction false} ShapeKept(ty: Ty, v: C, q: seq<nat>, x: C, w: seq<nat>)
    requires Select(v, w).Some? && (q <= w ==> q == w)
    ensures Select(Update(ty, v, q, x), w).Some?
    decreases |w|
  {
    if w != [] && q != [] && Reaches(ty, q[0]) && v.CAgg? && q[0] < |v.parts| && q[0] == w[0] {
      assert q[1..] <= w[1..] ==> q <= w by {
        assert q == [q[0]] + q[1..] && w == [w[0]] + w[1..];
      }
      ShapeKept(PartTy(ty, q[0]), v.parts[q[0]], q[1..], x, w[1..]);
    }
  }

  // A clear at or above a place zeroes it.
  lemma ClearErases(ty: Ty, v: C, path: seq<nat>, w: seq<nat>)
    requires path <= w && Reachable(ty, w) && Select(v, w).Some?
    ensures Select(Do(ty, v, Clear(path)), w) == Some(Zero(TypeAt(ty, w)))
  {
    var q := w[|path|..];
    assert path + q == w;
    ReachableConcat(ty, path, q);
    SelectConcat(v, path, q);
    SelectWritten(ty, v, path, Zero(TypeAt(ty, path)));
    SelectConcat(Do(ty, v, Clear(path)), path, q);
    SelectZero(TypeAt(ty, path), q);
  }

  // Items beside a place, and clears anywhere, keep it and keep it zero.
  lemma PlaceKept(ty: Ty, v: C, x: Item, w: seq<nat>)
    requires Reachable(ty, w) && Select(v, w).Some? && (x.Put? ==> !Comparable(x.s.path, w))
    ensures Select(Do(ty, v, x), w).Some?
    ensures Select(v, w) == Some(Zero(TypeAt(ty, w))) ==> Select(Do(ty, v, x), w) == Some(Zero(TypeAt(ty, w)))
  {
    var q := PathOf(x);
    if !Comparable(q, w) {
      SelectUpdate(ty, v, q, Value(ty, x), w);
    } else if q <= w {
      ClearErases(ty, v, q, w);
    } else {
      ShapeKept(ty, v, q, Value(ty, x), w);
      if Select(v, w) == Some(Zero(TypeAt(ty, w))) {
        assert w + q[|w|..] == q;
        UpdateSame(ty, v, w, Zero(TypeAt(ty, w)));
        ZeroBelow(ty, v, w, q[|w|..]);
      }
    }
  }

  // The place of store j exists at all times, and is zero before it and after a clear
  // that covers it.
  lemma {:induction false} LossShows(ty: Ty, xs: seq<Item>, i: nat, j: nat, t: nat)
    requires ApartItems(xs) && Covers(xs, i, j) && Reachable(ty, xs[j].s.path) && t <= |xs|
    ensures var c := Select(Play(ty, Zero(ty), xs[..t]), xs[j].s.path);
            c.Some? && (t <= j || t > i ==> c == Some(Zero(TypeAt(ty, xs[j].s.path))))
    decreases t
  {
    var w := xs[j].s.path;
    if t == 0 {
      SelectZero(ty, w);
    } else {
      LossShows(ty, xs, i, j, t - 1);
      assert xs[..t][..t - 1] == xs[..t - 1];
      var v, x := Play(ty, Zero(ty), xs[..t - 1]), xs[t - 1];
      if t - 1 == j {
        SelectWritten(ty, v, w, Value(ty, x));
      } else {
        PlaceKept(ty, v, x, w);
        if t - 1 == i {
          ClearErases(ty, v, x.at, w);
        }
      }
    }
  }
}
