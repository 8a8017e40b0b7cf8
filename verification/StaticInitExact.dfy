// When folding an initializer is right. The folded constant represents the memory
// that running leaves if and only if no object it is made of loses a store: a
// non-zero store, later covered by the copy of a temporary.
module StaticInitExact {
  import opened Common
  import opened StaticInitTrie
  import opened StaticInitCollect
  import opened StaticInitTrace

  // ---- accepted stores ----

  // The stores are apart, and so are those of every backing object a reachable leaf
  // refers to.
  ghost predicate Accepted(ty: Ty, stores: seq<LStore>)
    decreases stores, 1
  {
    Apart(stores) && forall i :: 0 <= i < |stores| && Reachable(ty, stores[i].path) ==> LeafAccepted(stores[i].leaf)
  }

  ghost predicate LeafAccepted(leaf: Leaf)
    decreases leaf, 0
  {
    match leaf
    case LConst(_) => true
    case LFunc(_) => true
    case LSlice(_, n, _, item, stores, _) => Accepted(Array(n, item), stores)
    case LPointer(_, _, t, stores, _) => Accepted(t, stores)
  }

  ghost predicate HasLeaf(n: Node, path: seq<nat>, leaf: Leaf)
    decreases |path|
  {
    if path == [] then n.leaf == Some(leaf)
    else n.leaf.None? && path[0] in n.children && HasLeaf(n.children[path[0]], path[1..], leaf)
  }

  lemma {:induction false} AddHas(n: Node, path: seq<nat>, leaf: Leaf)
    requires AddLeaf(n, path, leaf).Some?
    ensures HasLeaf(AddLeaf(n, path, leaf).value, path, leaf)
    decreases |path|
  {
    if path != [] {
      AddHas(if path[0] in n.children then n.children[path[0]] else EMPTY, path[1..], leaf);
    }
  }

  lemma {:induction false} AddKeeps(n: Node, path: seq<nat>, leaf: Leaf, q: seq<nat>, l: Leaf)
    requires AddLeaf(n, path, leaf).Some? && HasLeaf(n, q, l)
    ensures HasLeaf(AddLeaf(n, path, leaf).value, q, l)
    decreases |path|
  {
    if path != [] && q != [] && path[0] == q[0] {
      AddKeeps(n.children[q[0]], path[1..], leaf, q[1..], l);
    }
  }

  lemma {:induction false} TrieHas(stores: seq<LStore>, i: nat)
    requires Trie(stores).Some? && i < |stores|
    ensures HasLeaf(Trie(stores).value, stores[i].path, stores[i].leaf)
  {
    var n := |stores| - 1;
    if i == n {
      AddHas(Trie(stores[..n]).value, stores[n].path, stores[n].leaf);
    } else {
      TrieHas(stores[..n], i);
      AddKeeps(Trie(stores[..n]).value, stores[n].path, stores[n].leaf, stores[i].path, stores[i].leaf);
    }
  }

  lemma {:induction false} PartBuilt(ty: Ty, n: Node, k: nat, i: nat)
    requires n.leaf.None? && ((ty.Struct? && k <= |ty.fields|) || (ty.Array? && k <= ty.len))
    requires BuildParts(ty, n, k).Some? && i < k && Reaches(ty, i) && i in n.children
    ensures Build(PartTy(ty, i), n.children[i]).Some?
    decreases k
  {
    if i < k - 1 {
      PartBuilt(ty, n, k - 1, i);
    }
  }

  lemma {:induction false} ItemBuilt(item: Ty, n: Node, k: nat, i: nat)
    requires n.leaf.None? && BuildItems(item, n, k).Some? && i < k && i in n.children
    ensures Build(item, n.children[i]).Some?
    decreases k
  {
    if i < k - 1 {
      ItemBuilt(item, n, k - 1, i);
    }
  }

  // A constant that was built has built every reachable leaf.
  lemma {:induction false} LeafBuilt(ty: Ty, n: Node, path: seq<nat>, leaf: Leaf)
    requires HasLeaf(n, path, leaf) && Build(ty, n).Some? && Reachable(ty, path)
    ensures BuildLeaf(TypeAt(ty, path), leaf).Some?
    decreases |path|
  {
    if path != [] {
      var i := path[0];
      if ty.Struct? {
        PartBuilt(ty, n, |ty.fields|, i);
      } else {
        if ByteArray(n, ty.len, ty.item).Some? {
          ByteArrayAgrees(n, ty.len, ty.len);
        }
        PartBuilt(ty, n, ty.len, i);
      }
      LeafBuilt(PartTy(ty, i), n.children[i], path[1..], leaf);
    }
  }

  lemma {:induction false} WfHas(n: Node, path: seq<nat>, leaf: Leaf)
    requires WfNode(n) && HasLeaf(n, path, leaf)
    ensures WfLeaf(leaf)
    decreases |path|
  {
    if path != [] {
      WfHas(n.children[path[0]], path[1..], leaf);
    }
  }

  lemma {:induction false} BuildAccepts(ty: Ty, stores: seq<LStore>)
    requires Trie(stores).Some? && WfNode(Trie(stores).value) && Build(ty, Trie(stores).value).Some?
    ensures Accepted(ty, stores)
    decreases stores, 1
  {
    TrieAccepts(stores);
    var n := Trie(stores).value;
    forall i: nat | i < |stores| && Reachable(ty, stores[i].path) ensures LeafAccepted(stores[i].leaf) {
      TrieHas(stores, i);
      WfHas(n, stores[i].path, stores[i].leaf);
      LeafBuilt(ty, n, stores[i].path, stores[i].leaf);
      BuildLeafAccepts(TypeAt(ty, stores[i].path), stores[i].leaf);
    }
  }

  lemma {:induction false} ItemsAccept(item: Ty, len: nat, stores: seq<LStore>)
    requires Trie(stores).Some? && WfNode(Trie(stores).value)
    requires Trie(stores).value.leaf.None? && BuildItems(item, Trie(stores).value, len).Some?
    ensures Accepted(Array(len, item), stores)
    decreases stores, 1
  {
    TrieAccepts(stores);
    var n, ty := Trie(stores).value, Array(len, item);
    forall i: nat | i < |stores| && Reachable(ty, stores[i].path) ensures LeafAccepted(stores[i].leaf) {
      var path, leaf := stores[i].path, stores[i].leaf;
      TrieHas(stores, i);
      WfHas(n, path, leaf);
      ItemBuilt(item, n, len, path[0]);
      LeafBuilt(item, n.children[path[0]], path[1..], leaf);
      BuildLeafAccepts(TypeAt(ty, path), leaf);
    }
  }

  lemma {:induction false} BuildLeafAccepts(ty: Ty, leaf: Leaf)
    requires WfLeaf(leaf) && BuildLeaf(ty, leaf).Some?
    ensures LeafAccepted(leaf)
    decreases leaf, 0
  {
    match leaf
    case LConst(_) =>
    case LFunc(_) =>
    case LSlice(_, n, _, item, stores, _) => ItemsAccept(item, n, stores);
    case LPointer(_, _, t, stores, _) => BuildAccepts(t, stores);
  }

  // ---- where collected leaves come from ----

  // The collected stores do not depend on the temporaries met on the way.
  lemma {:induction false} VisitedFree(p: Init, small: set<nat>, big: set<nat>, root: Root, k: nat)
    requires WellFormed(p) && k <= |p.stores| && small <= big && Collect(p, big, root, k).Some?
    ensures Collect(p, small, root, k) == Collect(p, big, root, k)
    ensures Trace(p, small, root, k) == Trace(p, big, root, k)
    decreases Temps(p) - small, k, 2
  {
    if k > 0 {
      VisitedFree(p, small, big, root, k - 1);
      if p.stores[k - 1].root == root {
        VisitedFreeStore(p, small, big, k - 1);
      }
    }
  }

  lemma {:induction false} VisitedFreeStore(p: Init, small: set<nat>, big: set<nat>, k: nat)
    requires WellFormed(p) && k < |p.stores| && small <= big && CollectStore(p, big, k).Some?
    ensures CollectStore(p, small, k) == CollectStore(p, big, k)
    ensures TraceStore(p, small, k) == TraceStore(p, big, k)
    decreases Temps(p) - small, k, 1
  {
    var v := p.stores[k].val;
    if Temp(v).Some? {
      var a := Temp(v).value;
      assert a in Temps(p);
      assert Temps(p) - (small + {a}) < Temps(p) - small;
      VisitedFree(p, small + {a}, big + {a}, RAlloc(a), |p.stores|);
    }
  }

  // The trace of a temporary whose address is stored.
  function TraceOf(p: Init, a: nat): (xs: seq<Item>)
    requires WellFormed(p)
  {
    if Collect(p, {a}, RAlloc(a), |p.stores|).Some? then Trace(p, {a}, RAlloc(a), |p.stores|) else []
  }

  // A leaf carries the stores collected for the object it refers to.
  ghost predicate Sourced(p: Init, leaf: Leaf)
    requires WellFormed(p)
    decreases leaf
  {
    match leaf
    case LConst(_) => true
    case LFunc(_) => true
    case LSlice(a, n, _, item, stores, _) => SourcedObject(p, a, Array(n, item), stores)
    case LPointer(a, _, t, stores, _) => SourcedObject(p, a, t, stores)
  }

  ghost predicate SourcedObject(p: Init, a: nat, t: Ty, stores: seq<LStore>)
    requires WellFormed(p)
    decreases stores
  {
    && RAlloc(a) in p.tys && p.tys[RAlloc(a)] == t
    && Collect(p, {a}, RAlloc(a), |p.stores|) == Some(stores)
    && forall k :: 0 <= k < |stores| ==> Sourced(p, stores[k].leaf)
  }

  lemma {:induction false} CollectSourced(p: Init, visited: set<nat>, root: Root, k: nat)
    requires WellFormed(p) && k <= |p.stores| && Collect(p, visited, root, k).Some?
    ensures forall i :: 0 <= i < |Collect(p, visited, root, k).value| ==>
              Sourced(p, Collect(p, visited, root, k).value[i].leaf)
                && WfLeaf(Collect(p, visited, root, k).value[i].leaf)
    decreases Temps(p) - visited, k, 2
  {
    if k > 0 {
      CollectSourced(p, visited, root, k - 1);
      if p.stores[k - 1].root == root {
        StoreSourced(p, visited, k - 1);
      }
    }
  }

  lemma {:induction false} StoreSourced(p: Init, visited: set<nat>, k: nat)
    requires WellFormed(p) && k < |p.stores| && CollectStore(p, visited, k).Some?
    ensures forall i :: 0 <= i < |CollectStore(p, visited, k).value| ==>
              Sourced(p, CollectStore(p, visited, k).value[i].leaf) && WfLeaf(CollectStore(p, visited, k).value[i].leaf)
    decreases Temps(p) - visited, k, 1
  {
    var v := p.stores[k].val;
    if Temp(v).Some? {
      var a := Temp(v).value;
      assert a in Temps(p);
      assert Temps(p) - (visited + {a}) < Temps(p) - visited;
      CollectSourced(p, visited + {a}, RAlloc(a), |p.stores|);
      VisitedFree(p, {a}, visited + {a}, RAlloc(a), |p.stores|);
      var inner := Inner(p, visited, k, a).value;
      TrieWf(inner);
      match v
      case VLoad(_) =>
      case VPtr(_) => assert SourcedObject(p, a, p.tys[RAlloc(a)], inner);
      case VSlice(_) => assert SourcedObject(p, a, p.tys[RAlloc(a)], inner);
    }
  }

  // ---- parts of a value and of the constant it represents ----

  lemma {:induction false} RepresentsSelect(m: Mem, v: C, c: C, path: seq<nat>, x: C)
    requires Represents(m, v, c) && Select(c, path) == Some(x)
    ensures Select(v, path).Some? && Represents(m, Select(v, path).value, x)
    decreases |path|
  {
    if path != [] {
      RepresentsSelect(m, v.parts[path[0]], c.parts[path[0]], path[1..], x);
    }
  }

  lemma {:induction false} RunUntouched(ty: Ty, stores: seq<LStore>, path: seq<nat>)
    requires Reachable(ty, path) && forall k :: 0 <= k < |stores| ==> !Comparable(stores[k].path, path)
    ensures Select(Run(ty, stores), path) == Some(Zero(TypeAt(ty, path)))
    ensures Select(Apply(ty, Zero(ty), stores), path) == Some(Zero(TypeAt(ty, path)))
  {
    if stores == [] {
      SelectZero(ty, path);
    } else {
      var front, last := stores[..|stores| - 1], stores[|stores| - 1];
      var t := TypeAt(ty, last.path);
      RunUntouched(ty, front, path);
      SelectUpdate(ty, Run(ty, front), last.path, LeafVal(t, last.leaf), path);
      SelectUpdate(ty, Apply(ty, Zero(ty), front), last.path, ShallowLeaf(t, last.leaf), path);
    }
  }

  // Stores that are apart are all still there at the end.
  lemma {:induction false} RunSelect(ty: Ty, stores: seq<LStore>, i: nat)
    requires Apart(stores) && i < |stores| && Reachable(ty, stores[i].path)
    ensures var t := TypeAt(ty, stores[i].path);
            && Select(Run(ty, stores), stores[i].path) == Some(LeafVal(t, stores[i].leaf))
            && Select(Apply(ty, Zero(ty), stores), stores[i].path) == Some(ShallowLeaf(t, stores[i].leaf))
  {
    var n := |stores| - 1;
    var front, last, w := stores[..n], stores[n], stores[i].path;
    var t := TypeAt(ty, last.path);
    if i == n {
      RunUntouched(ty, front, w);
      SelectWritten(ty, Run(ty, front), w, LeafVal(t, last.leaf));
      SelectWritten(ty, Apply(ty, Zero(ty), front), w, ShallowLeaf(t, last.leaf));
    } else {
      RunSelect(ty, front, i);
      SelectUpdate(ty, Run(ty, front), last.path, LeafVal(t, last.leaf), w);
      SelectUpdate(ty, Apply(ty, Zero(ty), front), last.path, ShallowLeaf(t, last.leaf), w);
    }
  }

  // A non-zero leaf is not represented by zero.
  lemma NotZero(m: Mem, ty: Ty, leaf: Leaf)
    requires ShallowLeaf(ty, leaf) != Zero(ty)
    ensures !Represents(m, Zero(ty), LeafVal(ty, leaf))
  {
    ShallowFlat(ty, leaf);
  }

  lemma {:induction false} ApplyRepresents(m: Mem, ty: Ty, stores: seq<LStore>)
    requires forall k :: 0 <= k < |stores| && Reachable(ty, stores[k].path) ==>
               Represents(m, ShallowLeaf(TypeAt(ty, stores[k].path), stores[k].leaf),
                          LeafVal(TypeAt(ty, stores[k].path), stores[k].leaf))
    ensures Represents(m, Apply(ty, Zero(ty), stores), Run(ty, stores))
  {
    if stores == [] {
      ZeroRepresents(m, ty);
    } else {
      var n := |stores| - 1;
      var front, last := stores[..n], stores[n];
      var x, y := ShallowLeaf(TypeAt(ty, last.path), last.leaf), LeafVal(TypeAt(ty, last.path), last.leaf);
      ApplyRepresents(m, ty, front);
      if Reachable(ty, last.path) {
        UpdateRepresents(m, ty, Apply(ty, Zero(ty), front), Run(ty, front), last.path, x, y);
      } else {
        assert last.path + [] == last.path;
        UpdateDeaf(ty, Apply(ty, Zero(ty), front), last.path, [], x);
        UpdateDeaf(ty, Run(ty, front), last.path, [], y);
      }
    }
  }

  // ---- exactness ----

  // The object loses no store, and neither does any object it reaches.
  ghost predicate LosslessObject(p: Init, ty: Ty, stores: seq<LStore>, xs: seq<Item>)
    requires WellFormed(p)
    decreases stores, 1
  {
    NoLoss(ty, xs) && forall k :: 0 <= k < |stores| && Reachable(ty, stores[k].path) ==> Lossless(p, stores[k].leaf)
  }

  ghost predicate Lossless(p: Init, leaf: Leaf)
    requires WellFormed(p)
    decreases leaf, 0
  {
    match leaf
    case LConst(_) => true
    case LFunc(_) => true
    case LSlice(a, n, _, item, stores, _) => LosslessObject(p, Array(n, item), stores, TraceOf(p, a))
    case LPointer(a, _, t, stores, _) => LosslessObject(p, t, stores, TraceOf(p, a))
  }

  // A covered store that still shows was zero.
  lemma LossVisible(m: Mem, ty: Ty, xs: seq<Item>, i: nat, j: nat)
    requires Apart(Puts(xs)) && Covers(xs, i, j) && Represents(m, Play(ty, Zero(ty), xs), Run(ty, Puts(xs)))
    ensures Blank(ty, xs[j].s)
  {
    var s := xs[j].s;
    if Reachable(ty, s.path) && ShallowLeaf(TypeAt(ty, s.path), s.leaf) != Zero(TypeAt(ty, s.path)) {
      PutsApart(xs);
      LossShows(ty, xs, i, j, |xs|);
      assert xs[..|xs|] == xs;
      var k := PutAt(xs, j);
      RunSelect(ty, Puts(xs), k);
      NotZero(m, TypeAt(ty, s.path), s.leaf);
      RepresentsSelect(m, Play(ty, Zero(ty), xs), Run(ty, Puts(xs)), s.path, LeafVal(TypeAt(ty, s.path), s.leaf));
    }
  }

  lemma {:induction false} ObjectExact(p: Init, ty: Ty, stores: seq<LStore>, xs: seq<Item>)
    requires WellFormed(p) && Staged(p) && Accepted(ty, stores) && Puts(xs) == stores
    requires forall k :: 0 <= k < |stores| ==> Sourced(p, stores[k].leaf)
    ensures Represents(After(p, |p.stores|), Play(ty, Zero(ty), xs), Run(ty, stores)) <==>
              LosslessObject(p, ty, stores, xs)
    decreases stores, 1
  {
    var m, v, c := After(p, |p.stores|), Play(ty, Zero(ty), xs), Run(ty, stores);
    forall k: nat | k < |stores| && Reachable(ty, stores[k].path)
      ensures Represents(m, ShallowLeaf(TypeAt(ty, stores[k].path), stores[k].leaf),
                         LeafVal(TypeAt(ty, stores[k].path), stores[k].leaf))
              <==> Lossless(p, stores[k].leaf)
    {
      LeafExact(p, TypeAt(ty, stores[k].path), stores[k].leaf);
    }
    if Represents(m, v, c) {
      forall i: nat, j: nat | Covers(xs, i, j) ensures Blank(ty, xs[j].s) {
        LossVisible(m, ty, xs, i, j);
      }
      LossFree(ty, xs);
      forall k: nat | k < |stores| && Reachable(ty, stores[k].path) ensures Lossless(p, stores[k].leaf) {
        RunSelect(ty, stores, k);
        RepresentsSelect(m, v, c, stores[k].path, LeafVal(TypeAt(ty, stores[k].path), stores[k].leaf));
      }
    } else if LosslessObject(p, ty, stores, xs) {
      LossFree(ty, xs);
      ApplyRepresents(m, ty, stores);
    }
  }

  lemma {:induction false} LeafExact(p: Init, ty: Ty, leaf: Leaf)
    requires WellFormed(p) && Staged(p) && Sourced(p, leaf) && LeafAccepted(leaf)
    ensures Represents(After(p, |p.stores|), ShallowLeaf(ty, leaf), LeafVal(ty, leaf)) <==> Lossless(p, leaf)
    decreases leaf, 0
  {
    hide After, Run, LosslessObject, TraceOf, Accepted;
    match leaf
    case LConst(l) => ConstRepresents(After(p, |p.stores|), ty, l);
    case LFunc(_) =>
    case LSlice(a, n, _, item, stores, _) => BackingExact(p, a, Array(n, item), stores);
    case LPointer(a, _, t, stores, _) => BackingExact(p, a, t, stores);
  }

  lemma ConstRepresents(m: Mem, ty: Ty, l: Lit)
    ensures Represents(m, ShallowLeaf(ty, LConst(l)), LeafVal(ty, LConst(l)))
  {
    ZeroRepresents(m, ty);
  }

  lemma {:induction false} BackingExact(p: Init, a: nat, t: Ty, stores: seq<LStore>)
    requires WellFormed(p) && Staged(p) && SourcedObject(p, a, t, stores) && Accepted(t, stores)
    ensures var m := After(p, |p.stores|);
            Represents(m, m[RAlloc(a)], Run(t, stores)) <==> LosslessObject(p, t, stores, TraceOf(p, a))
    decreases stores, 2
  {
    TracePuts(p, {a}, RAlloc(a), |p.stores|);
    TraceTracks(p, {a}, RAlloc(a), |p.stores|);
    ObjectExact(p, t, stores, TraceOf(p, a));
  }

  // Nothing that is folded into the global is lost. For a slice over all of it: no later
  // store is over all of it. For other stores: no non-zero one is covered by the copy of a
  // temporary. And the same of the stores into every object that is reached.
  ghost predicate Intact(p: Init, g: nat)
    requires WellFormed(p) && RGlobal(g) in p.tys && Gather(p, g, |p.stores|).Some?
  {
    var c := Gather(p, g, |p.stores|).value;
    if c.slice.Some? then
      GatherSlice(p, g, |p.stores|);
      LastWord(p, g, c.slice.value, |p.stores|) && Lossless(p, SliceLeaf(p, c.slice.value))
    else
      GatherAll(p, g, |p.stores|);
      LosslessObject(p, p.tys[RGlobal(g)], c.stores, Trace(p, {}, RGlobal(g), |p.stores|))
  }

  // No store after j, among the first k, is over all of the global.
  ghost predicate LastWord(p: Init, g: nat, j: nat, k: nat)
    requires k <= |p.stores|
  {
    forall i :: j < i < k ==> !Over(p.stores[i], g)
  }

  predicate Over(s: SStore, g: nat) {
    s.root == RGlobal(g) && s.path == []
  }

  // The main result: when a staged initializer's global is folded, the constant
  // represents the global's memory after the initializer has run, backing objects
  // included, if and only if it is intact.
  lemma FoldExact(p: Init, g: nat)
    requires WellFormed(p) && Staged(p) && RGlobal(g) in p.tys && Fold(p, g).Some?
    ensures var m := After(p, |p.stores|);
            Represents(m, m[RGlobal(g)], Fold(p, g).value) <==> Intact(p, g)
  {
    hide After, Represents, Collect, CollectStore, Gather, Lossless, LosslessObject, Staged;
    if Gather(p, g, |p.stores|).value.slice.Some? {
      SliceExact(p, g);
    } else {
      StoresExact(p, g);
    }
  }

  lemma StoresExact(p: Init, g: nat)
    requires WellFormed(p) && Staged(p) && RGlobal(g) in p.tys && Fold(p, g).Some?
    requires Gather(p, g, |p.stores|).value.slice.None?
    ensures var m := After(p, |p.stores|);
            Represents(m, m[RGlobal(g)], Fold(p, g).value) <==> Intact(p, g)
  {
    var root, n := RGlobal(g), |p.stores|;
    GatherAll(p, g, n);
    var ty, stores := p.tys[root], Collect(p, {}, root, n).value;
    CollectSourced(p, {}, root, n);
    TrieWf(stores);
    BuildAccepts(ty, stores);
    FoldIsRun(ty, stores);
    TracePuts(p, {}, root, n);
    TraceTracks(p, {}, root, n);
    ObjectExact(p, ty, stores, Trace(p, {}, root, n));
  }

  // ---- a slice over all of a global ----

  // v is or holds the slice of temporary a.
  predicate Holds(v: C, a: nat) {
    match v
    case CAgg(parts) => exists i :: 0 <= i < |parts| && Holds(parts[i], a)
    case CSlice(b, _) => b == a
    case _ => false
  }

  lemma {:induction false} ZeroHolds(ty: Ty, a: nat)
    ensures !Holds(Zero(ty), a)
  {
    match ty
    case Struct(fs) =>
      forall i | 0 <= i < |fs| ensures !Holds(Zero(ty).parts[i], a) {
        ZeroHolds(fs[i].ty, a);
      }
    case Array(n, item) => ZeroHolds(item, a);
    case _ =>
  }

  lemma {:induction false} UpdateHolds(ty: Ty, v: C, path: seq<nat>, x: C, a: nat)
    requires !Holds(v, a) && !Holds(x, a)
    ensures !Holds(Update(ty, v, path, x), a)
    decreases |path|
  {
    if path != [] && Reaches(ty, path[0]) && v.CAgg? && path[0] < |v.parts| {
      UpdateHolds(PartTy(ty, path[0]), v.parts[path[0]], path[1..], x, a);
    }
  }

  // What is stored is not the slice of a, unless it is stored as that.
  lemma ValHolds(ty: Ty, m: Mem, v: SVal, a: nat)
    requires Temp(v).Some? ==> RAlloc(Temp(v).value) in m
    requires v != VSlice(a) && (v.VLoad? ==> !Holds(m[RAlloc(v.a)], a))
    ensures !Holds(ShallowVal(ty, m, v), a)
  {
    if v.VConst? {
      ZeroHolds(ty, a);
    }
  }

  // A slice with one use is held by the root it is stored into, and by no other.
  lemma {:induction false} HeldOnce(p: Init, j: nat, a: nat, root: Root, k: nat)
    requires WellFormed(p) && j < |p.stores| && p.stores[j].val == VSlice(a) && p.stores[j].root.RGlobal?
    requires OnlyUse(p, a, j) && k <= |p.stores| && root in p.tys && root != p.stores[j].root
    ensures !Holds(After(p, k)[root], a)
    decreases k
  {
    if k == 0 {
      ZeroHolds(p.tys[root], a);
    } else {
      HeldOnce(p, j, a, root, k - 1);
      var s := p.stores[k - 1];
      if s.root == root {
        if s.val.VLoad? {
          HeldOnce(p, j, a, RAlloc(s.val.a), k - 1);
        }
        var t, m := p.tys[root], After(p, k - 1);
        ValHolds(TypeAt(t, s.path), m, s.val, a);
        UpdateHolds(t, m[root], s.path, ShallowVal(TypeAt(t, s.path), m, s.val), a);
      }
    }
  }

  // A later store over all of the global, which has slice type, puts something else there;
  // any other store leaves it alone.
  lemma SliceStep(p: Init, g: nat, j: nat, a: nat, k: nat)
    requires WellFormed(p) && RGlobal(g) in p.tys && p.tys[RGlobal(g)].Slice?
    requires j < k < |p.stores| && p.stores[j] == SStore(RGlobal(g), [], VSlice(a)) && OnlyUse(p, a, j)
    ensures var s := p.stores[k];
            if Over(s, g) then After(p, k + 1)[RGlobal(g)] != CSlice(a, CNil)
            else After(p, k + 1)[RGlobal(g)] == After(p, k)[RGlobal(g)]
  {
    var s, m := p.stores[k], After(p, k);
    if Over(s, g) {
      if s.val.VLoad? {
        HeldOnce(p, j, a, RAlloc(s.val.a), k);
      }
      ValHolds(p.tys[RGlobal(g)], m, s.val, a);
    }
  }

  lemma SlicePut(p: Init, g: nat, j: nat, a: nat)
    requires WellFormed(p) && RGlobal(g) in p.tys
    requires j < |p.stores| && p.stores[j] == SStore(RGlobal(g), [], VSlice(a))
    ensures After(p, j + 1)[RGlobal(g)] == CSlice(a, CNil)
  {
  }

  // Whether the global still is the slice after k stores.
  lemma {:induction false} SliceKept(p: Init, g: nat, j: nat, a: nat, k: nat)
    requires WellFormed(p) && RGlobal(g) in p.tys && p.tys[RGlobal(g)].Slice?
    requires j < k <= |p.stores| && p.stores[j] == SStore(RGlobal(g), [], VSlice(a)) && OnlyUse(p, a, j)
    ensures After(p, k)[RGlobal(g)] == CSlice(a, CNil) <==> LastWord(p, g, j, k)
    decreases k
  {
    hide After, WellFormed, OnlyUse, Over;
    if k == j + 1 {
      SlicePut(p, g, j, a);
    } else {
      SliceKept(p, g, j, a, k - 1);
      SliceStep(p, g, j, a, k - 1);
    }
  }

  lemma SliceExact(p: Init, g: nat)
    requires WellFormed(p) && Staged(p) && RGlobal(g) in p.tys && Fold(p, g).Some?
    requires Gather(p, g, |p.stores|).value.slice.Some?
    ensures var m := After(p, |p.stores|);
            Represents(m, m[RGlobal(g)], Fold(p, g).value) <==> Intact(p, g)
  {
    hide After, Collect, Gather, Lossless, Staged;
    var n := |p.stores|;
    var j, ty, m := Gather(p, g, n).value.slice.value, p.tys[RGlobal(g)], After(p, n);
    GatherSlice(p, g, n);
    var a, leaf := p.stores[j].val.a, SliceLeaf(p, j);
    StoreSourced(p, {}, j);
    BuildLeafAccepts(ty, leaf);
    BuildLeafDenotes(ty, leaf);
    LeafExact(p, ty, leaf);
    assert p.stores[j] == SStore(RGlobal(g), [], VSlice(a));
    SliceKept(p, g, j, a, n);
  }

  // Folding can differ from running in this way too: nil stored over a slice.
  const REPLACED: Init :=
    Init([SStore(RGlobal(0), [], VSlice(1)), SStore(RGlobal(0), [], VConst(LNil))],
         map[RGlobal(0) := Slice(0), RAlloc(1) := Array(1, Basic(Int))], map[1 := 0])

  lemma ReplacedGather()
    ensures WellFormed(REPLACED) && Gather(REPLACED, 0, 2).Some? && Gather(REPLACED, 0, 2).value.slice == Some(0)
    ensures CollectStore(REPLACED, {}, 0) == Some([LStore([], LSlice(1, 1, 0, Basic(Int), [], Some(EMPTY)))])
  {
    var p := REPLACED;
    assert {} + {1} == {1} && Collect(p, {1}, RAlloc(1), 0) == Some([]);
    assert Collect(p, {1}, RAlloc(1), 1) == Some([]);
    assert Inner(p, {}, 0, 1) == Some([]);
    assert Gather(p, 0, 0) == Some(Candidate(None, []));
    assert Gather(p, 0, 1) == Some(Candidate(Some(0), []));
    assert CollectStore(p, {}, 1) == Some([LStore([], LConst(LNil))]);
  }

  lemma ReplacedExample()
    ensures WellFormed(REPLACED) && Staged(REPLACED) && Fold(REPLACED, 0).Some? && !Intact(REPLACED, 0)
    ensures var m := After(REPLACED, 2); !Represents(m, m[RGlobal(0)], Fold(REPLACED, 0).value)
  {
    ReplacedGather();
    hide After, Represents, Collect, CollectStore, Gather;
    assert BuildItems(Basic(Int), EMPTY, 0) == Some([]);
    assert BuildItems(Basic(Int), EMPTY, 1).Some?;
    assert Over(REPLACED.stores[1], 0) && !LastWord(REPLACED, 0, 0, 2);
    FoldExact(REPLACED, 0);
  }

  // Folding can differ from running: a field store followed by a copy of an untouched
  // temporary over the whole global.
  const ONE_FIELD: Ty := Struct([Field(false, Basic(Int))])
  const OVERWRITTEN: Init :=
    Init([SStore(RGlobal(0), [0], VConst(LInt(5))), SStore(RGlobal(0), [], VLoad(1))],
         map[RGlobal(0) := ONE_FIELD, RAlloc(1) := ONE_FIELD], map[1 := 0])

  lemma OverwrittenCollect()
    ensures WellFormed(OVERWRITTEN)
    ensures Collect(OVERWRITTEN, {}, RGlobal(0), 2) == Some([LStore([0], LConst(LInt(5)))])
    ensures Gather(OVERWRITTEN, 0, 2) == Some(Candidate(None, [LStore([0], LConst(LInt(5)))]))
  {
    var p, stores := OVERWRITTEN, [LStore([0], LConst(LInt(5)))];
    assert {} + {1} == {1} && Collect(p, {1}, RAlloc(1), 0) == Some([]);
    assert Collect(p, {1}, RAlloc(1), 1) == Some([]);
    assert Inner(p, {}, 1, 1) == Some([]);
    assert CollectStore(p, {}, 1) == Some([]);
    assert CollectStore(p, {}, 0) == Some(stores) && Collect(p, {}, RGlobal(0), 0) == Some([]);
    assert [] + stores == stores && stores + [] == stores;
    assert Collect(p, {}, RGlobal(0), 1) == Some(stores);
    assert Gather(p, 0, 0) == Some(Candidate(None, []));
    assert Gather(p, 0, 1) == Some(Candidate(None, stores));
  }

  lemma OverwrittenFold()
    ensures WellFormed(OVERWRITTEN) && Fold(OVERWRITTEN, 0) == Some(CAgg([CPrim(PInt(5))]))
  {
    OverwrittenCollect();
    var stores, leaf := [LStore([0], LConst(LInt(5)))], Node(Some(LConst(LInt(5))), map[]);
    assert stores[..0] == [] && [0][1..] == [];
    assert Trie(stores) == Some(Node(None, map[0 := leaf]));
    var n := Node(None, map[0 := leaf]);
    assert Build(Basic(Int), leaf) == Some(CPrim(PInt(5)));
    assert BuildParts(ONE_FIELD, n, 0) == Some([]) && [] + [CPrim(PInt(5))] == [CPrim(PInt(5))];
    assert BuildParts(ONE_FIELD, n, 1) == Some([CPrim(PInt(5))]);
  }

  lemma OverwrittenTrace()
    ensures WellFormed(OVERWRITTEN) && Collect(OVERWRITTEN, {}, RGlobal(0), 2).Some?
    ensures Trace(OVERWRITTEN, {}, RGlobal(0), 2) == [Put(LStore([0], LConst(LInt(5)))), Clear([])]
  {
    OverwrittenCollect();
    var p := OVERWRITTEN;
    assert {} + {1} == {1} && Collect(p, {1}, RAlloc(1), 0) == Some([]);
    assert Collect(p, {1}, RAlloc(1), 1) == Some([]);
    assert Collect(p, {1}, RAlloc(1), 2) == Some([]) && Inner(p, {}, 1, 1) == Some([]);
    assert Trace(p, {1}, RAlloc(1), 0) == [] && Trace(p, {1}, RAlloc(1), 1) == [];
    assert Trace(p, {1}, RAlloc(1), 2) == [];
    assert MovedAll([], []) == [];
    assert TraceStore(p, {}, 1) == [Clear([])];
    assert CollectStore(p, {}, 0) == Some([LStore([0], LConst(LInt(5)))]);
    assert TraceStore(p, {}, 0) == [Put(LStore([0], LConst(LInt(5))))];
    assert Trace(p, {}, RGlobal(0), 0) == [];
    assert Trace(p, {}, RGlobal(0), 1) == [Put(LStore([0], LConst(LInt(5))))];
  }

  lemma OverwrittenLost()
    ensures WellFormed(OVERWRITTEN) && Gather(OVERWRITTEN, 0, 2).Some? && !Intact(OVERWRITTEN, 0)
  {
    OverwrittenCollect();
    OverwrittenTrace();
    hide Trace, Collect, Gather, Lossless;
    var xs := Trace(OVERWRITTEN, {}, RGlobal(0), 2);
    assert [0][1..] == [] && Reachable(ONE_FIELD, [0]) && TypeAt(ONE_FIELD, [0]) == Basic(Int);
    assert !Blank(ONE_FIELD, xs[0].s) && Covers(xs, 1, 0);
  }

  lemma OverwrittenExample()
    ensures WellFormed(OVERWRITTEN) && Staged(OVERWRITTEN) && Fold(OVERWRITTEN, 0).Some? && !Intact(OVERWRITTEN, 0)
    ensures var m := After(OVERWRITTEN, 2); !Represents(m, m[RGlobal(0)], Fold(OVERWRITTEN, 0).value)
  {
    hide Fold, Collect, Gather, Intact, After, Represents;
    OverwrittenFold();
    OverwrittenLost();
    FoldExact(OVERWRITTEN, 0);
  }
}
