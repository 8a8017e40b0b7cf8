// Static initializer folding, from the package initializer to collected stores, and
// what running the initializer leaves in memory. Temporaries that are copied into a
// global are flattened into stores at longer paths; temporaries whose address is
// stored become backing objects.
module StaticInitCollect {
  import opened Common
  import opened StaticInitTrie

  datatype Root = RGlobal(g: nat) | RAlloc(a: nat)

  // A stored value: a constant, a function, the contents of a temporary, its
  // address, the slice of it, or anything else.
  datatype SVal = VConst(lit: Lit) | VFunc(fn: Fn) | VLoad(a: nat) | VPtr(a: nat) | VSlice(a: nat) | VOther
  datatype SStore = SStore(root: Root, path: seq<nat>, val: SVal)

  // A straight-line initializer: its stores in order, the type of every global and
  // temporary, and the number by which a temporary's type is referred to.
  datatype Init = Init(stores: seq<SStore>, tys: map<Root, Ty>, elem: map<nat, nat>)

  ghost predicate WellFormed(p: Init) {
    forall k :: 0 <= k < |p.stores| ==>
      && p.stores[k].root in p.tys
      && (Temp(p.stores[k].val).Some? ==>
            RAlloc(Temp(p.stores[k].val).value) in p.tys && Temp(p.stores[k].val).value in p.elem)
  }

  // The temporary a stored value consumes.
  function Temp(v: SVal): (a: Option<nat>) {
    match v
    case VLoad(a) => Some(a)
    case VPtr(a) => Some(a)
    case VSlice(a) => Some(a)
    case _ => None
  }

  // Store k is the only one that consumes temporary a.
  predicate OnlyUse(p: Init, a: nat, k: nat) {
    forall j :: 0 <= j < |p.stores| && Temp(p.stores[j].val) == Some(a) ==> j == k
  }

  // Some store is into the object.
  predicate Written(p: Init, root: Root) {
    exists j :: 0 <= j < |p.stores| && p.stores[j].root == root
  }

  predicate ZeroSized(ty: Ty) {
    match ty
    case Array(n, item) => n == 0 || ZeroSized(item)
    case Struct(fs) => forall i :: 0 <= i < |fs| ==> ZeroSized(fs[i].ty)
    case _ => false
  }

  // ---- collecting ----

  function Prefixed(path: seq<nat>, stores: seq<LStore>): (r: seq<LStore>)
    ensures |r| == |stores| && forall k :: 0 <= k < |r| ==> r[k] == LStore(path + stores[k].path, stores[k].leaf)
  {
    seq(|stores|, k requires 0 <= k < |stores| => LStore(path + stores[k].path, stores[k].leaf))
  }

  function Temps(p: Init): (s: set<nat>) {
    set k | 0 <= k < |p.stores| && Temp(p.stores[k].val).Some? :: Temp(p.stores[k].val).value
  }

  // The stores into root among the first k, flattened. Temporaries met on the way
  // are not met again.
  function Collect(p: Init, visited: set<nat>, root: Root, k: nat): (r: Option<seq<LStore>>)
    requires WellFormed(p) && k <= |p.stores|
    decreases Temps(p) - visited, k, 2
  {
    if k == 0 then Some([])
    else
      var front := Collect(p, visited, root, k - 1);
      var s := p.stores[k - 1];
      if front.None? || s.root != root then front
      else
        var here := CollectStore(p, visited, k - 1);
        if here.None? then None else Some(front.value + here.value)
  }

  function CollectStore(p: Init, visited: set<nat>, k: nat): (r: Option<seq<LStore>>)
    requires WellFormed(p) && k < |p.stores|
    decreases Temps(p) - visited, k, 1
  {
    var s := p.stores[k];
    match s.val
    case VConst(l) => Some([LStore(s.path, LConst(l))])
    case VFunc(f) => Some([LStore(s.path, LFunc(f))])
    case VOther => None
    case VLoad(a) =>
      if a in visited || !OnlyUse(p, a, k) then None
      else var inner := Inner(p, visited, k, a);
           if inner.None? then None else Some(Prefixed(s.path, inner.value))
    case VPtr(a) =>
      var t := p.tys[RAlloc(a)];
      if a in visited || !OnlyUse(p, a, k) || ZeroSized(t) then None
      else var inner := Inner(p, visited, k, a);
           if inner.None? then None
           else Some([LStore(s.path, LPointer(a, p.elem[a], t, inner.value, Trie(inner.value)))])
    case VSlice(a) =>
      var t := p.tys[RAlloc(a)];
      if a in visited || !OnlyUse(p, a, k) || !t.Array? || t.len > MAX_ELEMENTS || ZeroSized(t.item) then None
      else var inner := Inner(p, visited, k, a);
           if inner.None? || (t.len == 0 && Written(p, RAlloc(a))) then None
           else Some([LStore(s.path, LSlice(a, t.len, p.elem[a], t.item, inner.value, Trie(inner.value)))])
  }

  // All stores into the temporary that store k consumes.
  function Inner(p: Init, visited: set<nat>, k: nat, a: nat): (r: Option<seq<LStore>>)
    requires WellFormed(p) && k < |p.stores| && Temp(p.stores[k].val) == Some(a) && a !in visited
    decreases Temps(p) - visited, 0, 0
  {
    assert a in Temps(p);
    assert Temps(p) - (visited + {a}) < Temps(p) - visited;
    Collect(p, visited + {a}, RAlloc(a), |p.stores|)
  }

  // What is gathered for a global: the store of a slice over all of it, if there is one,
  // and its other stores.
  datatype Candidate = Candidate(slice: Option<nat>, stores: seq<LStore>)

  // A slice over all of the global is taken while nothing else has been gathered. What
  // comes after it is gathered as if there were none.
  function Gather(p: Init, g: nat, k: nat): (r: Option<Candidate>)
    requires WellFormed(p) && k <= |p.stores|
  {
    if k == 0 then Some(Candidate(None, []))
    else
      var front := Gather(p, g, k - 1);
      var s := p.stores[k - 1];
      if front.None? || s.root != RGlobal(g) then front
      else
        var here := CollectStore(p, {}, k - 1);
        if here.None? then None
        else if s.path == [] && s.val.VSlice? then
          if front.value.slice.Some? || front.value.stores != [] then None
          else Some(front.value.(slice := Some(k - 1)))
        else Some(front.value.(stores := front.value.stores + here.value))
  }

  // The fold of a global: its slice alone, if there is one, or else its stores as a trie,
  // then as a constant.
  function Fold(p: Init, g: nat): (r: Option<C>)
    requires WellFormed(p) && RGlobal(g) in p.tys
  {
    var c := Gather(p, g, |p.stores|);
    if c.None? then None
    else if c.value.slice.Some? then
      GatherSlice(p, g, |p.stores|);
      BuildLeaf(p.tys[RGlobal(g)], SliceLeaf(p, c.value.slice.value))
    else if c.value.stores == [] then None
    else
      var root := Trie(c.value.stores);
      if root.None? then None else Build(p.tys[RGlobal(g)], root.value)
  }

  // The leaf of a slice stored over all of a global.
  function SliceLeaf(p: Init, j: nat): (leaf: Leaf)
    requires WellFormed(p) && j < |p.stores| && p.stores[j].val.VSlice? && CollectStore(p, {}, j).Some?
  {
    CollectStore(p, {}, j).value[0].leaf
  }

  // The gathered slice is a store over all of the global, and no other is.
  lemma {:induction false} GatherSlice(p: Init, g: nat, k: nat)
    requires WellFormed(p) && k <= |p.stores| && Gather(p, g, k).Some?
    ensures var j := Gather(p, g, k).value.slice;
            j.Some? ==>
              && j.value < k && p.stores[j.value].root == RGlobal(g) && p.stores[j.value].path == []
              && p.stores[j.value].val.VSlice? && CollectStore(p, {}, j.value).Some?
    ensures forall i :: 0 <= i < k && p.stores[i].root == RGlobal(g) ==>
              && CollectStore(p, {}, i).Some?
              && (p.stores[i].path == [] && p.stores[i].val.VSlice? ==> Gather(p, g, k).value.slice == Some(i))
  {
    hide CollectStore;
    if k > 0 {
      GatherSlice(p, g, k - 1);
    }
  }

  // Without such a slice everything is gathered.
  lemma {:induction false} GatherAll(p: Init, g: nat, k: nat)
    requires WellFormed(p) && k <= |p.stores| && Gather(p, g, k).Some? && Gather(p, g, k).value.slice.None?
    ensures Collect(p, {}, RGlobal(g), k) == Some(Gather(p, g, k).value.stores)
  {
    hide CollectStore;
    if k > 0 {
      GatherAll(p, g, k - 1);
    }
  }

  // ---- running ----

  // Pointers and slices in memory refer to temporaries; their contents are elsewhere.
  type Mem = map<Root, C>

  ghost function Exec(p: Init, m: Mem, s: SStore): (m': Mem)
    requires s.root in p.tys && s.root in m && m.Keys == p.tys.Keys
    requires Temp(s.val).Some? ==> RAlloc(Temp(s.val).value) in p.tys
    ensures m'.Keys == m.Keys
  {
    var t := p.tys[s.root];
    m[s.root := Update(t, m[s.root], s.path, ShallowVal(TypeAt(t, s.path), m, s.val))]
  }

  ghost function ShallowVal(ty: Ty, m: Mem, v: SVal): (c: C)
    requires Temp(v).Some? ==> RAlloc(Temp(v).value) in m
  {
    match v
    case VConst(l) => LitVal(ty, l)
    case VFunc(f) => CFn(f.id)
    case VLoad(a) => m[RAlloc(a)]
    case VPtr(a) => CPtr(a, CNil)
    case VSlice(a) => CSlice(a, CNil)
    case VOther => CNil
  }

  // Memory after the first k stores, from zero.
  ghost function After(p: Init, k: nat): (m: Mem)
    requires WellFormed(p) && k <= |p.stores|
    ensures m.Keys == p.tys.Keys
  {
    if k == 0 then map r | r in p.tys :: Zero(p.tys[r])
    else Exec(p, After(p, k - 1), p.stores[k - 1])
  }

  // v, in memory m, represents the constant c.
  ghost predicate Represents(m: Mem, v: C, c: C)
    decreases c
  {
    match c
    case CPtr(a, content) => v == CPtr(a, CNil) && RAlloc(a) in m && Represents(m, m[RAlloc(a)], content)
    case CSlice(a, content) => v == CSlice(a, CNil) && RAlloc(a) in m && Represents(m, m[RAlloc(a)], content)
    case CAgg(parts) =>
      v.CAgg? && |v.parts| == |parts| && forall i :: 0 <= i < |parts| ==> Represents(m, v.parts[i], parts[i])
    case _ => v == c
  }

  // ---- what folding relies on ----

  predicate Reachable(ty: Ty, path: seq<nat>)
    decreases |path|
  {
    path == [] || (Reaches(ty, path[0]) && Reachable(PartTy(ty, path[0]), path[1..]))
  }

  // A temporary is complete before it is copied, and the copy has its type.
  ghost predicate Staged(p: Init)
    requires WellFormed(p)
  {
    forall k :: 0 <= k < |p.stores| && p.stores[k].val.VLoad? ==>
      var a, t := p.stores[k].val.a, p.tys[p.stores[k].root];
      && (forall j :: k <= j < |p.stores| ==> p.stores[j].root != RAlloc(a))
      && (Reachable(t, p.stores[k].path) ==> TypeAt(t, p.stores[k].path) == p.tys[RAlloc(a)])
  }

  // ---- collected stores, with references left shallow ----

  ghost function ShallowLeaf(ty: Ty, leaf: Leaf): (c: C) {
    match leaf
    case LConst(l) => LitVal(ty, l)
    case LFunc(f) => CFn(f.id)
    case LSlice(a, _, _, _, _, _) => CSlice(a, CNil)
    case LPointer(a, _, _, _, _) => CPtr(a, CNil)
  }

  // v after the stores.
  ghost function Apply(ty: Ty, v: C, stores: seq<LStore>): (v': C) {
    if stores == [] then v
    else
      var last := stores[|stores| - 1];
      Update(ty, Apply(ty, v, stores[..|stores| - 1]), last.path, ShallowLeaf(TypeAt(ty, last.path), last.leaf))
  }

  // The part of v at a path, while v has the type's shape along it.
  function Select(v: C, path: seq<nat>): (c: Option<C>)
    decreases |path|
  {
    if path == [] then Some(v)
    else if v.CAgg? && path[0] < |v.parts| then Select(v.parts[path[0]], path[1..])
    else None
  }

  lemma {:induction false} SelectZero(ty: Ty, path: seq<nat>)
    requires Reachable(ty, path)
    ensures Select(Zero(ty), path) == Some(Zero(TypeAt(ty, path)))
    decreases |path|
  {
    if path != [] {
      SelectZero(PartTy(ty, path[0]), path[1..]);
    }
  }

  // A store at an incomparable path leaves the part alone.
  lemma {:induction false} SelectUpdate(ty: Ty, v: C, q: seq<nat>, x: C, path: seq<nat>)
    requires !Comparable(q, path)
    ensures Select(Update(ty, v, q, x), path) == Select(v, path)
    decreases |path|
  {
    if Reaches(ty, q[0]) && v.CAgg? && q[0] < |v.parts| && q[0] == path[0] {
      assert !Comparable(q[1..], path[1..]) by {
        assert q == [q[0]] + q[1..] && path == [path[0]] + path[1..];
      }
      SelectUpdate(PartTy(ty, q[0]), v.parts[q[0]], q[1..], x, path[1..]);
    }
  }

  // Writing what is already there changes nothing.
  lemma {:induction false} UpdateSame(ty: Ty, v: C, path: seq<nat>, x: C)
    requires Select(v, path) == Some(x)
    ensures Update(ty, v, path, x) == v
    decreases |path|
  {
    if path != [] && Reaches(ty, path[0]) {
      UpdateSame(PartTy(ty, path[0]), v.parts[path[0]], path[1..], x);
    }
  }

  // Writing an updated part is writing the part, then updating in place.
  lemma {:induction false} UpdateInside(ty: Ty, v: C, path: seq<nat>, w: C, q: seq<nat>, x: C)
    requires Reachable(ty, path) && Select(v, path).Some?
    ensures Update(ty, v, path, Update(TypeAt(ty, path), w, q, x)) == Update(ty, Update(ty, v, path, w), path + q, x)
    ensures TypeAt(ty, path + q) == TypeAt(TypeAt(ty, path), q)
    decreases |path|
  {
    if path == [] {
      assert path + q == q;
    } else {
      var i, t := path[0], PartTy(ty, path[0]);
      UpdateInside(t, v.parts[i], path[1..], w, q, x);
      assert (path + q)[1..] == path[1..] + q;
    }
  }

  // Memory of a root that later stores do not touch stays as it is.
  lemma {:induction false} Settled(p: Init, root: Root, k: nat, n: nat)
    requires WellFormed(p) && k <= n <= |p.stores| && root in p.tys
    requires forall j :: k <= j < n ==> p.stores[j].root != root
    ensures After(p, k)[root] == After(p, n)[root]
    decreases n
  {
    if k < n {
      Settled(p, root, k, n - 1);
    }
  }

  // ---- from shallow to deep ----

  lemma {:induction false} ZeroRepresents(m: Mem, ty: Ty)
    ensures Represents(m, Zero(ty), Zero(ty))
  {
    match ty
    case Struct(fs) =>
      forall i | 0 <= i < |fs| ensures Represents(m, Zero(ty).parts[i], Zero(ty).parts[i]) {
        ZeroRepresents(m, fs[i].ty);
      }
    case Array(n, item) => ZeroRepresents(m, item);
    case _ =>
  }

  lemma {:induction false} UpdateRepresents(m: Mem, ty: Ty, v: C, c: C, path: seq<nat>, x: C, y: C)
    requires Represents(m, v, c) && Represents(m, x, y)
    ensures Represents(m, Update(ty, v, path, x), Update(ty, c, path, y))
    decreases |path|
  {
    if path != [] && Reaches(ty, path[0]) && c.CAgg? && path[0] < |c.parts| {
      UpdateRepresents(m, PartTy(ty, path[0]), v.parts[path[0]], c.parts[path[0]], path[1..], x, y);
    }
  }
}
