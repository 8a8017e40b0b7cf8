// When an initializer is folded: exactly when every store has a value that can be taken
// apart at compile time, and every value fits the place it is stored into.
module StaticInitBuilds {
  import opened Common
  import opened StaticInitTrie
  import opened StaticInitCollect
  import opened StaticInitTrace
  import opened StaticInitExact

  // ---- values that fit their places ----

  // An object without stores is zero. Only byte arrays may have more than 65536 items.
  predicate EmptyFits(ty: Ty) {
    ty.Array? ==> ty.item == Basic(Uint8) || ty.len <= 65536
  }

  // A leaf stored at a path of an object of type ty has a place there that can hold it.
  // What is stored into a blank field does not matter.
  ghost predicate Placed(ty: Ty, path: seq<nat>, leaf: Leaf)
    decreases leaf, 1, |path|
  {
    if path == [] then LeafFits(ty, leaf)
    else match ty
      case Struct(fs) =>
        path[0] < |fs| && (fs[path[0]].blank || Placed(fs[path[0]].ty, path[1..], leaf))
      case Array(n, item) => EmptyFits(ty) && path[0] < n && Placed(item, path[1..], leaf)
      case _ => false
  }

  // A literal must have a meaning at the type, a function no environment, and the object
  // behind a pointer or slice must have the right type and be made of fitting stores. An
  // item of a slice's array that is not stored into is built as an object of its own.
  ghost predicate LeafFits(ty: Ty, leaf: Leaf)
    decreases leaf, 0, 0
  {
    match leaf
    case LConst(l) => if ty.Basic? then exists p :: Means(ty.k, l, p) else l.LNil?
    case LFunc(f) => ty == Func && !f.needsEnv
    case LSlice(_, n, elem, item, stores, _) => ty == Slice(elem) && ItemsFit(item, n, stores)
    case LPointer(_, elem, t, stores, _) => ty == Ptr(elem) && ObjectFits(t, stores)
  }

  ghost predicate ObjectFits(ty: Ty, stores: seq<LStore>)
    decreases stores, 2, 0
  {
    && Apart(stores) && (stores == [] ==> EmptyFits(ty))
    && forall i :: 0 <= i < |stores| ==> Placed(ty, stores[i].path, stores[i].leaf)
  }

  ghost predicate ItemsFit(item: Ty, n: nat, stores: seq<LStore>)
    decreases stores, 2, 0
  {
    && Apart(stores) && (EmptyFits(item) || forall k :: 0 <= k < n ==> StoredInto(stores, k))
    && forall i :: 0 <= i < |stores| ==>
         stores[i].path != [] && stores[i].path[0] < n && Placed(item, stores[i].path[1..], stores[i].leaf)
  }

  predicate StoredInto(stores: seq<LStore>, k: nat) {
    exists i :: 0 <= i < |stores| && stores[i].path != [] && stores[i].path[0] == k
  }

  // ---- tries without dead branches ----

  ghost predicate Trim(n: Node) {
    && (n.leaf.Some? ==> n.children == map[])
    && forall i :: i in n.children ==> n.children[i] != EMPTY && Trim(n.children[i])
  }

  lemma {:induction false} TrimAdd(n: Node, path: seq<nat>, leaf: Leaf)
    requires Trim(n) && AddLeaf(n, path, leaf).Some?
    ensures Trim(AddLeaf(n, path, leaf).value) && AddLeaf(n, path, leaf).value != EMPTY
    decreases |path|
  {
    if path != [] {
      assert path[0] in AddLeaf(n, path, leaf).value.children;
      TrimAdd(if path[0] in n.children then n.children[path[0]] else EMPTY, path[1..], leaf);
    }
  }

  lemma {:induction false} TrimTrie(stores: seq<LStore>)
    requires Trie(stores).Some?
    ensures Trim(Trie(stores).value) && (Trie(stores).value == EMPTY <==> stores == [])
  {
    if stores != [] {
      var n := |stores| - 1;
      TrimTrie(stores[..n]);
      TrimAdd(Trie(stores[..n]).value, stores[n].path, stores[n].leaf);
    }
  }

  lemma {:induction false} SomeLeaf(n: Node) returns (path: seq<nat>, leaf: Leaf)
    requires Trim(n) && n != EMPTY
    ensures HasLeaf(n, path, leaf)
  {
    if n.leaf.Some? {
      path, leaf := [], n.leaf.value;
    } else {
      assert n.children != map[];
      var i :| i in n.children;
      path, leaf := SomeLeaf(n.children[i]);
      path := [i] + path;
    }
  }

  // A trie has no other leaves than those of its stores.
  lemma {:induction false} AddOnly(n: Node, path: seq<nat>, leaf: Leaf, q: seq<nat>, l: Leaf)
    requires AddLeaf(n, path, leaf).Some? && HasLeaf(AddLeaf(n, path, leaf).value, q, l)
    ensures HasLeaf(n, q, l) || (q == path && l == leaf)
    decreases |path|
  {
    if path != [] && q != [] && q[0] == path[0] {
      AddOnly(if path[0] in n.children then n.children[path[0]] else EMPTY, path[1..], leaf, q[1..], l);
      assert path == [path[0]] + path[1..] && q == [q[0]] + q[1..];
    }
  }

  lemma {:induction false} TrieOnly(stores: seq<LStore>, q: seq<nat>, l: Leaf)
    requires Trie(stores).Some? && HasLeaf(Trie(stores).value, q, l)
    ensures LStore(q, l) in stores
  {
    if stores != [] {
      var n := |stores| - 1;
      AddOnly(Trie(stores[..n]).value, stores[n].path, stores[n].leaf, q, l);
      if HasLeaf(Trie(stores[..n]).value, q, l) {
        TrieOnly(stores[..n], q, l);
      }
    }
  }

  // ---- building succeeds exactly on fitting tries ----

  ghost predicate LeavesFit(ty: Ty, n: Node) {
    forall path, leaf :: HasLeaf(n, path, leaf) ==> Placed(ty, path, leaf)
  }

  ghost predicate NodeFits(ty: Ty, n: Node) {
    (n == EMPTY ==> EmptyFits(ty)) && LeavesFit(ty, n)
  }

  lemma {:induction false} PartsBuilt(ty: Ty, n: Node, k: nat)
    requires n.leaf.None? && ((ty.Struct? && k <= |ty.fields|) || (ty.Array? && k <= ty.len))
    ensures BuildParts(ty, n, k).Some? <==>
              forall i :: 0 <= i < k && Reaches(ty, i) && i in n.children ==> Build(PartTy(ty, i), n.children[i]).Some?
    decreases k
  {
    if k > 0 {
      PartsBuilt(ty, n, k - 1);
    }
  }

  lemma {:induction false} ItemsBuilt(item: Ty, n: Node, k: nat)
    requires n.leaf.None?
    ensures BuildItems(item, n, k).Some? <==>
              forall i :: 0 <= i < k ==> if i in n.children then Build(item, n.children[i]).Some? else EmptyFits(item)
    decreases k
  {
    if k > 0 {
      ItemsBuilt(item, n, k - 1);
    }
  }

  // The leaves of a node are those of its children.
  lemma ChildLeaf(n: Node, i: nat, path: seq<nat>, leaf: Leaf)
    requires n.leaf.None? && i in n.children && HasLeaf(n.children[i], path, leaf)
    ensures HasLeaf(n, [i] + path, leaf)
  {
    assert ([i] + path)[1..] == path;
  }

  // Leaves fit an aggregate iff those of every part that is stored into fit the part, and
  // there are no others.
  lemma PartsFit(ty: Ty, n: Node)
    requires n.leaf.None? && Trim(n) && (ty.Struct? || (ty.Array? && EmptyFits(ty)))
    ensures LeavesFit(ty, n) <==>
              && InRange(n, if ty.Struct? then |ty.fields| else ty.len)
              && forall i :: i in n.children && Reaches(ty, i) ==> LeavesFit(PartTy(ty, i), n.children[i])
  {
    var len := if ty.Struct? then |ty.fields| else ty.len;
    if LeavesFit(ty, n) {
      forall i | i in n.children ensures i < len && (Reaches(ty, i) ==> LeavesFit(PartTy(ty, i), n.children[i])) {
        ChildFits(ty, n, i);
      }
    }
    if InRange(n, len) && forall i :: i in n.children && Reaches(ty, i) ==> LeavesFit(PartTy(ty, i), n.children[i]) {
      forall path, leaf | HasLeaf(n, path, leaf) ensures Placed(ty, path, leaf) {
        var i := path[0];
        if Reaches(ty, i) {
          assert LeavesFit(PartTy(ty, i), n.children[i]);
        }
      }
    }
  }

  lemma ChildFits(ty: Ty, n: Node, i: nat)
    requires n.leaf.None? && Trim(n) && (ty.Struct? || ty.Array?) && LeavesFit(ty, n) && i in n.children
    ensures i < if ty.Struct? then |ty.fields| else ty.len
    ensures Reaches(ty, i) ==> LeavesFit(PartTy(ty, i), n.children[i])
  {
    var path, leaf := SomeLeaf(n.children[i]);
    ChildLeaf(n, i, path, leaf);
    assert Placed(ty, [i] + path, leaf);
    if Reaches(ty, i) {
      forall q, l | HasLeaf(n.children[i], q, l) ensures Placed(PartTy(ty, i), q, l) {
        ChildLeaf(n, i, q, l);
        assert ([i] + q)[1..] == q && Placed(ty, [i] + q, l);
      }
    }
  }

  lemma {:induction false} BuildFits(ty: Ty, n: Node)
    requires WfNode(n) && Trim(n)
    ensures Build(ty, n).Some? <==> NodeFits(ty, n)
    decreases n, 1, 0
  {
    if n.leaf.Some? {
      BuildLeafFits(ty, n.leaf.value);
      assert HasLeaf(n, [], n.leaf.value);
    } else if ty.Struct? || ty.Array? {
      AggregateFits(ty, n);
    } else if n != EMPTY {
      var path, leaf := SomeLeaf(n);
    }
  }

  lemma {:induction false} AggregateFits(ty: Ty, n: Node)
    requires WfNode(n) && Trim(n) && n.leaf.None? && (ty.Struct? || ty.Array?)
    ensures Build(ty, n).Some? <==> NodeFits(ty, n)
    decreases n, 0, 0
  {
    forall i | i in n.children && Reaches(ty, i)
      ensures Build(PartTy(ty, i), n.children[i]).Some? <==> LeavesFit(PartTy(ty, i), n.children[i])
    {
      BuildFits(PartTy(ty, i), n.children[i]);
    }
    if EmptyFits(ty) {
      PartsFit(ty, n);
      PartsBuilt(ty, n, if ty.Struct? then |ty.fields| else ty.len);
      if ty.Array? && ByteArray(n, ty.len, ty.item).Some? {
        ByteArrayAgrees(n, ty.len, ty.len);
      }
    } else if n != EMPTY {
      var path, leaf := SomeLeaf(n);
      assert !Placed(ty, path, leaf);
    }
  }

  lemma {:induction false} BuildLeafFits(ty: Ty, leaf: Leaf)
    requires WfLeaf(leaf)
    ensures BuildLeaf(ty, leaf).Some? <==> LeafFits(ty, leaf)
    decreases leaf, 0, 0
  {
    match leaf
    case LConst(l) => ConvertIsLitVal(ty, l);
    case LFunc(_) =>
    case LSlice(_, n, _, item, stores, root) =>
      TrieAccepts(stores);
      if root.Some? {
        TrimTrie(stores);
        SliceBuilds(item, n, root.value);
        SliceStores(item, n, stores);
      }
    case LPointer(_, _, t, stores, root) =>
      TrieAccepts(stores);
      if root.Some? {
        TrimTrie(stores);
        BuildFits(t, root.value);
        ObjectStores(t, stores);
      }
  }

  // Items of a slice: none at the slice itself, all in range, and built if missing.
  ghost predicate ItemNodes(item: Ty, len: nat, n: Node) {
    && n.leaf.None? && InRange(n, len)
    && (forall i :: i in n.children ==> LeavesFit(item, n.children[i]))
    && (EmptyFits(item) || forall k :: 0 <= k < len ==> k in n.children)
  }

  lemma {:induction false} SliceBuilds(item: Ty, len: nat, n: Node)
    requires WfNode(n) && Trim(n)
    ensures (n.leaf.None? && InRange(n, len) && BuildItems(item, n, len).Some?) <==> ItemNodes(item, len, n)
    decreases n, 0, 0
  {
    if n.leaf.None? && InRange(n, len) {
      ItemsBuilt(item, n, len);
      forall i | i in n.children ensures Build(item, n.children[i]).Some? <==> LeavesFit(item, n.children[i]) {
        BuildFits(item, n.children[i]);
      }
    }
  }

  // The leaves of the trie of a list of stores are the stores.
  lemma LeavesAreStores(ty: Ty, stores: seq<LStore>)
    requires Trie(stores).Some?
    ensures LeavesFit(ty, Trie(stores).value) <==>
              forall i :: 0 <= i < |stores| ==> Placed(ty, stores[i].path, stores[i].leaf)
  {
    hide Placed, Trie, HasLeaf;
    var n := Trie(stores).value;
    if LeavesFit(ty, n) {
      forall i | 0 <= i < |stores| ensures Placed(ty, stores[i].path, stores[i].leaf) {
        TrieHas(stores, i);
      }
    }
    if forall i :: 0 <= i < |stores| ==> Placed(ty, stores[i].path, stores[i].leaf) {
      forall path, leaf | HasLeaf(n, path, leaf) ensures Placed(ty, path, leaf) {
        TrieOnly(stores, path, leaf);
        var i :| 0 <= i < |stores| && stores[i] == LStore(path, leaf);
      }
    }
  }

  lemma ObjectStores(ty: Ty, stores: seq<LStore>)
    requires Trie(stores).Some? && Apart(stores) && (Trie(stores).value == EMPTY <==> stores == [])
    ensures NodeFits(ty, Trie(stores).value) <==> ObjectFits(ty, stores)
  {
    LeavesAreStores(ty, stores);
  }

  // A store has child k at the root of the trie iff its path begins with k.
  lemma ChildStored(stores: seq<LStore>, k: nat)
    requires Trie(stores).Some? && Trim(Trie(stores).value)
    ensures k in Trie(stores).value.children <==> Trie(stores).value.leaf.None? && StoredInto(stores, k)
  {
    hide Trie;
    var n := Trie(stores).value;
    if k in n.children {
      var path, leaf := SomeLeaf(n.children[k]);
      ChildLeaf(n, k, path, leaf);
      TrieOnly(stores, [k] + path, leaf);
      var i :| 0 <= i < |stores| && stores[i] == LStore([k] + path, leaf);
      assert stores[i].path[0] == k;
    }
    if n.leaf.None? && StoredInto(stores, k) {
      var i :| 0 <= i < |stores| && stores[i].path != [] && stores[i].path[0] == k;
      TrieHas(stores, i);
    }
  }

  lemma SliceStores(item: Ty, len: nat, stores: seq<LStore>)
    requires Trie(stores).Some? && Apart(stores) && Trim(Trie(stores).value)
    ensures ItemNodes(item, len, Trie(stores).value) <==> ItemsFit(item, len, stores)
  {
    hide Trie, Trim, Placed;
    var n := Trie(stores).value;
    forall k: nat ensures k in n.children <==> n.leaf.None? && StoredInto(stores, k) {
      ChildStored(stores, k);
    }
    if ItemNodes(item, len, n) {
      forall i | 0 <= i < |stores|
        ensures stores[i].path != [] && stores[i].path[0] < len && Placed(item, stores[i].path[1..], stores[i].leaf)
      {
        TrieHas(stores, i);
        assert LeavesFit(item, n.children[stores[i].path[0]]);
      }
    }
    if ItemsFit(item, len, stores) {
      ItemsToNodes(item, len, stores);
    }
  }

  lemma ItemsToNodes(item: Ty, len: nat, stores: seq<LStore>)
    requires Trie(stores).Some? && Trim(Trie(stores).value) && ItemsFit(item, len, stores)
    ensures ItemNodes(item, len, Trie(stores).value)
  {
    hide Trie, Placed;
    var n := Trie(stores).value;
    if n.leaf.Some? {
      assert HasLeaf(n, [], n.leaf.value);
      TrieOnly(stores, [], n.leaf.value);
      assert false;
    }
    forall k: nat ensures k in n.children <==> StoredInto(stores, k) {
      ChildStored(stores, k);
    }
    forall k | k in n.children ensures LeavesFit(item, n.children[k]) {
      forall q, l | HasLeaf(n.children[k], q, l) ensures Placed(item, q, l) {
        ChildLeaf(n, k, q, l);
        TrieOnly(stores, [k] + q, l);
        var i :| 0 <= i < |stores| && stores[i] == LStore([k] + q, l);
        assert stores[i].path[1..] == q;
      }
    }
  }

  // An object is built from a list of stores exactly when they fit it.
  lemma ObjectBuilds(ty: Ty, stores: seq<LStore>)
    requires forall k :: 0 <= k < |stores| ==> WfLeaf(stores[k].leaf)
    ensures (Trie(stores).Some? && Build(ty, Trie(stores).value).Some?) <==> ObjectFits(ty, stores)
  {
    TrieAccepts(stores);
    if Trie(stores).Some? {
      TrieWf(stores);
      TrimTrie(stores);
      BuildFits(ty, Trie(stores).value);
      ObjectStores(ty, stores);
    }
  }

  // ---- which objects can be collected ----

  // Every store into the object has a value known at compile time, or takes a temporary
  // that nothing else takes and that can be collected in fewer rounds.
  ghost predicate Rounds(p: Init, root: Root, n: nat)
    requires WellFormed(p)
    decreases n, 0
  {
    n > 0 && forall k :: 0 <= k < |p.stores| && p.stores[k].root == root ==> KnownStore(p, k, n - 1)
  }

  ghost predicate KnownStore(p: Init, k: nat, n: nat)
    requires WellFormed(p) && k < |p.stores|
    decreases n, 1
  {
    match p.stores[k].val
    case VConst(_) => true
    case VFunc(_) => true
    case VOther => false
    case VLoad(a) => OnlyUse(p, a, k) && Rounds(p, RAlloc(a), n)
    case VPtr(a) => OnlyUse(p, a, k) && Rounds(p, RAlloc(a), n) && !ZeroSized(p.tys[RAlloc(a)])
    case VSlice(a) =>
      && OnlyUse(p, a, k) && Rounds(p, RAlloc(a), n)
      && var t := p.tys[RAlloc(a)];
         t.Array? && t.len <= 65536 && !ZeroSized(t.item) && (t.len == 0 ==> !Written(p, RAlloc(a)))
  }

  // Temporaries do not go round in a circle.
  ghost predicate Collectible(p: Init, root: Root)
    requires WellFormed(p)
  {
    exists n: nat :: Rounds(p, root, n)
  }

  lemma {:induction false} RoundsMore(p: Init, root: Root, n: nat, m: nat)
    requires WellFormed(p) && Rounds(p, root, n) && n <= m
    ensures Rounds(p, root, m)
    decreases n
  {
    forall k | 0 <= k < |p.stores| && p.stores[k].root == root ensures KnownStore(p, k, m - 1) {
      assert KnownStore(p, k, n - 1);
      var a := Temp(p.stores[k].val);
      if a.Some? {
        RoundsMore(p, RAlloc(a.value), n - 1, m - 1);
      }
    }
  }

  lemma {:induction false} FewestRounds(p: Init, root: Root, n: nat) returns (m: nat)
    requires WellFormed(p) && Rounds(p, root, n)
    ensures 1 <= m <= n && Rounds(p, root, m) && !Rounds(p, root, m - 1)
  {
    if Rounds(p, root, n - 1) {
      m := FewestRounds(p, root, n - 1);
    } else {
      m := n;
    }
  }

  lemma {:induction false} CollectEach(p: Init, visited: set<nat>, root: Root, k: nat)
    requires WellFormed(p) && k <= |p.stores|
    ensures Collect(p, visited, root, k).Some? <==>
              forall j :: 0 <= j < k && p.stores[j].root == root ==> CollectStore(p, visited, j).Some?
    decreases k
  {
    hide CollectStore;
    if k > 0 {
      CollectEach(p, visited, root, k - 1);
    }
  }

  // What was collected is known; each temporary met takes one round.
  lemma {:induction false} CollectKnown(p: Init, visited: set<nat>, root: Root)
    requires WellFormed(p) && Collect(p, visited, root, |p.stores|).Some?
    ensures Rounds(p, root, |Temps(p) - visited| + 1)
    decreases Temps(p) - visited, 1
  {
    CollectEach(p, visited, root, |p.stores|);
    forall k | 0 <= k < |p.stores| && p.stores[k].root == root ensures KnownStore(p, k, |Temps(p) - visited|) {
      StoreKnown(p, visited, k);
    }
  }

  lemma {:induction false} StoreKnown(p: Init, visited: set<nat>, k: nat)
    requires WellFormed(p) && k < |p.stores| && CollectStore(p, visited, k).Some?
    ensures KnownStore(p, k, |Temps(p) - visited|)
    decreases Temps(p) - visited, 0
  {
    var a := Temp(p.stores[k].val);
    if a.Some? {
      assert a.value in Temps(p);
      var rest := Temps(p) - (visited + {a.value});
      assert rest < Temps(p) - visited && Temps(p) - visited == rest + {a.value};
      CollectKnown(p, visited + {a.value}, RAlloc(a.value));
    }
  }

  // What is known can be collected: a temporary that was met takes more rounds than those
  // it leads to, so it is not met again.
  lemma {:induction false} KnownCollects(p: Init, visited: set<nat>, root: Root, n: nat)
    requires WellFormed(p) && Rounds(p, root, n) && forall b :: b in visited ==> !Rounds(p, RAlloc(b), n - 1)
    ensures Collect(p, visited, root, |p.stores|).Some?
    decreases n, 1
  {
    CollectEach(p, visited, root, |p.stores|);
    forall k | 0 <= k < |p.stores| && p.stores[k].root == root ensures CollectStore(p, visited, k).Some? {
      assert KnownStore(p, k, n - 1);
      KnownStoreCollects(p, visited, k, n - 1);
    }
  }

  lemma {:induction false} KnownStoreCollects(p: Init, visited: set<nat>, k: nat, n: nat)
    requires WellFormed(p) && k < |p.stores| && KnownStore(p, k, n)
    requires forall b :: b in visited ==> !Rounds(p, RAlloc(b), n)
    ensures CollectStore(p, visited, k).Some?
    decreases n + 1, 0
  {
    var t := Temp(p.stores[k].val);
    if t.Some? {
      var a := t.value;
      var m := FewestRounds(p, RAlloc(a), n);
      forall b | b in visited + {a} ensures !Rounds(p, RAlloc(b), m - 1) {
        if b in visited && Rounds(p, RAlloc(b), m - 1) {
          RoundsMore(p, RAlloc(b), m - 1, n);
        }
      }
      KnownCollects(p, visited + {a}, RAlloc(a), m);
    }
  }

  lemma CollectibleExact(p: Init, root: Root)
    requires WellFormed(p)
    ensures Collect(p, {}, root, |p.stores|).Some? <==> Collectible(p, root)
  {
    if Collect(p, {}, root, |p.stores|).Some? {
      CollectKnown(p, {}, root);
    }
    if n: nat :| Rounds(p, root, n) {
      KnownCollects(p, {}, root, n);
    }
  }

  // ---- which globals are folded ----

  // Store j puts a slice over all of the global.
  predicate WholeSlice(p: Init, g: nat, j: nat) {
    j < |p.stores| && Over(p.stores[j], g) && p.stores[j].val.VSlice?
  }

  // A slice over all of the global comes before anything else that is gathered.
  ghost predicate SlicesFirst(p: Init, g: nat, k: nat)
    requires WellFormed(p) && k <= |p.stores|
  {
    forall j: nat :: j < k && WholeSlice(p, g, j) ==> Collect(p, {}, RGlobal(g), j) == Some([])
  }

  lemma {:induction false} GatherExact(p: Init, g: nat, k: nat)
    requires WellFormed(p) && k <= |p.stores|
    ensures Gather(p, g, k).Some? <==> Collect(p, {}, RGlobal(g), k).Some? && SlicesFirst(p, g, k)
    ensures Gather(p, g, k).Some? ==>
              && (Gather(p, g, k).value.slice.None? ==>
                    Collect(p, {}, RGlobal(g), k).value == Gather(p, g, k).value.stores)
              && (Gather(p, g, k).value.slice.Some? ==> Collect(p, {}, RGlobal(g), k).value != [])
    ensures Gather(p, g, k).Some? ==>
              (Gather(p, g, k).value.slice.None? <==> forall j: nat :: j < k ==> !WholeSlice(p, g, j))
  {
    hide CollectStore;
    if k > 0 {
      GatherExact(p, g, k - 1);
      SliceOne(p, k - 1);
      assert SlicesFirst(p, g, k) <==>
        SlicesFirst(p, g, k - 1) && (WholeSlice(p, g, k - 1) ==> Collect(p, {}, RGlobal(g), k - 1) == Some([]));
    }
  }

  lemma SliceOne(p: Init, k: nat)
    requires WellFormed(p) && k < |p.stores|
    ensures p.stores[k].val.VSlice? && CollectStore(p, {}, k).Some? ==> |CollectStore(p, {}, k).value| == 1
  {
  }

  // What folding asks of an initializer.
  ghost predicate Foldable(p: Init, g: nat)
    requires WellFormed(p) && RGlobal(g) in p.tys
  {
    && Collectible(p, RGlobal(g)) && SlicesFirst(p, g, |p.stores|)
    && (forall j :: WholeSlice(p, g, j) ==>
          CollectStore(p, {}, j).Some? && LeafFits(p.tys[RGlobal(g)], SliceLeaf(p, j)))
    && ((forall j :: !WholeSlice(p, g, j)) ==>
          var stores := Collect(p, {}, RGlobal(g), |p.stores|);
          stores.Some? && stores.value != [] && ObjectFits(p.tys[RGlobal(g)], stores.value))
  }

  // The main result: a global is folded exactly when its initializer is foldable.
  lemma FoldsExactly(p: Init, g: nat)
    requires WellFormed(p) && RGlobal(g) in p.tys
    ensures Fold(p, g).Some? <==> Foldable(p, g)
  {
    hide Gather, Collect, CollectStore, LeafFits, ObjectFits, Build, BuildLeaf, Trie;
    var n, ty := |p.stores|, p.tys[RGlobal(g)];
    CollectibleExact(p, RGlobal(g));
    GatherExact(p, g, n);
    if Gather(p, g, n).Some? {
      GatherSlice(p, g, n);
      var c := Gather(p, g, n).value;
      if c.slice.Some? {
        var j := c.slice.value;
        StoreSourced(p, {}, j);
        SliceOne(p, j);
        BuildLeafFits(ty, SliceLeaf(p, j));
        assert WholeSlice(p, g, j);
        assert forall i :: WholeSlice(p, g, i) ==> i == j;
      } else {
        CollectSourced(p, {}, RGlobal(g), n);
        ObjectBuilds(ty, c.stores);
      }
    }
  }
}
