// Comparing local arrays in place: an aggregate load may be dropped when the
// allocation's memory at every later comparison still is what the load produced, on
// every path, loops included.
module ArrayCompare {
  import opened CfgPaths
  import opened Common

  // Values are named by the instruction that computes them.
  type Val = nat

  datatype Instr =
    | Alloc
    | FieldAddr(x: Val)
    | IndexAddr(x: Val, index: Val)
    | Load(x: Val)
    | Store(addr: Val, val: Val)
    | Compare(x: Val, y: Val)   // == or !=
    | Other(xs: seq<Val>)

  datatype Pos = Pos(block: nat, index: nat)

  // A function: instructions by name, where each one sits, and the control flow; the
  // array-typed values, those of them compared inline, and the heap allocations.
  datatype Fn = Fn(
    instrs: map<Val, Instr>, at: map<Val, Pos>, blocks: seq<seq<Val>>, succs: seq<set<nat>>,
    arrays: set<Val>, inlined: set<Val>, heap: set<Val>)

  ghost predicate WellFormed(f: Fn) {
    && |f.blocks| == |f.succs| && |f.blocks| > 0
    && f.at.Keys == f.instrs.Keys
    && (forall v :: v in f.at ==> AtPos(f, f.at[v], v))
    && (forall b, i :: 0 <= b < |f.blocks| && 0 <= i < |f.blocks[b]| ==>
          f.blocks[b][i] in f.at && f.at[f.blocks[b][i]] == Pos(b, i))
    // The types keep an array's address from being stored through itself and from
    // being an index.
    && (forall i :: i in f.instrs && f.instrs[i].Store? ==> f.instrs[i].addr != f.instrs[i].val)
    && (forall i :: i in f.instrs && f.instrs[i].IndexAddr? ==> f.instrs[i].x != f.instrs[i].index)
  }

  ghost predicate AtPos(f: Fn, p: Pos, v: Val) {
    p.block < |f.blocks| && p.index < |f.blocks[p.block]| && f.blocks[p.block][p.index] == v
  }

  function Operands(x: Instr): (s: set<Val>) {
    match x
    case Alloc => {}
    case FieldAddr(x) => {x}
    case IndexAddr(x, i) => {x, i}
    case Load(x) => {x}
    case Store(a, v) => {a, v}
    case Compare(x, y) => {x, y}
    case Other(xs) => set v | v in xs
  }

  predicate Refers(f: Fn, i: Val, v: Val) {
    i in f.instrs && v in Operands(f.instrs[i])
  }

  // before stands earlier in the block of after.
  predicate InstructionPrecedes(f: Fn, before: Val, after: Val) {
    before in f.at && after in f.at && f.at[before].block == f.at[after].block && f.at[before].index < f.at[after].index
  }

  // ---- the check ----

  // Use i of the address v keeps the memory fixed after the load: address
  // computations stay in the set s, and stores precede the load in its block.
  ghost predicate UseOk(f: Fn, load: Val, s: set<Val>, i: Val, v: Val)
    requires i in f.instrs
  {
    match f.instrs[i]
    case IndexAddr(x, _) => x == v && i in s
    case FieldAddr(x) => x == v && i in s
    case Load(x) => x == v
    case Store(a, _) => a == v && InstructionPrecedes(f, i, load)
    case _ => false
  }

  ghost predicate UsesOk(f: Fn, load: Val, s: set<Val>, v: Val) {
    forall i :: Refers(f, i, v) ==> UseOk(f, load, s, i, v)
  }

  // s holds the address and all addresses computed from it, and no use of one of them
  // can change the memory after the load.
  ghost predicate Stable(f: Fn, ptr: Val, load: Val, s: set<Val>) {
    ptr in s && forall v :: v in s ==> UsesOk(f, load, s, v)
  }

  // `seen` collects the addresses checked so far.
  method ImmutableAddrUses(f: Fn, ptr: Val, load: Val, seen: set<Val>) returns (ok: bool, seen': set<Val>)
    requires ptr in f.instrs && seen <= f.instrs.Keys
    ensures seen + {ptr} <= seen' <= f.instrs.Keys
    ensures ok ==> forall v :: v in seen' && v !in seen ==> UsesOk(f, load, seen', v)
    ensures !ok ==> forall s :: !Stable(f, ptr, load, s)
    decreases f.instrs.Keys - seen
  {
    if ptr in seen {
      return true, seen;
    }
    seen' := seen + {ptr};
    var todo := f.instrs.Keys;
    while todo != {}
      invariant seen + {ptr} <= seen' <= f.instrs.Keys && todo <= f.instrs.Keys
      invariant forall v :: v in seen' && v !in seen && v != ptr ==> UsesOk(f, load, seen', v)
      invariant forall i :: i !in todo && Refers(f, i, ptr) ==> UseOk(f, load, seen', i, ptr)
      decreases |todo|
    {
      var i :| i in todo;
      todo := todo - {i};
      if Refers(f, i, ptr) {
        StableUse(f, ptr, load, i);
        var x := f.instrs[i];
        if x.IndexAddr? || x.FieldAddr? {
          if x.x != ptr {
            return false, seen';
          }
          ghost var was := seen';
          ok, seen' := ImmutableAddrUses(f, i, load, seen');
          if !ok {
            return;
          }
          UsesGrow(f, load, was, seen', seen, ptr);
        } else if x.Load? {
          if x.x != ptr {
            return false, seen';
          }
        } else if x.Store? {
          if x.addr != ptr || !InstructionPrecedes(f, i, load) {
            return false, seen';
          }
        } else {
          return false, seen';
        }
      }
    }
    ok := true;
  }

  lemma StableUse(f: Fn, ptr: Val, load: Val, i: Val)
    requires Refers(f, i, ptr)
    ensures forall s :: Stable(f, ptr, load, s) ==> UseOk(f, load, s, i, ptr)
    ensures forall s :: Stable(f, ptr, load, s) && i in s ==> Stable(f, i, load, s)
  {
    forall s | Stable(f, ptr, load, s) ensures UseOk(f, load, s, i, ptr) {
      assert UsesOk(f, load, s, ptr);
    }
  }

  lemma UsesGrow(f: Fn, load: Val, was: set<Val>, now: set<Val>, seen: set<Val>, ptr: Val)
    requires was <= now
    ensures forall v :: v in was && v !in seen && v != ptr && UsesOk(f, load, was, v) ==> UsesOk(f, load, now, v)
    ensures forall i :: Refers(f, i, ptr) && UseOk(f, load, was, i, ptr) ==> UseOk(f, load, now, i, ptr)
  {
    forall v | UsesOk(f, load, was, v) ensures UsesOk(f, load, now, v) {
      forall i | Refers(f, i, v) ensures UseOk(f, load, now, i, v) {
        assert UseOk(f, load, was, i, v);
      }
    }
  }

  // Array value v is loaded from local allocation a, which does not change after it.
  ghost predicate Immutable(f: Fn, v: Val, a: Val) {
    && v in f.instrs && f.instrs[v] == Load(a) && v in f.arrays
    && a in f.instrs && f.instrs[a] == Alloc && a !in f.heap
    && exists s :: Stable(f, a, v, s)
  }

  method ImmutableLocalArrayLoad(f: Fn, v: Val) returns (alloc: Option<Val>)
    ensures alloc.Some? ==> Immutable(f, v, alloc.value)
    ensures alloc.None? ==> forall a :: !Immutable(f, v, a)
  {
    if v !in f.instrs || !f.instrs[v].Load? || v !in f.arrays {
      return None;
    }
    var a := f.instrs[v].x;
    if a !in f.instrs || f.instrs[a] != Alloc || a in f.heap {
      return None;
    }
    var ok, seen := ImmutableAddrUses(f, a, v, {});
    if !ok {
      return None;
    }
    assert Stable(f, a, v, seen);
    alloc := Some(a);
  }

  // Use i of the load is a comparison of two values that can be read in place.
  ghost predicate InPlace(f: Fn, i: Val) {
    && i in f.instrs && f.instrs[i].Compare?
    && (exists a :: Immutable(f, f.instrs[i].x, a)) && (exists a :: Immutable(f, f.instrs[i].y, a))
  }

  // The load's value is used, and only by comparisons made in place.
  ghost predicate Elidable(f: Fn, load: Val) {
    && load !in f.inlined && (exists a :: Immutable(f, load, a))
    && (exists i :: Refers(f, i, load)) && (forall i :: Refers(f, i, load) ==> InPlace(f, i))
  }

  method CanElideArrayCompareLoad(f: Fn, load: Val) returns (ok: bool)
    ensures ok <==> Elidable(f, load)
  {
    if load !in f.instrs || !f.instrs[load].Load? || load !in f.arrays || load in f.inlined {
      return false;
    }
    var alloc := ImmutableLocalArrayLoad(f, load);
    if alloc.None? {
      return false;
    }
    var todo, used := f.instrs.Keys, false;
    while todo != {}
      invariant todo <= f.instrs.Keys
      invariant used <==> exists i :: i !in todo && Refers(f, i, load)
      invariant forall i :: i !in todo && Refers(f, i, load) ==> InPlace(f, i)
      decreases |todo|
    {
      var i :| i in todo;
      todo := todo - {i};
      if Refers(f, i, load) {
        var x := f.instrs[i];
        if !x.Compare? {
          return false;
        }
        used := true;
        var other := ImmutableLocalArrayLoad(f, if x.x == load then x.y else x.x);
        if other.None? {
          return false;
        }
      }
    }
    ok := used;
  }

  // ---- which instructions can change the allocation's memory ----

  // v is the address of the allocation or of a part of it.
  least predicate Derived(f: Fn, alloc: Val, v: Val) {
    v == alloc
    || (v in f.instrs && f.instrs[v].FieldAddr? && Derived(f, alloc, f.instrs[v].x))
    || (v in f.instrs && f.instrs[v].IndexAddr? && Derived(f, alloc, f.instrs[v].x))
  }

  // Instruction i hands a derived address to something other than address
  // computation, a load or a store through it.
  ghost predicate Exposes(f: Fn, alloc: Val, i: Val) {
    && i in f.instrs
    && match f.instrs[i]
       case IndexAddr(_, k) => Derived(f, alloc, k)
       case Store(_, v) => Derived(f, alloc, v)
       case Compare(x, y) => Derived(f, alloc, x) || Derived(f, alloc, y)
       case Other(xs) => exists k :: 0 <= k < |xs| && Derived(f, alloc, xs[k])
       case _ => false
  }

  // Execution of i can change the memory: the allocation itself, a store through a
  // derived address, and any instruction once the address is exposed.
  ghost predicate CanWrite(f: Fn, alloc: Val, i: Val) {
    i == alloc
    || (i in f.instrs && f.instrs[i].Store? && Derived(f, alloc, f.instrs[i].addr))
    || exists j :: Exposes(f, alloc, j)
  }

  least lemma DerivedInside(f: Fn, alloc: Val, load: Val, s: set<Val>, v: Val)
    requires Derived(f, alloc, v) && Stable(f, alloc, load, s)
    ensures v in s
  {
    if v != alloc {
      var x := f.instrs[v].x;
      DerivedInside(f, alloc, load, s, x);
      assert Refers(f, v, x) && UsesOk(f, load, s, x);
    }
  }

  // Once the check has passed, only the allocation and stores before the load in the
  // load's block can write.
  lemma WritesPrecedeLoad(f: Fn, alloc: Val, load: Val, s: set<Val>, i: Val)
    requires WellFormed(f) && Stable(f, alloc, load, s) && CanWrite(f, alloc, i)
    ensures i == alloc || InstructionPrecedes(f, i, load)
  {
    forall j ensures !Exposes(f, alloc, j) {
      NothingExposed(f, alloc, load, s, j);
    }
    if i != alloc {
      var a := f.instrs[i].addr;
      DerivedInside(f, alloc, load, s, a);
      assert Refers(f, i, a) && UsesOk(f, load, s, a);
    }
  }

  lemma NothingExposed(f: Fn, alloc: Val, load: Val, s: set<Val>, j: Val)
    requires WellFormed(f) && Stable(f, alloc, load, s)
    ensures !Exposes(f, alloc, j)
  {
    forall v | j in f.instrs && v in Operands(f.instrs[j]) && Derived(f, alloc, v) ensures UseOk(f, load, s, j, v) {
      DerivedInside(f, alloc, load, s, v);
      assert Refers(f, j, v) && UsesOk(f, load, s, v);
    }
  }

  // The exact condition, without the check's own walk: an array load of a local
  // allocation whose address nothing exposes, and every store through an address derived
  // from it stands earlier in the load's block.
  lemma ImmutableExactly(f: Fn, v: Val, a: Val)
    requires WellFormed(f)
    ensures Immutable(f, v, a)
       <==> && v in f.arrays && v in f.instrs && f.instrs[v] == Load(a)
            && a !in f.heap && a in f.instrs && f.instrs[a] == Alloc
            && (forall j :: !Exposes(f, a, j))
            && (forall i :: i in f.instrs && f.instrs[i].Store? && Derived(f, a, f.instrs[i].addr) ==>
                  InstructionPrecedes(f, i, v))
  {
    if Immutable(f, v, a) {
      var s :| Stable(f, a, v, s);
      forall i | i in f.instrs && f.instrs[i].Store? && Derived(f, a, f.instrs[i].addr)
        ensures InstructionPrecedes(f, i, v)
      {
        WritesPrecedeLoad(f, a, v, s, i);
      }
      forall j ensures !Exposes(f, a, j) {
        NothingExposed(f, a, v, s, j);
      }
    }
    if a in f.instrs {
      DerivedStable(f, a, v);
    }
  }

  // The addresses derived from the allocation are a set the check can find.
  lemma DerivedStable(f: Fn, a: Val, load: Val)
    requires a in f.instrs
    ensures (forall j :: !Exposes(f, a, j))
         && (forall i :: i in f.instrs && f.instrs[i].Store? && Derived(f, a, f.instrs[i].addr) ==>
               InstructionPrecedes(f, i, load))
         ==> exists s :: Stable(f, a, load, s)
  {
    var s := set x | x in f.instrs && Derived(f, a, x);
    if && (forall j :: !Exposes(f, a, j))
       && (forall i :: i in f.instrs && f.instrs[i].Store? && Derived(f, a, f.instrs[i].addr) ==>
             InstructionPrecedes(f, i, load))
    {
      forall v, i | v in s && Refers(f, i, v) ensures UseOk(f, load, s, i, v) {
        assert !Exposes(f, a, i);
      }
      assert Stable(f, a, load, s);
    }
  }

  // ---- paths ----

  // SSA order of a definition and a use.
  ghost predicate Before(f: Fn, d: Val, u: Val)
    requires WellFormed(f)
  {
    && d in f.at && u in f.at
    && (if f.at[d].block == f.at[u].block then f.at[d].index < f.at[u].index
        else Dominates(f.succs, f.at[d].block, f.at[u].block))
  }

  // mem(k, j) is the memory before instruction j of the k-th block of the path. Only
  // instructions that can write change it.
  ghost predicate Evolves(f: Fn, alloc: Val, p: seq<nat>, mem: (nat, nat) -> int)
    requires WellFormed(f) && IsPath(f.succs, p)
  {
    && (forall k, j: nat :: 0 <= k < |p| && j < |f.blocks[p[k]]| && !CanWrite(f, alloc, f.blocks[p[k]][j]) ==>
          mem(k, j + 1) == mem(k, j))
    && (forall k: nat :: k + 1 < |p| ==> mem(k + 1, 0) == mem(k, |f.blocks[p[k]]|))
  }

  // No instruction on the path between the load's last run and the use can write.
  lemma NoWriteBetween(f: Fn, alloc: Val, load: Val, use: Val, s: set<Val>, p: seq<nat>, l: nat, k: nat, j: nat)
    requires WellFormed(f) && Stable(f, alloc, load, s) && IsPath(f.succs, p) && load != alloc
    requires Before(f, alloc, load) && Before(f, load, use) && p[|p| - 1] == f.at[use].block
    requires l < |p| && p[l] == f.at[load].block && forall t :: l < t < |p| ==> p[t] != f.at[load].block
    requires l <= k < |p| && j < |f.blocks[p[k]]| && (k == l ==> j >= f.at[load].index)
    ensures !CanWrite(f, alloc, f.blocks[p[k]][j])
  {
    var i := f.blocks[p[k]][j];
    assert f.at[i] == Pos(p[k], j);
    if CanWrite(f, alloc, i) {
      WritesPrecedeLoad(f, alloc, load, s, i);
      if i == alloc && f.at[alloc].block != f.at[load].block {
        NoReturn(f.succs, p, f.at[alloc].block, f.at[load].block, l, k);
      }
    }
  }

  // Memory is the same at two points of the path with no writes in between.
  lemma {:induction false} MemSteady(f: Fn, alloc: Val, p: seq<nat>, mem: (nat, nat) -> int, l: nat, li: nat, k: nat,
                                     j: nat)
    requires WellFormed(f) && IsPath(f.succs, p) && Evolves(f, alloc, p, mem)
    requires l <= k < |p| && j <= |f.blocks[p[k]]| && li <= |f.blocks[p[l]]| && (k == l ==> li <= j)
    requires forall k', j' ::
               l <= k' <= k && 0 <= j' < |f.blocks[p[k']]| && (k' == l ==> j' >= li) && (k' == k ==> j' < j) ==>
                 !CanWrite(f, alloc, f.blocks[p[k']][j'])
    ensures mem(k, j) == mem(l, li)
    decreases k, j
  {
    if k == l && j == li {
    } else if j > 0 && (k > l || j > li) {
      MemSteady(f, alloc, p, mem, l, li, k, j - 1);
      assert !CanWrite(f, alloc, f.blocks[p[k]][j - 1]);
      assert mem(k, j - 1 + 1) == mem(k, j - 1);
    } else {
      MemSteady(f, alloc, p, mem, l, li, k - 1, |f.blocks[p[k - 1]]|);
      assert mem(k - 1 + 1, 0) == mem(k - 1, |f.blocks[p[k - 1]]|);
    }
  }

  // The main result: on every path that ends at a use of an elidable load, reading the
  // allocation in place gives the value the load produced when it last ran.
  lemma ElidedLoadUnchanged(f: Fn, alloc: Val, load: Val, use: Val, p: seq<nat>, l: nat, mem: (nat, nat) -> int)
    requires WellFormed(f) && IsPath(f.succs, p) && Immutable(f, load, alloc)
    requires Before(f, alloc, load) && Before(f, load, use) && p[|p| - 1] == f.at[use].block
    requires l < |p| && p[l] == f.at[load].block && forall t :: l < t < |p| ==> p[t] != f.at[load].block
    requires Evolves(f, alloc, p, mem)
    ensures mem(|p| - 1, f.at[use].index) == mem(l, f.at[load].index)
  {
    hide CanWrite, Dominates, Evolves, Stable;
    var n := |p| - 1;
    var s :| Stable(f, alloc, load, s);
    forall k, j |
      l <= k <= n && 0 <= j < |f.blocks[p[k]]| && (k == l ==> j >= f.at[load].index) && (k == n ==> j < f.at[use].index)
      ensures !CanWrite(f, alloc, f.blocks[p[k]][j])
    {
      NoWriteBetween(f, alloc, load, use, s, p, l, k, j);
    }
    MemSteady(f, alloc, p, mem, l, f.at[load].index, n, f.at[use].index);
  }
}
