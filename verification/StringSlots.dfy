// What is read through enumerated addresses: names in constant tables, and names stored in
// local arrays.
module StringSlots {
  import opened CfgPaths
  import opened Common
  import opened StringCover
  import opened StringInts
  import opened StringRuns

  // ---- constant offsets ----

  // The distance of steps whose indices are all constant.
  function ConstDistance(steps: seq<Step>): (d: Option<int>) {
    if steps == [] then Some(0)
    else
      var front, step := ConstDistance(steps[..|steps| - 1]), steps[|steps| - 1];
      if front.None? then None
      else match step
        case Field(k) => Some(front.value + k)
        case Item(index, stride, _) =>
          if index.o.C? && index.o.c.CInt? then Some(front.value + index.o.c.n * stride) else None
  }

  lemma {:induction false} ConstDistanceIs(m: Module, r: Run, a: Act, e: nat, steps: seq<Step>)
    requires (forall c :: ConstOk(m, r, c)) && ConstDistance(steps).Some?
    ensures Distance(r, a, e, steps).None? || Distance(r, a, e, steps) == ConstDistance(steps)
  {
    if steps != [] {
      ConstDistanceIs(m, r, a, e, steps[..|steps| - 1]);
      var step := steps[|steps| - 1];
      if step.Item? {
        assert ConstOk(m, r, step.index.o.c);
      }
    }
  }

  datatype Based = Based(base: Operand, off: int)

  // The value that an address lies at a constant offset from, through casts and constant
  // address arithmetic.
  function BaseOf(f: Fn, o: Operand): (b: Based)
    requires WfFn(f)
    decreases if o.Ref? then o.x + 1 else 0
  {
    if o.C? && o.c.CAddr? then Based(C(CAddr(o.c.base, 0)), o.c.off)
    else if !(o.Ref? && o.x in f.defs) then Based(o, 0)
    else
      assert WfDef(f, o.x);
      match f.defs[o.x]
      case Cast(p) =>
        assert Operands(f.defs[o.x])[0] == p;
        BaseOf(f, p)
      case Gep(b, _, _, _) =>
        var n := ConstDistance(Steps(f.defs[o.x], None));
        assert Operands(f.defs[o.x])[0] == b;
        if n.None? then Based(o, 0)
        else var t := BaseOf(f, b); Based(t.base, t.off + n.value)
      case _ => Based(o, 0)
  }

  // v is at this distance from w, or computed with an index out of range.
  ghost predicate Away(w: V, n: int, v: V) {
    v == Poison || (w.P? && w.at != Elsewhere ==> v.P? && v.at == Moved(w.at, n))
  }

  lemma {:induction false} BasedAt(m: Module, r: Run, i: nat, e: nat, f: nat, o: Operand)
    requires Here(m, r, i, e, f, o) && WfFn(m.fns[f])
    ensures var t := BaseOf(m.fns[f], o);
            Here(m, r, i, e, f, t.base) && Away(Value(r, r.acts[i], e, t.base), t.off, Value(r, r.acts[i], e, o))
    decreases if o.Ref? then o.x + 1 else 0
  {
    hide Wf, IsRun, Distance, ConstDistance, Steps, GepOk, Away;
    if o.C? && o.c.CAddr? {
      AddrBased(m, r, o.c.base, o.c.off);
    } else if o.Ref? && o.x in m.fns[f].defs {
      var d := m.fns[f].defs[o.x];
      assert WfDef(m.fns[f], o.x);
      if d.Cast? {
        assert Operands(d)[0] == d.p;
        CastKeeps(m, f, o.x);
        BasedAt(m, r, i, e, f, d.p);
      } else if d.Gep? && ConstDistance(Steps(d, None)).Some? {
        BaseOperand(d);
        GepNow(m, r, i, e, f, o.x);
        BasedAt(m, r, i, e, f, d.base);
        GepAway(m, r, i, e, f, o.x);
        AwayTwice(Value(r, r.acts[i], e, BaseOf(m.fns[f], d.base).base), BaseOf(m.fns[f], d.base).off,
                  Value(r, r.acts[i], e, d.base), ConstDistance(Steps(d, None)).value, Value(r, r.acts[i], e, o));
      } else {
        AwayNone(Value(r, r.acts[i], e, o));
      }
    } else {
      AwayNone(Value(r, r.acts[i], e, o));
    }
  }

  lemma AwayNone(v: V)
    ensures Away(v, 0, v)
  {
  }

  lemma AwayTwice(w: V, n: int, u: V, k: int, v: V)
    requires Away(w, n, u) && Away(u, k, v) && (u == Poison ==> v == Poison)
    ensures Away(w, n + k, v)
  {
  }

  lemma AddrBased(m: Module, r: Run, b: nat, k: int)
    requires IsRun(m, r)
    ensures Away(r.consts(CAddr(b, 0)), k, r.consts(CAddr(b, k)))
  {
    assert ConstOk(m, r, CAddr(b, 0)) && ConstOk(m, r, CAddr(b, k));
  }

  lemma GepAway(m: Module, r: Run, i: nat, e: nat, f: nat, x: nat)
    requires IsRun(m, r) && i < |r.acts| && f < |m.fns| && x in m.fns[f].defs && m.fns[f].defs[x].Gep?
    requires ConstDistance(Steps(m.fns[f].defs[x], None)).Some?
    requires var d := m.fns[f].defs[x];
             GepOk(m, r, r.acts[i], e, d, Value(r, r.acts[i], e, d.base), Value(r, r.acts[i], e, Ref(x)))
    ensures var d := m.fns[f].defs[x];
            var v := Value(r, r.acts[i], e, Ref(x));
            var w := Value(r, r.acts[i], e, d.base);
            (w == Poison ==> v == Poison) && Away(w, ConstDistance(Steps(d, None)).value, v)
  {
    hide Distance, ConstDistance, Steps;
    var d := m.fns[f].defs[x];
    var w := Value(r, r.acts[i], e, d.base);
    var b := if w.P? then BoundOf(ArrayAt(m, r, w.at), d.source) else None;
    if Distance(r, r.acts[i], e, Steps(d, b)).Some? {
      DistanceLoose(r, r.acts[i], e, d, b, None);
      ConstDistanceIs(m, r, r.acts[i], e, Steps(d, None));
    }
  }

  lemma {:induction false} BaseAvail(f: Fn, o: Operand, n: nat)
    requires WfFn(f) && Avail(f, o, n)
    ensures Avail(f, BaseOf(f, o).base, n)
    decreases if o.Ref? then o.x + 1 else 0
  {
    hide ConstDistance, Steps;
    if o.Ref? {
      var d := f.defs[o.x];
      assert WfDef(f, o.x);
      if d.Cast? {
        assert Operands(d)[0] == d.p;
        AvailThrough(f, d.p, f.node[o.x], n);
        BaseAvail(f, d.p, n);
      } else if d.Gep? {
        assert Operands(d)[0] == d.base;
        AvailThrough(f, d.base, f.node[o.x], n);
        BaseAvail(f, d.base, n);
      }
    }
  }

  lemma AvailThrough(f: Fn, o: Operand, k: nat, n: nat)
    requires Avail(f, o, k) && Dominates(f.succs, k, n)
    ensures Avail(f, o, n)
  {
    if o.Ref? {
      DominatesTransitive(f.succs, f.node[o.x], k, n);
    }
  }

  // ---- local arrays ----

  lemma AllocaNow(m: Module, r: Run, i: nat, e: nat, f: nat, x: nat)
    requires Here(m, r, i, e, f, Ref(x)) && m.fns[f].defs[x].Alloca?
    ensures Value(r, r.acts[i], e, Ref(x)).P? && Value(r, r.acts[i], e, Ref(x)).at == Local(i, x, 0)
  {
    var l := LastRun(m, r, i, e, f, x);
  }

  ghost predicate LocalIn(i: nat, x: nat, v: V, offs: seq<int>) {
    v == Poison || (v.P? && v.at.Local? && v.at.act == i && v.at.x == x && v.at.off in offs)
  }

  // In every run the address is one of the offsets into local x, unless an index is out
  // of range.
  ghost predicate CoversLocal(m: Module, f: nat, o: Operand, x: nat, offs: seq<int>) {
    forall r, i: nat, e: nat :: Here(m, r, i, e, f, o) ==> LocalIn(i, x, Value(r, r.acts[i], e, o), offs)
  }

  // o is the address of an item of local array x, which has items of type t; its index.
  ghost predicate ItemOf(f: Fn, o: Operand, x: nat, t: ArrayOf, index: Index)
    requires WfFn(f)
  {
    var q := StripCasts(f, o);
    && q.Ref? && q.x in f.defs && f.defs[q.x].Gep? && f.defs[q.x].rest == []
    && StripCasts(f, f.defs[q.x].base) == Ref(x) && f.defs[q.x].source == t.elem && f.defs[q.x].first == index
    && x in f.defs && f.defs[x] == Alloca(Some(t))
  }

  // off is one of the offsets into x that o can be at.
  ghost predicate LocalIs(m: Module, f: nat, o: Operand, x: nat, off: int)
    requires Wf(m) && f < |m.fns|
  {
    assert WfFn(m.fns[f]);
    exists t, index, n ::
      ItemOf(m.fns[f], o, x, t, index) && IndexIs(m, f, index, Some(t.len), n) && off == n * t.elem.size
  }

  ghost predicate LocalSettles(m: Module, f: nat, o: Operand, x: nat)
    requires Wf(m) && f < |m.fns|
  {
    assert WfFn(m.fns[f]);
    exists t, index :: ItemOf(m.fns[f], o, x, t, index) && IndexSettles(m, f, index, Some(t.len))
  }

  // The items of a local array that an address with one index can be.
  method EnumerateLocals(m: Module, f: nat, o: Operand) returns (ok: bool, x: nat, offs: seq<int>)
    requires Wf(m) && f < |m.fns|
    ensures ok ==> x in m.fns[f].defs && m.fns[f].defs[x].Alloca? && CoversLocal(m, f, o, x, offs)
    ensures ok ==> forall off :: off in offs <==> LocalIs(m, f, o, x, off)
    ensures forall y: nat :: LocalSettles(m, f, o, y) ==> ok && x == y
  {
    hide IndexIs, IndexSettles, CoversIndex;
    var g := m.fns[f];
    assert WfFn(g);
    var q := StripCasts(g, o);
    if !(q.Ref? && q.x in g.defs && g.defs[q.x].Gep? && g.defs[q.x].rest == []) {
      return false, 0, [];
    }
    var d := g.defs[q.x];
    var b := StripCasts(g, d.base);
    if !(b.Ref? && b.x in g.defs && g.defs[b.x].Alloca? && g.defs[b.x].items.Some?) {
      return false, 0, [];
    }
    var t := g.defs[b.x].items.value;
    if t.elem != d.source {
      return false, 0, [];
    }
    var cs;
    ok, cs := CollectIndex(m, f, d.first, Some(t.len));
    x, offs := b.x, seq(|cs|, j requires 0 <= j < |cs| => cs[j] * t.elem.size);
    assert ItemOf(g, o, x, t, d.first);
    if ok {
      ItemsCovered(m, f, o, q.x, x, cs, offs);
      Scaled(cs, t.elem.size, offs);
    }
  }

  lemma ItemsCovered(m: Module, f: nat, o: Operand, y: nat, x: nat, cs: seq<int>, offs: seq<int>)
    requires Wf(m) && f < |m.fns| && WfFn(m.fns[f]) && StripCasts(m.fns[f], o) == Ref(y)
    requires y in m.fns[f].defs && m.fns[f].defs[y].Gep? && m.fns[f].defs[y].rest == []
    requires StripCasts(m.fns[f], m.fns[f].defs[y].base) == Ref(x)
    requires x in m.fns[f].defs && m.fns[f].defs[x].Alloca?
    requires var d, t := m.fns[f].defs[y], m.fns[f].defs[x].items;
             && t.Some? && t.value.elem == d.source && CoversIndex(m, f, d.first.o, Some(t.value.len), cs)
             && |offs| == |cs| && forall j :: 0 <= j < |cs| ==> offs[j] == cs[j] * t.value.elem.size
    ensures CoversLocal(m, f, o, x, offs)
  {
    hide Wf, IsRun;
    var d := m.fns[f].defs[y];
    StripKeeps(m, f, o);
    StripKeeps(m, f, d.base);
    forall r, i: nat, e: nat | Here(m, r, i, e, f, o) ensures LocalIn(i, x, Value(r, r.acts[i], e, o), offs) {
      GepNow(m, r, i, e, f, y);
      AllocaNow(m, r, i, e, f, x);
      ItemAt(m, r, i, e, f, y, x, cs, offs);
    }
  }

  lemma DistanceOne(r: Run, a: Act, e: nat, index: Index, stride: nat, len: nat)
    ensures var v := Value(r, a, e, index.o);
            Distance(r, a, e, [Item(index, stride, Some(len))])
              == if v.I? && 0 <= v.n < len then Some(v.n * stride) else None
  {
    assert [Item(index, stride, Some(len))][..0] == [];
  }

  lemma ItemAt(m: Module, r: Run, i: nat, e: nat, f: nat, y: nat, x: nat, cs: seq<int>, offs: seq<int>)
    requires Here(m, r, i, e, f, Ref(y)) && m.fns[f].defs[y].Gep? && m.fns[f].defs[y].rest == []
    requires x in m.fns[f].defs && m.fns[f].defs[x].Alloca?
    requires var d, t := m.fns[f].defs[y], m.fns[f].defs[x].items;
             && t.Some? && t.value.elem == d.source && CoversIndex(m, f, d.first.o, Some(t.value.len), cs)
             && |offs| == |cs| && forall j :: 0 <= j < |cs| ==> offs[j] == cs[j] * t.value.elem.size
    requires var d := m.fns[f].defs[y];
             var w := Value(r, r.acts[i], e, d.base);
             && w.P? && w.at == Local(i, x, 0) && AllHere(m, r, i, e, f, Steps(d, None))
             && GepOk(m, r, r.acts[i], e, d, w, Value(r, r.acts[i], e, Ref(y)))
    ensures LocalIn(i, x, Value(r, r.acts[i], e, Ref(y)), offs)
  {
    hide Wf, IsRun;
    var d, t := m.fns[f].defs[y], m.fns[f].defs[x].items.value;
    assert Steps(d, None)[0].index == d.first;
    assert ArrayAt(m, r, Local(i, x, 0)) == Some(t);
    assert Steps(d, Some(t.len)) == [Item(d.first, d.source.size, Some(t.len))];
    DistanceOne(r, r.acts[i], e, d.first, d.source.size, t.len);
    var v := Value(r, r.acts[i], e, d.first.o);
    if v.I? && Below(v.n, Some(t.len)) {
      assert IntAt(m, r, i, e, f, d.first.o, v.n);
      var j :| 0 <= j < |cs| && cs[j] == v.n;
      assert offs[j] == v.n * t.elem.size;
    }
  }

  // Stores into x put constants at constant offsets, and its addresses go nowhere else.
  predicate OnlyConstantUses(f: Fn, x: nat)
    requires WfFn(f)
  {
    Confined(f, x) && forall y :: y in f.defs && f.defs[y].Store? && Root(f, f.defs[y].addr) == Some(x) ==>
      f.defs[y].val.C? && BaseOf(f, f.defs[y].addr).base == Ref(x) && BaseOf(f, f.defs[y].addr).off >= 0
  }

  // Store y writes at a constant offset of x, over a cell.
  predicate Hits(f: Fn, y: nat, x: nat, off: int, what: Access)
    requires WfFn(f)
  {
    && y in f.defs && f.defs[y].Store?
    && var t := BaseOf(f, f.defs[y].addr);
       t.base == Ref(x) && t.off >= 0 && Overlap(t.off, f.defs[y].what.size, off, what.size)
  }

  // Store y puts exactly the constant into the cell.
  predicate Puts(f: Fn, y: nat, off: int, what: Access, c: Const)
    requires WfFn(f) && y in f.defs && f.defs[y].Store?
  {
    BaseOf(f, f.defs[y].addr).off == off && f.defs[y].what == what && f.defs[y].val == C(c)
  }

  // By the dominator tree, y comes before the node.
  predicate Before(f: Fn, y: nat, node: nat) {
    y in f.node && Pair(f.node[y], node) in f.dom
  }

  // Every store over the cell puts c there.
  ghost predicate OnlyPuts(f: Fn, x: nat, off: int, what: Access, c: Const)
    requires WfFn(f)
  {
    && x in f.defs && f.defs[x].Alloca? && OnlyConstantUses(f, x)
    && forall y :: Hits(f, y, x, off, what) ==> Puts(f, y, off, what, c)
  }

  // Load z finds c in the cell of x.
  ghost predicate FindsConst(f: Fn, z: nat, x: nat, off: int, c: Const)
    requires WfFn(f)
  {
    && z in f.defs && z in f.node && f.defs[z].Load? && OnlyPuts(f, x, off, f.defs[z].what, c)
    && exists y :: Hits(f, y, x, off, f.defs[z].what) && Before(f, y, f.node[z])
  }

  // All stores over the cell come before load z.
  ghost predicate AllBefore(f: Fn, z: nat, x: nat, off: int)
    requires WfFn(f) && z in f.defs && z in f.node && f.defs[z].Load?
  {
    forall y :: Hits(f, y, x, off, f.defs[z].what) ==> Before(f, y, f.node[z])
  }

  // The constant that every store over the cell puts there, if they all come before the load.
  method DominatingConstant(f: Fn, x: nat, off: int, z: nat) returns (c: Option<Const>)
    requires WfFn(f) && x in f.defs && f.defs[x].Alloca? && OnlyConstantUses(f, x)
    requires z in f.defs && z in f.node && f.defs[z].Load?
    ensures c.Some? ==> FindsConst(f, z, x, off, c.value) && AllBefore(f, z, x, off)
    ensures c.None? ==> forall v :: !(FindsConst(f, z, x, off, v) && AllBefore(f, z, x, off))
  {
    hide OnlyConstantUses, WfFn, BaseOf;
    c := None;
    var what := f.defs[z].what;
    var todo := f.defs.Keys;
    while todo != {}
      invariant todo <= f.defs.Keys
      invariant c.Some? ==> exists y :: y !in todo && Hits(f, y, x, off, what) && Before(f, y, f.node[z])
      invariant c.None? ==> forall y :: y !in todo ==> !Hits(f, y, x, off, what)
      invariant c.Some? ==> forall y :: y !in todo && Hits(f, y, x, off, what) ==> Puts(f, y, off, what, c.value)
      invariant forall y :: y !in todo && Hits(f, y, x, off, what) ==> Before(f, y, f.node[z])
      decreases |todo|
    {
      var y :| y in todo;
      todo := todo - {y};
      if Hits(f, y, x, off, what) {
        var v := f.defs[y].val;
        if !v.C? || !Puts(f, y, off, what, v.c) || !Before(f, y, f.node[z]) || (c.Some? && c.value != v.c) {
          return None;
        }
        c := Some(v.c);
      }
    }
  }

  lemma {:induction false} BaseRoot(f: Fn, o: Operand, x: nat)
    requires WfFn(f) && x in f.defs && f.defs[x].Alloca? && BaseOf(f, o).base == Ref(x)
    ensures Root(f, o) == Some(x)
    decreases if o.Ref? then o.x + 1 else 0
  {
    hide ConstDistance, Steps;
    if o.Ref? && o.x in f.defs {
      assert WfDef(f, o.x);
      var d := f.defs[o.x];
      if d.Cast? {
        assert Operands(d)[0] == d.p;
        BaseRoot(f, d.p, x);
      } else if d.Gep? {
        assert Operands(d)[0] == d.base;
        BaseRoot(f, d.base, x);
      }
    }
  }

  // Step e of activation i, in function f, has been completed.
  ghost predicate Done(m: Module, r: Run, i: nat, e: nat, f: nat) {
    Wf(m) && IsRun(m, r) && i < |r.acts| && r.acts[i].fn == f < |m.fns| && 1 <= e < |r.acts[i].path| - 1
  }

  // A store at a constant offset of x writes there.
  lemma StoreAt(m: Module, r: Run, i: nat, e: nat, f: nat, y: nat, x: nat)
    requires Done(m, r, i, e, f) && WfFn(m.fns[f]) && x in m.fns[f].defs && m.fns[f].defs[x].Alloca?
    requires y in m.fns[f].defs && m.fns[f].defs[y].Store? && y in m.fns[f].node
             && m.fns[f].node[y] == r.acts[i].path[e]
    requires BaseOf(m.fns[f], m.fns[f].defs[y].addr).base == Ref(x)
    ensures var w := Value(r, r.acts[i], e - 1, m.fns[f].defs[y].addr);
            w.P? && w.at == Local(i, x, BaseOf(m.fns[f], m.fns[f].defs[y].addr).off)
  {
    hide BaseOf;
    var d := m.fns[f].defs[y];
    assert ActOk(m, r, i);
    assert StepOk(m, r, i, e, y);
    assert WfDef(m.fns[f], y) && Operands(d)[0] == d.addr;
    UseHere(m, r, i, e, f, d.addr);
    BasedAt(m, r, i, e - 1, f, d.addr);
    AllocaNow(m, r, i, e - 1, f, x);
  }

  lemma CellStays(m: Module, r: Run, i: nat, e: nat, f: nat, x: nat, off: int, what: Access, c: Const)
    requires Done(m, r, i, e, f) && WfFn(m.fns[f]) && OnlyPuts(m.fns[f], x, off, what, c)
    requires x in m.fns[f].node && r.acts[i].path[e] != m.fns[f].node[x]
    requires r.acts[i].mem(e - 1, x, off, what) == r.consts(c)
    ensures r.acts[i].mem(e, x, off, what) == r.consts(c)
  {
    hide BaseOf, Root, Confined;
    assert ActOk(m, r, i);
    assert CellOk(r, i, e, m.fns[f], x, off, what);
    if y :| Writes(m.fns[f], r.acts[i].path[e], x, y) {
      StoreAt(m, r, i, e, f, y, x);
      assert !Hits(m.fns[f], y, x, off, what) || Puts(m.fns[f], y, off, what, c);
    }
  }

  lemma CellPut(m: Module, r: Run, i: nat, e: nat, f: nat, x: nat, off: int, what: Access, c: Const, y: nat)
    requires Done(m, r, i, e, f) && WfFn(m.fns[f]) && OnlyPuts(m.fns[f], x, off, what, c)
    requires Hits(m.fns[f], y, x, off, what) && y in m.fns[f].node && m.fns[f].node[y] == r.acts[i].path[e]
    ensures r.acts[i].mem(e, x, off, what) == r.consts(c)
  {
    hide BaseOf, Root, Confined;
    assert WfDef(m.fns[f], y) && WfDef(m.fns[f], x);
    StoreAt(m, r, i, e, f, y, x);
    BaseRoot(m.fns[f], m.fns[f].defs[y].addr, x);
    assert ActOk(m, r, i);
    assert CellOk(r, i, e, m.fns[f], x, off, what);
    assert Writes(m.fns[f], r.acts[i].path[e], x, y);
  }

  lemma {:induction false} CellRemains(m: Module, r: Run, i: nat, t: nat, e: nat, f: nat, x: nat, off: int,
                                       what: Access, c: Const)
    requires Done(m, r, i, e, f) && 1 <= t <= e && WfFn(m.fns[f]) && OnlyPuts(m.fns[f], x, off, what, c)
    requires x in m.fns[f].node && forall u :: t < u <= e ==> r.acts[i].path[u] != m.fns[f].node[x]
    requires r.acts[i].mem(t, x, off, what) == r.consts(c)
    ensures r.acts[i].mem(e, x, off, what) == r.consts(c)
    decreases e
  {
    hide OnlyPuts, WfFn, IsRun, Wf;
    if e > t {
      CellRemains(m, r, i, t, e - 1, f, x, off, what, c);
      CellStays(m, r, i, e, f, x, off, what, c);
    }
  }

  // After the last run of a store that dominates the load's node, the local is not made
  // anew before the load.
  lemma LastStore(m: Module, r: Run, i: nat, l: nat, f: nat, x: nat, y: nat) returns (t: nat)
    requires Done(m, r, i, l, f) && WfFn(m.fns[f]) && x in m.fns[f].defs && m.fns[f].defs[x].Alloca?
             && x in m.fns[f].node
    requires y in m.fns[f].defs && m.fns[f].defs[y].Store? && BaseOf(m.fns[f], m.fns[f].defs[y].addr).base == Ref(x)
    requires Before(m.fns[f], y, r.acts[i].path[l]) && m.fns[f].node[y] != r.acts[i].path[l]
    ensures 1 <= t < l && r.acts[i].path[t] == m.fns[f].node[y]
    ensures forall u :: t < u < l ==> r.acts[i].path[u] != m.fns[f].node[x]
  {
    hide BaseOf;
    var g, p := m.fns[f], r.acts[i].path[..l + 1];
    var d := g.defs[y];
    PathSoFar(m, r, i, l, f);
    assert Pair(g.node[y], r.acts[i].path[l]) in g.dom;
    t := LastOf(g.succs, p, g.node[y]);
    assert WfDef(g, y) && WfDef(g, x) && Operands(d)[0] == d.addr;
    BaseAvail(g, d.addr, g.node[y]);
    forall u | t < u < l ensures r.acts[i].path[u] != g.node[x] {
      NoReturn(g.succs, p, g.node[x], g.node[y], t, u);
    }
  }

  // At the load the cell holds the constant.
  lemma CellAtLoad(m: Module, r: Run, i: nat, l: nat, f: nat, x: nat, off: int, what: Access, c: Const, y: nat)
    requires Done(m, r, i, l, f) && WfFn(m.fns[f]) && OnlyPuts(m.fns[f], x, off, what, c) && x in m.fns[f].node
    requires Hits(m.fns[f], y, x, off, what) && Before(m.fns[f], y, r.acts[i].path[l])
    requires m.fns[f].node[y] != r.acts[i].path[l]
    ensures r.acts[i].mem(l - 1, x, off, what) == r.consts(c)
  {
    hide OnlyConstantUses, BaseOf, Puts, WfFn, IsRun, Wf;
    var t := LastStore(m, r, i, l, f, x, y);
    CellPut(m, r, i, t, f, x, off, what, c, y);
    CellRemains(m, r, i, t, l - 1, f, x, off, what, c);
  }

  // In every run a load from the cell gives the constant.
  lemma LocalLoad(m: Module, r: Run, i: nat, e: nat, f: nat, z: nat, x: nat, off: int, c: Const)
    requires Here(m, r, i, e, f, Ref(z)) && WfFn(m.fns[f]) && FindsConst(m.fns[f], z, x, off, c)
    requires var w := Value(r, r.acts[i], e, m.fns[f].defs[z].addr); w.P? && w.at == Local(i, x, off)
    ensures Value(r, r.acts[i], e, Ref(z)) == r.consts(c)
  {
    var g := m.fns[f];
    var y :| Hits(g, y, x, off, g.defs[z].what) && Before(g, y, g.node[z]);
    assert WfDef(g, y) && WfDef(g, x);
    var l := LoadedAt(m, r, i, e, f, z);
    CellAtLoad(m, r, i, l, f, x, off, g.defs[z].what, c, y);
  }

  // ---- strings in slots ----

  predicate IsLoad(f: Fn, o: Operand) {
    o.Ref? && o.x in f.defs && f.defs[o.x].Load?
  }

  // Two loads of one string: its length lies 8 bytes after its pointer.
  predicate SlotPair(f: Fn, p: Operand, l: Operand)
    requires WfFn(f)
  {
    IsLoad(f, p) && IsLoad(f, l) && BaseOf(f, f.defs[l.x].addr) == Based(StripCasts(f, f.defs[p.x].addr), 8)
  }

  // Both loads read one string, through the address as it is now.
  lemma PairAddrs(m: Module, r: Run, i: nat, e: nat, f: nat, p: Operand, l: Operand)
    requires Here(m, r, i, e, f, p) && Here(m, r, i, e, f, l) && WfFn(m.fns[f]) && SlotPair(m.fns[f], p, l)
    ensures Here(m, r, i, e, f, m.fns[f].defs[p.x].addr)
    ensures Value(r, r.acts[i], e, m.fns[f].defs[p.x].addr) != Poison
    ensures Value(r, r.acts[i], e, m.fns[f].defs[l.x].addr) != Poison
    ensures Away(Value(r, r.acts[i], e, m.fns[f].defs[p.x].addr), 8, Value(r, r.acts[i], e, m.fns[f].defs[l.x].addr))
  {
    hide BaseOf, Avail, StripCasts;
    var t := LoadedAt(m, r, i, e, f, p.x);
    var u := LoadedAt(m, r, i, e, f, l.x);
    StripKeeps(m, f, m.fns[f].defs[p.x].addr);
    BasedAt(m, r, i, e, f, m.fns[f].defs[l.x].addr);
  }

  // The string in a slot of a constant table is one of the names.
  ghost predicate SlotCovered(m: Module, f: nat, s: Slot, pw: Access, lw: Access, names: Found) {
    var p, l := FoldAt(m, C(CAddr(s.base, s.off)), pw), FoldAt(m, C(CAddr(s.base, s.off + 8)), lw);
    p.Some? && l.Some? && s.base in names.sources && CoversPair(m, f, C(p.value), C(l.value), names)
  }

  lemma SlotAt(m: Module, r: Run, i: nat, e: nat, f: nat, p: Operand, l: Operand, now: nat, s: string, slot: Slot,
               names: Found)
    requires PairAt(m, r, i, e, f, p, l, now, s) && IsLoad(m.fns[f], p) && IsLoad(m.fns[f], l)
    requires SlotCovered(m, f, slot, m.fns[f].defs[p.x].what, m.fns[f].defs[l.x].what, names)
    requires var w := Value(r, r.acts[i], e, m.fns[f].defs[p.x].addr); w.P? && w.at == Global(slot.base, slot.off)
    requires var u := Value(r, r.acts[i], e, m.fns[f].defs[l.x].addr); u.P? && u.at == Global(slot.base, slot.off + 8)
    requires KeptAll(m, r, names.sources)
    ensures s in names.names
  {
    hide Wf, IsRun;
    var t := LoadedAt(m, r, i, e, f, p.x);
    var u := LoadedAt(m, r, i, e, f, l.x);
    var pc := FoldAt(m, C(CAddr(slot.base, slot.off)), m.fns[f].defs[p.x].what).value;
    var lc := FoldAt(m, C(CAddr(slot.base, slot.off + 8)), m.fns[f].defs[l.x].what).value;
    assert Kept(m, r, slot.base);
    assert PairAt(m, r, i, e, f, C(pc), C(lc), now, s);
  }

  lemma ConstantSlots(m: Module, f: nat, p: Operand, l: Operand, slots: seq<Slot>, sources: set<nat>, names: Found)
    requires Wf(m) && f < |m.fns| && WfFn(m.fns[f]) && SlotPair(m.fns[f], p, l)
    requires CoversAddr(m, f, m.fns[f].defs[p.x].addr, slots, sources) && sources <= names.sources
    requires forall s :: s in slots ==> SlotCovered(m, f, s, m.fns[f].defs[p.x].what, m.fns[f].defs[l.x].what, names)
    ensures CoversPair(m, f, p, l, names)
  {
    hide Wf, IsRun, BaseOf, StripCasts, SlotCovered, WfFn, Avail, Kept;
    forall r, i: nat, e: nat, now: nat, s |
      PairAt(m, r, i, e, f, p, l, now, s) && KeptAll(m, r, names.sources)
      ensures s in names.names
    {
      PairAddrs(m, r, i, e, f, p, l);
      assert KeptAll(m, r, sources);
      var w := Value(r, r.acts[i], e, m.fns[f].defs[p.x].addr);
      SlotAt(m, r, i, e, f, p, l, now, s, Slot(w.at.base, w.at.off), names);
    }
  }

  // The string at an offset of local x is one of the names.
  ghost predicate LocalCovered(m: Module, f: nat, p: Operand, l: Operand, x: nat, off: int, names: Found)
    requires f < |m.fns| && WfFn(m.fns[f]) && p.Ref? && l.Ref?
  {
    exists pc, lc ::
      && FindsConst(m.fns[f], p.x, x, off, pc) && FindsConst(m.fns[f], l.x, x, off + 8, lc)
      && CoversPair(m, f, C(pc), C(lc), names)
  }

  lemma LocalAt(m: Module, r: Run, i: nat, e: nat, f: nat, p: Operand, l: Operand, now: nat, s: string, x: nat,
                off: int, names: Found)
    requires PairAt(m, r, i, e, f, p, l, now, s) && WfFn(m.fns[f]) && IsLoad(m.fns[f], p) && IsLoad(m.fns[f], l)
    requires LocalCovered(m, f, p, l, x, off, names)
    requires var w := Value(r, r.acts[i], e, m.fns[f].defs[p.x].addr); w.P? && w.at == Local(i, x, off)
    requires var u := Value(r, r.acts[i], e, m.fns[f].defs[l.x].addr); u.P? && u.at == Local(i, x, off + 8)
    ensures Has(m, r, names, s)
  {
    hide Wf, IsRun, FindsConst, Avail, WfFn;
    var pc, lc :|
      && FindsConst(m.fns[f], p.x, x, off, pc) && FindsConst(m.fns[f], l.x, x, off + 8, lc)
      && CoversPair(m, f, C(pc), C(lc), names);
    LocalLoad(m, r, i, e, f, p.x, x, off, pc);
    LocalLoad(m, r, i, e, f, l.x, x, off + 8, lc);
    ConstHere(m, r, i, e, f, p, pc);
    ConstHere(m, r, i, e, f, p, lc);
    assert PairAt(m, r, i, e, f, C(pc), C(lc), now, s);
  }

  lemma ConstHere(m: Module, r: Run, i: nat, e: nat, f: nat, o: Operand, c: Const)
    requires Here(m, r, i, e, f, o)
    ensures Here(m, r, i, e, f, C(c))
  {
  }

  lemma LocalSlots(m: Module, f: nat, p: Operand, l: Operand, x: nat, offs: seq<int>, names: Found)
    requires Wf(m) && f < |m.fns| && WfFn(m.fns[f]) && SlotPair(m.fns[f], p, l)
    requires CoversLocal(m, f, m.fns[f].defs[p.x].addr, x, offs)
    requires forall off :: off in offs ==> LocalCovered(m, f, p, l, x, off, names)
    ensures CoversPair(m, f, p, l, names)
  {
    hide Wf, IsRun, BaseOf, StripCasts, FindsConst, LocalCovered, Avail, WfFn;
    forall r, i: nat, e: nat, now: nat, s | PairAt(m, r, i, e, f, p, l, now, s) ensures Has(m, r, names, s) {
      PairAddrs(m, r, i, e, f, p, l);
      LocalAt(m, r, i, e, f, p, l, now, s, x, Value(r, r.acts[i], e, m.fns[f].defs[p.x].addr).at.off, names);
    }
  }
}
