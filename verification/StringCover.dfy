// Which names cover a string in every run: one lemma per way of forming a string.
module StringCover {
  import opened CfgPaths
  import opened Common
  import opened StringRuns

  // The values p and l are together the string s.
  ghost predicate PairAt(m: Module, r: Run, i: nat, e: nat, f: nat, p: Operand, l: Operand, now: nat, s: string) {
    && Here(m, r, i, e, f, p) && Here(m, r, i, e, f, l)
    && Denotes(now, Value(r, r.acts[i], e, p), Value(r, r.acts[i], e, l), s)
  }

  ghost predicate ValueAt(m: Module, r: Run, i: nat, e: nat, f: nat, o: Operand, now: nat, s: string) {
    Here(m, r, i, e, f, o) && StrIs(now, Value(r, r.acts[i], e, o), s)
  }

  ghost predicate IntAt(m: Module, r: Run, i: nat, e: nat, f: nat, o: Operand, n: int) {
    Here(m, r, i, e, f, o) && Value(r, r.acts[i], e, o) == I(n)
  }

  // Names, and the globals whose initial contents they were read from.
  datatype Found = Found(names: seq<string>, sources: set<nat>)

  // In this run the globals keep their initial contents.
  ghost predicate KeptAll(m: Module, r: Run, sources: set<nat>) {
    forall b :: b in sources ==> Kept(m, r, b)
  }

  // s is one of the names, if what they were read from is kept in the run.
  ghost predicate Has(m: Module, r: Run, names: Found, s: string) {
    KeptAll(m, r, names.sources) ==> s in names.names
  }

  // At every time of every run the pair is one of the names.
  ghost predicate CoversPair(m: Module, f: nat, p: Operand, l: Operand, names: Found) {
    forall r, i: nat, e: nat, now: nat, s :: PairAt(m, r, i, e, f, p, l, now, s) ==> Has(m, r, names, s)
  }

  ghost predicate CoversValue(m: Module, f: nat, o: Operand, names: Found) {
    forall r, i: nat, e: nat, now: nat, s :: ValueAt(m, r, i, e, f, o, now, s) ==> Has(m, r, names, s)
  }

  ghost predicate CoversInt(m: Module, f: nat, o: Operand, choices: seq<nat>) {
    forall r, i: nat, e: nat, n :: IntAt(m, r, i, e, f, o, n) ==> n in choices
  }

  // ---- points of a run ----

  lemma AvailBefore(f: Fn, o: Operand, q: nat, n: nat)
    requires WfUse(f, o, n) && q < |f.succs| && n < |f.succs| && n in f.succs[q]
    ensures Avail(f, o, q)
  {
    if o.Ref? {
      var h := f.node[o.x];
      forall p | IsPath(f.succs, p) && p[|p| - 1] == q ensures h in p {
        var t := p + [n];
        assert IsPath(f.succs, t) && t[|t| - 1] == n;
        assert h in t;
      }
    }
  }

  // An operand used at step l is available before it.
  lemma UseHere(m: Module, r: Run, i: nat, l: nat, f: nat, o: Operand)
    requires Wf(m) && IsRun(m, r) && i < |r.acts| && r.acts[i].fn == f < |m.fns| && 1 <= l < |r.acts[i].path|
    requires WfUse(m.fns[f], o, r.acts[i].path[l])
    ensures Here(m, r, i, l - 1, f, o)
  {
    assert ActOk(m, r, i);
    assert r.acts[i].path[l - 1 + 1] in m.fns[f].succs[r.acts[i].path[l - 1]];
    AvailBefore(m.fns[f], o, r.acts[i].path[l - 1], r.acts[i].path[l]);
  }

  // A phi took the value that came along its last edge.
  lemma PhiRun(m: Module, r: Run, i: nat, l: nat, f: nat, x: nat) returns (q: nat)
    requires Wf(m) && IsRun(m, r) && i < |r.acts| && r.acts[i].fn == f < |m.fns| && 1 <= l < |r.acts[i].path|
    requires x in m.fns[f].defs && m.fns[f].defs[x].Phi? && x in m.fns[f].node && r.acts[i].path[l] == m.fns[f].node[x]
    requires StepOk(m, r, i, l, x)
    ensures q == r.acts[i].path[l - 1] && q in m.fns[f].defs[x].incoming
    ensures r.acts[i].val(l, x) == Value(r, r.acts[i], l - 1, m.fns[f].defs[x].incoming[q])
    ensures Here(m, r, i, l - 1, f, m.fns[f].defs[x].incoming[q])
  {
    q := r.acts[i].path[l - 1];
    assert ActOk(m, r, i);
    assert r.acts[i].path[l - 1 + 1] in m.fns[f].succs[q];
    assert WfFn(m.fns[f]) && WfDef(m.fns[f], x);
  }

  // ---- constants ----

  // Text read from the initializer of a byte array that is kept.
  lemma ConstPair(m: Module, f: nat, b: nat, o: nat, n: nat, names: Found)
    requires b in m.texts && o + n <= |m.texts[b]| && m.texts[b][o..o + n] in names.names && b in names.sources
    ensures CoversPair(m, f, C(CAddr(b, o)), C(CInt(n)), names)
  {
    var g := m.texts[b];
    forall r, i: nat, e: nat, now: nat, s |
      PairAt(m, r, i, e, f, C(CAddr(b, o)), C(CInt(n)), now, s) && KeptAll(m, r, names.sources)
      ensures s in names.names
    {
      assert ConstOk(m, r, CAddr(b, o)) && ConstOk(m, r, CInt(n));
      var bytes := r.consts(CAddr(b, o)).bytes(now);
      assert r.held(b, now) == g && g[o..] == bytes[..|g| - o];
      assert g[o..o + n] == g[o..][..n] == bytes[..n];
    }
  }

  lemma ZeroPair(m: Module, f: nat, p: Operand, names: Found)
    requires "" in names.names
    ensures CoversPair(m, f, p, C(CInt(0)), names)
  {
    forall r, i: nat, e: nat, now: nat, s | PairAt(m, r, i, e, f, p, C(CInt(0)), now, s) ensures Has(m, r, names, s) {
      assert ConstOk(m, r, CInt(0));
    }
  }

  lemma ZeroValue(m: Module, f: nat, names: Found)
    requires "" in names.names
    ensures CoversValue(m, f, C(CZero), names)
  {
    forall r, i: nat, e: nat, now: nat, s | ValueAt(m, r, i, e, f, C(CZero), now, s) ensures Has(m, r, names, s) {
      assert ConstOk(m, r, CZero);
    }
  }

  lemma PairValue(m: Module, f: nat, p: Const, l: Const, names: Found)
    requires CoversPair(m, f, C(p), C(l), names)
    ensures CoversValue(m, f, C(CPair(p, l)), names)
  {
    forall r, i: nat, e: nat, now: nat, s | ValueAt(m, r, i, e, f, C(CPair(p, l)), now, s) ensures Has(m, r, names, s) {
      assert ConstOk(m, r, CPair(p, l));
      assert PairAt(m, r, i, e, f, C(p), C(l), now, s);
    }
  }

  // ---- casts and folded loads ----

  // The operands have one value, where the globals are kept.
  ghost predicate SameValue(m: Module, f: nat, o: Operand, w: Operand, sources: set<nat>) {
    forall r, i: nat, e: nat :: KeptAll(m, r, sources) && Here(m, r, i, e, f, o) ==>
      Here(m, r, i, e, f, w) && Value(r, r.acts[i], e, o) == Value(r, r.acts[i], e, w)
  }

  lemma CastKeeps(m: Module, f: nat, x: nat)
    requires Wf(m) && f < |m.fns| && x in m.fns[f].defs && m.fns[f].defs[x].Cast?
    ensures SameValue(m, f, Ref(x), m.fns[f].defs[x].p, {})
  {
    var o := m.fns[f].defs[x].p;
    assert WfFn(m.fns[f]) && WfDef(m.fns[f], x) && Operands(m.fns[f].defs[x])[0] == o;
    forall r, i: nat, e: nat | Here(m, r, i, e, f, Ref(x))
      ensures Here(m, r, i, e, f, o) && Value(r, r.acts[i], e, Ref(x)) == Value(r, r.acts[i], e, o)
    {
      var l := LastRun(m, r, i, e, f, x);
      OperandKept(m, r, i, e, f, x, l, o);
    }
  }

  function StripCasts(f: Fn, o: Operand): (r: Operand)
    requires WfFn(f)
    ensures r.Ref? ==> o.Ref? && r.x <= o.x
    decreases if o.Ref? then o.x + 1 else 0
  {
    if o.Ref? && o.x in f.defs && f.defs[o.x].Cast? then
      assert WfDef(f, o.x) && Operands(f.defs[o.x])[0] == f.defs[o.x].p;
      StripCasts(f, f.defs[o.x].p)
    else o
  }

  lemma {:induction false} StripKeeps(m: Module, f: nat, o: Operand)
    requires Wf(m) && f < |m.fns|
    ensures SameValue(m, f, o, StripCasts(m.fns[f], o), {})
    decreases if o.Ref? then o.x + 1 else 0
  {
    if o.Ref? && o.x in m.fns[f].defs && m.fns[f].defs[o.x].Cast? {
      var p := m.fns[f].defs[o.x].p;
      assert WfFn(m.fns[f]) && WfDef(m.fns[f], o.x) && Operands(m.fns[f].defs[o.x])[0] == p;
      CastKeeps(m, f, o.x);
      StripKeeps(m, f, p);
    }
  }

  // The constant that a load reads from a constant address, if its initializer tells.
  function Folded(m: Module, f: nat, o: Operand): (c: Option<Const>)
    requires Wf(m) && f < |m.fns|
  {
    var g := m.fns[f];
    if !(o.Ref? && o.x in g.defs && g.defs[o.x].Load?) then None
    else
      assert WfFn(g);
      FoldAt(m, StripCasts(g, g.defs[o.x].addr), g.defs[o.x].what)
  }

  function FoldAt(m: Module, a: Operand, what: Access): (c: Option<Const>) {
    if a.C? && a.c.CAddr? && a.c.base in m.readable && Cell(a.c.base, a.c.off, what) in m.init
    then Some(m.init[Cell(a.c.base, a.c.off, what)]) else None
  }

  // The global that a folded load reads.
  function FoldedFrom(m: Module, f: nat, o: Operand): (b: nat)
    requires Wf(m) && f < |m.fns| && Folded(m, f, o).Some?
  {
    assert WfFn(m.fns[f]);
    StripCasts(m.fns[f], m.fns[f].defs[o.x].addr).c.base
  }

  lemma LoadFolds(m: Module, f: nat, o: Operand)
    requires Wf(m) && f < |m.fns| && Folded(m, f, o).Some?
    ensures SameValue(m, f, o, C(Folded(m, f, o).value), {FoldedFrom(m, f, o)})
  {
    var g, c := m.fns[f], Folded(m, f, o).value;
    assert WfFn(g);
    var a := StripCasts(g, g.defs[o.x].addr);
    StripKeeps(m, f, g.defs[o.x].addr);
    forall r, i: nat, e: nat | KeptAll(m, r, {a.c.base}) && Here(m, r, i, e, f, o)
      ensures Here(m, r, i, e, f, C(c)) && Value(r, r.acts[i], e, o) == Value(r, r.acts[i], e, C(c))
    {
      var l := LoadedAt(m, r, i, e, f, o.x);
      assert ConstOk(m, r, a.c) && Kept(m, r, a.c.base);
    }
  }

  // A load that is available read its address when it last ran.
  lemma LoadedAt(m: Module, r: Run, i: nat, e: nat, f: nat, x: nat) returns (l: nat)
    requires Here(m, r, i, e, f, Ref(x)) && m.fns[f].defs[x].Load?
    ensures var d := m.fns[f].defs[x];
            && 1 <= l <= e && r.acts[i].path[l] == m.fns[f].node[x] && Here(m, r, i, l - 1, f, d.addr)
            && LoadOk(m, r, i, l - 1, m.fns[f], d.what, Value(r, r.acts[i], l - 1, d.addr),
                      Value(r, r.acts[i], e, Ref(x)))
            && Value(r, r.acts[i], l - 1, d.addr) == Value(r, r.acts[i], e, d.addr) && Here(m, r, i, e, f, d.addr)
  {
    hide LoadOk;
    var d := m.fns[f].defs[x];
    assert WfFn(m.fns[f]) && WfDef(m.fns[f], x) && Operands(d)[0] == d.addr;
    l := LastRun(m, r, i, e, f, x);
    OperandKept(m, r, i, e, f, x, l, d.addr);
    UseHere(m, r, i, l, f, d.addr);
  }

  lemma SamePair(m: Module, f: nat, p: Operand, p': Operand, l: Operand, l': Operand, names: Found)
    requires SameValue(m, f, p, p', names.sources) && SameValue(m, f, l, l', names.sources)
    requires CoversPair(m, f, p', l', names)
    ensures CoversPair(m, f, p, l, names)
  {
    hide Here, Denotes, Value, Kept, KeptAll;
    forall r, i: nat, e: nat, now: nat, s | PairAt(m, r, i, e, f, p, l, now, s) ensures Has(m, r, names, s) {
      if KeptAll(m, r, names.sources) {
        assert PairAt(m, r, i, e, f, p', l', now, s);
      }
    }
  }

  lemma SameStr(m: Module, f: nat, o: Operand, o': Operand, names: Found)
    requires SameValue(m, f, o, o', names.sources) && CoversValue(m, f, o', names)
    ensures CoversValue(m, f, o, names)
  {
    hide Here, StrIs, Value, Kept, KeptAll;
    forall r, i: nat, e: nat, now: nat, s | ValueAt(m, r, i, e, f, o, now, s) ensures Has(m, r, names, s) {
      if KeptAll(m, r, names.sources) {
        assert ValueAt(m, r, i, e, f, o', now, s);
      }
    }
  }

  // ---- selects ----

  // At any later point a select is one of its arms as they are now, by its condition.
  lemma SelectNow(m: Module, r: Run, i: nat, e: nat, f: nat, x: nat)
    requires Here(m, r, i, e, f, Ref(x)) && m.fns[f].defs[x].Select?
    ensures var d := m.fns[f].defs[x];
            && Here(m, r, i, e, f, d.t) && Here(m, r, i, e, f, d.f)
            && Value(r, r.acts[i], e, Ref(x))
               == Value(r, r.acts[i], e, if Value(r, r.acts[i], e, d.cond) == I(1) then d.t else d.f)
  {
    var d := m.fns[f].defs[x];
    assert WfFn(m.fns[f]) && WfDef(m.fns[f], x) && Operands(d)[0] == d.cond && Operands(d)[1] == d.t
      && Operands(d)[2] == d.f;
    var l := LastRun(m, r, i, e, f, x);
    OperandKept(m, r, i, e, f, x, l, d.cond);
    OperandKept(m, r, i, e, f, x, l, d.t);
    OperandKept(m, r, i, e, f, x, l, d.f);
  }

  lemma PairSelect(m: Module, f: nat, x: nat, y: nat, names: Found)
    requires f < |m.fns| && x in m.fns[f].defs && y in m.fns[f].defs && m.fns[f].defs[x].Select?
             && m.fns[f].defs[y].Select?
    requires m.fns[f].defs[x].cond == m.fns[f].defs[y].cond
    requires CoversPair(m, f, m.fns[f].defs[x].t, m.fns[f].defs[y].t, names)
    requires CoversPair(m, f, m.fns[f].defs[x].f, m.fns[f].defs[y].f, names)
    ensures CoversPair(m, f, Ref(x), Ref(y), names)
  {
    var d, d' := m.fns[f].defs[x], m.fns[f].defs[y];
    forall r, i: nat, e: nat, now: nat, s | PairAt(m, r, i, e, f, Ref(x), Ref(y), now, s) ensures Has(m, r, names, s) {
      SelectNow(m, r, i, e, f, x);
      SelectNow(m, r, i, e, f, y);
      assert PairAt(m, r, i, e, f, d.t, d'.t, now, s) || PairAt(m, r, i, e, f, d.f, d'.f, now, s);
    }
  }

  lemma PairSelectConst(m: Module, f: nat, x: nat, n: int, names: Found)
    requires f < |m.fns| && x in m.fns[f].defs && m.fns[f].defs[x].Select?
    requires CoversPair(m, f, m.fns[f].defs[x].t, C(CInt(n)), names)
             && CoversPair(m, f, m.fns[f].defs[x].f, C(CInt(n)), names)
    ensures CoversPair(m, f, Ref(x), C(CInt(n)), names)
  {
    var d := m.fns[f].defs[x];
    forall r, i: nat, e: nat, now: nat, s | PairAt(m, r, i, e, f, Ref(x), C(CInt(n)), now, s)
      ensures Has(m, r, names, s)
    {
      SelectNow(m, r, i, e, f, x);
      assert PairAt(m, r, i, e, f, d.t, C(CInt(n)), now, s) || PairAt(m, r, i, e, f, d.f, C(CInt(n)), now, s);
    }
  }

  lemma ValueSelect(m: Module, f: nat, x: nat, names: Found)
    requires f < |m.fns| && x in m.fns[f].defs && m.fns[f].defs[x].Select?
    requires CoversValue(m, f, m.fns[f].defs[x].t, names) && CoversValue(m, f, m.fns[f].defs[x].f, names)
    ensures CoversValue(m, f, Ref(x), names)
  {
    var d := m.fns[f].defs[x];
    forall r, i: nat, e: nat, now: nat, s | ValueAt(m, r, i, e, f, Ref(x), now, s) ensures Has(m, r, names, s) {
      SelectNow(m, r, i, e, f, x);
      assert ValueAt(m, r, i, e, f, d.t, now, s) || ValueAt(m, r, i, e, f, d.f, now, s);
    }
  }

  lemma IntSelect(m: Module, f: nat, x: nat, choices: seq<nat>)
    requires f < |m.fns| && x in m.fns[f].defs && m.fns[f].defs[x].Select?
    requires CoversInt(m, f, m.fns[f].defs[x].t, choices) && CoversInt(m, f, m.fns[f].defs[x].f, choices)
    ensures CoversInt(m, f, Ref(x), choices)
  {
    var d := m.fns[f].defs[x];
    forall r, i: nat, e: nat, n | IntAt(m, r, i, e, f, Ref(x), n) ensures n in choices {
      SelectNow(m, r, i, e, f, x);
      assert IntAt(m, r, i, e, f, d.t, n) || IntAt(m, r, i, e, f, d.f, n);
    }
  }

  // ---- phis ----

  // Two phis of one node took their values along the same edge.
  lemma PairPhi(m: Module, f: nat, x: nat, y: nat, names: Found)
    requires f < |m.fns| && x in m.fns[f].defs && y in m.fns[f].defs && m.fns[f].defs[x].Phi? && m.fns[f].defs[y].Phi?
    requires x in m.fns[f].node && y in m.fns[f].node && m.fns[f].node[x] == m.fns[f].node[y]
    requires forall q :: q in m.fns[f].defs[x].incoming ==>
               && q in m.fns[f].defs[y].incoming
               && CoversPair(m, f, m.fns[f].defs[x].incoming[q], m.fns[f].defs[y].incoming[q], names)
    ensures CoversPair(m, f, Ref(x), Ref(y), names)
  {
    forall r, i: nat, e: nat, now: nat, s | PairAt(m, r, i, e, f, Ref(x), Ref(y), now, s) ensures Has(m, r, names, s) {
      var l := LastRun(m, r, i, e, f, x);
      var k := LastRun(m, r, i, e, f, y);
      assert k == l;
      var q := PhiRun(m, r, i, l, f, x);
      var _ := PhiRun(m, r, i, l, f, y);
      assert PairAt(m, r, i, l - 1, f, m.fns[f].defs[x].incoming[q], m.fns[f].defs[y].incoming[q], now, s);
    }
  }

  lemma ValuePhi(m: Module, f: nat, x: nat, names: Found)
    requires f < |m.fns| && x in m.fns[f].defs && m.fns[f].defs[x].Phi?
    requires forall q :: q in m.fns[f].defs[x].incoming ==> CoversValue(m, f, m.fns[f].defs[x].incoming[q], names)
    ensures CoversValue(m, f, Ref(x), names)
  {
    forall r, i: nat, e: nat, now: nat, s | ValueAt(m, r, i, e, f, Ref(x), now, s) ensures Has(m, r, names, s) {
      var l := LastRun(m, r, i, e, f, x);
      var q := PhiRun(m, r, i, l, f, x);
      assert ValueAt(m, r, i, l - 1, f, m.fns[f].defs[x].incoming[q], now, s);
    }
  }

  lemma IntPhi(m: Module, f: nat, x: nat, choices: seq<nat>)
    requires f < |m.fns| && x in m.fns[f].defs && m.fns[f].defs[x].Phi?
    requires forall q :: q in m.fns[f].defs[x].incoming ==> CoversInt(m, f, m.fns[f].defs[x].incoming[q], choices)
    ensures CoversInt(m, f, Ref(x), choices)
  {
    forall r, i: nat, e: nat, n | IntAt(m, r, i, e, f, Ref(x), n) ensures n in choices {
      var l := LastRun(m, r, i, e, f, x);
      var q := PhiRun(m, r, i, l, f, x);
      assert IntAt(m, r, i, l - 1, f, m.fns[f].defs[x].incoming[q], n);
    }
  }

  // ---- other integers ----

  lemma IntConst(m: Module, f: nat, n: nat, choices: seq<nat>)
    requires n in choices
    ensures CoversInt(m, f, C(CInt(n)), choices)
  {
    forall r, i: nat, e: nat, k | IntAt(m, r, i, e, f, C(CInt(n)), k) ensures k in choices {
      assert ConstOk(m, r, CInt(n));
    }
  }

  lemma IntBool(m: Module, f: nat, x: nat, choices: seq<nat>)
    requires f < |m.fns| && x in m.fns[f].defs && m.fns[f].defs[x].ZExtBool? && 0 in choices && 1 in choices
    ensures CoversInt(m, f, Ref(x), choices)
  {
    forall r, i: nat, e: nat, n | IntAt(m, r, i, e, f, Ref(x), n) ensures n in choices {
      var l := LastRun(m, r, i, e, f, x);
    }
  }

  // ---- aggregates ----

  // The operand last inserted at an index of an aggregate.
  function FindInserted(f: Fn, o: Operand, k: nat): (r: Option<Operand>)
    requires WfFn(f)
    decreases if o.Ref? then o.x + 1 else 0
  {
    if !(o.Ref? && o.x in f.defs && f.defs[o.x].Insert?) then None
    else if f.defs[o.x].index == k then Some(f.defs[o.x].elem)
    else
      assert WfDef(f, o.x) && Operands(f.defs[o.x])[0] == f.defs[o.x].agg;
      FindInserted(f, f.defs[o.x].agg, k)
  }

  lemma {:induction false} InsertedIs(m: Module, r: Run, i: nat, e: nat, f: nat, o: Operand, k: nat)
    requires Here(m, r, i, e, f, o) && k <= 1 && WfFn(m.fns[f]) && FindInserted(m.fns[f], o, k).Some?
    ensures var w := FindInserted(m.fns[f], o, k).value;
            Here(m, r, i, e, f, w) && Value(r, r.acts[i], e, w) == Part(Value(r, r.acts[i], e, o), k)
    decreases if o.Ref? then o.x + 1 else 0
  {
    var d := m.fns[f].defs[o.x];
    assert WfFn(m.fns[f]) && WfDef(m.fns[f], o.x) && Operands(d)[0] == d.agg && Operands(d)[1] == d.elem;
    var l := LastRun(m, r, i, e, f, o.x);
    OperandKept(m, r, i, e, f, o.x, l, d.agg);
    OperandKept(m, r, i, e, f, o.x, l, d.elem);
    if d.index != k {
      InsertedIs(m, r, i, e, f, d.agg, k);
    }
  }

  lemma ValueInsert(m: Module, f: nat, x: nat, p: Operand, l: Operand, names: Found)
    requires f < |m.fns| && WfFn(m.fns[f]) && x in m.fns[f].defs && m.fns[f].defs[x].Insert?
    requires FindInserted(m.fns[f], Ref(x), 0) == Some(p) && FindInserted(m.fns[f], Ref(x), 1) == Some(l)
    requires CoversPair(m, f, p, l, names)
    ensures CoversValue(m, f, Ref(x), names)
  {
    forall r, i: nat, e: nat, now: nat, s | ValueAt(m, r, i, e, f, Ref(x), now, s) ensures Has(m, r, names, s) {
      InsertedIs(m, r, i, e, f, Ref(x), 0);
      InsertedIs(m, r, i, e, f, Ref(x), 1);
      assert PairAt(m, r, i, e, f, p, l, now, s);
    }
  }

  // An extracted part is the part of the aggregate as it is now.
  lemma ExtractNow(m: Module, r: Run, i: nat, e: nat, f: nat, x: nat)
    requires Here(m, r, i, e, f, Ref(x)) && m.fns[f].defs[x].Extract? && m.fns[f].defs[x].index <= 1
    ensures var d := m.fns[f].defs[x];
            && Here(m, r, i, e, f, d.agg)
            && Value(r, r.acts[i], e, Ref(x)) == Part(Value(r, r.acts[i], e, d.agg), d.index)
  {
    var d := m.fns[f].defs[x];
    assert WfFn(m.fns[f]) && WfDef(m.fns[f], x) && Operands(d)[0] == d.agg;
    var l := LastRun(m, r, i, e, f, x);
    OperandKept(m, r, i, e, f, x, l, d.agg);
  }

  lemma PairExtract(m: Module, f: nat, x: nat, y: nat, names: Found)
    requires f < |m.fns| && x in m.fns[f].defs && y in m.fns[f].defs
    requires m.fns[f].defs[x].Extract? && m.fns[f].defs[x].index == 0
    requires m.fns[f].defs[y].Extract? && m.fns[f].defs[y].index == 1 && m.fns[f].defs[y].agg == m.fns[f].defs[x].agg
    requires CoversValue(m, f, m.fns[f].defs[x].agg, names)
    ensures CoversPair(m, f, Ref(x), Ref(y), names)
  {
    forall r, i: nat, e: nat, now: nat, s | PairAt(m, r, i, e, f, Ref(x), Ref(y), now, s) ensures Has(m, r, names, s) {
      ExtractNow(m, r, i, e, f, x);
      ExtractNow(m, r, i, e, f, y);
      assert ValueAt(m, r, i, e, f, m.fns[f].defs[x].agg, now, s);
    }
  }

  // A value of string type is a string.
  lemma TypedString(m: Module, r: Run, i: nat, e: nat, f: nat, o: Operand, now: nat) returns (s: string)
    requires Here(m, r, i, e, f, o) && TypeOf(m.fns[f], o) == TStr && !o.C?
    ensures ValueAt(m, r, i, e, f, o, now, s)
  {
    assert ActOk(m, r, i);
    if o.Ref? {
      var l := LastRun(m, r, i, e, f, o.x);
    }
    assert StrAt(now, Value(r, r.acts[i], e, o));
    s :| StrIs(now, Value(r, r.acts[i], e, o), s);
  }

  // A constant length that agrees with every candidate is the string's own length.
  lemma PairExtractConst(m: Module, f: nat, x: nat, n: int, names: Found)
    requires Wf(m) && f < |m.fns| && x in m.fns[f].defs && m.fns[f].defs[x].Extract? && m.fns[f].defs[x].index == 0
    requires CoversValue(m, f, m.fns[f].defs[x].agg, names) && forall s :: s in names.names ==> |s| == n
    ensures CoversPair(m, f, Ref(x), C(CInt(n)), names)
  {
    var o := m.fns[f].defs[x].agg;
    assert WfFn(m.fns[f]) && WfDef(m.fns[f], x);
    forall r, i: nat, e: nat, now: nat, s | PairAt(m, r, i, e, f, Ref(x), C(CInt(n)), now, s)
      ensures Has(m, r, names, s)
    {
      assert ConstOk(m, r, CInt(n));
      ExtractNow(m, r, i, e, f, x);
      var t := TypedString(m, r, i, e, f, o, now);
      if KeptAll(m, r, names.sources) {
        assert t in names.names && |t| == n;
        assert s == t;
      }
    }
  }

  // ---- calls ----

  // Some call in function g, at call x, passes the operands to f.
  ghost predicate CallsTo(m: Module, g: nat, x: nat, f: nat) {
    g < |m.fns| && x in m.fns[g].defs && m.fns[g].defs[x].Call? && m.fns[g].defs[x].callee == Some(f)
  }

  // An argument holds what the caller's operand held before the call.
  lemma CallerOf(m: Module, r: Run, i: nat, e: nat, f: nat)
    returns (c: nat, k: nat, g: nat, x: nat)
    requires At(m, r, i, e, f) && f !in m.escaped && m.fns[f].params != []
    ensures CallsTo(m, g, x, f) && |r.acts[i].args| == |m.fns[g].defs[x].args|
    ensures At(m, r, c, k, g)
    ensures forall j :: 0 <= j < |r.acts[i].args| ==>
              && r.acts[i].args[j] == Value(r, r.acts[c], k, m.fns[g].defs[x].args[j])
              && Here(m, r, c, k, g, m.fns[g].defs[x].args[j])
  {
    assert ActOk(m, r, i);
    var site := r.acts[i].parent.value;
    assert ActOk(m, r, site.act);
    c, k, g, x := site.act, site.step - 1, r.acts[site.act].fn, site.call;
    assert WfFn(m.fns[g]) && WfDef(m.fns[g], x);
    forall j | 0 <= j < |r.acts[i].args| ensures Here(m, r, c, k, g, m.fns[g].defs[x].args[j]) {
      assert Operands(m.fns[g].defs[x])[j] == m.fns[g].defs[x].args[j];
      UseHere(m, r, c, site.step, g, m.fns[g].defs[x].args[j]);
    }
  }

  lemma PairArg(m: Module, f: nat, j: nat, names: Found)
    requires f < |m.fns| && f !in m.escaped && j + 1 < |m.fns[f].params|
    requires forall g: nat, x: nat :: CallsTo(m, g, x, f) ==>
               && j + 1 < |m.fns[g].defs[x].args|
               && CoversPair(m, g, m.fns[g].defs[x].args[j], m.fns[g].defs[x].args[j + 1], names)
    ensures CoversPair(m, f, Arg(j), Arg(j + 1), names)
  {
    var p, l := Arg(j), Arg(j + 1);
    forall r, i: nat, e: nat, now: nat, s | PairAt(m, r, i, e, f, p, l, now, s) ensures Has(m, r, names, s) {
      var c, k, g, x := CallerOf(m, r, i, e, f);
      assert PairAt(m, r, c, k, g, m.fns[g].defs[x].args[j], m.fns[g].defs[x].args[j + 1], now, s);
    }
  }

  lemma ValueArg(m: Module, f: nat, j: nat, names: Found)
    requires f < |m.fns| && f !in m.escaped && j < |m.fns[f].params|
    requires forall g: nat, x: nat :: CallsTo(m, g, x, f) ==>
               j < |m.fns[g].defs[x].args| && CoversValue(m, g, m.fns[g].defs[x].args[j], names)
    ensures CoversValue(m, f, Arg(j), names)
  {
    forall r, i: nat, e: nat, now: nat, s | ValueAt(m, r, i, e, f, Arg(j), now, s) ensures Has(m, r, names, s) {
      var c, k, g, x := CallerOf(m, r, i, e, f);
      assert ValueAt(m, r, c, k, g, m.fns[g].defs[x].args[j], now, s);
    }
  }

  // The value an activation returned was available when it returned.
  lemma ReturnHere(m: Module, r: Run, b: nat, g: nat)
    requires Wf(m) && IsRun(m, r) && b < |r.acts| && r.acts[b].fn == g < |m.fns| && |r.acts[b].path| >= 2
    requires var n := r.acts[b].path[|r.acts[b].path| - 1]; n in m.fns[g].rets && m.fns[g].rets[n].Some?
    ensures Here(m, r, b, |r.acts[b].path| - 2, g, m.fns[g].rets[r.acts[b].path[|r.acts[b].path| - 1]].value)
  {
    var n := r.acts[b].path[|r.acts[b].path| - 1];
    assert WfFn(m.fns[g]);
    UseHere(m, r, b, |r.acts[b].path| - 1, g, m.fns[g].rets[n].value);
  }

  // A call's value is what some return of the callee returned.
  lemma CallReturned(m: Module, r: Run, i: nat, e: nat, f: nat, x: nat, g: nat) returns (b: nat, n: nat)
    requires Here(m, r, i, e, f, Ref(x)) && CallsTo(m, f, x, g) && g < |m.fns|
    ensures b < |r.acts| && r.acts[b].fn == g && |r.acts[b].path| >= 2
    ensures n == r.acts[b].path[|r.acts[b].path| - 1] && n in m.fns[g].rets
    ensures m.fns[g].rets[n].Some? ==>
              Value(r, r.acts[i], e, Ref(x)) == Value(r, r.acts[b], |r.acts[b].path| - 2, m.fns[g].rets[n].value)
  {
    var l := LastRun(m, r, i, e, f, x);
    b :| Returned(m, r, Site(i, l, x), b, r.acts[i].val(l, x));
    n := r.acts[b].path[|r.acts[b].path| - 1];
    assert ActOk(m, r, b);
  }

  lemma ValueReturn(m: Module, f: nat, x: nat, g: nat, names: Found)
    requires Wf(m) && CallsTo(m, f, x, g) && g < |m.fns|
    requires forall n :: n in m.fns[g].rets ==>
               m.fns[g].rets[n].Some? && CoversValue(m, g, m.fns[g].rets[n].value, names)
    ensures CoversValue(m, f, Ref(x), names)
  {
    hide Avail, WfFn, IsRun;
    forall r, i: nat, e: nat, now: nat, s | ValueAt(m, r, i, e, f, Ref(x), now, s) ensures Has(m, r, names, s) {
      var b, n := CallReturned(m, r, i, e, f, x, g);
      ReturnHere(m, r, b, g);
      assert ValueAt(m, r, b, |r.acts[b].path| - 2, g, m.fns[g].rets[n].value, now, s);
    }
  }

  // The names cover the string that starts at argument j.
  ghost predicate CoversArg(m: Module, f: nat, args: seq<Operand>, j: nat, names: Found)
    requires f < |m.fns|
  {
    && NextArg(m.fns[f], args, j) <= |args|
    && (if TypeOf(m.fns[f], args[j]) == TStr then CoversValue(m, f, args[j], names)
        else CoversPair(m, f, args[j], args[j + 1], names))
  }

  lemma ArgCovered(m: Module, r: Run, i: nat, l: nat, f: nat, x: nat, j: nat, now: nat, s: string, names: Found)
    requires Wf(m) && IsRun(m, r) && i < |r.acts| && r.acts[i].fn == f < |m.fns| && 1 <= l < |r.acts[i].path|
    requires x in m.fns[f].defs && m.fns[f].defs[x].Call? && x in m.fns[f].node && m.fns[f].node[x] == r.acts[i].path[l]
    requires CoversArg(m, f, m.fns[f].defs[x].args, j, names)
    requires ArgIs(r, r.acts[i], l - 1, m.fns[f], m.fns[f].defs[x].args, j, now, s)
    ensures Has(m, r, names, s)
  {
    var args := m.fns[f].defs[x].args;
    assert WfFn(m.fns[f]) && WfDef(m.fns[f], x) && Operands(m.fns[f].defs[x]) == args;
    UseHere(m, r, i, l, f, args[j]);
    if TypeOf(m.fns[f], args[j]) == TStr {
      assert ValueAt(m, r, i, l - 1, f, args[j], now, s);
    } else {
      UseHere(m, r, i, l, f, args[j + 1]);
      assert PairAt(m, r, i, l - 1, f, args[j], args[j + 1], now, s);
    }
  }

  // A value denotes one string at a time.
  lemma StrUnique(now: nat, v: V, s: string, t: string)
    requires StrIs(now, v, s) && StrIs(now, v, t)
    ensures s == t
  {
  }

  // The concatenation that call x last returned.
  lemma JoinedAt(m: Module, r: Run, i: nat, e: nat, f: nat, x: nat, now: nat)
    returns (l: nat, before: nat, p: string, q: string)
    requires Here(m, r, i, e, f, Ref(x)) && m.fns[f].defs[x].Call? && m.fns[f].defs[x].kind.Cat?
    requires var args := m.fns[f].defs[x].args; NextArg(m.fns[f], args, NextArg(m.fns[f], args, 0)) == |args|
    ensures 1 <= l <= e && x in m.fns[f].node && r.acts[i].path[l] == m.fns[f].node[x]
    ensures var args := m.fns[f].defs[x].args;
            && ArgIs(r, r.acts[i], l - 1, m.fns[f], args, 0, before, p)
            && ArgIs(r, r.acts[i], l - 1, m.fns[f], args, NextArg(m.fns[f], args, 0), before, q)
            && StrIs(now, Value(r, r.acts[i], e, Ref(x)), p + q)
  {
    hide ArgIs, NextArg, Value, StrIs, IsRun, Wf;
    var d, a := m.fns[f].defs[x], r.acts[i];
    l := LastRun(m, r, i, e, f, x);
    assert Concatenates(r, a, l - 1, m.fns[f], d.args, a.val(l, x), now);
    before, p, q :|
      && ArgIs(r, a, l - 1, m.fns[f], d.args, 0, before, p)
      && ArgIs(r, a, l - 1, m.fns[f], d.args, NextArg(m.fns[f], d.args, 0), before, q)
      && StrIs(now, a.val(l, x), p + q);
    ValueRef(r, a, e, x);
  }

  lemma ValueCat(m: Module, f: nat, x: nat, ps: Found, ss: Found, names: Found)
    requires Wf(m) && f < |m.fns| && x in m.fns[f].defs && m.fns[f].defs[x].Call? && m.fns[f].defs[x].kind.Cat?
    requires var args := m.fns[f].defs[x].args;
             var n := NextArg(m.fns[f], args, 0);
             NextArg(m.fns[f], args, n) == |args| && CoversArg(m, f, args, 0, ps) && CoversArg(m, f, args, n, ss)
    requires forall p, q :: p in ps.names && q in ss.names ==> p + q in names.names
    requires ps.sources + ss.sources <= names.sources
    ensures CoversValue(m, f, Ref(x), names)
  {
    hide CoversArg, IsRun, Wf, ArgIs, Value, Avail;
    var n := NextArg(m.fns[f], m.fns[f].defs[x].args, 0);
    forall r, i: nat, e: nat, now: nat, s | ValueAt(m, r, i, e, f, Ref(x), now, s) ensures Has(m, r, names, s) {
      var l, before, p, q := JoinedAt(m, r, i, e, f, x, now);
      ArgCovered(m, r, i, l, f, x, 0, before, p, ps);
      ArgCovered(m, r, i, l, f, x, n, before, q, ss);
      StrUnique(now, Value(r, r.acts[i], e, Ref(x)), s, p + q);
    }
  }

  // The names hold every slice of a base.
  ghost predicate Slices(bases: seq<string>, los: seq<nat>, his: seq<nat>, names: seq<string>) {
    forall b, lo: nat, hi: nat :: b in bases && lo in los && hi in his ==> lo <= hi <= |b| && b[lo..hi] in names
  }

  lemma ValueSlice(m: Module, f: nat, x: nat, bases: Found, los: seq<nat>, his: seq<nat>, names: Found)
    requires Wf(m) && f < |m.fns| && x in m.fns[f].defs && m.fns[f].defs[x].Call? && m.fns[f].defs[x].kind.Slice?
    requires var args := m.fns[f].defs[x].args;
             var n := NextArg(m.fns[f], args, 0);
             && m.fns[f].defs[x].kind.bounds >= 2 && |args| == n + m.fns[f].defs[x].kind.bounds
             && CoversArg(m, f, args, 0, bases) && CoversInt(m, f, args[n], los) && CoversInt(m, f, args[n + 1], his)
    requires Slices(bases.names, los, his, names.names) && bases.sources <= names.sources
    ensures CoversValue(m, f, Ref(x), names)
  {
    forall r, i: nat, e: nat, now: nat, s | ValueAt(m, r, i, e, f, Ref(x), now, s) ensures Has(m, r, names, s) {
      SliceCovered(m, r, i, e, f, x, now, s, bases, los, his, names);
    }
  }

  // The slice that call x last returned.
  lemma SlicedAt(m: Module, r: Run, i: nat, e: nat, f: nat, x: nat, now: nat)
    returns (l: nat, b: string, lo: int, hi: int)
    requires Here(m, r, i, e, f, Ref(x)) && m.fns[f].defs[x].Call? && m.fns[f].defs[x].kind.Slice?
    requires m.fns[f].defs[x].kind.bounds >= 2
    requires |m.fns[f].defs[x].args| == NextArg(m.fns[f], m.fns[f].defs[x].args, 0) + m.fns[f].defs[x].kind.bounds
    ensures 1 <= l <= e && x in m.fns[f].node && r.acts[i].path[l] == m.fns[f].node[x]
    ensures var args := m.fns[f].defs[x].args;
            var n := NextArg(m.fns[f], args, 0);
            && ArgIs(r, r.acts[i], l - 1, m.fns[f], args, 0, now, b)
            && Value(r, r.acts[i], l - 1, args[n]) == I(lo) && Value(r, r.acts[i], l - 1, args[n + 1]) == I(hi)
            && 0 <= lo <= hi <= |b| && StrIs(now, Value(r, r.acts[i], e, Ref(x)), b[lo..hi])
  {
    hide ArgIs, NextArg, Value, StrIs, IsRun, Wf;
    var d, a := m.fns[f].defs[x], r.acts[i];
    var n := NextArg(m.fns[f], d.args, 0);
    l := LastRun(m, r, i, e, f, x);
    assert IsSliceOf(r, a, l - 1, m.fns[f], d.args, a.val(l, x), now);
    b, lo, hi :|
      && ArgIs(r, a, l - 1, m.fns[f], d.args, 0, now, b)
      && Value(r, a, l - 1, d.args[n]) == I(lo) && Value(r, a, l - 1, d.args[n + 1]) == I(hi)
      && 0 <= lo <= hi <= |b| && StrIs(now, a.val(l, x), b[lo..hi]);
    ValueRef(r, a, e, x);
  }

  lemma ValueRef(r: Run, a: Act, e: nat, x: nat)
    ensures Value(r, a, e, Ref(x)) == a.val(e, x)
  {
  }

  lemma SliceCovered(m: Module, r: Run, i: nat, e: nat, f: nat, x: nat, now: nat, s: string,
                     bases: Found, los: seq<nat>, his: seq<nat>, names: Found)
    requires f < |m.fns| && x in m.fns[f].defs && m.fns[f].defs[x].Call? && m.fns[f].defs[x].kind.Slice?
    requires var args := m.fns[f].defs[x].args;
             var n := NextArg(m.fns[f], args, 0);
             && m.fns[f].defs[x].kind.bounds >= 2 && |args| == n + m.fns[f].defs[x].kind.bounds
             && CoversArg(m, f, args, 0, bases) && CoversInt(m, f, args[n], los) && CoversInt(m, f, args[n + 1], his)
    requires Slices(bases.names, los, his, names.names) && bases.sources <= names.sources
    requires ValueAt(m, r, i, e, f, Ref(x), now, s)
    ensures Has(m, r, names, s)
  {
    hide CoversInt, CoversArg, ActOk, IsRun, Wf, ArgIs, Value, Avail;
    var n := NextArg(m.fns[f], m.fns[f].defs[x].args, 0);
    var l, b, lo, hi := SlicedAt(m, r, i, e, f, x, now);
    ArgCovered(m, r, i, l, f, x, 0, now, b, bases);
    BoundCovered(m, r, i, l, f, x, n, lo, los);
    BoundCovered(m, r, i, l, f, x, n + 1, hi, his);
    StrUnique(now, Value(r, r.acts[i], e, Ref(x)), s, b[lo..hi]);
  }

  lemma BoundCovered(m: Module, r: Run, i: nat, l: nat, f: nat, x: nat, j: nat, n: int, choices: seq<nat>)
    requires Wf(m) && IsRun(m, r) && i < |r.acts| && r.acts[i].fn == f < |m.fns| && 1 <= l < |r.acts[i].path|
    requires x in m.fns[f].defs && m.fns[f].defs[x].Call? && x in m.fns[f].node && m.fns[f].node[x] == r.acts[i].path[l]
    requires j < |m.fns[f].defs[x].args| && CoversInt(m, f, m.fns[f].defs[x].args[j], choices)
    requires Value(r, r.acts[i], l - 1, m.fns[f].defs[x].args[j]) == I(n)
    ensures n in choices
  {
    var args := m.fns[f].defs[x].args;
    assert WfFn(m.fns[f]) && WfDef(m.fns[f], x) && Operands(m.fns[f].defs[x]) == args;
    UseHere(m, r, i, l, f, args[j]);
    assert IntAt(m, r, i, l - 1, f, args[j], n);
  }
}
