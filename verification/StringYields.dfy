// Which strings the collector can come upon, and when it succeeds, stated without its
// walk: the ways in which a string is given, and what each of them needs.
module StringYields {
  import opened Common
  import opened StringCover
  import opened StringInts
  import opened StringRuns
  import opened StringSlots

  const MAX_NAMES := 32

  // A string value of function f, or a string as a pointer and a length.
  datatype Query = Str(f: nat, o: Operand) | PairOf(f: nat, p: Operand, l: Operand)

  ghost predicate InModule(m: Module, q: Query) {
    Wf(m) && q.f < |m.fns|
  }

  // ---- shared steps, stated once more ----

  // o is r behind any number of casts.
  least predicate Behind(f: Fn, o: Operand, r: Operand) {
    o == r || (o.Ref? && o.x in f.defs && f.defs[o.x].Cast? && Behind(f, f.defs[o.x].p, r))
  }

  lemma {:induction false} StripExact(f: Fn, o: Operand, r: Operand)
    requires WfFn(f)
    ensures StripCasts(f, o) == r <==> Behind(f, o, r) && !(r.Ref? && r.x in f.defs && f.defs[r.x].Cast?)
    decreases if o.Ref? then o.x + 1 else 0
  {
    if o.Ref? && o.x in f.defs && f.defs[o.x].Cast? {
      assert WfDef(f, o.x) && Operands(f.defs[o.x])[0] == f.defs[o.x].p;
      StripExact(f, f.defs[o.x].p, r);
    }
  }

  // e is the part k of aggregate o, which was put together piece by piece.
  least predicate PutIn(f: Fn, o: Operand, k: nat, e: Operand) {
    && o.Ref? && o.x in f.defs && f.defs[o.x].Insert?
    && if f.defs[o.x].index == k then e == f.defs[o.x].elem else PutIn(f, f.defs[o.x].agg, k, e)
  }

  lemma {:induction false} InsertedExact(f: Fn, o: Operand, k: nat, e: Operand)
    requires WfFn(f)
    ensures FindInserted(f, o, k) == Some(e) <==> PutIn(f, o, k, e)
    decreases if o.Ref? then o.x + 1 else 0
  {
    if o.Ref? && o.x in f.defs && f.defs[o.x].Insert? && f.defs[o.x].index != k {
      assert WfDef(f, o.x) && Operands(f.defs[o.x])[0] == f.defs[o.x].agg;
      InsertedExact(f, f.defs[o.x].agg, k, e);
    }
  }

  // o loads c from a global whose initializer can be read.
  ghost predicate LoadsInitial(m: Module, f: Fn, o: Operand, c: Const) {
    && o.Ref? && o.x in f.defs && f.defs[o.x].Load?
    && exists b: nat, k :: Behind(f, f.defs[o.x].addr, C(CAddr(b, k))) && HoldsInitially(m, b, k, f.defs[o.x].what, c)
  }

  ghost predicate HoldsInitially(m: Module, b: nat, k: int, what: Access, c: Const) {
    b in m.readable && Cell(b, k, what) in m.init && m.init[Cell(b, k, what)] == c
  }

  lemma FoldedExact(m: Module, f: nat, o: Operand, c: Const)
    requires Wf(m) && f < |m.fns|
    ensures Folded(m, f, o) == Some(c) <==> LoadsInitial(m, m.fns[f], o, c)
  {
    var g := m.fns[f];
    assert WfFn(g);
    if o.Ref? && o.x in g.defs && g.defs[o.x].Load? {
      var a := StripCasts(g, g.defs[o.x].addr);
      forall b: nat, k ensures a == C(CAddr(b, k)) <==> Behind(g, g.defs[o.x].addr, C(CAddr(b, k))) {
        StripExact(g, g.defs[o.x].addr, C(CAddr(b, k)));
      }
      if LoadsInitial(m, g, o, c) {
        var b: nat, k :| Behind(g, g.defs[o.x].addr, C(CAddr(b, k))) && HoldsInitially(m, b, k, g.defs[o.x].what, c);
      }
      if Folded(m, f, o) == Some(c) {
        assert a == C(CAddr(a.c.base, a.c.off));
        assert HoldsInitially(m, a.c.base, a.c.off, g.defs[o.x].what, c);
      }
    }
  }

  // The bytes of an initializer at a pointer and length, when both are known and in range.
  // Whether the array is constant is not asked.
  function ReadConstant(m: Module, p: Operand, l: Operand): (r: Option<string>) {
    if !(l.C? && l.c.CInt? && l.c.n >= 0 && p.C? && p.c.CAddr? && p.c.base in m.texts && p.c.off >= 0) then None
    else
      var g, o, n := m.texts[p.c.base], p.c.off, l.c.n;
      if o > |g| || n > |g| - o then None else Some(g[o..o + n])
  }

  // s stands in a byte array, between other bytes.
  ghost predicate StandsIn(m: Module, p: Operand, l: Operand, s: string) {
    exists b: nat, before, after ::
      b in m.texts && m.texts[b] == before + s + after && p == C(CAddr(b, |before|)) && l == C(CInt(|s|))
  }

  lemma ReadExact(m: Module, p: Operand, l: Operand, s: string)
    ensures ReadConstant(m, p, l) == Some(s) <==> StandsIn(m, p, l, s)
  {
    if ReadConstant(m, p, l) == Some(s) {
      var g, o, n := m.texts[p.c.base], p.c.off, l.c.n;
      assert g == g[..o] + s + g[o + n..];
      assert p == C(CAddr(p.c.base, |g[..o]|)) && l == C(CInt(|s|));
    }
    if StandsIn(m, p, l, s) {
      var b: nat, before, after :|
        b in m.texts && m.texts[b] == before + s + after && p == C(CAddr(b, |before|)) && l == C(CInt(|s|));
      assert (before + s + after)[|before|..|before| + |s|] == s;
    }
  }

  // ---- the ways a string is given ----

  // By folding loads; by all callers, all returns or the initializer of a global; by its
  // parts; by the branches of a choice; by the slots of a table or of a local array; by the
  // aggregate its pointer and length were taken from.
  datatype Alt = Folding | FromCallers | FromReturns | Initial | Parts | Branches | Table | LocalArray | Whole

  ghost predicate Foldable(m: Module, q: Query)
    requires InModule(m, q)
  {
    q.PairOf? && (Folded(m, q.f, q.p).Some? || Folded(m, q.f, q.l).Some?)
  }

  ghost function LoadedAs(m: Module, f: nat, o: Operand): (w: Operand)
    requires Wf(m) && f < |m.fns|
  {
    if Folded(m, f, o).Some? then C(Folded(m, f, o).value) else o
  }

  // The pointer without casts.
  ghost function Stripped(m: Module, q: Query): (r: Query)
    requires InModule(m, q)
    ensures r.f == q.f
  {
    assert WfFn(m.fns[q.f]);
    if q.PairOf? then PairOf(q.f, StripCasts(m.fns[q.f], q.p), q.l) else q
  }

  predicate IsCall(m: Module, g: nat, x: nat) {
    g < |m.fns| && x in m.fns[g].defs && m.fns[g].defs[x].Call?
  }

  ghost predicate Passed(m: Module, q: Query, g: nat, args: seq<Operand>, r: Query) {
    match q
    case Str(_, o) => o.Arg? && o.i < |args| && r == Str(g, args[o.i])
    case PairOf(_, p, l) =>
      p.Arg? && l == Arg(p.i + 1) && p.i + 1 < |args| && r == PairOf(g, args[p.i], args[p.i + 1])
  }

  ghost predicate Returns(m: Module, q: Query, n: nat, r: Query) {
    && q.Str? && q.o.Ref? && IsCall(m, q.f, q.o.x) && m.fns[q.f].defs[q.o.x].callee.Some?
    && var g := m.fns[q.f].defs[q.o.x].callee.value;
       g < |m.fns| && n in m.fns[g].rets && m.fns[g].rets[n].Some? && r == Str(g, m.fns[g].rets[n].value)
  }

  ghost predicate HasParts(m: Module, q: Query, r: Query)
    requires InModule(m, q)
  {
    assert WfFn(m.fns[q.f]);
    && q.Str? && r.PairOf? && r.f == q.f
    && ((q.o.C? && q.o.c.CPair? && r.p == C(q.o.c.ptr) && r.l == C(q.o.c.len))
        || (FindInserted(m.fns[q.f], q.o, 0) == Some(r.p) && FindInserted(m.fns[q.f], q.o, 1) == Some(r.l)))
  }

  ghost predicate IsSelect(f: Fn, o: Operand) {
    o.Ref? && o.x in f.defs && f.defs[o.x].Select?
  }

  // The pointer and the length choose in the same way: by one condition, or at one node.
  ghost predicate ChooseBoth(f: Fn, p: Operand, l: Operand, u: Operand, v: Operand) {
    (IsSelect(f, p) && IsSelect(f, l) && f.defs[l.x].cond == f.defs[p.x].cond
     && ((u == f.defs[p.x].t && v == f.defs[l.x].t) || (u == f.defs[p.x].f && v == f.defs[l.x].f)))
    || (IsSelect(f, p) && IsNumber(l) && v == l && (u == f.defs[p.x].t || u == f.defs[p.x].f))
    || (PhisTogether(f, p, l) && exists k ::
          k in f.defs[p.x].incoming && k in f.defs[l.x].incoming
          && u == f.defs[p.x].incoming[k] && v == f.defs[l.x].incoming[k])
  }

  ghost predicate PhisTogether(f: Fn, p: Operand, l: Operand) {
    && p.Ref? && p.x in f.defs && f.defs[p.x].Phi? && l.Ref? && l.x in f.defs && f.defs[l.x].Phi?
    && p.x in f.node && l.x in f.node && f.node[p.x] == f.node[l.x]
  }

  ghost predicate Branch(m: Module, q: Query, r: Query)
    requires q.f < |m.fns|
  {
    match q
    case Str(f, o) => r.Str? && r.f == f && Chooses(m, f, o, r.o)
    case PairOf(f, p, l) => r.PairOf? && r.f == f && ChooseBoth(m.fns[f], p, l, r.p, r.l)
  }

  ghost predicate InTable(m: Module, q: Query, s: Slot, r: Query)
    requires InModule(m, q)
  {
    assert WfFn(m.fns[q.f]);
    && q.PairOf? && SlotPair(m.fns[q.f], q.p, q.l) && AddrIs(m, q.f, m.fns[q.f].defs[q.p.x].addr, s)
    && r.PairOf? && r.f == q.f && r.p.C? && r.l.C?
    && HoldsInitially(m, s.base, s.off, m.fns[q.f].defs[q.p.x].what, r.p.c)
    && HoldsInitially(m, s.base, s.off + 8, m.fns[q.f].defs[q.l.x].what, r.l.c)
  }

  ghost predicate InLocal(m: Module, q: Query, x: nat, off: int, r: Query)
    requires InModule(m, q)
  {
    assert WfFn(m.fns[q.f]);
    && q.PairOf? && SlotPair(m.fns[q.f], q.p, q.l) && LocalIs(m, q.f, m.fns[q.f].defs[q.p.x].addr, x, off)
    && r.PairOf? && r.f == q.f && r.p.C? && r.l.C?
    && FindsConst(m.fns[q.f], q.p.x, x, off, r.p.c) && FindsConst(m.fns[q.f], q.l.x, x, off + 8, r.l.c)
  }

  ghost predicate TakenFrom(f: Fn, o: Operand, k: nat, agg: Operand) {
    o.Ref? && o.x in f.defs && f.defs[o.x] == Extract(agg, k)
  }

  // Given this way, q is what r is.
  ghost predicate Need(m: Module, q0: Query, a: Alt, r: Query)
    requires InModule(m, q0)
  {
    var q := Stripped(m, q0);
    match a
    case Folding => Foldable(m, q) && r == PairOf(q.f, LoadedAs(m, q.f, q.p), LoadedAs(m, q.f, q.l))
    case FromCallers => exists g: nat, x: nat :: CallsTo(m, g, x, q.f) && Passed(m, q, g, m.fns[g].defs[x].args, r)
    case FromReturns => exists n :: Returns(m, q, n, r)
    case Initial => q.Str? && Folded(m, q.f, q.o).Some? && r == Str(q.f, C(Folded(m, q.f, q.o).value))
    case Parts => HasParts(m, q, r)
    case Branches => Branch(m, q, r)
    case Table => exists s :: InTable(m, q, s, r)
    case LocalArray => exists x, off :: InLocal(m, q, x, off, r)
    case Whole => IsWhole(m, q, r)
  }

  ghost predicate IsWhole(m: Module, q: Query, r: Query)
    requires q.f < |m.fns|
  {
    q.PairOf? && r.Str? && r.f == q.f && TakenFrom(m.fns[q.f], q.p, 0, r.o) && TakenFrom(m.fns[q.f], q.l, 1, r.o)
  }

  // ---- strings made of strings ----

  // The string that starts at argument i.
  function PartAt(f: Fn, k: nat, args: seq<Operand>, i: nat): (q: Option<Query>) {
    if i < |args| && TypeOf(f, args[i]) == TStr then Some(Str(k, args[i]))
    else if i + 1 < |args| && TypeOf(f, args[i]) == TPtr && TypeOf(f, args[i + 1]) == TInt
    then Some(PairOf(k, args[i], args[i + 1])) else None
  }

  ghost predicate Joined(m: Module, q: Query, left: Query, right: Query) {
    && q.Str? && q.o.Ref? && IsCall(m, q.f, q.o.x) && m.fns[q.f].defs[q.o.x].kind.Cat?
    && var f, args := m.fns[q.f], m.fns[q.f].defs[q.o.x].args;
       PartAt(f, q.f, args, 0) == Some(left) && PartAt(f, q.f, args, NextArg(f, args, 0)) == Some(right)
       && NextArg(f, args, NextArg(f, args, 0)) == |args|
  }

  ghost predicate Cut(m: Module, q: Query, base: Query, lo: Operand, hi: Operand) {
    && q.Str? && q.o.Ref? && IsCall(m, q.f, q.o.x) && m.fns[q.f].defs[q.o.x].kind.Slice?
    && var f, args, bounds := m.fns[q.f], m.fns[q.f].defs[q.o.x].args, m.fns[q.f].defs[q.o.x].kind.bounds;
       var n := NextArg(f, args, 0);
       PartAt(f, q.f, args, 0) == Some(base) && bounds >= 2 && |args| == n + bounds && lo == args[n]
         && hi == args[n + 1]
  }

  // The pointer was taken from an aggregate, and the length is a number.
  ghost predicate Sized(m: Module, q: Query, agg: Operand, n: int)
    requires q.f < |m.fns|
  {
    q.PairOf? && TakenFrom(m.fns[q.f], q.p, 0, agg) && q.l == C(CInt(n))
  }

  ghost predicate Shows(m: Module, q: Query, s: string) {
    match q
    case Str(_, o) => o == C(CZero) && s == ""
    case PairOf(_, p, l) => (l == C(CInt(0)) && s == "") || StandsIn(m, p, l, s)
  }

  // s is one of the strings that q can be seen to be, in some of the ways it is given.
  least predicate Yields(m: Module, q: Query, s: string) {
    && InModule(m, q)
    && (Shows(m, Stripped(m, q), s)
        || (exists a, r :: Need(m, q, a, r) && Yields(m, r, s))
        || (exists left, right, x, y ::
              Joined(m, q, left, right) && Yields(m, left, x) && Yields(m, right, y) && s == x + y)
        || (exists base, lo, hi, x, i: nat, j: nat ::
              && Cut(m, q, base, lo, hi) && Yields(m, base, x)
              && YieldsInt(m, q.f, lo, i) && YieldsInt(m, q.f, hi, j) && i <= j <= |x| && s == x[i..j])
        || (exists agg :: Sized(m, Stripped(m, q), agg, |s|) && Yields(m, Str(q.f, agg), s)))
  }

  // ---- when a string is found ----

  // The globals that text or other parts of initializers are read from.
  function Sources(m: Module): (bs: set<nat>) {
    m.texts.Keys + m.readable
  }

  // q is a parameter, or two of them.
  ghost predicate Takes(f: Fn, q: Query) {
    match q
    case Str(_, o) => o.Arg? && TypeOf(f, o) == TStr
    case PairOf(_, p, l) => p.Arg? && l == Arg(p.i + 1) && TypeOf(f, p) == TPtr && TypeOf(f, l) == TInt
  }

  ghost predicate PassesFor(m: Module, g: nat, x: nat, q: Query) {
    && IsCall(m, g, x)
    && var args := m.fns[g].defs[x].args;
       match q
       case Str(_, o) => o.Arg? && o.i < |args| && TypeOf(m.fns[g], args[o.i]) == TStr
       case PairOf(_, p, _) =>
         && p.Arg? && p.i + 1 < |args|
         && TypeOf(m.fns[g], args[p.i]) == TPtr && TypeOf(m.fns[g], args[p.i + 1]) == TInt
  }

  ghost predicate AllReturn(m: Module, q: Query) {
    && q.Str? && q.o.Ref? && IsCall(m, q.f, q.o.x) && m.fns[q.f].defs[q.o.x].callee.Some?
    && var g := m.fns[q.f].defs[q.o.x].callee.value;
       g < |m.fns| && m.fns[g].rets != map[] && forall n :: n in m.fns[g].rets ==> m.fns[g].rets[n].Some?
  }

  ghost predicate ChoicesMatch(f: Fn, p: Operand, l: Operand) {
    (IsSelect(f, p) && IsSelect(f, l) && f.defs[l.x].cond == f.defs[p.x].cond)
    || (IsSelect(f, p) && IsNumber(l))
    || (PhisTogether(f, p, l) && f.defs[p.x].incoming.Keys == f.defs[l.x].incoming.Keys)
  }

  ghost predicate TableReady(m: Module, q: Query)
    requires InModule(m, q)
  {
    assert WfFn(m.fns[q.f]);
    && q.PairOf? && SlotPair(m.fns[q.f], q.p, q.l)
    && (exists c: nat :: AddrSettles(m, q.f, m.fns[q.f].defs[q.p.x].addr, c))
    && forall s :: AddrIs(m, q.f, m.fns[q.f].defs[q.p.x].addr, s) ==> exists r :: InTable(m, q, s, r)
  }

  ghost predicate LocalReady(m: Module, q: Query, x: nat)
    requires InModule(m, q)
  {
    assert WfFn(m.fns[q.f]);
    && q.PairOf? && SlotPair(m.fns[q.f], q.p, q.l) && OnlyConstantUses(m.fns[q.f], x)
    && var addr := m.fns[q.f].defs[q.p.x].addr;
       LocalSettles(m, q.f, addr, x) && (exists off :: LocalIs(m, q.f, addr, x, off))
       && forall off :: LocalIs(m, q.f, addr, x, off) ==> ItemReady(m, q, x, off)
  }

  ghost predicate ItemReady(m: Module, q: Query, x: nat, off: int)
    requires InModule(m, q)
  {
    && (exists r :: InLocal(m, q, x, off, r))
    && (assert WfFn(m.fns[q.f]); AllBefore(m.fns[q.f], q.p.x, x, off) && AllBefore(m.fns[q.f], q.l.x, x, off + 8))
  }

  // This way of giving q applies in full. Loads are folded before anything else.
  ghost predicate Offers(m: Module, q0: Query, a: Alt)
    requires InModule(m, q0)
  {
    var q := Stripped(m, q0);
    && (a == Folding <==> Foldable(m, q))
    && match a
       case Folding => true
       case FromCallers =>
         && q.f !in m.escaped && Takes(m.fns[q.f], q) && (exists g: nat, x: nat :: CallsTo(m, g, x, q.f))
         && forall g: nat, x: nat :: CallsTo(m, g, x, q.f) ==> PassesFor(m, g, x, q)
       case FromReturns => AllReturn(m, q)
       case Initial => q.Str? && Folded(m, q.f, q.o).Some?
       case Parts => exists r :: HasParts(m, q, r)
       case Branches => if q.Str? then IsChoice(m, q.f, q.o) else ChoicesMatch(m.fns[q.f], q.p, q.l)
       case Table => TableReady(m, q)
       case LocalArray => exists x :: LocalReady(m, q, x)
       case Whole => exists r :: IsWhole(m, q, r)
  }

  ghost function Strings(m: Module, q: Query): (ss: iset<string>) {
    iset s | Yields(m, q, s)
  }

  // These strings and the names are few enough.
  ghost predicate RoomWith(more: iset<string>, names: seq<string>) {
    Distinct(names) && exists s: set<string> :: |s| <= MAX_NAMES && Among(more, names, s)
  }

  ghost predicate Among(more: iset<string>, names: seq<string>, s: set<string>) {
    (forall n :: n in names ==> n in s) && forall n :: n in more ==> n in s
  }

  ghost predicate RoomFor(m: Module, q: Query, names: seq<string>) {
    RoomWith(Strings(m, q), names)
  }

  // The bounds are always in range.
  ghost predicate InRange(m: Module, base: Query, f: nat, lo: Operand, hi: Operand) {
    forall x, i: nat, j: nat :: Yields(m, base, x) && YieldsInt(m, f, lo, i) && YieldsInt(m, f, hi, j) ==> i <= j <= |x|
  }

  // Followed from this depth on, q is found if there is room: one way of giving it applies,
  // and what it needs is found.
  ghost predicate Settles(m: Module, q0: Query, depth: nat)
    decreases Room(depth), 2
  {
    && InModule(m, q0) && depth <= MAX_DEPTH
    && var q := Stripped(m, q0);
       if q.Str? then SettlesValue(m, q.f, q.o, depth)
       else if Foldable(m, q) then SettlesBy(m, q, Folding, depth)
       else
         || (exists s :: Shows(m, q, s)) || SettlesBy(m, q, FromCallers, depth) || SettlesBy(m, q, Table, depth)
         || SettlesBy(m, q, LocalArray, depth) || SettlesBy(m, q, Whole, depth) || SettlesBy(m, q, Branches, depth)
  }

  ghost predicate SettlesValue(m: Module, f: nat, o: Operand, depth: nat)
    requires Wf(m) && f < |m.fns|
    decreases Room(depth), 1
  {
    var q := Str(f, o);
    match o
    case C(c) => c == CZero || (c.CPair? && SettlesBy(m, q, Parts, depth))
    case Arg(_) => SettlesBy(m, q, FromCallers, depth)
    case Ref(x) =>
      && x in m.fns[f].defs
      && match m.fns[f].defs[x]
         case Call(_, _, _) =>
           SettlesBy(m, q, FromReturns, depth) || SettlesJoined(m, q, depth) || SettlesCut(m, q, depth)
         case Load(_, _) => SettlesBy(m, q, Initial, depth)
         case Insert(_, _, _) => SettlesBy(m, q, Parts, depth)
         case Select(_, _, _) => SettlesBy(m, q, Branches, depth)
         case Phi(_) => SettlesBy(m, q, Branches, depth)
         case _ => false
  }

  ghost predicate SettlesBy(m: Module, q: Query, a: Alt, depth: nat)
    decreases Room(depth), 0
  {
    && InModule(m, q) && depth <= MAX_DEPTH && Offers(m, q, a)
    && forall r :: Need(m, q, a, r) ==> Settles(m, r, depth + 1)
  }

  ghost predicate SettlesJoined(m: Module, q: Query, depth: nat)
    decreases Room(depth), 0
  {
    && depth <= MAX_DEPTH
    && exists left, right ::
         && Joined(m, q, left, right)
         && Settles(m, left, depth + 1) && Settles(m, right, depth + 1) && RoomFor(m, left, []) && RoomFor(m, right, [])
  }

  ghost predicate SettlesCut(m: Module, q: Query, depth: nat)
    decreases Room(depth), 0
  {
    && depth <= MAX_DEPTH
    && exists base, lo, hi ::
         && Cut(m, q, base, lo, hi) && Settles(m, base, depth + 1) && RoomFor(m, base, [])
         && ReadyInts(m, q.f, lo, [], depth + 1) && ReadyInts(m, q.f, hi, [], depth + 1)
         && InRange(m, base, q.f, lo, hi)
  }

  ghost predicate Ready(m: Module, q: Query, names: seq<string>, depth: nat) {
    Settles(m, q, depth) && RoomFor(m, q, names)
  }

  ghost predicate ReadyBy(m: Module, q: Query, a: Alt, names: seq<string>, depth: nat) {
    SettlesBy(m, q, a, depth) && RoomFor(m, q, names)
  }

  ghost predicate ReadyJoined(m: Module, q: Query, names: seq<string>, depth: nat) {
    SettlesJoined(m, q, depth) && RoomFor(m, q, names)
  }

  ghost predicate ReadyCut(m: Module, q: Query, names: seq<string>, depth: nat) {
    SettlesCut(m, q, depth) && RoomFor(m, q, names)
  }

  // ---- names that are added ----

  // Every name added is one of these strings, and none is added twice.
  ghost predicate AddsFrom(more: iset<string>, names: seq<string>, out: seq<string>) {
    && (forall s :: s in names ==> s in out) && (forall s :: s in out && s !in names ==> s in more)
    && (Distinct(names) ==> Distinct(out))
  }

  ghost predicate Adds(m: Module, q: Query, names: seq<string>, out: seq<string>) {
    AddsFrom(Strings(m, q), names, out)
  }

  lemma AddsTrans(more: iset<string>, a: seq<string>, b: seq<string>, c: seq<string>)
    requires AddsFrom(more, a, b) && AddsFrom(more, b, c)
    ensures AddsFrom(more, a, c)
  {
  }

  lemma Fewer(less: iset<string>, more: iset<string>, names: seq<string>, out: seq<string>)
    requires less <= more
    ensures AddsFrom(less, names, out) ==> AddsFrom(more, names, out)
    ensures RoomWith(more, names) ==> RoomWith(less, names)
  {
    if RoomWith(more, names) {
      var s: set<string> :| |s| <= MAX_NAMES && Among(more, names, s);
      assert Among(less, names, s);
    }
  }

  lemma RoomKept(more: iset<string>, names: seq<string>, out: seq<string>)
    requires AddsFrom(more, names, out)
    ensures RoomWith(more, names) ==> RoomWith(more, out)
  {
    if RoomWith(more, names) {
      var s: set<string> :| |s| <= MAX_NAMES && Among(more, names, s);
      assert Among(more, out, s);
    }
  }

  // There is room for one more of the strings.
  lemma RoomForName(more: iset<string>, names: seq<string>, name: string)
    requires RoomWith(more, names) && name in more && name !in names
    ensures |names| < MAX_NAMES
  {
    var s: set<string> :| |s| <= MAX_NAMES && Among(more, names, s);
    DistinctFits(names, s - {name});
  }

  lemma NeedYields(m: Module, q: Query, a: Alt, r: Query)
    requires InModule(m, q) && Need(m, q, a, r)
    ensures Strings(m, r) <= Strings(m, q)
  {
    hide Need;
    forall s | Yields(m, r, s) ensures Yields(m, q, s) {
    }
  }

  lemma AddsVia(m: Module, q: Query, a: Alt, r: Query, names: seq<string>, out: seq<string>)
    requires InModule(m, q) && Need(m, q, a, r) && Adds(m, r, names, out)
    ensures Adds(m, q, names, out)
  {
    NeedYields(m, q, a, r);
    Fewer(Strings(m, r), Strings(m, q), names, out);
  }

  // What a way needs is ready after more names of q.
  lemma ReadyVia(m: Module, q: Query, a: Alt, r: Query, names: seq<string>, mid: seq<string>, depth: nat)
    requires InModule(m, q) && Need(m, q, a, r) && Adds(m, q, names, mid)
    ensures ReadyBy(m, q, a, names, depth) ==> Ready(m, r, mid, depth + 1)
  {
    hide Need, Offers, Yields, RoomWith, AddsFrom;
    RoomKept(Strings(m, q), names, mid);
    NeedYields(m, q, a, r);
    Fewer(Strings(m, r), Strings(m, q), mid, mid);
  }

  // One sub-query of a way, all at once.
  lemma StepVia(m: Module, q: Query, a: Alt, r: Query, names: seq<string>, mid: seq<string>, out: seq<string>)
    requires InModule(m, q) && Need(m, q, a, r) && Adds(m, q, names, mid) && Adds(m, r, mid, out)
    ensures Adds(m, q, names, out)
  {
    AddsVia(m, q, a, r, mid, out);
    AddsTrans(Strings(m, q), names, mid, out);
  }

  // ---- strings made of strings, again ----

  lemma JoinYields(m: Module, q: Query, left: Query, right: Query, x: string, y: string)
    requires InModule(m, q) && Joined(m, q, left, right) && Yields(m, left, x) && Yields(m, right, y)
    ensures Yields(m, q, x + y)
  {
    hide Joined;
  }

  lemma CutYields(m: Module, q: Query, base: Query, lo: Operand, hi: Operand, x: string, i: nat, j: nat)
    requires InModule(m, q) && Cut(m, q, base, lo, hi) && Yields(m, base, x)
    requires YieldsInt(m, q.f, lo, i) && YieldsInt(m, q.f, hi, j) && i <= j <= |x|
    ensures Yields(m, q, x[i..j])
  {
    hide Cut;
  }

  lemma SizedYields(m: Module, q: Query, agg: Operand, s: string)
    requires InModule(m, q) && Sized(m, Stripped(m, q), agg, |s|) && Yields(m, Str(q.f, agg), s)
    ensures Yields(m, q, s)
  {
    hide Sized;
  }

  // With the pointer stripped it is the same.
  lemma StripSame(m: Module, q: Query)
    requires InModule(m, q)
    ensures Stripped(m, Stripped(m, q)) == Stripped(m, q)
  {
    assert WfFn(m.fns[q.f]);
    if q.PairOf? {
      StripExact(m.fns[q.f], q.p, Stripped(m, q).p);
    }
  }

  lemma StripNeeds(m: Module, q: Query, a: Alt, r: Query)
    requires InModule(m, q)
    ensures Need(m, q, a, r) == Need(m, Stripped(m, q), a, r) && Offers(m, q, a) == Offers(m, Stripped(m, q), a)
  {
    StripSame(m, q);
  }

  lemma StripYields(m: Module, q: Query)
    requires InModule(m, q)
    ensures Strings(m, q) == Strings(m, Stripped(m, q))
  {
    var q' := Stripped(m, q);
    StripSame(m, q);
    forall a, r ensures Need(m, q, a, r) == Need(m, q', a, r) {
      StripNeeds(m, q, a, r);
    }
    forall s ensures Yields(m, q, s) == Yields(m, q', s) {
      OneStrip(m, q, q', s);
    }
  }

  lemma OneStrip(m: Module, q: Query, q': Query, s: string)
    requires InModule(m, q) && q' == Stripped(m, q) && Stripped(m, q') == q'
    requires forall a, r :: Need(m, q, a, r) == Need(m, q', a, r)
    ensures Yields(m, q, s) == Yields(m, q', s)
  {
    hide Need, Sized, Shows;
  }

  lemma StripSettles(m: Module, q: Query, depth: nat)
    requires InModule(m, q)
    ensures Settles(m, q, depth) <==> Settles(m, Stripped(m, q), depth)
  {
    hide SettlesBy, SettlesValue;
    StripSame(m, q);
  }

  lemma ValueSettles(m: Module, f: nat, o: Operand, depth: nat)
    requires Wf(m) && f < |m.fns| && Settles(m, Str(f, o), depth)
    ensures SettlesValue(m, f, o, depth)
  {
    hide SettlesBy, SettlesJoined, SettlesCut;
  }
}
