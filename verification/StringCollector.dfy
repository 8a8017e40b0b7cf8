// Collecting the names a MethodByName call can be given: all or nothing, bounded in
// depth and in the number of names. Success means that in every run of the module the
// string is one of the names. Names left behind by an alternative that failed stay.
module StringCollector {
  import opened Common
  import opened StringCover
  import opened StringRuns
  import opened StringInts
  import opened StringSlots
  import opened StringYields

  const NONE: Found := Found([], {})

  ghost predicate Grows(names: seq<string>, out: seq<string>) {
    |out| <= MAX_NAMES && forall s :: s in names ==> s in out
  }

  // More names, read from more globals.
  ghost predicate Extends(m: Module, names: Found, out: Found) {
    Grows(names.names, out.names) && names.sources <= out.sources <= names.sources + Sources(m)
  }

  method AddName(names: seq<string>, name: string) returns (ok: bool, out: seq<string>)
    requires |names| <= MAX_NAMES
    ensures Grows(names, out) && (ok <==> name in out)
    ensures ok <==> name in names || |names| < MAX_NAMES
    ensures forall s :: s in out ==> s in names || s == name
    ensures Distinct(names) ==> Distinct(out)
  {
    if name in names {
      return true, names;
    }
    if |names| >= MAX_NAMES {
      return false, names;
    }
    return true, names + [name];
  }

  // One of the strings that may be added.
  method AddFrom(ghost more: iset<string>, ghost names: seq<string>, mid: seq<string>, name: string)
    returns (ok: bool, out: seq<string>)
    requires |mid| <= MAX_NAMES && AddsFrom(more, names, mid) && name in more
    ensures Grows(mid, out) && AddsFrom(more, names, out) && (ok ==> name in out)
    ensures ok <==> name in mid || |mid| < MAX_NAMES
    ensures forall s :: s in out ==> s in mid || s == name
    ensures RoomWith(more, names) ==> ok
  {
    ok, out := AddName(mid, name);
    if RoomWith(more, names) && name !in mid {
      RoomKept(more, names, mid);
      RoomForName(more, mid, name);
    }
  }

  // A name of q, read from these globals.
  method AddFound(m: Module, ghost q: Query, names: Found, name: string, sources: set<nat>)
    returns (ok: bool, out: Found)
    requires |names.names| <= MAX_NAMES && sources <= Sources(m) && Yields(m, q, name)
    ensures Extends(m, names, out) && (ok ==> name in out.names)
    ensures ok <==> name in names.names || |names.names| < MAX_NAMES
    ensures forall s :: s in out.names ==> s in names.names || s == name
    ensures out.sources == names.sources + sources
    ensures Adds(m, q, names.names, out.names) && (RoomFor(m, q, names.names) ==> ok)
  {
    hide Yields;
    var texts;
    assert name in Strings(m, q);
    ok, texts := AddFrom(Strings(m, q), names.names, names.names, name);
    out := Found(texts, names.sources + sources);
  }

  // ---- more names still cover ----

  lemma MorePair(m: Module, f: nat, p: Operand, l: Operand, names: Found, out: Found)
    requires CoversPair(m, f, p, l, names) && Grows(names.names, out.names) && names.sources <= out.sources
    ensures CoversPair(m, f, p, l, out)
  {
    hide PairAt, Kept;
  }

  lemma MoreValue(m: Module, f: nat, o: Operand, names: Found, out: Found)
    requires CoversValue(m, f, o, names) && Grows(names.names, out.names) && names.sources <= out.sources
    ensures CoversValue(m, f, o, out)
  {
    hide ValueAt, Kept;
  }

  // ---- concatenation and slicing of finished sets ----

  ghost function Joins(ps: seq<string>, ss: seq<string>): (all: iset<string>) {
    iset p, s | p in ps && s in ss :: p + s
  }

  method AddConcatenated(names: seq<string>, ps: seq<string>, ss: seq<string>) returns (ok: bool, out: seq<string>)
    requires |names| <= MAX_NAMES
    ensures Grows(names, out) && AddsFrom(Joins(ps, ss), names, out)
    ensures ok ==> forall p, s :: p in ps && s in ss ==> p + s in out
    ensures RoomWith(Joins(ps, ss), names) ==> ok
  {
    hide AddsFrom, RoomWith;
    out := names;
    AddsNone(Joins(ps, ss), names);
    for i := 0 to |ps|
      invariant Grows(names, out) && AddsFrom(Joins(ps, ss), names, out)
      invariant forall p, s :: p in ps[..i] && s in ss ==> p + s in out
    {
      for j := 0 to |ss|
        invariant Grows(names, out) && AddsFrom(Joins(ps, ss), names, out)
        invariant forall p, s :: p in ps[..i] && s in ss ==> p + s in out
        invariant forall s :: s in ss[..j] ==> ps[i] + s in out
      {
        assert ps[i] in ps && ss[j] in ss;
        ok, out := AddFrom(Joins(ps, ss), names, out, ps[i] + ss[j]);
        if !ok {
          return;
        }
        assert ss[..j + 1] == ss[..j] + [ss[j]];
      }
      assert ss[..|ss|] == ss && ps[..i + 1] == ps[..i] + [ps[i]];
    }
    assert ps[..|ps|] == ps;
    ok := true;
  }

  lemma AddsNone(more: iset<string>, names: seq<string>)
    ensures AddsFrom(more, names, names)
  {
  }

  // The slices of the bases between these bounds.
  ghost function Cuts(bases: seq<string>, los: seq<nat>, his: seq<nat>): (all: iset<string>) {
    iset b, i: nat, j: nat | b in bases && i in los && j in his && i <= j <= |b| :: b[i..j]
  }

  ghost predicate CutsFit(bases: seq<string>, los: seq<nat>, his: seq<nat>) {
    forall b, i: nat, j: nat :: b in bases && i in los && j in his ==> i <= j <= |b|
  }

  method AddSlices(names: seq<string>, bases: seq<string>, los: seq<nat>, his: seq<nat>)
    returns (ok: bool, out: seq<string>)
    requires |names| <= MAX_NAMES
    ensures Grows(names, out) && AddsFrom(Cuts(bases, los, his), names, out)
    ensures ok ==> Slices(bases, los, his, out)
    ensures CutsFit(bases, los, his) && RoomWith(Cuts(bases, los, his), names) ==> ok
  {
    hide AddsFrom, RoomWith, Cuts;
    out := names;
    AddsNone(Cuts(bases, los, his), names);
    for i := 0 to |bases|
      invariant Grows(names, out) && AddsFrom(Cuts(bases, los, his), names, out) && Slices(bases[..i], los, his, out)
    {
      for j := 0 to |los|
        invariant Grows(names, out) && AddsFrom(Cuts(bases, los, his), names, out)
        invariant Slices(bases[..i], los, his, out) && Slices([bases[i]], los[..j], his, out)
      {
        for k := 0 to |his|
          invariant Grows(names, out) && AddsFrom(Cuts(bases, los, his), names, out)
          invariant Slices(bases[..i], los, his, out) && Slices([bases[i]], los[..j], his, out)
          invariant Slices([bases[i]], [los[j]], his[..k], out)
        {
          assert bases[i] in bases && los[j] in los && his[k] in his;
          if los[j] > his[k] || his[k] > |bases[i]| {
            return false, out;
          }
          IsCut(bases, los, his, bases[i], los[j], his[k]);
          ok, out := AddFrom(Cuts(bases, los, his), names, out, bases[i][los[j]..his[k]]);
          if !ok {
            return;
          }
          assert his[..k + 1] == his[..k] + [his[k]];
        }
        assert his[..|his|] == his && los[..j + 1] == los[..j] + [los[j]];
      }
      assert los[..|los|] == los && bases[..i + 1] == bases[..i] + [bases[i]];
    }
    assert bases[..|bases|] == bases;
    ok := true;
  }

  lemma IsCut(bases: seq<string>, los: seq<nat>, his: seq<nat>, b: string, i: nat, j: nat)
    requires b in bases && i in los && j in his && i <= j <= |b|
    ensures b[i..j] in Cuts(bases, los, his)
  {
  }

  // ---- strings ----

  // A folded operand and the global it was read from, if it was.
  datatype Simple = Simple(o: Operand, sources: set<nat>)

  function FoldLoad(m: Module, f: nat, o: Operand): (r: Simple)
    requires Wf(m) && f < |m.fns|
  {
    var c := Folded(m, f, o);
    if c.Some? then Simple(C(c.value), {FoldedFrom(m, f, o)}) else Simple(o, {})
  }

  lemma FoldKeeps(m: Module, f: nat, o: Operand)
    requires Wf(m) && f < |m.fns|
    ensures SameValue(m, f, o, FoldLoad(m, f, o).o, FoldLoad(m, f, o).sources)
  {
    if Folded(m, f, o).Some? {
      LoadFolds(m, f, o);
    }
  }

  lemma MoreSources(m: Module, f: nat, o: Operand, w: Operand, sources: set<nat>, more: set<nat>)
    requires SameValue(m, f, o, w, sources) && sources <= more
    ensures SameValue(m, f, o, w, more)
  {
    hide Here, Value, Kept;
    forall r | KeptAll(m, r, more) ensures KeptAll(m, r, sources) {
    }
  }

  // The pointer stripped and both loads folded: the same string.
  lemma Simplified(m: Module, f: nat, p: Operand, l: Operand, names: Found)
    requires Wf(m) && f < |m.fns|
    requires var q := FoldLoad(m, f, StripCasts(m.fns[f], p));
             var k := FoldLoad(m, f, l);
             CoversPair(m, f, q.o, k.o, names) && q.sources + k.sources <= names.sources
    ensures CoversPair(m, f, p, l, names)
  {
    hide SameValue, CoversPair, Folded, FoldLoad;
    var q := StripCasts(m.fns[f], p);
    StripKeeps(m, f, p);
    FoldKeeps(m, f, q);
    FoldKeeps(m, f, l);
    SameItself(m, f, l);
    MoreSources(m, f, p, q, {}, names.sources);
    MoreSources(m, f, l, l, {}, names.sources);
    MoreSources(m, f, q, FoldLoad(m, f, q).o, FoldLoad(m, f, q).sources, names.sources);
    MoreSources(m, f, l, FoldLoad(m, f, l).o, FoldLoad(m, f, l).sources, names.sources);
    SamePair(m, f, q, FoldLoad(m, f, q).o, l, FoldLoad(m, f, l).o, names);
    SamePair(m, f, p, q, l, l, names);
  }

  lemma SameItself(m: Module, f: nat, o: Operand)
    ensures SameValue(m, f, o, o, {})
  {
  }

  datatype CallAt = CallAt(fn: nat, call: nat)

  // All direct calls of a function.
  function Callers(m: Module, f: nat): (s: set<CallAt>) {
    set g: nat, x: nat | g < |m.fns| && x in m.fns[g].defs && m.fns[g].defs[x].Call?
      && m.fns[g].defs[x].callee == Some(f) :: CallAt(g, x)
  }

  // The names cover what call x of function g passes as arguments j and j + 1.
  ghost predicate PassesPair(m: Module, g: nat, x: nat, j: nat, names: Found) {
    && IsCall(m, g, x) && j + 1 < |m.fns[g].defs[x].args|
    && CoversPair(m, g, m.fns[g].defs[x].args[j], m.fns[g].defs[x].args[j + 1], names)
  }

  ghost predicate PassesValue(m: Module, g: nat, x: nat, j: nat, names: Found) {
    && IsCall(m, g, x) && j < |m.fns[g].defs[x].args|
    && CoversValue(m, g, m.fns[g].defs[x].args[j], names)
  }

  ghost predicate PairPassed(m: Module, done: set<CallAt>, j: nat, names: Found) {
    forall c :: c in done ==> PassesPair(m, c.fn, c.call, j, names)
  }

  ghost predicate ValuePassed(m: Module, done: set<CallAt>, j: nat, names: Found) {
    forall c :: c in done ==> PassesValue(m, c.fn, c.call, j, names)
  }

  lemma CallersWhen(m: Module, q: Query, names: Found, depth: nat)
    requires InModule(m, q) && Stripped(m, q) == q
    ensures ReadyBy(m, q, FromCallers, names.names, depth) ==>
              && q.f !in m.escaped && Takes(m.fns[q.f], q) && Callers(m, q.f) != {}
              && forall c :: c in Callers(m, q.f) ==> PassesFor(m, c.fn, c.call, q)
  {
    hide RoomFor, Need;
    if ReadyBy(m, q, FromCallers, names.names, depth) {
      var g: nat, x: nat :| CallsTo(m, g, x, q.f);
      assert CallAt(g, x) in Callers(m, q.f);
      forall c | c in Callers(m, q.f) ensures PassesFor(m, c.fn, c.call, q) {
        assert CallsTo(m, c.fn, c.call, q.f);
      }
    }
  }

  // A string argument passed as pointer and length, from all callers.
  method CollectPairArg(m: Module, f: nat, p: Operand, l: Operand, names: Found, depth: nat)
    returns (ok: bool, out: Found)
    requires Wf(m) && f < |m.fns| && |names.names| <= MAX_NAMES && depth <= MAX_DEPTH
    requires Stripped(m, PairOf(f, p, l)) == PairOf(f, p, l)
    ensures Extends(m, names, out) && Adds(m, PairOf(f, p, l), names.names, out.names)
    ensures ok ==> CoversPair(m, f, p, l, out)
    ensures ReadyBy(m, PairOf(f, p, l), FromCallers, names.names, depth) ==> ok
    ensures !p.Arg? ==> !ok && out == names
    decreases Room(depth), 2
  {
    hide Adds, ReadyBy, CoversPair, PairPassed, Need, Stripped;
    out := names;
    ghost var q := PairOf(f, p, l);
    NothingAdded(m, q, names);
    CallersWhen(m, q, names, depth);
    if !p.Arg? || !l.Arg? || l.i != p.i + 1 || TypeOf(m.fns[f], p) != TPtr || TypeOf(m.fns[f], l) != TInt {
      return false, out;
    }
    var callers := Callers(m, f);
    if f in m.escaped || callers == {} {
      return false, out;
    }
    ok, out := CollectPassedPair(m, q, callers, p.i, names, depth);
    if ok {
      PassedPair(m, f, p.i, out);
    }
  }

  // The operands j and j + 1 of the calls.
  method CollectPassedPair(m: Module, ghost q: Query, calls: set<CallAt>, j: nat, names: Found, depth: nat)
    returns (ok: bool, out: Found)
    requires InModule(m, q) && |names.names| <= MAX_NAMES && depth <= MAX_DEPTH && q == PairOf(q.f, Arg(j), Arg(j + 1))
    requires forall c :: c in calls ==> CallsTo(m, c.fn, c.call, q.f)
    ensures Extends(m, names, out) && Adds(m, q, names.names, out.names)
    ensures ok ==> PairPassed(m, calls, j, out)
    ensures ReadyBy(m, q, FromCallers, names.names, depth) ==> ok
    decreases Room(depth), 1
  {
    hide PairPassed, PassesPair, Wf, Adds, ReadyBy;
    out := names;
    NothingAdded(m, q, names);
    var todo := calls;
    ghost var done := {};
    NoPairPassed(m, j, out);
    while todo != {}
      invariant todo <= calls && calls == done + todo && Extends(m, names, out) && PairPassed(m, done, j, out)
      invariant Adds(m, q, names.names, out.names)
      decreases |todo|
    {
      var c :| c in todo;
      ghost var was := out;
      ok, out := CollectPassedPairOf(m, q, names, c.fn, c.call, j, out, depth);
      if !ok {
        return;
      }
      MorePassedPair(m, done, j, was, out, c);
      todo, done := todo - {c}, done + {c};
    }
    assert done == calls;
    ok := true;
  }

  method CollectPassedPairOf(m: Module, ghost q: Query, ghost first: Found, g: nat, x: nat, j: nat, names: Found,
                             depth: nat)
    returns (ok: bool, out: Found)
    requires InModule(m, q) && |names.names| <= MAX_NAMES && depth <= MAX_DEPTH && q == PairOf(q.f, Arg(j), Arg(j + 1))
    requires CallsTo(m, g, x, q.f) && Adds(m, q, first.names, names.names)
    ensures Extends(m, names, out) && Adds(m, q, first.names, out.names)
    ensures ok ==> PassesPair(m, g, x, j, out)
    ensures ReadyBy(m, q, FromCallers, first.names, depth) ==> ok
    decreases Room(depth), 0
  {
    hide Adds, Ready, RoomFor, CoversPair;
    var args := m.fns[g].defs[x].args;
    if j + 1 >= |args| || TypeOf(m.fns[g], args[j]) != TPtr || TypeOf(m.fns[g], args[j + 1]) != TInt {
      return false, names;
    }
    ghost var r := PairOf(g, args[j], args[j + 1]);
    assert Passed(m, q, g, args, r);
    ReadyVia(m, q, FromCallers, r, first.names, names.names, depth);
    ok, out := CollectPair(m, g, args[j], args[j + 1], names, depth + 1);
    StepVia(m, q, FromCallers, r, first.names, names.names, out.names);
  }

  lemma NothingAdded(m: Module, q: Query, names: Found)
    ensures Adds(m, q, names.names, names.names)
  {
  }

  lemma NoPairPassed(m: Module, j: nat, names: Found)
    ensures PairPassed(m, {}, j, names)
  {
  }

  lemma MorePassedPair(m: Module, done: set<CallAt>, j: nat, names: Found, out: Found, c: CallAt)
    requires PairPassed(m, done, j, names) && Extends(m, names, out) && PassesPair(m, c.fn, c.call, j, out)
    ensures PairPassed(m, done + {c}, j, out)
  {
    forall d | d in done ensures PassesPair(m, d.fn, d.call, j, out) {
      MorePair(m, d.fn, m.fns[d.fn].defs[d.call].args[j], m.fns[d.fn].defs[d.call].args[j + 1], names, out);
    }
  }

  lemma PassedPair(m: Module, f: nat, j: nat, names: Found)
    requires f < |m.fns| && f !in m.escaped && j + 1 < |m.fns[f].params| && PairPassed(m, Callers(m, f), j, names)
    ensures CoversPair(m, f, Arg(j), Arg(j + 1), names)
  {
    forall g: nat, x: nat | CallsTo(m, g, x, f) ensures PassesPair(m, g, x, j, names) {
      assert CallAt(g, x) in Callers(m, f);
    }
    PairArg(m, f, j, names);
  }

  // A string argument passed whole, from all callers.
  method CollectValueArg(m: Module, f: nat, o: Operand, names: Found, depth: nat)
    returns (ok: bool, out: Found)
    requires Wf(m) && f < |m.fns| && |names.names| <= MAX_NAMES && depth <= MAX_DEPTH
    ensures Extends(m, names, out) && Adds(m, Str(f, o), names.names, out.names)
    ensures ok ==> CoversValue(m, f, o, out)
    ensures ReadyBy(m, Str(f, o), FromCallers, names.names, depth) ==> ok
    decreases Room(depth), 2
  {
    hide Adds, ReadyBy, CoversValue, ValuePassed, Need;
    out := names;
    ghost var q := Str(f, o);
    NothingAdded(m, q, names);
    CallersWhen(m, q, names, depth);
    if !o.Arg? || TypeOf(m.fns[f], o) != TStr {
      return false, out;
    }
    var callers := Callers(m, f);
    if f in m.escaped || callers == {} || exists c :: c in callers && o.i >= |m.fns[c.fn].defs[c.call].args| {
      return false, out;
    }
    ok, out := CollectPassedValue(m, q, callers, o.i, names, depth);
    if ok {
      PassedValue(m, f, o.i, out);
    }
  }

  // Operand j of the calls.
  method CollectPassedValue(m: Module, ghost q: Query, calls: set<CallAt>, j: nat, names: Found, depth: nat)
    returns (ok: bool, out: Found)
    requires InModule(m, q) && |names.names| <= MAX_NAMES && depth <= MAX_DEPTH && q == Str(q.f, Arg(j))
    requires forall c :: c in calls ==> CallsTo(m, c.fn, c.call, q.f)
    ensures Extends(m, names, out) && Adds(m, q, names.names, out.names)
    ensures ok ==> ValuePassed(m, calls, j, out)
    ensures ReadyBy(m, q, FromCallers, names.names, depth) ==> ok
    decreases Room(depth), 1
  {
    hide ValuePassed, PassesValue, Wf, Adds, ReadyBy;
    out := names;
    NothingAdded(m, q, names);
    var todo := calls;
    ghost var done := {};
    NoValuePassed(m, j, out);
    while todo != {}
      invariant todo <= calls && calls == done + todo && Extends(m, names, out) && ValuePassed(m, done, j, out)
      invariant Adds(m, q, names.names, out.names)
      decreases |todo|
    {
      var c :| c in todo;
      ghost var was := out;
      ok, out := CollectPassedValueOf(m, q, names, c.fn, c.call, j, out, depth);
      if !ok {
        return;
      }
      MorePassedValue(m, done, j, was, out, c);
      todo, done := todo - {c}, done + {c};
    }
    assert done == calls;
    ok := true;
  }

  method CollectPassedValueOf(m: Module, ghost q: Query, ghost first: Found, g: nat, x: nat, j: nat, names: Found,
                              depth: nat)
    returns (ok: bool, out: Found)
    requires InModule(m, q) && |names.names| <= MAX_NAMES && depth <= MAX_DEPTH && q == Str(q.f, Arg(j))
    requires CallsTo(m, g, x, q.f) && Adds(m, q, first.names, names.names)
    ensures Extends(m, names, out) && Adds(m, q, first.names, out.names)
    ensures ok ==> PassesValue(m, g, x, j, out)
    ensures ReadyBy(m, q, FromCallers, first.names, depth) ==> ok
    decreases Room(depth), 0
  {
    hide Adds, Ready, RoomFor, CoversValue;
    var args := m.fns[g].defs[x].args;
    if j >= |args| || TypeOf(m.fns[g], args[j]) != TStr {
      return false, names;
    }
    ghost var r := Str(g, args[j]);
    assert Passed(m, q, g, args, r);
    ReadyVia(m, q, FromCallers, r, first.names, names.names, depth);
    ok, out := CollectValue(m, g, args[j], names, depth + 1);
    StepVia(m, q, FromCallers, r, first.names, names.names, out.names);
  }

  lemma NoValuePassed(m: Module, j: nat, names: Found)
    ensures ValuePassed(m, {}, j, names)
  {
  }

  lemma MorePassedValue(m: Module, done: set<CallAt>, j: nat, names: Found, out: Found, c: CallAt)
    requires ValuePassed(m, done, j, names) && Extends(m, names, out) && PassesValue(m, c.fn, c.call, j, out)
    ensures ValuePassed(m, done + {c}, j, out)
  {
    forall d | d in done ensures PassesValue(m, d.fn, d.call, j, out) {
      MoreValue(m, d.fn, m.fns[d.fn].defs[d.call].args[j], names, out);
    }
  }

  lemma PassedValue(m: Module, f: nat, j: nat, names: Found)
    requires f < |m.fns| && f !in m.escaped && j < |m.fns[f].params| && ValuePassed(m, Callers(m, f), j, names)
    ensures CoversValue(m, f, Arg(j), names)
  {
    forall g: nat, x: nat | CallsTo(m, g, x, f) ensures PassesValue(m, g, x, j, names) {
      assert CallAt(g, x) in Callers(m, f);
    }
    ValueArg(m, f, j, names);
  }

  // The values a direct callee can return.
  method CollectReturn(m: Module, f: nat, x: nat, names: Found, depth: nat) returns (ok: bool, out: Found)
    requires Wf(m) && f < |m.fns| && x in m.fns[f].defs && m.fns[f].defs[x].Call? && |names.names| <= MAX_NAMES
             && depth <= MAX_DEPTH
    ensures Extends(m, names, out) && Adds(m, Str(f, Ref(x)), names.names, out.names)
    ensures ok ==> CoversValue(m, f, Ref(x), out)
    ensures ReadyBy(m, Str(f, Ref(x)), FromReturns, names.names, depth) ==> ok
    decreases Room(depth), 1
  {
    hide Adds, ReadyBy, Offers;
    out := names;
    ghost var q := Str(f, Ref(x));
    NothingAdded(m, q, names);
    ReturnsReady(m, f, x, names, depth);
    var callee := m.fns[f].defs[x].callee;
    if callee.None? || callee.value >= |m.fns| {
      return false, out;
    }
    var g := callee.value;
    var rets := m.fns[g].rets;
    var todo := rets.Keys;
    while todo != {}
      invariant todo <= rets.Keys && Extends(m, names, out) && Adds(m, q, names.names, out.names)
      invariant forall n :: n in rets && n !in todo ==> rets[n].Some? && CoversValue(m, g, rets[n].value, out)
      decreases |todo|
    {
      var n :| n in todo;
      todo := todo - {n};
      if rets[n].None? {
        return false, out;
      }
      ghost var was, r := out, Str(g, rets[n].value);
      assert Stripped(m, q) == q && Returns(m, q, n, r);
      ReadyVia(m, q, FromReturns, r, names.names, was.names, depth);
      ok, out := CollectValue(m, g, rets[n].value, out, depth + 1);
      StepVia(m, q, FromReturns, r, names.names, was.names, out.names);
      if !ok {
        return;
      }
    }
    ValueReturn(m, f, x, g, out);
    ok := rets != map[];
  }

  lemma ReturnsReady(m: Module, f: nat, x: nat, names: Found, depth: nat)
    requires Wf(m) && IsCall(m, f, x)
    ensures ReadyBy(m, Str(f, Ref(x)), FromReturns, names.names, depth) ==> AllReturn(m, Str(f, Ref(x)))
  {
  }

  // The string that starts at argument i of a call.
  method ConsumeArg(m: Module, f: nat, args: seq<Operand>, i: nat, names: Found, depth: nat)
    returns (ok: bool, next: nat, out: Found)
    requires Wf(m) && f < |m.fns| && |names.names| <= MAX_NAMES && depth <= MAX_DEPTH
    ensures Extends(m, names, out)
    ensures ok ==> next == NextArg(m.fns[f], args, i) && CoversArg(m, f, args, i, out)
    ensures var r := PartAt(m.fns[f], f, args, i);
            if r.None? then !ok && out == names
            else Adds(m, r.value, names.names, out.names) && (Ready(m, r.value, names.names, depth + 1) ==> ok)
    ensures var name := if i + 1 < |args| then ReadConstant(m, args[i], args[i + 1]) else None;
            depth < MAX_DEPTH && |names.names| < MAX_NAMES && name.Some? ==>
              && ok && name.value in out.names && out.sources <= names.sources + {args[i].c.base}
              && forall s :: s in out.names ==> s in names.names || s == name.value
    decreases Room(depth), 1
  {
    hide Adds, Ready;
    if i >= |args| {
      return false, i, names;
    }
    if TypeOf(m.fns[f], args[i]) == TStr {
      next := i + 1;
      ok, out := CollectValue(m, f, args[i], names, depth + 1);
      return;
    }
    if i + 1 >= |args| || TypeOf(m.fns[f], args[i]) != TPtr || TypeOf(m.fns[f], args[i + 1]) != TInt {
      return false, i, names;
    }
    next := i + 2;
    ok, out := CollectPair(m, f, args[i], args[i + 1], names, depth + 1);
  }

  method CollectCat(m: Module, f: nat, x: nat, names: Found, depth: nat) returns (ok: bool, out: Found)
    requires Wf(m) && f < |m.fns| && x in m.fns[f].defs && m.fns[f].defs[x].Call? && |names.names| <= MAX_NAMES
             && depth <= MAX_DEPTH
    ensures Extends(m, names, out) && Adds(m, Str(f, Ref(x)), names.names, out.names)
    ensures ok ==> CoversValue(m, f, Ref(x), out)
    ensures ReadyJoined(m, Str(f, Ref(x)), names.names, depth) ==> ok
    decreases Room(depth), 2
  {
    hide Adds, Ready, CoversArg, CoversValue, SettlesJoined, RoomFor;
    ghost var q := Str(f, Ref(x));
    NothingAdded(m, q, names);
    var d := m.fns[f].defs[x];
    JoinedWhen(m, f, x, depth);
    if !d.kind.Cat? {
      return false, names;
    }
    var next, ps, ss;
    ok, next, ps := ConsumeArg(m, f, d.args, 0, NONE, depth);
    if ok {
      ok, next, ss := ConsumeArg(m, f, d.args, next, NONE, depth);
    }
    if !ok || next != |d.args| {
      return false, names;
    }
    JoinsWithin(m, q, PartAt(m.fns[f], f, d.args, 0).value,
                PartAt(m.fns[f], f, d.args, NextArg(m.fns[f], d.args, 0)).value, ps.names, ss.names);
    var texts;
    ok, texts := AddConcatenated(names.names, ps.names, ss.names);
    out := Found(texts, names.sources + ps.sources + ss.sources);
    AddsWithin(m, q, Joins(ps.names, ss.names), names.names, texts);
    if ok {
      ValueCat(m, f, x, ps, ss, out);
    }
  }

  // If the concatenation settles, both parts are there, and ready.
  lemma JoinedWhen(m: Module, f: nat, x: nat, depth: nat)
    requires Wf(m) && IsCall(m, f, x)
    ensures var q, args := Str(f, Ref(x)), m.fns[f].defs[x].args;
            var n := NextArg(m.fns[f], args, 0);
            var left, right := PartAt(m.fns[f], f, args, 0), PartAt(m.fns[f], f, args, n);
            SettlesJoined(m, q, depth) ==>
              && m.fns[f].defs[x].kind.Cat? && left.Some? && right.Some? && NextArg(m.fns[f], args, n) == |args|
              && Ready(m, left.value, [], depth + 1) && Ready(m, right.value, [], depth + 1)
  {
    hide RoomFor;
  }

  lemma JoinsWithin(m: Module, q: Query, left: Query, right: Query, ps: seq<string>, ss: seq<string>)
    requires InModule(m, q) && Joined(m, q, left, right) && Adds(m, left, [], ps) && Adds(m, right, [], ss)
    ensures Joins(ps, ss) <= Strings(m, q)
  {
    hide Joined, Yields;
    forall x, y | x in ps && y in ss ensures Yields(m, q, x + y) {
      JoinYields(m, q, left, right, x, y);
    }
  }

  lemma AddsWithin(m: Module, q: Query, less: iset<string>, names: seq<string>, out: seq<string>)
    requires less <= Strings(m, q) && AddsFrom(less, names, out)
    ensures Adds(m, q, names, out) && (RoomFor(m, q, names) ==> RoomWith(less, names))
  {
    Fewer(less, Strings(m, q), names, out);
  }

  method CollectSlice(m: Module, f: nat, x: nat, names: Found, depth: nat) returns (ok: bool, out: Found)
    requires Wf(m) && f < |m.fns| && x in m.fns[f].defs && m.fns[f].defs[x].Call? && |names.names| <= MAX_NAMES
             && depth <= MAX_DEPTH
    ensures Extends(m, names, out) && Adds(m, Str(f, Ref(x)), names.names, out.names)
    ensures ok ==> CoversValue(m, f, Ref(x), out)
    ensures ReadyCut(m, Str(f, Ref(x)), names.names, depth) ==> ok
    decreases Room(depth), 2
  {
    hide Adds, Ready, CoversArg, CoversValue, CoversInt, SettlesCut, RoomFor, ReadyInts, AddsInts, Known, Slices;
    ghost var q := Str(f, Ref(x));
    NothingAdded(m, q, names);
    var d := m.fns[f].defs[x];
    CutWhen(m, f, x, depth);
    if !d.kind.Slice? || d.kind.bounds < 2 {
      return false, names;
    }
    var next, bases, los, his;
    ok, next, bases := ConsumeArg(m, f, d.args, 0, NONE, depth);
    if !ok || |d.args| != next + d.kind.bounds {
      return false, names;
    }
    ok, los := CollectInts(m, f, d.args[next], [], depth + 1);
    if ok {
      ok, his := CollectInts(m, f, d.args[next + 1], [], depth + 1);
    }
    if !ok {
      return false, names;
    }
    CutsWithin(m, q, PartAt(m.fns[f], f, d.args, 0).value, d.args[next], d.args[next + 1], bases.names, los, his);
    var texts;
    ok, texts := AddSlices(names.names, bases.names, los, his);
    out := Found(texts, names.sources + bases.sources);
    AddsWithin(m, q, Cuts(bases.names, los, his), names.names, texts);
    if ok {
      ValueSlice(m, f, x, bases, los, his, out);
    }
  }

  // If the slice settles, the string is there, and it and the bounds are ready.
  lemma CutWhen(m: Module, f: nat, x: nat, depth: nat)
    requires Wf(m) && IsCall(m, f, x)
    ensures var q, args, kind := Str(f, Ref(x)), m.fns[f].defs[x].args, m.fns[f].defs[x].kind;
            var n, base := NextArg(m.fns[f], args, 0), PartAt(m.fns[f], f, args, 0);
            SettlesCut(m, q, depth) ==>
              && kind.Slice? && kind.bounds >= 2 && base.Some? && |args| == n + kind.bounds
              && Ready(m, base.value, [], depth + 1) && InRange(m, base.value, f, args[n], args[n + 1])
              && ReadyInts(m, f, args[n], [], depth + 1) && ReadyInts(m, f, args[n + 1], [], depth + 1)
  {
    hide RoomFor, ReadyInts, InRange;
  }

  lemma CutsWithin(m: Module, q: Query, base: Query, lo: Operand, hi: Operand, bases: seq<string>, los: seq<nat>,
                   his: seq<nat>)
    requires InModule(m, q) && Cut(m, q, base, lo, hi) && Adds(m, base, [], bases)
    requires AddsInts(m, q.f, lo, [], los) && AddsInts(m, q.f, hi, [], his)
    ensures Cuts(bases, los, his) <= Strings(m, q)
    ensures InRange(m, base, q.f, lo, hi) ==> CutsFit(bases, los, his)
  {
    hide Cut, Yields, YieldsInt;
    forall x, i: nat, j: nat | x in bases && i in los && j in his && i <= j <= |x| ensures Yields(m, q, x[i..j]) {
      CutYields(m, q, base, lo, hi, x, i, j);
    }
    if InRange(m, base, q.f, lo, hi) {
      forall x, i: nat, j: nat | x in bases && i in los && j in his ensures i <= j <= |x| {
        assert Yields(m, base, x) && YieldsInt(m, q.f, lo, i) && YieldsInt(m, q.f, hi, j);
      }
    }
  }

  method CollectConst(m: Module, f: nat, c: Const, names: Found, depth: nat) returns (ok: bool, out: Found)
    requires Wf(m) && f < |m.fns| && |names.names| <= MAX_NAMES && depth <= MAX_DEPTH + 1
    ensures Extends(m, names, out) && Adds(m, Str(f, C(c)), names.names, out.names)
    ensures ok ==> CoversValue(m, f, C(c), out)
    ensures Ready(m, Str(f, C(c)), names.names, depth) ==> ok
    decreases Room(depth), 1
  {
    hide Adds, Settles, SettlesBy, RoomFor, CoversValue, Yields;
    ghost var q := Str(f, C(c));
    NothingAdded(m, q, names);
    if Settles(m, q, depth) {
      ValueSettles(m, f, C(c), depth);
    }
    match c
    case CZero =>
      ZeroYields(m, f);
      ok, out := AddFound(m, q, names, "", {});
      if ok {
        ZeroValue(m, f, out);
      }
    case CPair(p, l) =>
      SettlesShallow(m, q, depth);
      if depth > MAX_DEPTH {
        return false, names;
      }
      ghost var r := PairOf(f, C(p), C(l));
      ConstNeed(m, f, p, l);
      ReadyVia(m, q, Parts, r, names.names, names.names, depth);
      ok, out := CollectPair(m, f, C(p), C(l), names, depth + 1);
      AddsVia(m, q, Parts, r, names.names, out.names);
      if ok {
        PairValue(m, f, p, l, out);
      }
    case _ =>
      ok, out := false, names;
  }

  lemma SettlesShallow(m: Module, q: Query, depth: nat)
    ensures Settles(m, q, depth) ==> depth <= MAX_DEPTH
  {
  }

  lemma ZeroYields(m: Module, f: nat)
    requires Wf(m) && f < |m.fns|
    ensures Yields(m, Str(f, C(CZero)), "")
  {
  }

  lemma ConstNeed(m: Module, f: nat, p: Const, l: Const)
    requires Wf(m) && f < |m.fns|
    ensures Need(m, Str(f, C(CPair(p, l))), Parts, PairOf(f, C(p), C(l)))
  {
  }

  // A string value.
  method CollectValue(m: Module, f: nat, o: Operand, names: Found, depth: nat)
    returns (ok: bool, out: Found)
    requires Wf(m) && f < |m.fns| && |names.names| <= MAX_NAMES
    ensures Extends(m, names, out) && Adds(m, Str(f, o), names.names, out.names)
    ensures ok ==> CoversValue(m, f, o, out)
    ensures Ready(m, Str(f, o), names.names, depth) ==> ok
    decreases Room(depth), 4
  {
    hide Adds, Settles, SettlesBy, SettlesJoined, SettlesCut, RoomFor, CoversValue, Yields;
    out := names;
    ghost var q := Str(f, o);
    NothingAdded(m, q, names);
    SettlesShallow(m, q, depth);
    if depth > MAX_DEPTH {
      return false, out;
    }
    if Settles(m, q, depth) {
      ValueSettles(m, f, o, depth);
    }
    if o.C? {
      ok, out := CollectConst(m, f, o.c, names, depth);
      return;
    }
    if o.Arg? {
      ok, out := CollectValueArg(m, f, o, names, depth);
      return;
    }
    if o.x !in m.fns[f].defs {
      return false, out;
    }
    if m.fns[f].defs[o.x].Call? {
      ok, out := CollectCall(m, f, o.x, names, depth);
      return;
    }
    match m.fns[f].defs[o.x]
    case Load(_, _) =>
      ok, out := CollectLoad(m, f, o.x, names, depth);
    case Insert(_, _, _) =>
      ok, out := CollectInsert(m, f, o.x, names, depth);
    case Select(_, t, u) =>
      ok, out := CollectSelect(m, f, o.x, names, depth);
    case Phi(inc) =>
      ok, out := CollectPhi(m, f, o.x, names, depth);
    case _ =>
      ok := false;
  }

  // The ways a call gives a string, one after the other.
  method CollectCall(m: Module, f: nat, x: nat, names: Found, depth: nat) returns (ok: bool, out: Found)
    requires Wf(m) && IsCall(m, f, x) && |names.names| <= MAX_NAMES && depth <= MAX_DEPTH
    ensures Extends(m, names, out) && Adds(m, Str(f, Ref(x)), names.names, out.names)
    ensures ok ==> CoversValue(m, f, Ref(x), out)
    ensures Ready(m, Str(f, Ref(x)), names.names, depth) ==> ok
    decreases Room(depth), 3
  {
    hide Adds, Settles, SettlesBy, SettlesJoined, SettlesCut, RoomFor, CoversValue;
    ghost var q := Str(f, Ref(x));
    if Settles(m, q, depth) {
      ValueSettles(m, f, Ref(x), depth);
    }
    ok, out := CollectSlice(m, f, x, names, depth);
    if !ok {
      ghost var was := out;
      StillRoom(m, q, names, out);
      ok, out := CollectCat(m, f, x, out, depth);
      MoreAdded(m, q, names, was, out);
    }
    if !ok {
      ghost var was := out;
      StillRoom(m, q, names, out);
      ok, out := CollectReturn(m, f, x, out, depth);
      MoreAdded(m, q, names, was, out);
    }
  }

  lemma StillRoom(m: Module, q: Query, names: Found, out: Found)
    requires Adds(m, q, names.names, out.names)
    ensures RoomFor(m, q, names.names) ==> RoomFor(m, q, out.names)
  {
    RoomKept(Strings(m, q), names.names, out.names);
  }

  lemma MoreAdded(m: Module, q: Query, names: Found, mid: Found, out: Found)
    requires Adds(m, q, names.names, mid.names) && Adds(m, q, mid.names, out.names)
    ensures Adds(m, q, names.names, out.names)
  {
    AddsTrans(Strings(m, q), names.names, mid.names, out.names);
  }

  method CollectLoad(m: Module, f: nat, x: nat, names: Found, depth: nat) returns (ok: bool, out: Found)
    requires Wf(m) && f < |m.fns| && x in m.fns[f].defs && m.fns[f].defs[x].Load? && |names.names| <= MAX_NAMES
             && depth <= MAX_DEPTH
    ensures Extends(m, names, out) && Adds(m, Str(f, Ref(x)), names.names, out.names)
    ensures ok ==> CoversValue(m, f, Ref(x), out)
    ensures ReadyBy(m, Str(f, Ref(x)), Initial, names.names, depth) ==> ok
    decreases Room(depth), 2
  {
    hide Adds, Settles, RoomFor, CoversValue, Yields;
    out := names;
    ghost var q := Str(f, Ref(x));
    NothingAdded(m, q, names);
    var c := Folded(m, f, Ref(x));
    if c.None? {
      return false, out;
    }
    ghost var r := Str(f, C(c.value));
    assert Need(m, q, Initial, r);
    ReadyVia(m, q, Initial, r, names.names, names.names, depth);
    ok, out := CollectConst(m, f, c.value, out, depth + 1);
    AddsVia(m, q, Initial, r, names.names, out.names);
    ghost var was := out;
    out := out.(sources := out.sources + {FoldedFrom(m, f, Ref(x))});
    if ok {
      MoreValue(m, f, C(c.value), was, out);
      LoadFolds(m, f, Ref(x));
      MoreSources(m, f, Ref(x), C(c.value), {FoldedFrom(m, f, Ref(x))}, out.sources);
      SameStr(m, f, Ref(x), C(c.value), out);
    }
  }

  method CollectInsert(m: Module, f: nat, x: nat, names: Found, depth: nat) returns (ok: bool, out: Found)
    requires Wf(m) && f < |m.fns| && x in m.fns[f].defs && m.fns[f].defs[x].Insert? && |names.names| <= MAX_NAMES
             && depth <= MAX_DEPTH
    ensures Extends(m, names, out) && Adds(m, Str(f, Ref(x)), names.names, out.names)
    ensures ok ==> CoversValue(m, f, Ref(x), out)
    ensures ReadyBy(m, Str(f, Ref(x)), Parts, names.names, depth) ==> ok
    decreases Room(depth), 1
  {
    hide Adds, Settles, RoomFor, CoversPair, CoversValue, Yields;
    out := names;
    ghost var q := Str(f, Ref(x));
    NothingAdded(m, q, names);
    assert WfFn(m.fns[f]);
    var p, l := FindInserted(m.fns[f], Ref(x), 0), FindInserted(m.fns[f], Ref(x), 1);
    if p.None? || l.None? {
      return false, out;
    }
    ghost var r := PairOf(f, p.value, l.value);
    assert Need(m, q, Parts, r);
    ReadyVia(m, q, Parts, r, names.names, names.names, depth);
    ok, out := CollectPair(m, f, p.value, l.value, out, depth + 1);
    AddsVia(m, q, Parts, r, names.names, out.names);
    if ok {
      ValueInsert(m, f, x, p.value, l.value, out);
    }
  }

  method CollectSelect(m: Module, f: nat, x: nat, names: Found, depth: nat) returns (ok: bool, out: Found)
    requires Wf(m) && f < |m.fns| && x in m.fns[f].defs && m.fns[f].defs[x].Select? && |names.names| <= MAX_NAMES
             && depth <= MAX_DEPTH
    ensures Extends(m, names, out) && Adds(m, Str(f, Ref(x)), names.names, out.names)
    ensures ok ==> CoversValue(m, f, Ref(x), out)
    ensures ReadyBy(m, Str(f, Ref(x)), Branches, names.names, depth) ==> ok
    decreases Room(depth), 1
  {
    hide Adds, Settles, RoomFor, CoversValue, Yields;
    var d := m.fns[f].defs[x];
    ghost var q := Str(f, Ref(x));
    NothingAdded(m, q, names);
    assert Need(m, q, Branches, Str(f, d.t)) && Need(m, q, Branches, Str(f, d.f));
    ReadyVia(m, q, Branches, Str(f, d.t), names.names, names.names, depth);
    ok, out := CollectValue(m, f, d.t, names, depth + 1);
    AddsVia(m, q, Branches, Str(f, d.t), names.names, out.names);
    if ok {
      ghost var was := out;
      ReadyVia(m, q, Branches, Str(f, d.f), names.names, was.names, depth);
      ok, out := CollectValue(m, f, d.f, out, depth + 1);
      StepVia(m, q, Branches, Str(f, d.f), names.names, was.names, out.names);
      if ok {
        MoreValue(m, f, d.t, was, out);
        ValueSelect(m, f, x, out);
      }
    }
  }

  method CollectPhi(m: Module, f: nat, x: nat, names: Found, depth: nat) returns (ok: bool, out: Found)
    requires Wf(m) && f < |m.fns| && x in m.fns[f].defs && m.fns[f].defs[x].Phi? && |names.names| <= MAX_NAMES
             && depth <= MAX_DEPTH
    ensures Extends(m, names, out) && Adds(m, Str(f, Ref(x)), names.names, out.names)
    ensures ok ==> CoversValue(m, f, Ref(x), out)
    ensures ReadyBy(m, Str(f, Ref(x)), Branches, names.names, depth) ==> ok
    decreases Room(depth), 1
  {
    hide Adds, Settles, RoomFor, CoversValue, Yields;
    out := names;
    ghost var q := Str(f, Ref(x));
    NothingAdded(m, q, names);
    var inc := m.fns[f].defs[x].incoming;
    var todo := inc.Keys;
    while todo != {}
      invariant todo <= inc.Keys && Extends(m, names, out) && Adds(m, q, names.names, out.names)
      invariant forall k :: k in inc && k !in todo ==> CoversValue(m, f, inc[k], out)
      decreases |todo|
    {
      var k :| k in todo;
      todo := todo - {k};
      ghost var was, r := out, Str(f, inc[k]);
      assert Need(m, q, Branches, r);
      ReadyVia(m, q, Branches, r, names.names, was.names, depth);
      ok, out := CollectValue(m, f, inc[k], out, depth + 1);
      StepVia(m, q, Branches, r, names.names, was.names, out.names);
      if !ok {
        return;
      }
      forall j | j in inc && j !in todo && j != k ensures CoversValue(m, f, inc[j], out) {
        MoreValue(m, f, inc[j], was, out);
      }
    }
    ValuePhi(m, f, x, out);
    ok := true;
  }

  // The pointer taken out of a string value, with its own length or with a constant
  // that agrees with every candidate.
  method CollectExtracted(m: Module, f: nat, p: Operand, l: Operand, names: Found, depth: nat)
    returns (ok: bool, out: Found)
    requires Wf(m) && f < |m.fns| && |names.names| <= MAX_NAMES && depth <= MAX_DEPTH
    requires Stripped(m, PairOf(f, p, l)) == PairOf(f, p, l)
    ensures Extends(m, names, out) && Adds(m, PairOf(f, p, l), names.names, out.names)
    ensures ok ==> CoversPair(m, f, p, l, out)
    ensures ReadyBy(m, PairOf(f, p, l), Whole, names.names, depth) ==> ok
    ensures RoomFor(m, PairOf(f, p, l), names.names) ==>
              forall agg, n :: Sized(m, PairOf(f, p, l), agg, n) && SizedReady(m, f, agg, n, depth) ==> ok
    decreases Room(depth), 1
  {
    hide Adds, Ready, RoomFor, CoversPair, CoversValue, Settles, SettlesBy, Stripped, SizedReady;
    var defs := m.fns[f].defs;
    ghost var q := PairOf(f, p, l);
    NothingAdded(m, q, names);
    WholeWhen(m, q, depth);
    if !(p.Ref? && p.x in defs && defs[p.x].Extract? && defs[p.x].index == 0) {
      return false, names;
    }
    var o := defs[p.x].agg;
    if l.Ref? && l.x in defs && defs[l.x].Extract? && defs[l.x].index == 1 && defs[l.x].agg == o {
      ghost var r := Str(f, o);
      assert Need(m, q, Whole, r);
      ReadyVia(m, q, Whole, r, names.names, names.names, depth);
      ok, out := CollectValue(m, f, o, names, depth + 1);
      AddsVia(m, q, Whole, r, names.names, out.names);
      if ok {
        PairExtract(m, f, p.x, l.x, out);
      }
      return;
    }
    if !(l.C? && l.c.CInt?) {
      return false, names;
    }
    var candidates;
    ok, candidates := CollectValue(m, f, o, NONE, depth + 1);
    SizedCandidates(m, q, o, l.c.n, candidates, ok, depth);
    if !ok || exists s :: s in candidates.names && |s| != l.c.n {
      return false, names;
    }
    PairExtractConst(m, f, p.x, l.c.n, candidates);
    ok, out := AddNames(m, names, candidates);
    CandidatesWithin(m, q, o, l.c.n, candidates, names.names, out.names);
    if ok {
      MorePair(m, f, p, l, candidates, out);
    }
    ok := ok && candidates.names != [];
  }

  lemma WholeWhen(m: Module, q: Query, depth: nat)
    requires InModule(m, q) && q.PairOf? && Stripped(m, q) == q
    ensures SettlesBy(m, q, Whole, depth) ==> exists r :: IsWhole(m, q, r)
  {
  }

  // In some run the value is computed.
  ghost predicate Occurs(m: Module, f: nat, o: Operand) {
    exists r, i: nat, e: nat, now: nat, s :: ValueAt(m, r, i, e, f, o, now, s) && KeptAll(m, r, Sources(m))
  }

  ghost predicate AllOfSize(m: Module, q: Query, n: int) {
    forall s :: Yields(m, q, s) ==> |s| == n
  }

  // The aggregate is found, it occurs, and all its strings have the length.
  ghost predicate SizedReady(m: Module, f: nat, agg: Operand, n: int, depth: nat) {
    Ready(m, Str(f, agg), [], depth + 1) && AllOfSize(m, Str(f, agg), n) && Occurs(m, f, agg)
  }

  // Then the candidates all have the length, and there are some.
  lemma SizedCandidates(m: Module, q: Query, agg: Operand, n: int, found: Found, ok: bool, depth: nat)
    requires InModule(m, q) && Extends(m, NONE, found) && Adds(m, Str(q.f, agg), [], found.names)
    requires ok ==> CoversValue(m, q.f, agg, found)
    requires Ready(m, Str(q.f, agg), [], depth + 1) ==> ok
    ensures SizedReady(m, q.f, agg, n, depth) ==>
              ok && found.names != [] && forall s :: s in found.names ==> |s| == n
  {
    hide Yields, Ready, ValueAt;
    if SizedReady(m, q.f, agg, n, depth) {
      var r, i: nat, e: nat, now: nat, s :| ValueAt(m, r, i, e, q.f, agg, now, s) && KeptAll(m, r, Sources(m));
      assert KeptAll(m, r, found.sources);
      assert s in found.names;
    }
  }

  lemma CandidatesWithin(m: Module, q: Query, agg: Operand, n: int, found: Found, names: seq<string>, out: seq<string>)
    requires InModule(m, q) && Stripped(m, q) == q && Sized(m, q, agg, n) && Adds(m, Str(q.f, agg), [], found.names)
    requires AddsFrom(Listed(found.names), names, out) && forall s :: s in found.names ==> |s| == n
    ensures Adds(m, q, names, out) && (RoomFor(m, q, names) ==> RoomWith(Listed(found.names), names))
  {
    hide Yields, Sized;
    forall s | s in found.names ensures Yields(m, q, s) {
      SizedYields(m, q, agg, s);
    }
    AddsWithin(m, q, Listed(found.names), names, out);
  }

  ghost function Listed(names: seq<string>): (all: iset<string>) {
    iset s | s in names
  }

  method AddNames(m: Module, names: Found, more: Found) returns (ok: bool, out: Found)
    requires |names.names| <= MAX_NAMES && more.sources <= Sources(m)
    ensures Extends(m, names, out) && AddsFrom(Listed(more.names), names.names, out.names)
    ensures ok ==> (forall s :: s in more.names ==> s in out.names) && more.sources <= out.sources
    ensures RoomWith(Listed(more.names), names.names) ==> ok
  {
    hide AddsFrom, RoomWith;
    out := names.(sources := names.sources + more.sources);
    AddsNone(Listed(more.names), names.names);
    for i := 0 to |more.names|
      invariant Extends(m, names, out) && more.sources <= out.sources
      invariant AddsFrom(Listed(more.names), names.names, out.names)
      invariant forall j :: 0 <= j < i ==> more.names[j] in out.names
    {
      var texts;
      assert more.names[i] in more.names;
      ok, texts := AddFrom(Listed(more.names), names.names, out.names, more.names[i]);
      out := out.(names := texts);
      if !ok {
        return;
      }
    }
    ok := true;
  }

  // The strings that a pointer and a length can be loaded from, in constant tables.
  method CollectConstantSlots(m: Module, f: nat, p: Operand, l: Operand, names: Found, depth: nat)
    returns (ok: bool, out: Found)
    requires Wf(m) && f < |m.fns| && |names.names| <= MAX_NAMES && depth <= MAX_DEPTH
    requires Stripped(m, PairOf(f, p, l)) == PairOf(f, p, l)
    ensures Extends(m, names, out) && Adds(m, PairOf(f, p, l), names.names, out.names)
    ensures ok ==> CoversPair(m, f, p, l, out)
    ensures ReadyBy(m, PairOf(f, p, l), Table, names.names, depth) ==> ok
    ensures !p.Ref? ==> !ok && out == names
    decreases Room(depth), 1
  {
    hide Adds, Ready, RoomFor, CoversPair, CoversAddr, Settles, SettlesBy, Stripped, SlotCovered, AddrSettles, AddrIs,
      SlotPair;
    var g := m.fns[f];
    assert WfFn(g);
    ghost var q := PairOf(f, p, l);
    NothingAdded(m, q, names);
    TableWhen(m, q, depth);
    if !SlotPair(g, p, l) {
      return false, names;
    }
    SlotLoads(g, p, l);
    var slots, sources;
    ok, slots, sources := EnumerateAddrs(m, f, g.defs[p.x].addr);
    if !ok {
      return false, names;
    }
    out := names.(sources := names.sources + sources);
    for k := 0 to |slots|
      invariant Extends(m, names, out) && sources <= out.sources && Adds(m, q, names.names, out.names)
      invariant forall j :: 0 <= j < k ==> SlotCovered(m, f, slots[j], g.defs[p.x].what, g.defs[l.x].what, out)
    {
      var pc := FoldAt(m, C(CAddr(slots[k].base, slots[k].off)), g.defs[p.x].what);
      var lc := FoldAt(m, C(CAddr(slots[k].base, slots[k].off + 8)), g.defs[l.x].what);
      assert slots[k] in slots && AddrIs(m, f, g.defs[p.x].addr, slots[k]);
      SlotWhen(m, q, slots[k]);
      if pc.None? || lc.None? {
        return false, out;
      }
      ghost var was, r := out, PairOf(f, C(pc.value), C(lc.value));
      TableNeed(m, q, slots[k], r);
      out := out.(sources := out.sources + {slots[k].base});
      ReadyVia(m, q, Table, r, names.names, out.names, depth);
      ok, out := CollectPair(m, f, C(pc.value), C(lc.value), out, depth + 1);
      StepVia(m, q, Table, r, names.names, was.names, out.names);
      if !ok {
        return;
      }
      MoreSlots(m, f, slots, k, g.defs[p.x].what, g.defs[l.x].what, was, out);
      assert SlotCovered(m, f, slots[k], g.defs[p.x].what, g.defs[l.x].what, out) by {
        NowCovered(m, f, slots[k], g.defs[p.x].what, g.defs[l.x].what, pc.value, lc.value, out);
      }
    }
    ConstantSlots(m, f, p, l, slots, sources, out);
    ok := true;
  }

  lemma SlotLoads(g: Fn, p: Operand, l: Operand)
    requires WfFn(g) && SlotPair(g, p, l)
    ensures IsLoad(g, p) && IsLoad(g, l)
  {
  }

  lemma NowCovered(m: Module, f: nat, s: Slot, pw: Access, lw: Access, pc: Const, lc: Const, names: Found)
    requires FoldAt(m, C(CAddr(s.base, s.off)), pw) == Some(pc)
             && FoldAt(m, C(CAddr(s.base, s.off + 8)), lw) == Some(lc)
    requires s.base in names.sources && CoversPair(m, f, C(pc), C(lc), names)
    ensures SlotCovered(m, f, s, pw, lw, names)
  {
  }

  lemma TableWhen(m: Module, q: Query, depth: nat)
    requires InModule(m, q) && q.PairOf? && Stripped(m, q) == q
    ensures SettlesBy(m, q, Table, depth) ==> TableReady(m, q)
  {
  }

  lemma SlotWhen(m: Module, q: Query, s: Slot)
    requires InModule(m, q) && q.PairOf? && WfFn(m.fns[q.f]) && IsLoad(m.fns[q.f], q.p) && IsLoad(m.fns[q.f], q.l)
    requires AddrIs(m, q.f, m.fns[q.f].defs[q.p.x].addr, s)
    ensures TableReady(m, q) ==>
              && FoldAt(m, C(CAddr(s.base, s.off)), m.fns[q.f].defs[q.p.x].what).Some?
              && FoldAt(m, C(CAddr(s.base, s.off + 8)), m.fns[q.f].defs[q.l.x].what).Some?
  {
    hide AddrIs, AddrSettles;
    if TableReady(m, q) {
      var r :| InTable(m, q, s, r);
    }
  }

  lemma TableNeed(m: Module, q: Query, s: Slot, r: Query)
    requires InModule(m, q) && q.PairOf? && Stripped(m, q) == q && WfFn(m.fns[q.f]) && SlotPair(m.fns[q.f], q.p, q.l)
    requires AddrIs(m, q.f, m.fns[q.f].defs[q.p.x].addr, s) && r.PairOf? && r.f == q.f && r.p.C? && r.l.C?
    requires FoldAt(m, C(CAddr(s.base, s.off)), m.fns[q.f].defs[q.p.x].what) == Some(r.p.c)
    requires FoldAt(m, C(CAddr(s.base, s.off + 8)), m.fns[q.f].defs[q.l.x].what) == Some(r.l.c)
    ensures Need(m, q, Table, r)
  {
    hide AddrIs;
    assert InTable(m, q, s, r);
  }

  lemma MoreSlots(m: Module, f: nat, slots: seq<Slot>, k: nat, pw: Access, lw: Access, names: Found,
                  out: Found)
    requires k <= |slots| && Extends(m, names, out) && forall j :: 0 <= j < k ==>
               SlotCovered(m, f, slots[j], pw, lw, names)
    ensures forall j :: 0 <= j < k ==> SlotCovered(m, f, slots[j], pw, lw, out)
  {
    forall j | 0 <= j < k ensures SlotCovered(m, f, slots[j], pw, lw, out) {
      assert SlotCovered(m, f, slots[j], pw, lw, names);
    }
  }

  // The string at an offset of a local array that only constants are stored into.
  method CollectLocalSlot(m: Module, ghost q: Query, ghost first: Found, x: nat, off: int, f: nat, p: Operand,
                          l: Operand, names: Found, depth: nat)
    returns (ok: bool, out: Found)
    requires Wf(m) && f < |m.fns| && |names.names| <= MAX_NAMES && depth <= MAX_DEPTH && WfFn(m.fns[f])
    requires q == PairOf(f, p, l) && Stripped(m, q) == q && SlotPair(m.fns[f], p, l)
    requires x in m.fns[f].defs && m.fns[f].defs[x].Alloca? && OnlyConstantUses(m.fns[f], x)
    requires LocalIs(m, f, m.fns[f].defs[p.x].addr, x, off) && Adds(m, q, first.names, names.names)
    ensures Extends(m, names, out) && Adds(m, q, first.names, out.names)
    ensures ok ==> LocalCovered(m, f, p, l, x, off, out)
    ensures ReadyBy(m, q, LocalArray, first.names, depth) && ItemReady(m, q, x, off) ==> ok
    decreases Room(depth), 0
  {
    hide OnlyConstantUses, FindsConst, CoversPair, Adds, Ready, ReadyBy, LocalIs, Stripped, BaseOf, StripCasts,
      AllBefore;
    var g := m.fns[f];
    assert WfDef(g, p.x) && WfDef(g, l.x);
    var pc := DominatingConstant(g, x, off, p.x);
    var lc := DominatingConstant(g, x, off + 8, l.x);
    ItemWhen(m, q, x, off);
    if pc.None? || lc.None? {
      return false, names;
    }
    ghost var r := PairOf(f, C(pc.value), C(lc.value));
    assert InLocal(m, q, x, off, r);
    LocalNeed(m, q, x, off, r);
    ReadyVia(m, q, LocalArray, r, first.names, names.names, depth);
    ok, out := CollectPair(m, f, C(pc.value), C(lc.value), names, depth + 1);
    StepVia(m, q, LocalArray, r, first.names, names.names, out.names);
  }

  lemma LocalNeed(m: Module, q: Query, x: nat, off: int, r: Query)
    requires InModule(m, q) && Stripped(m, q) == q && InLocal(m, q, x, off, r)
    ensures Need(m, q, LocalArray, r)
  {
    hide InLocal;
  }

  ghost predicate FindsSome(f: Fn, z: nat, x: nat, off: int)
    requires WfFn(f)
  {
    exists c :: FindsConst(f, z, x, off, c)
  }

  lemma ItemWhen(m: Module, q: Query, x: nat, off: int)
    requires InModule(m, q) && WfFn(m.fns[q.f]) && q.PairOf? && IsLoad(m.fns[q.f], q.p) && IsLoad(m.fns[q.f], q.l)
    requires q.p.x in m.fns[q.f].node && q.l.x in m.fns[q.f].node
    ensures ItemReady(m, q, x, off) ==>
              && FindsSome(m.fns[q.f], q.p.x, x, off) && AllBefore(m.fns[q.f], q.p.x, x, off)
              && FindsSome(m.fns[q.f], q.l.x, x, off + 8) && AllBefore(m.fns[q.f], q.l.x, x, off + 8)
  {
    hide FindsConst, AllBefore, LocalIs;
    if ItemReady(m, q, x, off) {
      var r :| InLocal(m, q, x, off, r);
    }
  }

  method CollectLocalSlots(m: Module, f: nat, p: Operand, l: Operand, names: Found, depth: nat)
    returns (ok: bool, out: Found)
    requires Wf(m) && f < |m.fns| && |names.names| <= MAX_NAMES && depth <= MAX_DEPTH
    requires Stripped(m, PairOf(f, p, l)) == PairOf(f, p, l)
    ensures Extends(m, names, out) && Adds(m, PairOf(f, p, l), names.names, out.names)
    ensures ok ==> CoversPair(m, f, p, l, out)
    ensures ReadyBy(m, PairOf(f, p, l), LocalArray, names.names, depth) ==> ok
    ensures !p.Ref? ==> !ok && out == names
    decreases Room(depth), 1
  {
    hide OnlyConstantUses, LocalCovered, BaseOf, StripCasts, CoversPair, CoversLocal, WfDef, Adds, RoomFor, SettlesBy,
      Stripped, LocalIs, LocalSettles, ItemReady;
    var g := m.fns[f];
    assert WfFn(g);
    ghost var q := PairOf(f, p, l);
    NothingAdded(m, q, names);
    LocalWhen(m, q, depth);
    if !SlotPair(g, p, l) {
      return false, names;
    }
    var x, offs;
    ok, x, offs := EnumerateLocals(m, f, g.defs[p.x].addr);
    if !ok || offs == [] || !OnlyConstantUses(g, x) {
      return false, names;
    }
    out := names;
    for k := 0 to |offs|
      invariant Extends(m, names, out) && Adds(m, q, names.names, out.names)
      invariant forall j :: 0 <= j < k ==> LocalCovered(m, f, p, l, x, offs[j], out)
    {
      ghost var was := out;
      assert offs[k] in offs;
      ok, out := CollectLocalSlot(m, q, names, x, offs[k], f, p, l, out, depth);
      if !ok {
        return;
      }
      MoreLocals(m, f, p, l, x, offs, k, was, out);
    }
    LocalSlots(m, f, p, l, x, offs, out);
    ok := true;
  }

  lemma LocalWhen(m: Module, q: Query, depth: nat)
    requires InModule(m, q) && q.PairOf? && Stripped(m, q) == q
    ensures SettlesBy(m, q, LocalArray, depth) ==> exists x :: LocalReady(m, q, x)
  {
    hide LocalReady;
  }

  lemma MoreLocals(m: Module, f: nat, p: Operand, l: Operand, x: nat, offs: seq<int>, k: nat,
                   names: Found, out: Found)
    requires f < |m.fns| && WfFn(m.fns[f]) && p.Ref? && l.Ref? && k <= |offs| && Extends(m, names, out)
    requires forall j :: 0 <= j < k ==> LocalCovered(m, f, p, l, x, offs[j], names)
    ensures forall j :: 0 <= j < k ==> LocalCovered(m, f, p, l, x, offs[j], out)
  {
    hide FindsConst;
    forall j | 0 <= j < k ensures LocalCovered(m, f, p, l, x, offs[j], out) {
      var pc, lc :|
        && FindsConst(m.fns[f], p.x, x, offs[j], pc) && FindsConst(m.fns[f], l.x, x, offs[j] + 8, lc)
        && CoversPair(m, f, C(pc), C(lc), names);
      MorePair(m, f, C(pc), C(lc), names, out);
    }
  }

  method CollectPairPhi(m: Module, f: nat, x: nat, y: nat, names: Found, depth: nat)
    returns (ok: bool, out: Found)
    requires Wf(m) && f < |m.fns| && x in m.fns[f].defs && y in m.fns[f].defs && m.fns[f].defs[x].Phi?
             && m.fns[f].defs[y].Phi?
    requires x in m.fns[f].node && y in m.fns[f].node && m.fns[f].node[x] == m.fns[f].node[y]
    requires |names.names| <= MAX_NAMES && depth <= MAX_DEPTH
    ensures Extends(m, names, out) && Adds(m, PairOf(f, Ref(x), Ref(y)), names.names, out.names)
    ensures ok ==> CoversPair(m, f, Ref(x), Ref(y), out)
    ensures ReadyBy(m, PairOf(f, Ref(x), Ref(y)), Branches, names.names, depth) ==> ok
    decreases Room(depth), 1
  {
    hide Adds, Ready, RoomFor, CoversPair, Settles, SettlesBy;
    out := names;
    ghost var q := PairOf(f, Ref(x), Ref(y));
    NothingAdded(m, q, names);
    PhiStripped(m, f, x, Ref(y));
    BranchesWhen(m, q, depth);
    var inc, inc' := m.fns[f].defs[x].incoming, m.fns[f].defs[y].incoming;
    var todo := inc.Keys;
    while todo != {}
      invariant todo <= inc.Keys && Extends(m, names, out) && Adds(m, q, names.names, out.names)
      invariant forall k :: k in inc && k !in todo ==> k in inc' && CoversPair(m, f, inc[k], inc'[k], out)
      decreases |todo|
    {
      var k :| k in todo;
      todo := todo - {k};
      if k !in inc' {
        return false, out;
      }
      ghost var was, r := out, PairOf(f, inc[k], inc'[k]);
      assert Branch(m, q, r);
      ReadyVia(m, q, Branches, r, names.names, was.names, depth);
      ok, out := CollectPair(m, f, inc[k], inc'[k], out, depth + 1);
      StepVia(m, q, Branches, r, names.names, was.names, out.names);
      if !ok {
        return;
      }
      forall j | j in inc && j !in todo && j != k ensures CoversPair(m, f, inc[j], inc'[j], out) {
        MorePair(m, f, inc[j], inc'[j], was, out);
      }
    }
    PairPhi(m, f, x, y, out);
    ok := true;
  }

  // Selects and phis are no casts.
  lemma PhiStripped(m: Module, f: nat, x: nat, l: Operand)
    requires Wf(m) && f < |m.fns| && IsChoice(m, f, Ref(x))
    ensures Stripped(m, PairOf(f, Ref(x), l)) == PairOf(f, Ref(x), l)
  {
    assert WfFn(m.fns[f]);
  }

  lemma BranchesWhen(m: Module, q: Query, depth: nat)
    requires InModule(m, q) && q.PairOf? && Stripped(m, q) == q
    ensures SettlesBy(m, q, Branches, depth) ==> ChoicesMatch(m.fns[q.f], q.p, q.l)
  {
  }

  // A string as a pointer and a length.
  method CollectPair(m: Module, f: nat, p: Operand, l: Operand, names: Found, depth: nat)
    returns (ok: bool, out: Found)
    requires Wf(m) && f < |m.fns| && |names.names| <= MAX_NAMES
    ensures Extends(m, names, out) && Adds(m, PairOf(f, p, l), names.names, out.names)
    ensures ok ==> CoversPair(m, f, p, l, out)
    ensures Ready(m, PairOf(f, p, l), names.names, depth) ==> ok
    ensures ReadConstant(m, p, l).Some? && depth <= MAX_DEPTH && |names.names| < MAX_NAMES ==>
              && ok && ReadConstant(m, p, l).value in out.names && out.sources <= names.sources + {p.c.base}
              && forall s :: s in out.names ==> s in names.names || s == ReadConstant(m, p, l).value
    decreases Room(depth), 5
  {
    hide Adds, RoomFor, CoversPair, Yields, SettlesBy;
    ghost var q0 := PairOf(f, p, l);
    NothingAdded(m, q0, names);
    SettlesShallow(m, q0, depth);
    if depth > MAX_DEPTH {
      return false, names;
    }
    assert WfFn(m.fns[f]);
    var q := StripCasts(m.fns[f], p);
    ghost var r := PairOf(f, q, l);
    StripSame(m, q0);
    StripReady(m, q0, names.names, depth);
    var p', l' := FoldLoad(m, f, q), FoldLoad(m, f, l);
    if p'.o != q || l'.o != l {
      out := names.(sources := names.sources + p'.sources + l'.sources);
      ghost var r' := PairOf(f, p'.o, l'.o);
      assert Need(m, r, Folding, r');
      NothingAdded(m, r, names);
      ReadyVia(m, r, Folding, r', names.names, names.names, depth);
      ok, out := CollectPair(m, f, p'.o, l'.o, out, depth + 1);
      AddsVia(m, r, Folding, r', names.names, out.names);
    } else {
      ok, out := CollectSimple(m, f, q, l, names, depth);
    }
    StripAdds(m, q0, names.names, out.names);
    if ok {
      Simplified(m, f, p, l, out);
    }
  }

  lemma StripReady(m: Module, q: Query, names: seq<string>, depth: nat)
    requires InModule(m, q)
    ensures Ready(m, q, names, depth) ==> Ready(m, Stripped(m, q), names, depth)
  {
    StripYields(m, q);
    StripSettles(m, q, depth);
  }

  lemma StripAdds(m: Module, q: Query, names: seq<string>, out: seq<string>)
    requires InModule(m, q)
    ensures Adds(m, Stripped(m, q), names, out) ==> Adds(m, q, names, out)
  {
    StripYields(m, q);
  }

  // The same with the pointer stripped and no load to fold.
  method CollectSimple(m: Module, f: nat, p: Operand, l: Operand, names: Found, depth: nat)
    returns (ok: bool, out: Found)
    requires Wf(m) && f < |m.fns| && |names.names| <= MAX_NAMES && depth <= MAX_DEPTH
    requires Stripped(m, PairOf(f, p, l)) == PairOf(f, p, l) && !Foldable(m, PairOf(f, p, l))
    ensures Extends(m, names, out) && Adds(m, PairOf(f, p, l), names.names, out.names)
    ensures ok ==> CoversPair(m, f, p, l, out)
    ensures Ready(m, PairOf(f, p, l), names.names, depth) ==> ok
    ensures ReadConstant(m, p, l).Some? && |names.names| < MAX_NAMES ==>
              && ok && ReadConstant(m, p, l).value in out.names && out.sources <= names.sources + {p.c.base}
              && forall s :: s in out.names ==> s in names.names || s == ReadConstant(m, p, l).value
    decreases Room(depth), 4
  {
    hide Adds, RoomFor, CoversPair, Yields, SettlesBy, Stripped, Foldable, Shows;
    ghost var q := PairOf(f, p, l);
    ok, out := CollectPairArg(m, f, p, l, names, depth);
    if ok {
      return;
    }
    ghost var was := out;
    StillRoom(m, q, names, was);
    ok, out := CollectConstantSlots(m, f, p, l, out, depth);
    MoreAdded(m, q, names, was, out);
    if ok {
      return;
    }
    was := out;
    StillRoom(m, q, names, was);
    ok, out := CollectLocalSlots(m, f, p, l, out, depth);
    MoreAdded(m, q, names, was, out);
    if ok {
      return;
    }
    was := out;
    StillRoom(m, q, names, was);
    ok, out := CollectDirect(m, f, p, l, out, depth);
    MoreAdded(m, q, names, was, out);
  }

  ghost predicate SettlesDirect(m: Module, q: Query, depth: nat)
    requires InModule(m, q)
  {
    (exists s :: Shows(m, q, s)) || SettlesBy(m, q, Whole, depth) || SettlesBy(m, q, Branches, depth)
  }

  // A string of length zero, a text, or one taken from a value or chosen.
  method CollectDirect(m: Module, f: nat, p: Operand, l: Operand, names: Found, depth: nat)
    returns (ok: bool, out: Found)
    requires Wf(m) && f < |m.fns| && |names.names| <= MAX_NAMES && depth <= MAX_DEPTH
    requires Stripped(m, PairOf(f, p, l)) == PairOf(f, p, l)
    ensures Extends(m, names, out) && Adds(m, PairOf(f, p, l), names.names, out.names)
    ensures ok ==> CoversPair(m, f, p, l, out)
    ensures RoomFor(m, PairOf(f, p, l), names.names) && SettlesDirect(m, PairOf(f, p, l), depth) ==> ok
    ensures ReadConstant(m, p, l).Some? && |names.names| < MAX_NAMES ==>
              && ok && ReadConstant(m, p, l).value in out.names && out.sources <= names.sources + {p.c.base}
              && forall s :: s in out.names ==> s in names.names || s == ReadConstant(m, p, l).value
    decreases Room(depth), 3
  {
    hide Adds, Settles, RoomFor, CoversPair, Yields, SettlesBy, Stripped;
    ghost var q := PairOf(f, p, l);
    AtOnceWhen(m, q);
    if l == C(CInt(0)) {
      assert ReadConstant(m, p, l).Some? ==> ReadConstant(m, p, l).value == "";
      ShowsYields(m, q, "");
      ok, out := AddFound(m, q, names, "", {});
      if ok {
        ZeroPair(m, f, p, out);
      }
      return;
    }
    var name := ReadConstant(m, p, l);
    if name.Some? {
      ReadExact(m, p, l, name.value);
      ShowsYields(m, q, name.value);
      ok, out := AddFound(m, q, names, name.value, {p.c.base});
      if ok {
        ConstPair(m, f, p.c.base, p.c.off, l.c.n, out);
      }
      return;
    }
    ok, out := CollectExtracted(m, f, p, l, names, depth);
    if ok {
      return;
    }
    ghost var was := out;
    StillRoom(m, q, names, was);
    ok, out := CollectBranches(m, f, p, l, out, depth);
    MoreAdded(m, q, names, was, out);
  }

  lemma ShowsYields(m: Module, q: Query, s: string)
    requires InModule(m, q) && Stripped(m, q) == q && Shows(m, q, s)
    ensures Yields(m, q, s)
  {
    hide Shows;
  }

  lemma AtOnceWhen(m: Module, q: Query)
    requires q.PairOf?
    ensures (exists s :: Shows(m, q, s)) ==> q.l == C(CInt(0)) || ReadConstant(m, q.p, q.l).Some?
  {
    if s :| Shows(m, q, s) {
      ReadExact(m, q.p, q.l, s);
    }
  }

  method CollectBranches(m: Module, f: nat, p: Operand, l: Operand, names: Found, depth: nat)
    returns (ok: bool, out: Found)
    requires Wf(m) && f < |m.fns| && |names.names| <= MAX_NAMES && depth <= MAX_DEPTH
    requires Stripped(m, PairOf(f, p, l)) == PairOf(f, p, l)
    ensures Extends(m, names, out) && Adds(m, PairOf(f, p, l), names.names, out.names)
    ensures ok ==> CoversPair(m, f, p, l, out)
    ensures ReadyBy(m, PairOf(f, p, l), Branches, names.names, depth) ==> ok
    decreases Room(depth), 2
  {
    hide Adds, Ready, RoomFor, CoversPair, Settles, SettlesBy, Stripped;
    var defs := m.fns[f].defs;
    ghost var q := PairOf(f, p, l);
    NothingAdded(m, q, names);
    BranchesWhen(m, q, depth);
    if !(p.Ref? && p.x in defs) {
      return false, names;
    }
    var d := defs[p.x];
    if d.Select? && l.Ref? && l.x in defs && defs[l.x].Select? && defs[l.x].cond == d.cond {
      ok, out := CollectBoth(m, q, f, d.t, defs[l.x].t, d.f, defs[l.x].f, names, depth);
      if ok {
        PairSelect(m, f, p.x, l.x, out);
      }
      return;
    }
    if d.Select? && l.C? && l.c.CInt? {
      ok, out := CollectBoth(m, q, f, d.t, l, d.f, l, names, depth);
      if ok {
        PairSelectConst(m, f, p.x, l.c.n, out);
      }
      return;
    }
    if d.Phi? && l.Ref? && l.x in defs && defs[l.x].Phi? {
      assert WfFn(m.fns[f]) && WfDef(m.fns[f], p.x) && WfDef(m.fns[f], l.x);
      if m.fns[f].node[p.x] == m.fns[f].node[l.x] && |d.incoming| == |defs[l.x].incoming| {
        ok, out := CollectPairPhi(m, f, p.x, l.x, names, depth);
        return;
      }
    }
    SameNumber(m, f, p, l);
    return false, names;
  }

  lemma SameNumber(m: Module, f: nat, p: Operand, l: Operand)
    requires f < |m.fns|
    ensures PhisTogether(m.fns[f], p, l) && ChoicesMatch(m.fns[f], p, l) ==>
              |m.fns[f].defs[p.x].incoming| == |m.fns[f].defs[l.x].incoming|
  {
    if PhisTogether(m.fns[f], p, l) {
      KeysCount(m.fns[f].defs[p.x].incoming);
      KeysCount(m.fns[f].defs[l.x].incoming);
    }
  }

  lemma KeysCount(inc: map<nat, Operand>)
    ensures |inc| == |inc.Keys|
  {
  }

  // The two branches of a choice.
  method CollectBoth(m: Module, ghost q: Query, f: nat, p: Operand, l: Operand, p': Operand, l': Operand, names: Found,
                     depth: nat)
    returns (ok: bool, out: Found)
    requires InModule(m, q) && q.f == f && q.PairOf? && Stripped(m, q) == q && |names.names| <= MAX_NAMES
             && depth <= MAX_DEPTH
    requires ChooseBoth(m.fns[f], q.p, q.l, p, l) && ChooseBoth(m.fns[f], q.p, q.l, p', l')
    ensures Extends(m, names, out) && Adds(m, q, names.names, out.names)
    ensures ok ==> CoversPair(m, f, p, l, out) && CoversPair(m, f, p', l', out)
    ensures ReadyBy(m, q, Branches, names.names, depth) ==> ok
    decreases Room(depth), 0
  {
    hide Adds, Ready, RoomFor, CoversPair, Settles, SettlesBy, Stripped, ChooseBoth;
    NothingAdded(m, q, names);
    ghost var r, r' := PairOf(f, p, l), PairOf(f, p', l');
    assert Branch(m, q, r) && Branch(m, q, r');
    ReadyVia(m, q, Branches, r, names.names, names.names, depth);
    ok, out := CollectPair(m, f, p, l, names, depth + 1);
    AddsVia(m, q, Branches, r, names.names, out.names);
    if ok {
      ghost var was := out;
      ReadyVia(m, q, Branches, r', names.names, was.names, depth);
      ok, out := CollectPair(m, f, p', l', out, depth + 1);
      StepVia(m, q, Branches, r', names.names, was.names, out.names);
      if ok {
        MorePair(m, f, p, l, was, out);
      }
    }
  }

  // The name argument of a MethodByName call, which starts at argument i of call x. In
  // every run that keeps the globals which were read, whatever string the call is given is
  // one of the names. If nothing writes those globals, that is every run.
  method CollectFromCallArgs(m: Module, f: nat, x: nat, i: nat) returns (ok: bool, names: Found)
    requires Wf(m) && f < |m.fns| && x in m.fns[f].defs && m.fns[f].defs[x].Call?
    ensures |names.names| <= MAX_NAMES && Extends(m, NONE, names)
    ensures ok ==> forall r, a: nat, l: nat, s ::
              NameGiven(m, r, a, l, f, x, i, s) && KeptAll(m, r, names.sources) ==> s in names.names
    ensures var args := m.fns[f].defs[x].args;
            i + 1 < |args| && ReadConstant(m, args[i], args[i + 1]).Some? ==>
              && ok && names.sources <= {args[i].c.base}
              && forall s :: s in names.names <==> s == ReadConstant(m, args[i], args[i + 1]).value
    ensures ok && (forall b :: b in names.sources ==> Untouched(m, b)) ==>
              forall r, a: nat, l: nat, s :: NameGiven(m, r, a, l, f, x, i, s) ==> s in names.names
    ensures var q := PartAt(m.fns[f], f, m.fns[f].defs[x].args, i);
            if q.None? then !ok && names == NONE
            else Adds(m, q.value, [], names.names) && (Ready(m, q.value, [], 1) ==> ok)
  {
    hide Untouched, Kept, Adds, Ready;
    var next;
    ok, next, names := ConsumeArg(m, f, m.fns[f].defs[x].args, i, NONE, 0);
    if ok {
      forall r, a: nat, l: nat, s | NameGiven(m, r, a, l, f, x, i, s) ensures Has(m, r, names, s) {
        ArgCovered(m, r, a, l, f, x, i, r.acts[a].clock(l - 1), s, names);
      }
    }
  }

  // Step l of activation a reaches call x with the string s from argument i on.
  ghost predicate NameGiven(m: Module, r: Run, a: nat, l: nat, f: nat, x: nat, i: nat, s: string)
    requires f < |m.fns| && x in m.fns[f].defs && m.fns[f].defs[x].Call?
  {
    && IsRun(m, r) && a < |r.acts| && r.acts[a].fn == f && 1 <= l < |r.acts[a].path|
    && x in m.fns[f].node && m.fns[f].node[x] == r.acts[a].path[l]
    && ArgIs(r, r.acts[a], l - 1, m.fns[f], m.fns[f].defs[x].args, i, r.acts[a].clock(l - 1), s)
  }
}
