// Text that is read from an initializer is the string that a run passes if and only if
// nothing writes the byte array. The collector does not ask: it reads arrays that the
// program writes, and then a run can pass any other string of the same length.
module StringReads {
  import opened CfgPaths
  import opened Common
  import opened StringCollector
  import opened StringCover
  import opened StringGlobals
  import opened StringRuns
  import opened StringSlots
  import opened StringYields

  // Byte array 0, with an initial text. The program stores into it, unless it is constant,
  // and then passes n bytes of it, from o on, as a name.
  function OneRead(text: string, o: nat, n: nat, constant: bool): (m: Module) {
    var first := if constant then Unknown([]) else Store(C(CAddr(0, 0)), C(CInt(66)), Access(TInt, 1));
    var call := Call(Plain, None, [C(CAddr(0, o)), C(CInt(n))]);
    Module([Fn([], map[0 := first, 1 := call], map[], map[0 := 1, 1 := 2], [{1}, {2}, {}], {}, map[])],
           {}, map[], map[0 := text], map[], if constant then {0} else {}, {})
  }

  lemma OneReadWf(text: string, o: nat, n: nat, constant: bool)
    ensures Wf(OneRead(text, o, n, constant))
  {
    var f := OneRead(text, o, n, constant).fns[0];
    forall x | x in f.defs ensures WfDef(f, x) {
      assert x == 0 || x == 1;
    }
  }

  // Passing the array hands on its address.
  lemma OneReadPasses(text: string, o: nat, n: nat, constant: bool, gs: set<nat>)
    requires 0 in gs
    ensures !OnlyLoaded(OneRead(text, o, n, constant), gs)
  {
    var m := OneRead(text, o, n, constant);
    var f := m.fns[0];
    assert Leaks(f.defs[1])[0] == C(CAddr(0, o)) && 0 in PointsInto(m, f, C(CAddr(0, o)));
    assert !LeavesAlone(m, f, gs, 1);
    assert !FnLeavesAlone(m, m.fns[0], gs);
  }

  // Its array is untouched exactly if it is constant.
  lemma OneReadUntouched(text: string, o: nat, n: nat, constant: bool)
    ensures Untouched(OneRead(text, o, n, constant), 0) <==> constant
  {
    hide OnlyLoaded;
    forall gs: set<nat> | 0 in gs ensures !OnlyLoaded(OneRead(text, o, n, constant), gs) {
      OneReadPasses(text, o, n, constant, gs);
    }
  }

  // ---- a run ----

  // The array holds one text at first and another one later.
  function HeldText(text: string, later: string, b: nat, now: nat): (s: string) {
    if b != 0 then "" else if now == 0 then text else later
  }

  function From(s: string, k: int): (t: string) {
    if 0 <= k <= |s| then s[k..] else ""
  }

  function Value0(text: string, later: string, c: Const): (v: V) {
    match c
    case CAddr(b, k) =>
      P((now: nat) => if b == 0 then From(HeldText(text, later, 0, now), k) else "", Global(b, k))
    case CInt(n) => I(n)
    case CZero => A(Other, I(0))
    case CPair(p, l) => A(Value0(text, later, p), Value0(text, later, l))
    case CUnknown(t) => if t == TStr then A(Other, I(0)) else Other
  }

  function Written(text: string, later: string): (r: Run) {
    Run([Act(0, [], [0, 1, 2], (e: nat) => e, (e: nat, x: nat) => Other,
             (e: nat, x: nat, off: int, what: Access) => Other, None)],
        (c: Const) => Value0(text, later, c), (b: nat, now: nat) => HeldText(text, later, b, now),
        (c: Cell, now: nat) => Other)
  }

  lemma WrittenConsts(text: string, later: string, o: nat, n: nat, constant: bool, c: Const)
    requires |later| == |text|
    ensures ConstOk(OneRead(text, o, n, constant), Written(text, later), c)
  {
    if c.CUnknown? && c.ty == TStr {
      var v := Value0(text, later, c);
      forall now: nat ensures StrAt(now, v) {
        assert StrIs(now, v, "");
      }
    }
  }

  lemma WrittenIsRun(text: string, later: string, o: nat, n: nat, constant: bool)
    requires |later| == |text| && (constant ==> later == text)
    ensures IsRun(OneRead(text, o, n, constant), Written(text, later))
  {
    var m, r := OneRead(text, o, n, constant), Written(text, later);
    forall c ensures ConstOk(m, r, c) {
      WrittenConsts(text, later, o, n, constant, c);
    }
    OneReadUntouched(text, o, n, constant);
    forall b | Untouched(m, b) ensures Kept(m, r, b) {
    }
    WrittenActOk(text, later, o, n, constant);
  }

  lemma WrittenActOk(text: string, later: string, o: nat, n: nat, constant: bool)
    ensures ActOk(OneRead(text, o, n, constant), Written(text, later), 0)
  {
    hide StepOk, CellOk;
    var m, r := OneRead(text, o, n, constant), Written(text, later);
    assert IsPath(m.fns[0].succs, [0, 1, 2]);
    forall e: nat, x: nat | 1 <= e < 2 ensures StepOk(m, r, 0, e, x) {
      WrittenStepOk(text, later, o, n, constant, x);
    }
    forall e: nat, x: nat, off: int, what: Access | 1 <= e < 2 ensures CellOk(r, 0, e, m.fns[0], x, off, what) {
      NoLocals(text, later, o, n, constant, x, off, what);
    }
  }

  lemma WrittenStepOk(text: string, later: string, o: nat, n: nat, constant: bool, x: nat)
    ensures StepOk(OneRead(text, o, n, constant), Written(text, later), 0, 1, x)
  {
  }

  lemma NoLocals(text: string, later: string, o: nat, n: nat, constant: bool, x: nat, off: int, what: Access)
    ensures CellOk(Written(text, later), 0, 1, OneRead(text, o, n, constant).fns[0], x, off, what)
  {
  }

  // Whatever string of that length one takes, a run of the program with the writable array
  // passes it.
  lemma AnyNameGiven(text: string, o: nat, n: nat, other: string)
    requires o + n <= |text| && |other| == n
    ensures var later := text[..o] + other + text[o + n..];
            NameGiven(OneRead(text, o, n, false), Written(text, later), 0, 2, 0, 1, 0, other)
  {
    var m, later := OneRead(text, o, n, false), text[..o] + other + text[o + n..];
    WrittenIsRun(text, later, o, n, false);
    assert later[o..][..n] == other;
  }

  // The exact condition for one read: all runs pass the text that is read if and only if
  // nothing writes the array, or nothing is read of it.
  lemma ReadExact(text: string, o: nat, n: nat, constant: bool)
    requires o + n <= |text|
    ensures var m := OneRead(text, o, n, constant);
            (forall r, a: nat, l: nat, s :: NameGiven(m, r, a, l, 0, 1, 0, s) ==> s == text[o..o + n])
              <==> n == 0 || Untouched(m, 0)
  {
    var m := OneRead(text, o, n, constant);
    OneReadWf(text, o, n, constant);
    OneReadUntouched(text, o, n, constant);
    var names := Found([text[o..o + n]], if n == 0 then {} else {0});
    if n == 0 {
      assert text[o..o + n] == "";
      ZeroPair(m, 0, C(CAddr(0, o)), names);
    } else {
      ConstPair(m, 0, 0, o, n, names);
    }
    if n == 0 || constant {
      forall r, a: nat, l: nat, s | NameGiven(m, r, a, l, 0, 1, 0, s) ensures s == text[o..o + n] {
        ArgCovered(m, r, a, l, 0, 1, 0, r.acts[a].clock(l - 1), s, names);
        assert n > 0 ==> Kept(m, r, 0);
      }
    } else {
      var other := if text[o] == 'a' then Letters('b', n) else Letters('a', n);
      AnyNameGiven(text, o, n, other);
      assert other[0] != text[o..o + n][0];
    }
  }

  function Letters(c: char, n: nat): (s: string)
    ensures |s| == n
  {
    seq(n, _ => c)
  }

  // A program that overwrites "Foo" by "Boo" and passes the array as a name: the collector
  // finds "Foo", and a run passes "Boo".
  method WritableExample() returns (ok: bool, names: Found)
    ensures ok && (forall s :: s in names.names <==> s == "Foo")
    ensures NameGiven(OneRead("Foo", 0, 3, false), Written("Foo", "Boo"), 0, 2, 0, 1, 0, "Boo")
  {
    hide NameGiven, Untouched, KeptAll, Wf;
    var m := OneRead("Foo", 0, 3, false);
    OneReadWf("Foo", 0, 3, false);
    assert ReadConstant(m, C(CAddr(0, 0)), C(CInt(3))) == Some("Foo") by {
      assert "Foo"[0..3] == "Foo";
    }
    ok, names := CollectFromCallArgs(m, 0, 1, 0);
    AnyNameGiven("Foo", 0, 3, "Boo");
    assert "Foo"[..0] + "Boo" + "Foo"[0 + 3..] == "Boo";
  }

  // ---- a table behind a header that is not at the start of its global ----

  const PTR := Access(TPtr, 8)
  const INT := Access(TInt, 8)

  // Table 0 holds the string "Foo". Global 1 holds the address of the table, at offset 8.
  // The program loads it from there, stores "Boo" through it, and passes what the table
  // holds as a name.
  const HEADER_DEFS: map<nat, Def> :=
    map[0 := Load(C(CAddr(1, 8)), PTR), 1 := Store(Ref(0), C(CAddr(3, 0)), PTR),
        2 := Load(C(CAddr(0, 0)), PTR), 3 := Load(C(CAddr(0, 8)), INT), 4 := Call(Plain, None, [Ref(2), Ref(3)])]
  const HEADER_FN: Fn :=
    Fn([], HEADER_DEFS, map[0 := TPtr, 2 := TPtr, 3 := TInt], map[0 := 1, 1 := 2, 2 := 3, 3 := 4, 4 := 5],
       [{1}, {2}, {3}, {4}, {5}, {}], {}, map[])
  const HEADER: Module :=
    Module([HEADER_FN], {}, map[], map[2 := "Foo", 3 := "Boo"],
           map[Cell(0, 0, PTR) := CAddr(2, 0), Cell(0, 8, INT) := CInt(3), Cell(1, 8, PTR) := CAddr(0, 0)],
           {2, 3}, {0})

  lemma HeaderDominates(a: nat, b: nat)
    requires 1 <= a < b <= 5
    ensures Dominates(HEADER_FN.succs, a, b)
  {
    forall p | IsPath(HEADER_FN.succs, p) && p[|p| - 1] == b ensures a in p {
      Straight(p, |p| - 1);
      assert p[a] == a;
    }
  }

  lemma {:induction false} Straight(p: seq<nat>, k: nat)
    requires IsPath(HEADER_FN.succs, p) && k < |p|
    ensures forall j :: 0 <= j <= k ==> p[j] == j
  {
    if k > 0 {
      Straight(p, k - 1);
      assert p[k - 1 + 1] in HEADER_FN.succs[p[k - 1]];
    }
  }

  lemma HeaderLoadDef(x: nat)
    requires x == 0 || x == 2 || x == 3
    ensures WfDef(HEADER_FN, x)
  {
    hide Dominates;
    assert |Operands(HEADER_DEFS[x])| == 1 && Operands(HEADER_DEFS[x])[0].C?;
  }

  lemma HeaderStoreDef()
    ensures WfDef(HEADER_FN, 1)
  {
    HeaderDominates(1, 2);
    hide Dominates;
    assert Operands(HEADER_DEFS[1]) == [Ref(0), C(CAddr(3, 0))];
  }

  lemma HeaderCallDef()
    ensures WfDef(HEADER_FN, 4)
  {
    HeaderDominates(3, 5);
    HeaderDominates(4, 5);
    hide Dominates;
    assert Operands(HEADER_DEFS[4]) == [Ref(2), Ref(3)];
  }

  lemma HeaderWf()
    ensures Wf(HEADER)
  {
    hide WfDef, Dominates;
    forall x | x in HEADER_FN.defs ensures WfDef(HEADER_FN, x) {
      if x == 1 {
        HeaderStoreDef();
      } else if x == 4 {
        HeaderCallDef();
      } else {
        HeaderLoadDef(x);
      }
    }
    assert WfFn(HEADER.fns[0]);
  }

  lemma HeaderMentions(g: nat)
    ensures Mentions(HEADER, g) == if g == 0 then {2} else if g == 1 then {0} else {}
  {
    var m := HEADER;
    assert Cell(0, 0, PTR) in m.init && Cell(1, 8, PTR) in m.init;
    assert Named(m.init[Cell(0, 0, PTR)]) == {2} && Named(m.init[Cell(1, 8, PTR)]) == {0};
    assert Named(m.init[Cell(0, 8, INT)]) == {};
  }

  // The store writes the table.
  lemma HeaderTouched()
    ensures !Untouched(HEADER, 0)
  {
    var m := HEADER;
    HeaderMentions(1);
    if gs: set<nat> :| 0 in gs && OnlyLoaded(m, gs) {
      HeaderStore(gs);
    }
  }

  lemma HeaderStore(gs: set<nat>)
    requires 0 in gs
    ensures !OnlyLoaded(HEADER, gs)
  {
    var m, f := HEADER, HEADER.fns[0];
    HeaderMentions(1);
    assert PointsInto(m, f, C(CAddr(1, 8))) == {1};
    assert 0 in PointsInto(m, f, Ref(0));
    assert !LeavesAlone(m, f, gs, 1);
    assert !FnLeavesAlone(m, m.fns[0], gs);
  }

  // The walk sees the load of the header and goes no further.
  const HEADER_VISITS: set<Visit> :=
    {Visit(UDef(0, 2), false), Visit(UDef(0, 3), false), Visit(UGlobal(1), false), Visit(UDef(0, 0), true)}

  lemma HeaderUsers(b: nat)
    requires b <= 1
    ensures GlobalUsers(HEADER, b) == if b == 0 then {UDef(0, 2), UDef(0, 3), UGlobal(1)} else {UDef(0, 0)}
  {
    hide Mentions, NamesGlobal, Uses;
    var m := HEADER;
    HeaderMentions(0);
    HeaderMentions(1);
    HeaderDefUsers(b);
    HeaderHolders(b);
    assert m.fns[0].rets == map[];
  }

  lemma HeaderDefUsers(b: nat)
    requires b <= 1
    ensures (set i: nat, y | i < |HEADER.fns| && y in HEADER.fns[i].defs
                             && NamesGlobal(Uses(HEADER.fns[i].defs[y]), b) :: UDef(i, y))
            == if b == 0 then {UDef(0, 2), UDef(0, 3)} else {UDef(0, 0)}
  {
    hide NamesGlobal, Uses;
    forall y | y in HEADER_DEFS
      ensures NamesGlobal(Uses(HEADER_DEFS[y]), b) <==> (b == 0 && (y == 2 || y == 3)) || (b == 1 && y == 0)
    {
      HeaderNames(y, b);
    }
    assert HEADER.fns == [HEADER_FN] && 2 in HEADER_DEFS && 3 in HEADER_DEFS && 0 in HEADER_DEFS;
  }

  lemma HeaderHolders(b: nat)
    requires b <= 1
    ensures (set c | c in HEADER.init && b in Mentions(HEADER, c.base) :: UGlobal(c.base))
            == if b == 0 then {UGlobal(1)} else {}
  {
    hide Mentions;
    HeaderMentions(0);
    HeaderMentions(1);
    assert Cell(1, 8, PTR) in HEADER.init;
  }

  lemma HeaderNames(y: nat, b: nat)
    requires y in HEADER_DEFS && b <= 1
    ensures NamesGlobal(Uses(HEADER_DEFS[y]), b) <==> (b == 0 && (y == 2 || y == 3)) || (b == 1 && y == 0)
  {
    if y == 0 {
      assert C(CAddr(1, 8)) in Uses(HEADER_DEFS[0]);
    } else if y == 2 {
      assert C(CAddr(0, 0)) in Uses(HEADER_DEFS[2]);
    } else if y == 3 {
      assert C(CAddr(0, 8)) in Uses(HEADER_DEFS[3]);
    }
  }

  lemma HeaderNext(v: Visit)
    requires Wf(HEADER) && v in HEADER_VISITS
    ensures Harmless(HEADER, v.u) && Next(HEADER, v) <= HEADER_VISITS
  {
    hide GlobalUsers, Wf, WfFn, ValueUsers;
    if v.u.UGlobal? {
      HeaderUsers(1);
      assert Each({UDef(0, 0)}, true) == {Visit(UDef(0, 0), true)};
    } else {
      HeaderOffset(v);
    }
  }

  // Unfollowed loads lead nowhere, and the load of the header is not at the start.
  lemma HeaderOffset(v: Visit)
    requires Wf(HEADER) && v in HEADER_VISITS && v.u.UDef?
    ensures Harmless(HEADER, v.u) && Next(HEADER, v) == {}
  {
    hide GlobalUsers, ValueUsers;
    assert WfFn(HEADER.fns[0]);
    assert v.follow ==> v.u.y == 0;
  }

  lemma HeaderHarmless()
    ensures Wf(HEADER) && AllHarmless(HEADER, 0, HEADER_VISITS)
  {
    hide GlobalUsers, Wf, Harmless, Next;
    HeaderWf();
    HeaderUsers(0);
    forall v | v in HEADER_VISITS ensures Harmless(HEADER, v.u) && Next(HEADER, v) <= HEADER_VISITS {
      HeaderNext(v);
    }
  }

  function HeaderValue(x: nat): (v: V) {
    match x
    case 0 => HeaderConst(CAddr(0, 0))
    case 2 => HeaderConst(CAddr(3, 0))
    case 3 => I(3)
    case _ => Other
  }

  function HeaderConst(c: Const): (v: V) {
    match c
    case CAddr(b, k) =>
      P((now: nat) => if b == 2 then From("Foo", k) else if b == 3 then From("Boo", k) else "", Global(b, k))
    case CInt(n) => I(n)
    case CZero => A(Other, I(0))
    case CPair(p, l) => A(HeaderConst(p), HeaderConst(l))
    case CUnknown(t) => if t == TStr then A(Other, I(0)) else Other
  }

  // Value x gets its value at step x + 1. The table holds "Foo" at first.
  function HeaderCell(c: Cell, now: nat): (v: V) {
    if c == Cell(0, 0, PTR) then HeaderConst(CAddr(if now == 0 then 2 else 3, 0))
    else if c == Cell(0, 8, INT) then I(3)
    else if c == Cell(1, 8, PTR) then HeaderConst(CAddr(0, 0))
    else Other
  }

  const HEADER_RUN: Run :=
    Run([Act(0, [], [0, 1, 2, 3, 4, 5], (e: nat) => e, (e: nat, x: nat) => if e > x then HeaderValue(x) else Other,
             (e: nat, x: nat, off: int, what: Access) => Other, None)],
        (c: Const) => HeaderConst(c), (b: nat, now: nat) => if b == 2 then "Foo" else if b == 3 then "Boo" else "",
        (c: Cell, now: nat) => HeaderCell(c, now))

  lemma HeaderConsts(c: Const)
    ensures ConstOk(HEADER, HEADER_RUN, c)
  {
    if c.CUnknown? && c.ty == TStr {
      forall now: nat ensures StrAt(now, HeaderConst(c)) {
        assert StrIs(now, HeaderConst(c), "");
      }
    }
  }

  lemma HeaderKept(b: nat)
    requires b != 0
    ensures Kept(HEADER, HEADER_RUN, b)
  {
  }

  // At its own step a load gets what the table holds by then.
  lemma HeaderLoads(x: nat)
    requires x == 0 || x == 2 || x == 3
    ensures StepOk(HEADER, HEADER_RUN, 0, x + 1, x)
  {
    var r := HEADER_RUN;
    assert r.cell(Cell(0, 0, PTR), 1) == HeaderValue(2) && r.cell(Cell(0, 8, INT), 1) == HeaderValue(3);
    assert r.cell(Cell(1, 8, PTR), 1) == HeaderValue(0);
  }

  lemma HeaderStores()
    ensures StepOk(HEADER, HEADER_RUN, 0, 2, 1)
  {
  }

  lemma HeaderRests(e: nat, x: nat)
    requires 1 <= e < 5 && e != x + 1
    ensures StepOk(HEADER, HEADER_RUN, 0, e, x)
  {
    hide Gives;
  }

  lemma HeaderStep(e: nat, x: nat)
    requires 1 <= e < 5
    ensures StepOk(HEADER, HEADER_RUN, 0, e, x)
  {
    hide StepOk;
    if e != x + 1 {
      HeaderRests(e, x);
    } else if x == 1 {
      HeaderStores();
    } else {
      HeaderLoads(x);
    }
  }

  lemma HeaderNoLocals(e: nat, x: nat, off: int, what: Access)
    requires 1 <= e < 5
    ensures CellOk(HEADER_RUN, 0, e, HEADER_FN, x, off, what)
  {
  }

  lemma HeaderIsRun()
    ensures IsRun(HEADER, HEADER_RUN)
  {
    hide StepOk, CellOk, ConstOk, Kept, Untouched;
    var m, r := HEADER, HEADER_RUN;
    forall c ensures ConstOk(m, r, c) {
      HeaderConsts(c);
    }
    HeaderTouched();
    forall b | Untouched(m, b) ensures Kept(m, r, b) {
      HeaderKept(b);
    }
    assert IsPath(m.fns[0].succs, [0, 1, 2, 3, 4, 5]);
    forall e: nat, x: nat | 1 <= e < 5 ensures StepOk(m, r, 0, e, x) {
      HeaderStep(e, x);
    }
    forall e: nat, x: nat, off: int, what: Access | 1 <= e < 5 ensures CellOk(r, 0, e, m.fns[0], x, off, what) {
      HeaderNoLocals(e, x, off, what);
    }
    assert ActOk(m, r, 0);
  }

  // The walk lets the table be read, and the collector takes "Foo" from it, but a run
  // passes "Boo": the header is loaded from offset 8, where the walk does not follow it.
  method HeaderExample() returns (ok: bool)
    ensures Wf(HEADER) && ok && !AllFollowed(HEADER, 0) && 0 in HEADER.readable
    ensures Folded(HEADER, 0, Ref(2)) == Some(CAddr(2, 0)) && Folded(HEADER, 0, Ref(3)) == Some(CInt(3))
    ensures ReadConstant(HEADER, C(CAddr(2, 0)), C(CInt(3))) == Some("Foo")
    ensures NameGiven(HEADER, HEADER_RUN, 0, 5, 0, 4, 0, "Boo")
  {
    hide AllHarmless, AllFollowed, NameGiven, Untouched, Wf, Folded, ReadConstant, PlainIndices;
    HeaderHarmless();
    HeaderUnfollowed();
    HeaderGiven();
    HeaderFolds();
    ok := CanReadGlobalInitializer(HEADER, 0);
  }

  lemma HeaderGiven()
    ensures NameGiven(HEADER, HEADER_RUN, 0, 5, 0, 4, 0, "Boo")
  {
    HeaderIsRun();
    hide IsRun;
    assert "Boo"[0..] == "Boo" && "Boo"[..3] == "Boo";
  }

  lemma HeaderFolds()
    requires Wf(HEADER)
    ensures Folded(HEADER, 0, Ref(2)) == Some(CAddr(2, 0)) && Folded(HEADER, 0, Ref(3)) == Some(CInt(3))
    ensures ReadConstant(HEADER, C(CAddr(2, 0)), C(CInt(3))) == Some("Foo")
  {
    assert WfFn(HEADER.fns[0]) && "Foo"[0..3] == "Foo";
  }

  lemma HeaderUnfollowed()
    requires Wf(HEADER)
    ensures !AllFollowed(HEADER, 0)
  {
    var m, f := HEADER, HEADER.fns[0];
    assert WfFn(f);
    HeaderMentions(1);
    assert 1 in PointsInto(m, f, f.defs[0].addr) && 0 in Mentions(m, 1) && LeadsTo(m, 0, 0);
    assert !AtStart(f, f.defs[0]);
    assert !Followed(m, f, 0, 0);
  }
}
