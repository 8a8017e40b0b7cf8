// Integers and addresses that take one of a few values: which ones, and when they are
// found.
module StringInts {
  import opened Common
  import opened StringCover
  import opened StringRuns

  const MAX_DEPTH := 12
  const MAX_CHOICES := 32

  function Room(depth: nat): (n: nat) { if depth <= MAX_DEPTH then MAX_DEPTH + 1 - depth else 0 }

  // ---- lists of choices ----

  ghost predicate Distinct<T>(xs: seq<T>) {
    forall i, j :: 0 <= i < j < |xs| ==> xs[i] != xs[j]
  }

  lemma {:induction false} DistinctFits<T>(xs: seq<T>, s: set<T>)
    requires Distinct(xs) && forall x :: x in xs ==> x in s
    ensures |xs| <= |s|
  {
    if xs != [] {
      var last := xs[|xs| - 1];
      assert last in xs;
      DistinctFits(xs[..|xs| - 1], s - {last});
    }
  }

  method AddChoice(choices: seq<nat>, n: nat) returns (ok: bool, out: seq<nat>)
    ensures forall k :: k in out <==> k in choices || (ok && k == n)
    ensures ok <==> n in choices || |choices| < MAX_CHOICES
    ensures Distinct(choices) ==> Distinct(out)
    ensures |choices| <= MAX_CHOICES ==> |out| <= MAX_CHOICES
  {
    if n in choices {
      return true, choices;
    }
    if |choices| >= MAX_CHOICES {
      return false, choices;
    }
    return true, choices + [n];
  }

  // ---- integers ----

  // o is chosen between values, of which u is one.
  ghost predicate Chooses(m: Module, f: nat, o: Operand, u: Operand) {
    && IsChoice(m, f, o)
    && match m.fns[f].defs[o.x]
       case Select(_, t, e) => u == t || u == e
       case Phi(inc) => exists q :: q in inc && inc[q] == u
       case _ => false
  }

  ghost predicate IsChoice(m: Module, f: nat, o: Operand) {
    f < |m.fns| && o.Ref? && o.x in m.fns[f].defs && (m.fns[f].defs[o.x].Select? || m.fns[f].defs[o.x].Phi?)
  }

  ghost predicate IsBool(m: Module, f: nat, o: Operand) {
    f < |m.fns| && o.Ref? && o.x in m.fns[f].defs && m.fns[f].defs[o.x].ZExtBool?
  }

  // n is one of the values o can be seen to take.
  least predicate YieldsInt(m: Module, f: nat, o: Operand, n: nat) {
    o == C(CInt(n)) || (IsBool(m, f, o) && n <= 1) || exists u :: Chooses(m, f, o, u) && YieldsInt(m, f, u, n)
  }

  // Following the choices from this depth on, every end is a number.
  ghost predicate SettlesInt(m: Module, f: nat, o: Operand, depth: nat)
    decreases Room(depth)
  {
    && depth <= MAX_DEPTH
    && ((o.C? && o.c.CInt? && o.c.n >= 0) || IsBool(m, f, o)
        || (IsChoice(m, f, o) && forall u :: Chooses(m, f, o, u) ==> SettlesInt(m, f, u, depth + 1)))
  }

  // Choices are added, and they are values of o.
  ghost predicate AddsInts(m: Module, f: nat, o: Operand, choices: seq<nat>, out: seq<nat>) {
    && (forall n :: n in choices ==> n in out) && (forall n :: n in out ==> n in choices || YieldsInt(m, f, o, n))
    && (Distinct(choices) ==> Distinct(out)) && (|choices| <= MAX_CHOICES ==> |out| <= MAX_CHOICES)
  }

  // The values of o and the choices so far are few enough.
  ghost predicate RoomForInts(m: Module, f: nat, o: Operand, choices: seq<nat>) {
    Distinct(choices) && exists s: set<nat> :: |s| <= MAX_CHOICES && IntsAmong(m, f, o, choices, s)
  }

  ghost predicate IntsAmong(m: Module, f: nat, o: Operand, choices: seq<nat>, s: set<nat>) {
    (forall n :: n in choices ==> n in s) && forall n: nat :: YieldsInt(m, f, o, n) ==> n in s
  }

  lemma BranchAdds(m: Module, f: nat, o: Operand, u: Operand, choices: seq<nat>, mid: seq<nat>, out: seq<nat>)
    requires Chooses(m, f, o, u) && AddsInts(m, f, o, choices, mid) && AddsInts(m, f, u, mid, out)
    ensures AddsInts(m, f, o, choices, out)
  {
  }

  // Settled, with room for all values.
  ghost predicate ReadyInts(m: Module, f: nat, o: Operand, choices: seq<nat>, depth: nat) {
    SettlesInt(m, f, o, depth) && RoomForInts(m, f, o, choices)
  }

  lemma BranchReady(m: Module, f: nat, o: Operand, u: Operand, choices: seq<nat>, mid: seq<nat>, depth: nat)
    requires Chooses(m, f, o, u) && AddsInts(m, f, o, choices, mid)
    ensures ReadyInts(m, f, o, choices, depth) ==> ReadyInts(m, f, u, mid, depth + 1)
  {
    if ReadyInts(m, f, o, choices, depth) {
      var s: set<nat> :| |s| <= MAX_CHOICES && IntsAmong(m, f, o, choices, s);
      assert IntsAmong(m, f, u, mid, s);
    }
  }

  lemma RoomToAdd(m: Module, f: nat, o: Operand, choices: seq<nat>, n: nat)
    requires RoomForInts(m, f, o, choices) && YieldsInt(m, f, o, n) && n !in choices
    ensures |choices| < MAX_CHOICES
  {
    var s: set<nat> :| |s| <= MAX_CHOICES && IntsAmong(m, f, o, choices, s);
    DistinctFits(choices, s - {n});
  }

  // All values of the branches of o are among the choices.
  lemma BranchesDone(m: Module, f: nat, o: Operand, out: seq<nat>, depth: nat)
    requires IsChoice(m, f, o) && depth <= MAX_DEPTH
    requires forall u :: Chooses(m, f, o, u) ==> Known(m, f, u, out, depth + 1)
    ensures Known(m, f, o, out, depth)
  {
    forall n: nat | YieldsInt(m, f, o, n) ensures n in out {
      var u :| Chooses(m, f, o, u) && YieldsInt(m, f, u, n);
    }
  }

  // The value of o is settled and its values are among the choices.
  ghost predicate Known(m: Module, f: nat, o: Operand, out: seq<nat>, depth: nat) {
    SettlesInt(m, f, o, depth) && forall n: nat :: YieldsInt(m, f, o, n) ==> n in out
  }

  method CollectInts(m: Module, f: nat, o: Operand, choices: seq<nat>, depth: nat) returns (ok: bool, out: seq<nat>)
    requires Wf(m) && f < |m.fns|
    ensures AddsInts(m, f, o, choices, out)
    ensures ok ==> CoversInt(m, f, o, out) && Known(m, f, o, out, depth)
    ensures ReadyInts(m, f, o, choices, depth) ==> ok
    decreases Room(depth)
  {
    out := choices;
    if depth > MAX_DEPTH {
      return false, out;
    }
    if o.C? && o.c.CInt? {
      if o.c.n < 0 {
        return false, out;
      }
      ok, out := AddYielded(m, f, o, choices, out, o.c.n);
      if ok {
        IntConst(m, f, o.c.n, out);
      }
      return;
    }
    if !o.Ref? || o.x !in m.fns[f].defs {
      return false, out;
    }
    var d := m.fns[f].defs[o.x];
    match d
    case ZExtBool =>
      ok, out := AddYielded(m, f, o, choices, out, 0);
      if ok {
        ok, out := AddYielded(m, f, o, choices, out, 1);
        if ok {
          IntBool(m, f, o.x, out);
        }
      }
    case Select(c, t, u) =>
      BranchReady(m, f, o, t, choices, choices, depth);
      ok, out := CollectInts(m, f, t, out, depth + 1);
      BranchAdds(m, f, o, t, choices, choices, out);
      if ok {
        ghost var was := out;
        BranchReady(m, f, o, u, choices, was, depth);
        ok, out := CollectInts(m, f, u, out, depth + 1);
        BranchAdds(m, f, o, u, choices, was, out);
        assert CoversInt(m, f, t, was);
        if ok {
          IntSelect(m, f, o.x, out);
          BranchesDone(m, f, o, out, depth);
        }
      }
    case Phi(inc) =>
      var todo := inc.Keys;
      while todo != {}
        invariant todo <= inc.Keys && AddsInts(m, f, o, choices, out)
        invariant forall q :: q in inc && q !in todo ==>
                    CoversInt(m, f, inc[q], out) && Known(m, f, inc[q], out, depth + 1)
        decreases |todo|
      {
        var q :| q in todo;
        todo := todo - {q};
        ghost var was := out;
        assert Chooses(m, f, o, inc[q]);
        BranchReady(m, f, o, inc[q], choices, was, depth);
        ok, out := CollectInts(m, f, inc[q], out, depth + 1);
        BranchAdds(m, f, o, inc[q], choices, was, out);
        if !ok {
          return;
        }
      }
      IntPhi(m, f, o.x, out);
      BranchesDone(m, f, o, out, depth);
      ok := true;
    case _ =>
      ok := false;
  }

  method AddYielded(m: Module, f: nat, o: Operand, ghost choices: seq<nat>, mid: seq<nat>, n: nat)
    returns (ok: bool, out: seq<nat>)
    requires AddsInts(m, f, o, choices, mid) && YieldsInt(m, f, o, n)
    ensures AddsInts(m, f, o, choices, out) && (forall k :: k in mid ==> k in out) && (ok ==> n in out)
    ensures RoomForInts(m, f, o, choices) ==> ok
  {
    ok, out := AddChoice(mid, n);
    if RoomForInts(m, f, o, choices) && n !in mid {
      RoomStays(m, f, o, choices, mid);
      RoomToAdd(m, f, o, mid, n);
    }
  }

  lemma RoomStays(m: Module, f: nat, o: Operand, choices: seq<nat>, mid: seq<nat>)
    requires AddsInts(m, f, o, choices, mid) && RoomForInts(m, f, o, choices)
    ensures RoomForInts(m, f, o, mid)
  {
    var s: set<nat> :| |s| <= MAX_CHOICES && IntsAmong(m, f, o, choices, s);
    assert IntsAmong(m, f, o, mid, s);
  }

  // ---- indices ----

  // In every run the index, if it is in range, is one of the choices.
  ghost predicate CoversIndex(m: Module, f: nat, o: Operand, bound: Option<nat>, choices: seq<int>) {
    forall r, i: nat, e: nat, n :: IntAt(m, r, i, e, f, o, n) && Below(n, bound) ==> n in choices
  }

  method AddBelow(choices: seq<nat>, bound: nat) returns (ok: bool, out: seq<nat>)
    ensures forall n :: n in choices ==> n in out
    ensures forall n :: n in out ==> n in choices || n < bound
    ensures ok ==> forall n: nat :: n < bound ==> n in out
    ensures Distinct(choices) ==> Distinct(out)
    ensures Distinct(choices) && (forall n :: n in choices ==> n < bound) && bound <= MAX_CHOICES ==> ok
  {
    out := choices;
    for n := 0 to bound
      invariant (forall k :: k in choices ==> k in out) && (forall k :: k in out ==> k in choices || k < bound)
      invariant (forall k: nat :: k < n ==> k in out) && (Distinct(choices) ==> Distinct(out))
    {
      if Distinct(out) && n !in out && (forall k :: k in out ==> k < bound) {
        RoomBelow(out, n, bound);
      }
      ok, out := AddChoice(out, n);
      if !ok {
        return;
      }
    }
    ok := true;
  }

  lemma RoomBelow(choices: seq<nat>, n: nat, bound: nat)
    requires Distinct(choices) && n < bound && n !in choices && forall k :: k in choices ==> k < bound
    ensures |choices| < bound
  {
    var s := Ids(bound);
    IdsSize(bound);
    DistinctFits(choices, s - {n});
  }

  lemma IdsSize(n: nat)
    ensures |Ids(n)| == n
  {
    if n > 0 {
      IdsSize(n - 1);
    }
  }

  predicate IsNumber(o: Operand) {
    o.C? && o.c.CInt?
  }

  // The values of o are found.
  ghost predicate IntsKnown(m: Module, f: nat, o: Operand) {
    ReadyInts(m, f, o, [], 0)
  }

  // The choices of an index: a number, the values of an integer, or, where these are not
  // found, everything below the bound.
  ghost predicate IndexIs(m: Module, f: nat, index: Index, bound: Option<nat>, n: int) {
    if IsNumber(index.o) then n == index.o.c.n
    else if IntsKnown(m, f, index.o) then n >= 0 && YieldsInt(m, f, index.o, n)
    else bound.Some? && 0 <= n < bound.value
  }

  // The index has choices, and its values are in range.
  ghost predicate IndexSettles(m: Module, f: nat, index: Index, bound: Option<nat>) {
    && (if IsNumber(index.o) then Below(index.o.c.n, bound)
        else forall n: nat :: YieldsInt(m, f, index.o, n) ==> Below(n, bound))
    && (IsNumber(index.o) || IntsKnown(m, f, index.o)
        || (index.counter && bound.Some? && bound.value <= MAX_CHOICES))
  }

  // The choices of an index: constants, the values of an integer, or, for a loop counter,
  // everything below the bound.
  method CollectIndex(m: Module, f: nat, index: Index, bound: Option<nat>) returns (ok: bool, out: seq<int>)
    requires Wf(m) && f < |m.fns|
    ensures ok ==> CoversIndex(m, f, index.o, bound, out) && forall n :: n in out ==> Below(n, bound)
    ensures ok ==> Distinct(out) && forall n :: n in out <==> IndexIs(m, f, index, bound, n)
    ensures IndexSettles(m, f, index, bound) ==> ok
  {
    hide ReadyInts, Known, AddsInts, CoversInt, CoversIndex, YieldsInt;
    if IsNumber(index.o) {
      var n := index.o.c.n;
      ConstIndex(m, f, n, bound);
      return Below(n, bound), [n];
    }
    var choices;
    ok, choices := CollectInts(m, f, index.o, [], 0);
    CollectedInts(m, f, index.o, ok, choices);
    ghost var known := ok;
    if !ok {
      if bound.None? || bound.value > MAX_CHOICES || !index.counter {
        return false, [];
      }
      ok, choices := AddBelow(choices, bound.value);
      if !ok {
        return false, [];
      }
    }
    out := [];
    for k := 0 to |choices|
      invariant |out| == k && forall j :: 0 <= j < k ==> choices[j] == out[j] && Below(out[j], bound)
    {
      if !Below(choices[k], bound) {
        assert choices[k] in choices;
        return false, [];
      }
      out := out + [choices[k]];
    }
    SameElements(choices, out);
    MoreChoices(m, f, index.o, bound, choices, out);
    ok := true;
  }

  lemma SameElements(choices: seq<nat>, out: seq<int>)
    requires |choices| == |out| && (forall j :: 0 <= j < |out| ==> choices[j] == out[j]) && Distinct(choices)
    ensures Distinct(out) && (forall n: nat :: n in out <==> n in choices) && forall n :: n in out ==> n >= 0
  {
    forall n: nat | n in choices ensures n in out {
      var j :| 0 <= j < |choices| && choices[j] == n;
      assert out[j] == n;
    }
    forall n | n in out ensures n >= 0 && n in choices {
      var j :| 0 <= j < |out| && out[j] == n;
      assert choices[j] == n;
    }
  }

  // Success tells that the values are known, and the choices then are these.
  lemma CollectedInts(m: Module, f: nat, o: Operand, ok: bool, choices: seq<nat>)
    requires AddsInts(m, f, o, [], choices) && (ok ==> Known(m, f, o, choices, 0))
    requires IntsKnown(m, f, o) ==> ok
    ensures ok <==> IntsKnown(m, f, o)
    ensures Distinct(choices) && (forall n :: n in choices ==> YieldsInt(m, f, o, n))
    ensures ok ==> forall n: nat :: n in choices <==> YieldsInt(m, f, o, n)
  {
    if ok {
      var s := set n | n in choices;
      SetSize(choices, s);
      assert IntsAmong(m, f, o, [], s);
    }
  }

  lemma {:induction false} SetSize<T>(xs: seq<T>, s: set<T>)
    requires s == set x | x in xs
    ensures |s| <= |xs|
  {
    if xs == [] {
      assert s == {};
    } else {
      var front, last := xs[..|xs| - 1], xs[|xs| - 1];
      var t := set x | x in front;
      assert s == t + {last};
      SetSize(front, t);
    }
  }

  lemma ConstIndex(m: Module, f: nat, n: int, bound: Option<nat>)
    ensures CoversIndex(m, f, C(CInt(n)), bound, [n])
  {
    forall r, i: nat, e: nat, k | IntAt(m, r, i, e, f, C(CInt(n)), k) ensures k in [n] {
      assert ConstOk(m, r, CInt(n));
    }
  }

  lemma MoreChoices(m: Module, f: nat, o: Operand, bound: Option<nat>, choices: seq<nat>, out: seq<int>)
    requires CoversInt(m, f, o, choices) || (bound.Some? && forall n: nat :: n < bound.value ==> n in choices)
    requires forall j :: 0 <= j < |choices| ==> choices[j] in out
    ensures CoversIndex(m, f, o, bound, out)
  {
    forall r, i: nat, e: nat, n | IntAt(m, r, i, e, f, o, n) && Below(n, bound) ensures n in out {
      assert n in choices;
    }
  }

  // ---- address arithmetic ----

  lemma {:induction false} IndicesAt(steps: seq<Step>, k: nat) returns (j: nat)
    requires k < |steps| && steps[k].Item?
    ensures j < |Indices(steps)| && Indices(steps)[j] == steps[k].index.o
  {
    if k == 0 {
      j := 0;
    } else {
      j := IndicesAt(steps[1..], k - 1);
      j := if steps[0].Item? then j + 1 else j;
    }
  }

  ghost predicate AllHere(m: Module, r: Run, i: nat, e: nat, f: nat, steps: seq<Step>) {
    forall k :: 0 <= k < |steps| && steps[k].Item? ==> Here(m, r, i, e, f, steps[k].index.o)
  }

  // The indices have the same values at both points.
  ghost predicate SameIndices(r: Run, a: Act, e: nat, e': nat, steps: seq<Step>) {
    forall k :: 0 <= k < |steps| && steps[k].Item? ==>
      Value(r, a, e, steps[k].index.o) == Value(r, a, e', steps[k].index.o)
  }

  lemma {:induction false} DistanceSame(r: Run, a: Act, e: nat, e': nat, steps: seq<Step>)
    requires SameIndices(r, a, e, e', steps)
    ensures Distance(r, a, e, steps) == Distance(r, a, e', steps)
  {
    if steps != [] {
      var front := steps[..|steps| - 1];
      assert SameIndices(r, a, e, e', front);
      DistanceSame(r, a, e, e', front);
    }
  }

  lemma StepOperand(d: Def, bound: Option<nat>, k: nat)
    requires d.Gep? && k < |Steps(d, bound)| && Steps(d, bound)[k].Item?
    ensures Steps(d, bound)[k].index.o in Operands(d)
  {
    if k == 0 {
      assert Operands(d)[1] == d.first.o;
    } else {
      var j := IndicesAt(d.rest, k - 1);
      assert Operands(d)[j + 2] == d.rest[k - 1].index.o;
    }
  }

  // The last run of an address computation, with operands that have kept their values.
  lemma GepRan(m: Module, r: Run, i: nat, e: nat, f: nat, x: nat) returns (l: nat)
    requires Here(m, r, i, e, f, Ref(x)) && m.fns[f].defs[x].Gep?
    ensures 1 <= l && forall o :: o in Operands(m.fns[f].defs[x]) ==>
              Value(r, r.acts[i], l - 1, o) == Value(r, r.acts[i], e, o) && Here(m, r, i, e, f, o)
    ensures var d := m.fns[f].defs[x];
            GepOk(m, r, r.acts[i], l - 1, d, Value(r, r.acts[i], l - 1, d.base), Value(r, r.acts[i], e, Ref(x)))
  {
    hide Operands, GepOk;
    assert WfFn(m.fns[f]) && WfDef(m.fns[f], x);
    l := LastRun(m, r, i, e, f, x);
    forall o | o in Operands(m.fns[f].defs[x])
      ensures Value(r, r.acts[i], l - 1, o) == Value(r, r.acts[i], e, o) && Here(m, r, i, e, f, o)
    {
      OperandKept(m, r, i, e, f, x, l, o);
    }
  }

  // At any later point an address is what its base and indices as they are now give.
  lemma GepNow(m: Module, r: Run, i: nat, e: nat, f: nat, x: nat)
    requires Here(m, r, i, e, f, Ref(x)) && m.fns[f].defs[x].Gep?
    ensures var d := m.fns[f].defs[x];
            && Here(m, r, i, e, f, d.base) && (forall bound :: AllHere(m, r, i, e, f, Steps(d, bound)))
            && GepOk(m, r, r.acts[i], e, d, Value(r, r.acts[i], e, d.base), Value(r, r.acts[i], e, Ref(x)))
  {
    hide Distance, Indices, Wf, IsRun, Operands, Value, Steps;
    var d := m.fns[f].defs[x];
    var l := GepRan(m, r, i, e, f, x);
    BaseOperand(d);
    forall bound
      ensures AllHere(m, r, i, e, f, Steps(d, bound)) && SameIndices(r, r.acts[i], l - 1, e, Steps(d, bound))
    {
      forall k | 0 <= k < |Steps(d, bound)| && Steps(d, bound)[k].Item?
        ensures Steps(d, bound)[k].index.o in Operands(d)
      {
        StepOperand(d, bound, k);
      }
    }
    forall bound ensures Distance(r, r.acts[i], l - 1, Steps(d, bound)) == Distance(r, r.acts[i], e, Steps(d, bound)) {
      DistanceSame(r, r.acts[i], l - 1, e, Steps(d, bound));
    }
  }

  lemma BaseOperand(d: Def)
    requires d.Gep?
    ensures d.base in Operands(d)
  {
    assert Operands(d)[0] == d.base;
  }

  // The steps of definition x go one of the distances in every run.
  ghost predicate CoversSteps(m: Module, f: nat, steps: seq<Step>, work: seq<int>) {
    forall r, i: nat, e: nat, n ::
      At(m, r, i, e, f) && AllHere(m, r, i, e, f, steps) && Distance(r, r.acts[i], e, steps) == Some(n) ==> n in work
  }

  // One distance the step can go, and a number of distances that covers all of them.
  ghost predicate StepIs(m: Module, f: nat, step: Step, k: int) {
    match step
    case Field(n) => k == n
    case Item(index, stride, bound) => exists n :: IndexIs(m, f, index, bound, n) && k == n * stride
  }

  ghost predicate StepSettles(m: Module, f: nat, step: Step, c: nat) {
    match step
    case Field(_) => c >= 1
    case Item(index, _, bound) => IndexSettles(m, f, index, bound) && IndexCount(m, f, index, bound, c)
  }

  ghost predicate IndexCount(m: Module, f: nat, index: Index, bound: Option<nat>, c: nat) {
    exists s: set<int> :: |s| <= c && IndicesAmong(m, f, index, bound, s)
  }

  ghost predicate IndicesAmong(m: Module, f: nat, index: Index, bound: Option<nat>, s: set<int>) {
    forall n :: IndexIs(m, f, index, bound, n) ==> n in s
  }

  function Total(ks: seq<int>): (n: int) {
    if ks == [] then 0 else Total(ks[..|ks| - 1]) + ks[|ks| - 1]
  }

  function Product(cs: seq<nat>): (n: nat) {
    if cs == [] then 1 else Product(cs[..|cs| - 1]) * cs[|cs| - 1]
  }

  ghost predicate Walk(m: Module, f: nat, steps: seq<Step>, ks: seq<int>) {
    |ks| == |steps| && forall i :: 0 <= i < |ks| ==> StepIs(m, f, steps[i], ks[i])
  }

  ghost predicate StepsAre(m: Module, f: nat, steps: seq<Step>, n: int) {
    exists ks :: Walk(m, f, steps, ks) && Total(ks) == n
  }

  // Every step has choices, with these numbers of them, and there are few ways to take the
  // first steps together.
  ghost predicate StepsSettle(m: Module, f: nat, steps: seq<Step>, counts: seq<nat>) {
    && |counts| == |steps| && (forall i :: 0 <= i < |counts| ==> StepSettles(m, f, steps[i], counts[i]))
    && (forall i :: 0 <= i <= |counts| ==> Product(counts[..i]) <= MAX_CHOICES)
  }

  ghost predicate AllSettle(m: Module, f: nat, steps: seq<Step>) {
    exists counts :: StepsSettle(m, f, steps, counts)
  }

  // n is no more than the ways there are to take the steps.
  ghost predicate AtMost(m: Module, f: nat, steps: seq<Step>, n: nat) {
    forall counts :: StepsSettle(m, f, steps, counts) ==> n <= Product(counts)
  }

  // The distances of one step.
  method StepChoices(m: Module, f: nat, step: Step) returns (ok: bool, choices: seq<int>)
    requires Wf(m) && f < |m.fns|
    ensures ok ==> CoversStep(m, f, step, choices) && forall k :: k in choices <==> StepIs(m, f, step, k)
    ensures forall c: nat :: StepSettles(m, f, step, c) ==> ok && |choices| <= c
  {
    hide IndexIs, IndexSettles;
    if step.Field? {
      return true, [step.offset];
    }
    var cs;
    ok, cs := CollectIndex(m, f, step.index, step.bound);
    if !ok {
      return false, [];
    }
    choices := seq(|cs|, j requires 0 <= j < |cs| => cs[j] * step.stride);
    ItemChoices(m, f, step, cs, choices);
    Scaled(cs, step.stride, choices);
    forall c: nat | StepSettles(m, f, step, c) ensures |choices| <= c {
      var s: set<int> :| |s| <= c && IndicesAmong(m, f, step.index, step.bound, s);
      DistinctFits(cs, s);
    }
  }

  lemma Scaled(cs: seq<int>, stride: nat, choices: seq<int>)
    requires |choices| == |cs| && forall j :: 0 <= j < |cs| ==> choices[j] == cs[j] * stride
    ensures forall n :: n in cs ==> n * stride in choices
    ensures forall k :: k in choices ==> exists n :: n in cs && k == n * stride
  {
    forall n | n in cs ensures n * stride in choices {
      var j :| 0 <= j < |cs| && cs[j] == n;
      assert choices[j] == n * stride;
    }
    forall k | k in choices ensures exists n :: n in cs && k == n * stride {
      var j :| 0 <= j < |choices| && choices[j] == k;
      assert cs[j] in cs;
    }
  }

  // All distances that choices of the indices give.
  method EnumerateSteps(m: Module, f: nat, steps: seq<Step>) returns (ok: bool, work: seq<int>)
    requires Wf(m) && f < |m.fns|
    ensures ok ==> CoversSteps(m, f, steps, work) && forall n :: n in work <==> StepsAre(m, f, steps, n)
    ensures (AllSettle(m, f, steps) ==> ok) && (ok ==> AtMost(m, f, steps, |work|))
  {
    hide StepIs, StepSettles, CoversStep, CoversSteps, StepsAre, StepsSettle, SumOf;
    work := [0];
    NoSteps(m, f);
    NoStepsAre(m, f);
    assert steps[..0] == [];
    for k := 0 to |steps|
      invariant CoversSteps(m, f, steps[..k], work)
      invariant Walked(m, f, steps[..k], work)
    {
      var choices;
      ok, choices := StepChoices(m, f, steps[k]);
      FrontSettles(m, f, steps, k);
      if !ok {
        return false, [];
      }
      ghost var was := work;
      ok, work := Sums(work, choices);
      Together(m, f, steps, k, was, choices);
      if !ok {
        return false, [];
      }
      StepsMore(m, f, steps, k, was, choices, work);
      StepsMoreAre(m, f, steps, k, was, choices, work);
    }
    assert steps[..|steps|] == steps;
    ok := true;
  }

  // The distances of the steps, no more of them than ways to take the steps.
  ghost predicate Walked(m: Module, f: nat, steps: seq<Step>, work: seq<int>) {
    && (forall n :: n in work <==> StepsAre(m, f, steps, n))
    && AtMost(m, f, steps, |work|)
  }

  lemma NoStepsAre(m: Module, f: nat)
    ensures Walked(m, f, [], [0])
  {
    assert Walk(m, f, [], []);
  }

  // If all steps settle, so do the first ones, and the next.
  lemma FrontSettles(m: Module, f: nat, steps: seq<Step>, k: nat)
    requires k < |steps|
    ensures AllSettle(m, f, steps) ==>
              AllSettle(m, f, steps[..k + 1]) && exists c: nat :: StepSettles(m, f, steps[k], c)
  {
    if AllSettle(m, f, steps) {
      var counts :| StepsSettle(m, f, steps, counts);
      var front := counts[..k + 1];
      forall i | 0 <= i <= |front| ensures Product(front[..i]) <= MAX_CHOICES {
        assert front[..i] == counts[..i];
      }
      assert StepsSettle(m, f, steps[..k + 1], front);
    }
  }

  // The sums are no more than the ways to take the first k + 1 steps.
  lemma Together(m: Module, f: nat, steps: seq<Step>, k: nat, was: seq<int>, choices: seq<int>)
    requires k < |steps| && Walked(m, f, steps[..k], was)
    requires forall c: nat :: StepSettles(m, f, steps[k], c) ==> |choices| <= c
    ensures AtMost(m, f, steps[..k + 1], |was| * |choices|)
    ensures AllSettle(m, f, steps[..k + 1]) ==> |was| * |choices| <= MAX_CHOICES
  {
    forall counts | StepsSettle(m, f, steps[..k + 1], counts)
      ensures |was| * |choices| <= Product(counts) <= MAX_CHOICES
    {
      var front := counts[..k];
      forall i | 0 <= i <= |front| ensures Product(front[..i]) <= MAX_CHOICES {
        assert front[..i] == counts[..i];
      }
      assert StepsSettle(m, f, steps[..k], front);
      Products(|was|, |choices|, Product(front), counts[k]);
      assert counts[..k + 1] == counts;
    }
  }

  lemma Products(x: nat, y: nat, a: nat, b: nat)
    requires x <= a && y <= b
    ensures x * y <= a * b
  {
    assert x * y <= a * y;
    assert a * y <= a * b;
  }

  lemma StepsMoreAre(m: Module, f: nat, steps: seq<Step>, k: nat, was: seq<int>, choices: seq<int>, work: seq<int>)
    requires k < |steps| && Walked(m, f, steps[..k], was)
    requires forall c :: c in choices <==> StepIs(m, f, steps[k], c)
    requires |work| == |was| * |choices| && forall n :: n in work <==> SumOf(was, choices, n)
    requires AtMost(m, f, steps[..k + 1], |was| * |choices|)
    ensures Walked(m, f, steps[..k + 1], work)
  {
    var front, all, step := steps[..k], steps[..k + 1], steps[k];
    forall n: int | n in work ensures StepsAre(m, f, all, n) {
      var x, y :| x in was && y in choices && n == x + y;
      var ks :| Walk(m, f, front, ks) && Total(ks) == x;
      assert (ks + [y])[..k] == ks;
      assert Walk(m, f, all, ks + [y]) && Total(ks + [y]) == n;
    }
    forall n: int | StepsAre(m, f, all, n) ensures n in work {
      var ks :| Walk(m, f, all, ks) && Total(ks) == n;
      assert Walk(m, f, front, ks[..k]);
      assert StepsAre(m, f, front, Total(ks[..k])) && StepIs(m, f, step, ks[k]);
      assert Total(ks[..k]) in was && ks[k] in choices;
    }
  }

  ghost predicate SumOf(ns: seq<int>, ks: seq<int>, x: int) {
    exists n, k :: n in ns && k in ks && x == n + k
  }

  // All sums, if there are not too many.
  method Sums(ns: seq<int>, ks: seq<int>) returns (ok: bool, out: seq<int>)
    ensures ok ==> |out| == |ns| * |ks| && forall x :: x in out <==> SumOf(ns, ks, x)
    ensures |ns| * |ks| <= MAX_CHOICES ==> ok
  {
    out := [];
    for i := 0 to |ns|
      invariant |out| == i * |ks| && forall x :: x in out <==> SumOf(ns[..i], ks, x)
    {
      Products(i + 1, |ks|, |ns|, |ks|);
      ghost var was := out;
      ok, out := AddSums(out, ns[i], ks);
      if !ok {
        return;
      }
      MoreSums(ns, i, ks, was, out);
    }
    assert ns[..|ns|] == ns;
    ok := true;
  }

  lemma MoreSums(ns: seq<int>, i: nat, ks: seq<int>, was: seq<int>, out: seq<int>)
    requires i < |ns| && forall x :: x in was <==> SumOf(ns[..i], ks, x)
    requires forall x :: x in out <==> x in was || x - ns[i] in ks
    ensures forall x :: x in out <==> SumOf(ns[..i + 1], ks, x)
  {
    var all := ns[..i + 1];
    assert all == ns[..i] + [ns[i]];
    forall x: int | x in out ensures SumOf(all, ks, x) {
      if x in was {
        var n, k :| n in ns[..i] && k in ks && x == n + k;
        assert n in all;
      } else {
        assert ns[i] in all && x == ns[i] + (x - ns[i]);
      }
    }
    forall x: int | SumOf(all, ks, x) ensures x in out {
      var n, k :| n in all && k in ks && x == n + k;
      if n in ns[..i] {
        assert SumOf(ns[..i], ks, x);
      }
    }
  }

  method AddSums(sums: seq<int>, n: int, ks: seq<int>) returns (ok: bool, out: seq<int>)
    ensures ok ==> |out| == |sums| + |ks| && forall x :: x in out <==> x in sums || x - n in ks
    ensures |sums| + |ks| <= MAX_CHOICES ==> ok
  {
    out := sums;
    for j := 0 to |ks|
      invariant |out| == |sums| + j && forall x :: x in out <==> x in sums || x - n in ks[..j]
    {
      if |out| >= MAX_CHOICES {
        return false, out;
      }
      out := out + [n + ks[j]];
      assert ks[..j + 1] == ks[..j] + [ks[j]];
    }
    assert ks[..|ks|] == ks;
    ok := true;
  }

  // In every run the step, if it is in range, goes one of the distances.
  ghost predicate CoversStep(m: Module, f: nat, step: Step, choices: seq<int>) {
    match step
    case Field(k) => k in choices
    case Item(index, stride, bound) =>
      forall r, i: nat, e: nat, n :: IntAt(m, r, i, e, f, index.o, n) && Below(n, bound) ==> n * stride in choices
  }

  lemma ItemChoices(m: Module, f: nat, step: Step, cs: seq<int>, choices: seq<int>)
    requires step.Item? && CoversIndex(m, f, step.index.o, step.bound, cs)
    requires |choices| == |cs| && forall j :: 0 <= j < |cs| ==> choices[j] == cs[j] * step.stride
    ensures CoversStep(m, f, step, choices)
  {
    forall r, i: nat, e: nat, n | IntAt(m, r, i, e, f, step.index.o, n) && Below(n, step.bound)
      ensures n * step.stride in choices
    {
      var j :| 0 <= j < |cs| && cs[j] == n;
      assert choices[j] == n * step.stride;
    }
  }

  lemma NoSteps(m: Module, f: nat)
    ensures CoversSteps(m, f, [], [0])
  {
  }

  lemma StepsMore(m: Module, f: nat, steps: seq<Step>, k: nat, was: seq<int>, choices: seq<int>, work: seq<int>)
    requires k < |steps| && CoversSteps(m, f, steps[..k], was) && CoversStep(m, f, steps[k], choices)
    requires forall n :: SumOf(was, choices, n) ==> n in work
    ensures CoversSteps(m, f, steps[..k + 1], work)
  {
    var front, all, step := steps[..k], steps[..k + 1], steps[k];
    assert all[..k] == front && all[k] == step;
    forall r, i: nat, e: nat, n |
      At(m, r, i, e, f) && AllHere(m, r, i, e, f, all) && Distance(r, r.acts[i], e, all) == Some(n)
      ensures n in work
    {
      FrontHere(m, r, i, e, f, all, k);
      var d := Distance(r, r.acts[i], e, front);
      assert d.Some? && d.value in was;
      if step.Item? {
        var v := Value(r, r.acts[i], e, step.index.o);
        assert IntAt(m, r, i, e, f, step.index.o, v.n);
        assert v.n * step.stride in choices;
      }
    }
  }

  lemma FrontHere(m: Module, r: Run, i: nat, e: nat, f: nat, all: seq<Step>, k: nat)
    requires k < |all| && AllHere(m, r, i, e, f, all)
    ensures AllHere(m, r, i, e, f, all[..k]) && (all[k].Item? ==> Here(m, r, i, e, f, all[k].index.o))
  {
  }

  // ---- addresses in globals ----

  datatype Slot = Slot(base: nat, off: int)

  ghost predicate AddrIn(v: V, slots: seq<Slot>) {
    v == Poison || (v.P? && v.at.Global? && Slot(v.at.base, v.at.off) in slots)
  }

  // In every run that keeps the sources the address is one of the slots, unless an index is
  // out of range.
  ghost predicate CoversAddr(m: Module, f: nat, o: Operand, slots: seq<Slot>, sources: set<nat>) {
    forall r, i: nat, e: nat :: KeptAll(m, r, sources) && Here(m, r, i, e, f, o) ==>
      AddrIn(Value(r, r.acts[i], e, o), slots)
  }

  predicate StartsArray(m: Module, s: Slot, t: ArrayOf) {
    s.off == 0 && s.base in m.arrays && m.arrays[s.base] == t
  }

  // The common bound of the arrays of these elements that begin at the slots.
  function FirstBound(m: Module, bases: seq<Slot>, elem: Elem): (b: Option<nat>) {
    if bases == [] || bases[0].base !in m.arrays then None
    else
      var t := m.arrays[bases[0].base];
      if t.elem == elem && forall k :: 0 <= k < |bases| ==> StartsArray(m, bases[k], t) then Some(t.len) else None
  }

  lemma {:induction false} DistanceLooser(r: Run, a: Act, e: nat, d: Def, b: Option<nat>, c: Option<nat>, k: nat)
    requires d.Gep? && (c == b || c.None?) && 1 <= k <= |Steps(d, b)|
    requires Distance(r, a, e, Steps(d, b)[..k]).Some?
    ensures Distance(r, a, e, Steps(d, c)[..k]) == Distance(r, a, e, Steps(d, b)[..k])
  {
    var s, t := Steps(d, b)[..k], Steps(d, c)[..k];
    assert s[..k - 1] == Steps(d, b)[..k - 1] && t[..k - 1] == Steps(d, c)[..k - 1];
    if k > 1 {
      assert s[k - 1] == d.rest[k - 2] == t[k - 1];
      DistanceLooser(r, a, e, d, b, c, k - 1);
    } else {
      assert s[..0] == t[..0] == [];
    }
  }

  // o without casts, or the constant it is loaded as.
  function Simplest(m: Module, f: nat, o: Operand): (q: Operand)
    requires Wf(m) && f < |m.fns|
    ensures q.Ref? ==> o.Ref? && q.x <= o.x
  {
    assert WfFn(m.fns[f]);
    var q := StripCasts(m.fns[f], o);
    if Folded(m, f, q).Some? then C(Folded(m, f, q).value) else q
  }

  predicate IsGep(m: Module, f: nat, q: Operand) {
    f < |m.fns| && q.Ref? && q.x in m.fns[f].defs && m.fns[f].defs[q.x].Gep?
  }

  lemma BaseFirst(m: Module, f: nat, q: Operand)
    requires Wf(m) && IsGep(m, f, q)
    ensures m.fns[f].defs[q.x].base.Ref? ==> m.fns[f].defs[q.x].base.x < q.x
  {
    assert WfFn(m.fns[f]) && WfDef(m.fns[f], q.x);
    BaseOperand(m.fns[f].defs[q.x]);
  }

  // The slots that address o can be.
  ghost function Addrs(m: Module, f: nat, o: Operand): (ss: iset<Slot>)
    requires Wf(m) && f < |m.fns|
    decreases if o.Ref? then o.x + 1 else 0
  {
    var q := Simplest(m, f, o);
    if q.C? then (if q.c.CAddr? then iset{Slot(q.c.base, q.c.off)} else iset{})
    else if !IsGep(m, f, q) then iset{}
    else
      BaseFirst(m, f, q);
      var d := m.fns[f].defs[q.x];
      var bases := Addrs(m, f, d.base);
      iset s | GepSlot(m, f, bases, d, s)
  }

  ghost predicate GepSlot(m: Module, f: nat, bases: iset<Slot>, d: Def, s: Slot)
    requires d.Gep?
  {
    exists b, n, bound ::
      b in bases && IsBound(m, bases, d.source, bound) && StepsAre(m, f, Steps(d, bound), n)
      && s == Slot(b.base, b.off + n)
  }

  // The bound of the first index: the length of the arrays of these elements that all the
  // bases are starts of.
  ghost predicate IsBound(m: Module, bases: iset<Slot>, elem: Elem, bound: Option<nat>) {
    if bound.Some? then AllStart(m, bases, elem, bound.value) else forall len: nat :: !AllStart(m, bases, elem, len)
  }

  ghost predicate AllStart(m: Module, bases: iset<Slot>, elem: Elem, len: nat) {
    (exists s :: s in bases) && forall s :: s in bases ==> StartsArray(m, s, ArrayOf(elem, len))
  }

  ghost predicate AddrIs(m: Module, f: nat, o: Operand, s: Slot)
    requires Wf(m) && f < |m.fns|
  {
    s in Addrs(m, f, o)
  }

  // All indices on the way to address o have choices, and together at most c.
  ghost predicate AddrSettles(m: Module, f: nat, o: Operand, c: nat)
    requires Wf(m) && f < |m.fns|
    decreases if o.Ref? then o.x + 1 else 0
  {
    var q := Simplest(m, f, o);
    if q.C? then q.c.CAddr? && c >= 1
    else
      && IsGep(m, f, q)
      && var d := m.fns[f].defs[q.x];
         BaseFirst(m, f, q);
         exists a: nat, b: nat ::
           AddrSettles(m, f, d.base, a) && GepSettles(m, f, d, b) && a * b <= c <= MAX_CHOICES
  }

  // The steps from the base have choices, and together at most b.
  ghost predicate GepSettles(m: Module, f: nat, d: Def, b: nat)
    requires Wf(m) && f < |m.fns| && d.Gep?
  {
    exists bound, counts ::
      IsBound(m, Addrs(m, f, d.base), d.source, bound) && StepsSettle(m, f, Steps(d, bound), counts)
        && Product(counts) <= b
  }

  // All slots that an address can be, and the globals that were read to find them.
  method EnumerateAddrs(m: Module, f: nat, o: Operand) returns (ok: bool, slots: seq<Slot>, sources: set<nat>)
    requires Wf(m) && f < |m.fns|
    ensures ok ==> CoversAddr(m, f, o, slots, sources) && sources <= m.readable
    ensures ok ==> forall s :: s in slots <==> AddrIs(m, f, o, s)
    ensures forall c: nat :: AddrSettles(m, f, o, c) ==> ok && |slots| <= c
    decreases if o.Ref? then o.x + 1 else 0
  {
    assert WfFn(m.fns[f]);
    var q := StripCasts(m.fns[f], o);
    StripKeeps(m, f, o);
    sources := {};
    if Folded(m, f, q).Some? {
      LoadFolds(m, f, q);
      sources := {FoldedFrom(m, f, q)};
      q := C(Folded(m, f, q).value);
      assert SameValue(m, f, o, q, sources);
    }
    assert q == Simplest(m, f, o);
    if q.C? && q.c.CAddr? {
      ConstAddr(m, f, o, q.c.base, q.c.off, sources);
      return true, [Slot(q.c.base, q.c.off)], sources;
    }
    if !(q.Ref? && q.x in m.fns[f].defs && m.fns[f].defs[q.x].Gep?) {
      return false, [], {};
    }
    hide CoversAddr, CoversSteps, AddrIs, AddrSettles, SameValue, StepsAre, AllSettle, AtMost, StripCasts, Simplest;
    var d := m.fns[f].defs[q.x];
    BaseFirst(m, f, q);
    var bases, work;
    ok, bases, sources := EnumerateAddrs(m, f, d.base);
    AddrReady(m, f, o, q, bases, ok);
    if ok {
      ok, work := EnumerateSteps(m, f, Steps(d, FirstBound(m, bases, d.source)));
    }
    if !ok {
      return false, [], {};
    }
    ok, slots := AddSlots(bases, work);
    AddrFits(m, f, o, q, bases, work);
    if ok {
      GepCovered(m, f, q.x, bases, work, slots, sources);
      AddrThrough(m, f, o, q, slots, sources);
      AddrExact(m, f, o, q, bases, work, slots);
    }
  }

  lemma AddrThrough(m: Module, f: nat, o: Operand, q: Operand, slots: seq<Slot>, sources: set<nat>)
    requires SameValue(m, f, o, q, {}) && CoversAddr(m, f, q, slots, sources)
    ensures CoversAddr(m, f, o, slots, sources)
  {
  }

  ghost predicate SlotOf(bases: seq<Slot>, work: seq<int>, s: Slot) {
    exists b, n :: b in bases && n in work && s == Slot(b.base, b.off + n)
  }

  method AddSlots(bases: seq<Slot>, work: seq<int>) returns (ok: bool, out: seq<Slot>)
    ensures ok ==> |out| == |bases| * |work| && forall s :: s in out <==> SlotOf(bases, work, s)
    ensures |bases| * |work| <= MAX_CHOICES ==> ok
  {
    out := [];
    for i := 0 to |bases|
      invariant |out| == i * |work| && forall s :: s in out <==> SlotOf(bases[..i], work, s)
    {
      Products(i + 1, |work|, |bases|, |work|);
      ghost var was := out;
      ok, out := AddSlotsOf(out, bases[i], work);
      if !ok {
        return;
      }
      MoreSlotsOf(bases, i, work, was, out);
    }
    assert bases[..|bases|] == bases;
    ok := true;
  }

  lemma MoreSlotsOf(bases: seq<Slot>, i: nat, work: seq<int>, was: seq<Slot>, out: seq<Slot>)
    requires i < |bases| && forall s :: s in was <==> SlotOf(bases[..i], work, s)
    requires forall s :: s in out <==> s in was || (s.base == bases[i].base && s.off - bases[i].off in work)
    ensures forall s :: s in out <==> SlotOf(bases[..i + 1], work, s)
  {
    forall s: Slot ensures s in out <==> SlotOf(bases[..i + 1], work, s) {
      OneMoreSlot(bases, i, work, s);
    }
  }

  lemma OneMoreSlot(bases: seq<Slot>, i: nat, work: seq<int>, s: Slot)
    requires i < |bases|
    ensures SlotOf(bases[..i + 1], work, s)
       <==> SlotOf(bases[..i], work, s) || (s.base == bases[i].base && s.off - bases[i].off in work)
  {
    var all := bases[..i + 1];
    assert all == bases[..i] + [bases[i]];
    if SlotOf(bases[..i], work, s) {
      var b, n :| b in bases[..i] && n in work && s == Slot(b.base, b.off + n);
      assert b in all;
    }
    if s.base == bases[i].base && s.off - bases[i].off in work {
      assert bases[i] in all && s == Slot(bases[i].base, bases[i].off + (s.off - bases[i].off));
    }
    if SlotOf(all, work, s) {
      var b, n :| b in all && n in work && s == Slot(b.base, b.off + n);
      assert b in bases[..i] || b == bases[i];
    }
  }

  method AddSlotsOf(slots: seq<Slot>, b: Slot, work: seq<int>) returns (ok: bool, out: seq<Slot>)
    ensures ok ==> |out| == |slots| + |work|
    ensures ok ==> forall s :: s in out <==> s in slots || (s.base == b.base && s.off - b.off in work)
    ensures |slots| + |work| <= MAX_CHOICES ==> ok
  {
    out := slots;
    for j := 0 to |work|
      invariant |out| == |slots| + j
      invariant forall s :: s in out <==> s in slots || (s.base == b.base && s.off - b.off in work[..j])
    {
      if |out| >= MAX_CHOICES {
        return false, out;
      }
      out := out + [Slot(b.base, b.off + work[j])];
      assert work[..j + 1] == work[..j] + [work[j]];
    }
    assert work[..|work|] == work;
    ok := true;
  }

  // The bound the code takes is the one of all slots of the base.
  lemma BoundFound(m: Module, all: iset<Slot>, elem: Elem, bases: seq<Slot>, bound: Option<nat>)
    requires forall s :: s in bases <==> s in all
    ensures IsBound(m, all, elem, bound) <==> bound == FirstBound(m, bases, elem)
  {
    forall len: nat ensures AllStart(m, all, elem, len) <==> FirstBound(m, bases, elem) == Some(len) {
      StartFound(m, all, elem, bases, len);
    }
  }

  lemma StartFound(m: Module, all: iset<Slot>, elem: Elem, bases: seq<Slot>, len: nat)
    requires forall s :: s in bases <==> s in all
    ensures AllStart(m, all, elem, len) <==> FirstBound(m, bases, elem) == Some(len)
  {
    if AllStart(m, all, elem, len) {
      var s :| s in all;
      assert s in bases && bases[0] in bases;
      forall k | 0 <= k < |bases| ensures StartsArray(m, bases[k], ArrayOf(elem, len)) {
        assert bases[k] in bases;
      }
    }
    if FirstBound(m, bases, elem) == Some(len) {
      assert bases[0] in all;
    }
  }

  // If the address settles, its base does, and the steps.
  lemma AddrReady(m: Module, f: nat, o: Operand, q: Operand, bases: seq<Slot>, ok: bool)
    requires Wf(m) && f < |m.fns| && q == Simplest(m, f, o) && IsGep(m, f, q)
    requires ok ==> forall s :: s in bases <==> AddrIs(m, f, m.fns[f].defs[q.x].base, s)
    requires forall c: nat :: AddrSettles(m, f, m.fns[f].defs[q.x].base, c) ==> ok
    ensures (exists c: nat :: AddrSettles(m, f, o, c)) ==>
              ok && AllSettle(m, f, Steps(m.fns[f].defs[q.x], FirstBound(m, bases, m.fns[f].defs[q.x].source)))
  {
    hide AddrSettles, GepSettles, AddrIs, Simplest, AllSettle, FirstBound, Steps;
    if c: nat :| AddrSettles(m, f, o, c) {
      var a, b := AddrParts(m, f, o, q, c);
      GepParts(m, f, q, bases, b);
    }
  }

  lemma AddrParts(m: Module, f: nat, o: Operand, q: Operand, c: nat) returns (a: nat, b: nat)
    requires Wf(m) && f < |m.fns| && q == Simplest(m, f, o) && IsGep(m, f, q) && AddrSettles(m, f, o, c)
    ensures AddrSettles(m, f, m.fns[f].defs[q.x].base, a) && GepSettles(m, f, m.fns[f].defs[q.x], b)
    ensures a * b <= c <= MAX_CHOICES
  {
    var d := m.fns[f].defs[q.x];
    a, b :| AddrSettles(m, f, d.base, a) && GepSettles(m, f, d, b) && a * b <= c <= MAX_CHOICES;
  }

  lemma GepParts(m: Module, f: nat, q: Operand, bases: seq<Slot>, b: nat)
    requires Wf(m) && f < |m.fns| && IsGep(m, f, q) && GepSettles(m, f, m.fns[f].defs[q.x], b)
    requires forall s :: s in bases <==> AddrIs(m, f, m.fns[f].defs[q.x].base, s)
    ensures var steps := Steps(m.fns[f].defs[q.x], FirstBound(m, bases, m.fns[f].defs[q.x].source));
            AllSettle(m, f, steps) && forall n: nat :: AtMost(m, f, steps, n) ==> n <= b
  {
    hide Addrs, StepsSettle, Steps, IsBound, FirstBound, Product;
    var d := m.fns[f].defs[q.x];
    var bound, counts :| IsBound(m, Addrs(m, f, d.base), d.source, bound) && StepsSettle(m, f, Steps(d, bound), counts)
                         && Product(counts) <= b;
    BoundFound(m, Addrs(m, f, d.base), d.source, bases, bound);
  }

  lemma AddrFits(m: Module, f: nat, o: Operand, q: Operand, bases: seq<Slot>, work: seq<int>)
    requires Wf(m) && f < |m.fns| && q == Simplest(m, f, o) && IsGep(m, f, q)
    requires forall s :: s in bases <==> AddrIs(m, f, m.fns[f].defs[q.x].base, s)
    requires forall c: nat :: AddrSettles(m, f, m.fns[f].defs[q.x].base, c) ==> |bases| <= c
    requires AtMost(m, f, Steps(m.fns[f].defs[q.x], FirstBound(m, bases, m.fns[f].defs[q.x].source)), |work|)
    ensures forall c: nat :: AddrSettles(m, f, o, c) ==> |bases| * |work| <= c && c <= MAX_CHOICES
  {
    hide AddrSettles, GepSettles, AddrIs, Simplest, AllSettle, AtMost, FirstBound, Steps;
    forall c: nat | AddrSettles(m, f, o, c) ensures |bases| * |work| <= c && c <= MAX_CHOICES {
      var a, b := AddrParts(m, f, o, q, c);
      GepParts(m, f, q, bases, b);
      Products(|bases|, |work|, a, b);
    }
  }

  lemma AddrExact(m: Module, f: nat, o: Operand, q: Operand, bases: seq<Slot>, work: seq<int>, slots: seq<Slot>)
    requires Wf(m) && f < |m.fns| && q == Simplest(m, f, o) && IsGep(m, f, q)
    requires forall s :: s in bases <==> AddrIs(m, f, m.fns[f].defs[q.x].base, s)
    requires var d := m.fns[f].defs[q.x];
             forall n :: n in work <==> StepsAre(m, f, Steps(d, FirstBound(m, bases, d.source)), n)
    requires forall s :: s in slots <==> SlotOf(bases, work, s)
    ensures forall s :: s in slots <==> AddrIs(m, f, o, s)
  {
    var d := m.fns[f].defs[q.x];
    var bound := FirstBound(m, bases, d.source);
    BoundFound(m, Addrs(m, f, d.base), d.source, bases, bound);
    forall s: Slot | s in slots ensures GepSlot(m, f, Addrs(m, f, d.base), d, s) {
      var b, n :| b in bases && n in work && s == Slot(b.base, b.off + n);
      assert AddrIs(m, f, d.base, b) && StepsAre(m, f, Steps(d, bound), n);
    }
    forall s: Slot | GepSlot(m, f, Addrs(m, f, d.base), d, s) ensures s in slots {
      var b, n, bd :|
        && b in Addrs(m, f, d.base) && IsBound(m, Addrs(m, f, d.base), d.source, bd)
        && StepsAre(m, f, Steps(d, bd), n) && s == Slot(b.base, b.off + n);
      BoundFound(m, Addrs(m, f, d.base), d.source, bases, bd);
      assert AddrIs(m, f, d.base, b);
      assert b in bases && n in work;
    }
  }

  lemma ConstAddr(m: Module, f: nat, o: Operand, b: nat, k: int, sources: set<nat>)
    requires SameValue(m, f, o, C(CAddr(b, k)), sources)
    ensures CoversAddr(m, f, o, [Slot(b, k)], sources)
  {
    forall r, i: nat, e: nat | KeptAll(m, r, sources) && Here(m, r, i, e, f, o)
      ensures AddrIn(Value(r, r.acts[i], e, o), [Slot(b, k)])
    {
      assert ConstOk(m, r, CAddr(b, k));
    }
  }

  lemma GepCovered(m: Module, f: nat, x: nat, bases: seq<Slot>, work: seq<int>, slots: seq<Slot>, sources: set<nat>)
    requires f < |m.fns| && x in m.fns[f].defs && m.fns[f].defs[x].Gep?
    requires CoversAddr(m, f, m.fns[f].defs[x].base, bases, sources)
    requires CoversSteps(m, f, Steps(m.fns[f].defs[x], FirstBound(m, bases, m.fns[f].defs[x].source)), work)
    requires forall s :: SlotOf(bases, work, s) ==> s in slots
    ensures CoversAddr(m, f, Ref(x), slots, sources)
  {
    hide Wf, IsRun, Distance, Steps;
    var d := m.fns[f].defs[x];
    var c := FirstBound(m, bases, d.source);
    forall r, i: nat, e: nat | KeptAll(m, r, sources) && Here(m, r, i, e, f, Ref(x))
      ensures AddrIn(Value(r, r.acts[i], e, Ref(x)), slots)
    {
      GepNow(m, r, i, e, f, x);
      var w, v := Value(r, r.acts[i], e, d.base), Value(r, r.acts[i], e, Ref(x));
      if v != Poison {
        var b := BoundOf(ArrayAt(m, r, w.at), d.source);
        assert c == b || c.None?;
        DistanceLoose(r, r.acts[i], e, d, b, c);
        var n := Distance(r, r.acts[i], e, Steps(d, c)).value;
        assert n in work && Slot(w.at.base, w.at.off) in bases;
        assert SlotOf(bases, work, Slot(w.at.base, w.at.off + n));
      }
    }
  }

  lemma DistanceLoose(r: Run, a: Act, e: nat, d: Def, b: Option<nat>, c: Option<nat>)
    requires d.Gep? && (c == b || c.None?) && Distance(r, a, e, Steps(d, b)).Some?
    ensures Distance(r, a, e, Steps(d, c)) == Distance(r, a, e, Steps(d, b))
  {
    hide Distance;
    var k := |Steps(d, b)|;
    assert Steps(d, b)[..k] == Steps(d, b) && Steps(d, c)[..k] == Steps(d, c);
    DistanceLooser(r, a, e, d, b, c, k);
  }
}
