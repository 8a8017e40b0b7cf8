// The run-time half of defer lowering: the machine that the emitted dispatch code
// runs. Deferred calls are the only steps that can panic; a panic lands in the
// function's panic block. The machine is written once for both encodings of the
// Reth and Rund words: block addresses with an indirect jump (native), and dense
// selectors with a switch (wasm).
module DeferMachine {
  import opened Common
  import opened DeferLowering

  // A list node: the statement that linked it and the serial number of the
  // registration, which stands for the saved function and arguments.
  datatype Node = Node(stmt: nat, serial: nat)

  // A started deferred call: the statement whose code made the call, and the
  // registration whose saved arguments it was given, if it takes any.
  datatype Event = Event(stmt: nat, saved: Option<nat>)

  datatype Mode = Native | Wasm
  datatype Word = Uninit | Addr(blk: Label) | Sel(index: nat)

  datatype Loc =
    | At(blk: Label)   // entry of a block
    | Run(i: nat)        // statement i's code, after Reth is set
    | Cond(i: nat)       // head of statement i's drain loop
    | Done(i: nat)       // end of statement i's block
    | PanicBlk           // a panic has landed
    | InvalidBlk         // no target matched

  // `bits` is the set of one bits of the conditional word.
  datatype State = State(loc: Loc, bits: set<nat>, args: seq<Node>, reth: Word, rund: Word,
                         log: seq<Event>, landed: bool)

  function Encode(mode: Mode, t: Target): (w: Word) {
    if mode == Native then Addr(t.block) else Sel(t.index)
  }

  // The first target whose encoding is w.
  function Jump(mode: Mode, targets: seq<Target>, w: Word): (l: Loc) {
    if targets == [] then InvalidBlk
    else if Encode(mode, targets[0]) == w then At(targets[0].block)
    else Jump(mode, targets[1..], w)
  }

  // Number of the statement whose code sits at a block, if it is a dispatch block.
  function StmtAt(n: nat, l: Label): (r: Option<nat>)
    requires n > 0
  {
    match l
    case ProcBlk => Some(n - 1)
    case ContBlk(i) => if i + 1 < n then Some(i) else None
    case RethrowBlk => None
    case SiteBlk(_) => None
  }

  predicate Final(n: nat, s: State)
    requires n > 0
  {
    s.loc == InvalidBlk || (s.loc.At? && StmtAt(n, s.loc.blk).None?)
  }

  // Start one deferred call for statement c.
  function Call(s: State, c: nat, pops: bool, panics: bool, after: Loc): (s': State) {
    if pops && s.args == [] then s.(loc := after)
    else
      var top := |s.args| - 1;
      var e := if pops then Event(c, Some(s.args[top].serial)) else Event(c, None);
      s.(args := if pops then s.args[..top] else s.args,
         log := s.log + [e],
         loc := if panics then PanicBlk else after,
         landed := s.landed || panics)
  }

  // Statement i's code up to its end or its drain loop.
  function RunBody(s: State, i: nat, body: Body, panics: bool): (s': State) {
    match body
    case CallIfBit(bit, c, pops) =>
      if bit in s.bits then Call(s, c, pops, panics, Done(i)) else s.(loc := Done(i))
    case CallAlways(c, pops) => Call(s, c, pops, panics, Done(i))
    case Drain(_, _) => s.(loc := Cond(i))
    case Empty => s.(loc := Done(i))
  }

  // One step of the dispatch code. `panics` decides the outcome of a deferred call
  // started in this step.
  function Step(mode: Mode, e: Emitted, s: State, panics: bool): (s': State)
    requires |e.blocks| > 0 && |e.rundTargets| > 0
  {
    var n := |e.blocks|;
    match s.loc
    case At(l) =>
      (match StmtAt(n, l)
       case None => s
       case Some(i) => s.(reth := Encode(mode, e.blocks[i].next), loc := Run(i)))
    case Run(i) =>
      if i >= n then s else RunBody(s, i, e.blocks[i].body, panics)
    case Cond(i) =>
      if i >= n || !e.blocks[i].body.Drain? then s
      else if s.args != [] && s.args[|s.args| - 1].stmt in e.blocks[i].body.cases then
        Call(s.(reth := Encode(mode, e.blocks[i].body.resume)), s.args[|s.args| - 1].stmt, true, panics, Cond(i))
      else s.(loc := Done(i))
    case Done(i) =>
      if i >= n then s
      else if i != 0 then s.(loc := At(e.blocks[i].next.block))
      else s.(loc := Jump(mode, e.rundTargets, s.rund))
    case PanicBlk =>
      s.(rund := Encode(mode, e.rundTargets[0]), loc := Jump(mode, e.rethTargets, s.reth))
    case InvalidBlk => s
  }

  // ---- the function body ----

  // How the body ends: a panic of its own, or RunDefers at site k.
  datatype Exit = Panicked | Returned(site: nat)

  // The bit constant of an InCond statement is 1 << bit truncated to the target's
  // word of `width` bits.
  function SetBit(bits: set<nat>, bit: nat, width: nat): (r: set<nat>) {
    if bit < width then bits + {bit} else bits
  }

  // The conditional word and the argument list after the registrations h, a
  // sequence of statement numbers.
  function BodyBits(stmts: seq<Stmt>, h: seq<nat>, width: nat): (bits: set<nat>)
    requires forall t :: 0 <= t < |h| ==> h[t] < |stmts|
  {
    if h == [] then {} else
      var last := |h| - 1;
      var bits := BodyBits(stmts, h[..last], width);
      if stmts[h[last]].kind == InCond then SetBit(bits, stmts[h[last]].bit, width) else bits
  }

  function Nodes(stmts: seq<Stmt>, h: seq<nat>): (list: seq<Node>)
    requires forall t :: 0 <= t < |h| ==> h[t] < |stmts|
  {
    if h == [] then [] else
      var last := |h| - 1;
      var list := Nodes(stmts, h[..last]);
      if stmts[h[last]].pushes then list + [Node(h[last], last)] else list
  }

  // The machine when the body ends after registrations h.
  function Start(mode: Mode, stmts: seq<Stmt>, sites: nat, h: seq<nat>, width: nat, exit: Exit): (s: State)
    requires |stmts| > 0
    requires forall t :: 0 <= t < |h| ==> h[t] < |stmts|
    requires exit.Returned? ==> 1 <= exit.site <= sites
  {
    var e := Lower(stmts, sites);
    var rund := if exit.Returned? then Encode(mode, RundTarget(exit.site))
                else if mode == Wasm then Encode(mode, RundTarget(0)) else Uninit;
    State(if exit.Returned? then At(ProcBlk) else PanicBlk,
          BodyBits(stmts, h, width), Nodes(stmts, h),
          Encode(mode, RethTarget(|stmts|, |stmts|)), rund, [], exit.Panicked?)
  }

  // A run of the dispatch code: consecutive states, one oracle bit a step, no step
  // from a final state.
  ghost predicate IsRun(mode: Mode, e: Emitted, ss: seq<State>, oracle: seq<bool>) {
    && |e.blocks| > 0 && |e.rundTargets| > 0
    && |ss| == |oracle| + 1
    && (forall i :: 0 <= i < |oracle| ==> !Final(|e.blocks|, ss[i]) && ss[i + 1] == Step(mode, e, ss[i], oracle[i]))
  }

  // ---- lockstep bisimulation of the two encodings ----

  // The words stand for the same target in both encodings.
  ghost predicate SameWord(targets: seq<Target>, native: Word, wasm: Word) {
    exists j :: 0 <= j < |targets| && native == Addr(targets[j].block) && wasm == Sel(targets[j].index)
  }

  ghost predicate Bisimilar(e: Emitted, a: State, b: State) {
    && a.loc == b.loc && a.bits == b.bits && a.args == b.args && a.log == b.log && a.landed == b.landed
    && a.loc != InvalidBlk
    && SameWord(e.rethTargets, a.reth, b.reth)
    && (a.loc != PanicBlk ==> SameWord(e.rundTargets, a.rund, b.rund))
  }

  lemma {:induction false} JumpFinds(mode: Mode, targets: seq<Target>, j: nat)
    requires j < |targets|
    requires forall i :: 0 <= i < j ==> Encode(mode, targets[i]) != Encode(mode, targets[j])
    ensures Jump(mode, targets, Encode(mode, targets[j])) == At(targets[j].block)
    decreases j
  {
    if j > 0 {
      assert Encode(mode, targets[0]) != Encode(mode, targets[j]);
      assert targets[1..][j - 1] == targets[j];
      forall i | 0 <= i < j - 1
        ensures Encode(mode, targets[1..][i]) != Encode(mode, targets[1..][j - 1])
      {
        assert targets[1..][i] == targets[i + 1];
      }
      JumpFinds(mode, targets[1..], j - 1);
    }
  }

  // In either encoding a stored target is the one jumped to.
  lemma JumpReth(mode: Mode, stmts: seq<Stmt>, sites: nat, j: nat)
    requires |stmts| > 0 && j <= |stmts|
    ensures var e := Lower(stmts, sites);
            Jump(mode, e.rethTargets, Encode(mode, e.rethTargets[j])) == At(e.rethTargets[j].block)
  {
    SelectorsDense(stmts, sites);
    JumpFinds(mode, Lower(stmts, sites).rethTargets, j);
  }

  lemma JumpRund(mode: Mode, stmts: seq<Stmt>, sites: nat, k: nat)
    requires |stmts| > 0 && k <= sites
    ensures var e := Lower(stmts, sites);
            Jump(mode, e.rundTargets, Encode(mode, e.rundTargets[k])) == At(e.rundTargets[k].block)
  {
    SelectorsDense(stmts, sites);
    JumpFinds(mode, Lower(stmts, sites).rundTargets, k);
  }

  lemma SameTarget(targets: seq<Target>, j: nat)
    requires j < |targets|
    ensures SameWord(targets, Encode(Native, targets[j]), Encode(Wasm, targets[j]))
  {
    assert targets[j] == targets[j];
  }

  lemma LockstepAt(stmts: seq<Stmt>, sites: nat, a: State, b: State, panics: bool)
    requires |stmts| > 0 && Bisimilar(Lower(stmts, sites), a, b) && a.loc.At?
    ensures Bisimilar(Lower(stmts, sites), Step(Native, Lower(stmts, sites), a, panics),
                      Step(Wasm, Lower(stmts, sites), b, panics))
  {
    var e, n := Lower(stmts, sites), |stmts|;
    if StmtAt(n, a.loc.blk).Some? {
      var i := StmtAt(n, a.loc.blk).value;
      assert e.blocks[i].next == e.rethTargets[i];
      SameTarget(e.rethTargets, i);
    }
  }

  // A statement's code does not look at the words.
  lemma BodyWords(s: State, i: nat, body: Body, panics: bool, reth: Word, rund: Word)
    ensures RunBody(s.(reth := reth, rund := rund), i, body, panics)
            == RunBody(s, i, body, panics).(reth := reth, rund := rund)
    ensures RunBody(s, i, body, panics).reth == s.reth && RunBody(s, i, body, panics).rund == s.rund
    ensures RunBody(s, i, body, panics).loc != InvalidBlk
  {
  }

  lemma LockstepRun(stmts: seq<Stmt>, sites: nat, a: State, b: State, panics: bool)
    requires |stmts| > 0 && Bisimilar(Lower(stmts, sites), a, b) && a.loc.Run?
    ensures Bisimilar(Lower(stmts, sites), Step(Native, Lower(stmts, sites), a, panics),
                      Step(Wasm, Lower(stmts, sites), b, panics))
  {
    var e, i := Lower(stmts, sites), a.loc.i;
    if i < |stmts| {
      assert b == a.(reth := b.reth, rund := b.rund);
      BodyWords(a, i, e.blocks[i].body, panics, b.reth, b.rund);
    }
  }

  lemma CallWords(s: State, c: nat, panics: bool, after: Loc, reth: Word, rund: Word)
    requires after != InvalidBlk
    ensures Call(s.(reth := reth, rund := rund), c, true, panics, after)
            == Call(s, c, true, panics, after).(reth := reth, rund := rund)
    ensures Call(s, c, true, panics, after).reth == s.reth && Call(s, c, true, panics, after).rund == s.rund
    ensures Call(s, c, true, panics, after).loc != InvalidBlk
  {
  }

  lemma LockstepCond(stmts: seq<Stmt>, sites: nat, a: State, b: State, panics: bool)
    requires |stmts| > 0 && Bisimilar(Lower(stmts, sites), a, b) && a.loc.Cond?
    ensures Bisimilar(Lower(stmts, sites), Step(Native, Lower(stmts, sites), a, panics),
                      Step(Wasm, Lower(stmts, sites), b, panics))
  {
    var e, i := Lower(stmts, sites), a.loc.i;
    if i < |stmts| && e.blocks[i].body.Drain? && a.args != [] {
      var t, c := e.blocks[i].body.resume, a.args[|a.args| - 1].stmt;
      assert t == e.rethTargets[i + 1];
      SameTarget(e.rethTargets, i + 1);
      var a', b' := a.(reth := Encode(Native, t)), b.(reth := Encode(Wasm, t));
      assert b' == a'.(reth := b'.reth, rund := b'.rund);
      CallWords(a', c, panics, Cond(i), b'.reth, b'.rund);
    }
  }

  // The steps that dispatch through Reth or Rund.
  lemma LockstepJump(stmts: seq<Stmt>, sites: nat, a: State, b: State, panics: bool)
    requires |stmts| > 0
    requires Bisimilar(Lower(stmts, sites), a, b)
    requires a.loc.Done? || a.loc.PanicBlk?
    ensures Bisimilar(Lower(stmts, sites), Step(Native, Lower(stmts, sites), a, panics),
                      Step(Wasm, Lower(stmts, sites), b, panics))
  {
    var e, n := Lower(stmts, sites), |stmts|;
    if a.loc == Done(0) {
      var k :|
        0 <= k < |e.rundTargets| && a.rund == Addr(e.rundTargets[k].block)
        && b.rund == Sel(e.rundTargets[k].index);
      JumpRund(Native, stmts, sites, k);
      JumpRund(Wasm, stmts, sites, k);
    } else if a.loc == PanicBlk {
      var j :|
        0 <= j < |e.rethTargets| && a.reth == Addr(e.rethTargets[j].block)
        && b.reth == Sel(e.rethTargets[j].index);
      JumpReth(Native, stmts, sites, j);
      JumpReth(Wasm, stmts, sites, j);
      SameTarget(e.rundTargets, 0);
    }
  }

  // Over whole runs driven by the same outcomes, native and wasm stay in lockstep
  // and neither reaches the invalid block.
  lemma {:induction false} Lockstep(stmts: seq<Stmt>, sites: nat, h: seq<nat>, width: nat, exit: Exit,
                                    oracle: seq<bool>, native: seq<State>, wasm: seq<State>, k: nat)
    requires |stmts| > 0
    requires forall t :: 0 <= t < |h| ==> h[t] < |stmts|
    requires exit.Returned? ==> 1 <= exit.site <= sites
    requires IsRun(Native, Lower(stmts, sites), native, oracle)
             && native[0] == Start(Native, stmts, sites, h, width, exit)
    requires IsRun(Wasm, Lower(stmts, sites), wasm, oracle) && wasm[0] == Start(Wasm, stmts, sites, h, width, exit)
    requires k < |native|
    ensures Bisimilar(Lower(stmts, sites), native[k], wasm[k])
    decreases k
  {
    var e := Lower(stmts, sites);
    if k == 0 {
      assert e.rethTargets[|stmts|] == RethTarget(|stmts|, |stmts|);
      if exit.Returned? {
        assert e.rundTargets[exit.site] == RundTarget(exit.site);
      }
    } else {
      Lockstep(stmts, sites, h, width, exit, oracle, native, wasm, k - 1);
      var a, b, p := native[k - 1], wasm[k - 1], oracle[k - 1];
      match a.loc
      case At(_) => LockstepAt(stmts, sites, a, b, p);
      case Run(_) => LockstepRun(stmts, sites, a, b, p);
      case Cond(_) => LockstepCond(stmts, sites, a, b, p);
      case Done(_) => LockstepJump(stmts, sites, a, b, p);
      case PanicBlk => LockstepJump(stmts, sites, a, b, p);
      assert native[k - 1 + 1] == Step(Native, e, native[k - 1], oracle[k - 1]);
      assert wasm[k - 1 + 1] == Step(Wasm, e, wasm[k - 1], oracle[k - 1]);
    }
  }
}
