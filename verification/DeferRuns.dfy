// Whole runs of the dispatch code. Whatever the deferred calls do, a run starts
// the calls of the reference `Dispatch`, in that order, within a bound on its
// length, and leaves through the rethrow block exactly when a panic landed.
module DeferRuns {
  import opened Common
  import opened DeferLowering
  import opened DeferMachine

  // The calls a drain loop starts on a list, and the list it leaves.
  function DrainLog(stmts: seq<Stmt>, list: seq<Node>): (log: seq<Event>) {
    if list == [] || !IsLoop(stmts, list[|list| - 1].stmt) then []
    else var top := list[|list| - 1];
         [Event(top.stmt, Some(top.serial))] + DrainLog(stmts, list[..|list| - 1])
  }

  function DrainRest(stmts: seq<Stmt>, list: seq<Node>): (rest: seq<Node>) {
    if list == [] || !IsLoop(stmts, list[|list| - 1].stmt) then list
    else DrainRest(stmts, list[..|list| - 1])
  }

  // Whether statement i, outside a loop, makes a call when its turn comes.
  predicate Calls(stmts: seq<Stmt>, bits: set<nat>, i: nat, list: seq<Node>)
    requires i < |stmts|
  {
    && (stmts[i].kind == Always || (stmts[i].kind == InCond && stmts[i].bit in bits))
    && (stmts[i].pushes ==> list != [])
  }

  function StmtLog(stmts: seq<Stmt>, bits: set<nat>, i: nat, list: seq<Node>): (log: seq<Event>)
    requires i < |stmts|
  {
    if stmts[i].kind == InLoop then (if IsLoop(stmts, i + 1) then [] else DrainLog(stmts, list))
    else if !Calls(stmts, bits, i, list) then []
    else [Event(i, if stmts[i].pushes then Some(list[|list| - 1].serial) else None)]
  }

  function StmtRest(stmts: seq<Stmt>, bits: set<nat>, i: nat, list: seq<Node>): (rest: seq<Node>)
    requires i < |stmts|
  {
    if stmts[i].kind == InLoop then (if IsLoop(stmts, i + 1) then list else DrainRest(stmts, list))
    else if !Calls(stmts, bits, i, list) || !stmts[i].pushes then list
    else list[..|list| - 1]
  }

  // The calls started by statements c - 1, ..., 0, beginning with the given list.
  function Dispatch(stmts: seq<Stmt>, bits: set<nat>, c: nat, list: seq<Node>): (log: seq<Event>)
    requires c <= |stmts|
  {
    if c == 0 then []
    else StmtLog(stmts, bits, c - 1, list) + Dispatch(stmts, bits, c - 1, StmtRest(stmts, bits, c - 1, list))
  }

  // A drain followed by the statements below i.
  function DrainThen(stmts: seq<Stmt>, bits: set<nat>, i: nat, list: seq<Node>): (log: seq<Event>)
    requires i <= |stmts|
  {
    DrainLog(stmts, list) + Dispatch(stmts, bits, i, DrainRest(stmts, list))
  }

  // The position j for which w encodes RethTarget(n, j).
  function RethIndex(n: nat, w: Word): (j: nat) {
    match w
    case Uninit => 0
    case Addr(l) => (match l case ProcBlk => n case ContBlk(i) => i + 1 case _ => 0)
    case Sel(s) => if s == 0 then n else s - 1
  }

  // Where the run leaves: the rethrow target once a panic has landed, else its site.
  function Leave(mode: Mode, site: nat, landed: bool): (w: Word) {
    Encode(mode, RundTarget(if landed then 0 else site))
  }

  // The calls still to come from a state.
  function Rest(stmts: seq<Stmt>, s: State): (log: seq<Event>)
    requires |stmts| > 0
  {
    var n := |stmts|;
    match s.loc
    case At(l) => if StmtAt(n, l).Some? then Dispatch(stmts, s.bits, StmtAt(n, l).value + 1, s.args) else []
    case Run(i) => if i < n then Dispatch(stmts, s.bits, i + 1, s.args) else []
    case Cond(i) => if i < n then DrainThen(stmts, s.bits, i, s.args) else []
    case Done(i) => if i < n then Dispatch(stmts, s.bits, i, s.args) else []
    case PanicBlk => if RethIndex(n, s.reth) <= n then Dispatch(stmts, s.bits, RethIndex(n, s.reth), s.args) else []
    case InvalidBlk => []
  }

  // The calls logged and the calls to come are `total`.
  ghost predicate LogOk(stmts: seq<Stmt>, total: seq<Event>, s: State)
    requires |stmts| > 0
  {
    s.log + Rest(stmts, s) == total
  }

  // What the Reth and Rund words hold at each point.
  ghost predicate WordsOk(mode: Mode, stmts: seq<Stmt>, site: nat, s: State)
    requires |stmts| > 0
  {
    var n := |stmts|;
    && (s.loc != PanicBlk ==> s.rund == Leave(mode, site, s.landed))
    && match s.loc
       case At(l) => StmtAt(n, l).None? ==> l == RundTarget(if s.landed then 0 else site).block
       case Run(i) => i < n && s.reth == Encode(mode, RethTarget(n, i))
       case Cond(i) => i < n && BodyOf(stmts, i).Drain?
         && (s.reth == Encode(mode, RethTarget(n, i)) || s.reth == Encode(mode, RethTarget(n, i + 1)))
       case Done(i) => i < n
       case PanicBlk => s.landed && RethIndex(n, s.reth) <= n
         && s.reth == Encode(mode, RethTarget(n, RethIndex(n, s.reth)))
       case InvalidBlk => false
  }

  // What holds of every state of a run that is to start the calls `total`.
  ghost predicate Inv(mode: Mode, stmts: seq<Stmt>, site: nat, total: seq<Event>, s: State)
    requires |stmts| > 0
  {
    LogOk(stmts, total, s) && WordsOk(mode, stmts, site, s)
  }

  // Statement index first, then list length, then the point within the block.
  function Measure(n: nat, s: State): (m: nat)
    requires n > 0
  {
    match s.loc
    case At(l) => if StmtAt(n, l).Some? then 6 * (StmtAt(n, l).value + 1 + |s.args|) + 3 else 0
    case Run(i) => 6 * (i + 1 + |s.args|) + 2
    case Cond(i) => 6 * (i + 1 + |s.args|) + 1
    case Done(i) => 6 * (i + 1 + |s.args|)
    case PanicBlk => 6 * (RethIndex(n, s.reth) + |s.args|) + 4
    case InvalidBlk => 0
  }

  lemma RethRoundTrip(mode: Mode, n: nat, j: nat)
    requires j <= n && n > 0
    ensures RethIndex(n, Encode(mode, RethTarget(n, j))) == j
  {
  }

  // Calls started now move from the future to the log.
  lemma Shift(stmts: seq<Stmt>, total: seq<Event>, s: State, s': State, log: seq<Event>)
    requires |stmts| > 0 && LogOk(stmts, total, s)
    requires Rest(stmts, s) == log + Rest(stmts, s') && s'.log == s.log + log
    ensures LogOk(stmts, total, s')
  {
    Assoc(s.log, log, Rest(stmts, s'));
  }

  lemma Assoc(a: seq<Event>, b: seq<Event>, c: seq<Event>)
    ensures (a + b) + c == a + (b + c)
  {
  }

  // ---- entering a statement's block ----

  lemma AtStep(mode: Mode, stmts: seq<Stmt>, sites: nat, s: State, panics: bool)
    requires |stmts| > 0 && s.loc.At? && StmtAt(|stmts|, s.loc.blk).Some?
    ensures var i := StmtAt(|stmts|, s.loc.blk).value;
            i < |stmts|
            && Step(mode, Lower(stmts, sites), s, panics)
               == s.(reth := Encode(mode, RethTarget(|stmts|, i)), loc := Run(i))
  {
    var i := StmtAt(|stmts|, s.loc.blk).value;
    assert Lower(stmts, sites).blocks[i] == Block(RethTarget(|stmts|, i), BodyOf(stmts, i));
  }

  lemma AtKeeps(mode: Mode, stmts: seq<Stmt>, site: nat, total: seq<Event>, s: State, s': State)
    requires |stmts| > 0 && Inv(mode, stmts, site, total, s) && s.loc.At? && StmtAt(|stmts|, s.loc.blk).Some?
    requires var i := StmtAt(|stmts|, s.loc.blk).value;
             i < |stmts| && s' == s.(reth := Encode(mode, RethTarget(|stmts|, i)), loc := Run(i))
    ensures Inv(mode, stmts, site, total, s') && Measure(|stmts|, s') < Measure(|stmts|, s)
  {
    assert Rest(stmts, s') == Rest(stmts, s);
  }

  // ---- a statement in a loop ----

  lemma LoopStep(mode: Mode, stmts: seq<Stmt>, sites: nat, s: State, panics: bool)
    requires |stmts| > 0 && s.loc.Run? && s.loc.i < |stmts| && stmts[s.loc.i].kind == InLoop
    ensures Step(mode, Lower(stmts, sites), s, panics)
            == s.(loc := if IsLoop(stmts, s.loc.i + 1) then Done(s.loc.i) else Cond(s.loc.i))
  {
    var i := s.loc.i;
    assert Lower(stmts, sites).blocks[i] == Block(RethTarget(|stmts|, i), BodyOf(stmts, i));
  }

  lemma LoopKeeps(mode: Mode, stmts: seq<Stmt>, site: nat, total: seq<Event>, s: State, s': State)
    requires |stmts| > 0 && Inv(mode, stmts, site, total, s) && s.loc.Run? && stmts[s.loc.i].kind == InLoop
    requires s' == s.(loc := if IsLoop(stmts, s.loc.i + 1) then Done(s.loc.i) else Cond(s.loc.i))
    ensures Inv(mode, stmts, site, total, s') && Measure(|stmts|, s') < Measure(|stmts|, s)
  {
    DispatchLoop(stmts, s.bits, s.loc.i, s.args);
  }

  lemma DispatchLoop(stmts: seq<Stmt>, bits: set<nat>, i: nat, list: seq<Node>)
    requires i < |stmts| && stmts[i].kind == InLoop
    ensures Dispatch(stmts, bits, i + 1, list)
            == if IsLoop(stmts, i + 1) then Dispatch(stmts, bits, i, list) else DrainThen(stmts, bits, i, list)
  {
    var log, rest := StmtLog(stmts, bits, i, list), StmtRest(stmts, bits, i, list);
    assert Dispatch(stmts, bits, i + 1, list) == log + Dispatch(stmts, bits, i, rest);
  }

  // ---- a statement outside loops ----

  // Statement i's code has done what the reference says.
  ghost predicate Called(stmts: seq<Stmt>, s: State, s': State)
    requires s.loc.Run? && s.loc.i < |stmts|
  {
    var i := s.loc.i;
    && s'.log == s.log + StmtLog(stmts, s.bits, i, s.args) && s'.args == StmtRest(stmts, s.bits, i, s.args)
    && |s'.args| <= |s.args| && s'.bits == s.bits && s'.reth == s.reth && s'.rund == s.rund
    && ((s'.loc == Done(i) && s'.landed == s.landed) || (s'.loc == PanicBlk && s'.landed))
  }

  lemma CallStep(mode: Mode, stmts: seq<Stmt>, sites: nat, s: State, panics: bool)
    requires |stmts| > 0 && s.loc.Run? && s.loc.i < |stmts| && stmts[s.loc.i].kind != InLoop
    ensures Called(stmts, s, Step(mode, Lower(stmts, sites), s, panics))
  {
    var i := s.loc.i;
    assert Lower(stmts, sites).blocks[i] == Block(RethTarget(|stmts|, i), BodyOf(stmts, i));
  }

  lemma CallKeeps(mode: Mode, stmts: seq<Stmt>, site: nat, total: seq<Event>, s: State, s': State)
    requires |stmts| > 0 && Inv(mode, stmts, site, total, s)
    requires s.loc.Run? && stmts[s.loc.i].kind != InLoop && Called(stmts, s, s')
    ensures Inv(mode, stmts, site, total, s') && Measure(|stmts|, s') < Measure(|stmts|, s)
  {
    var i := s.loc.i;
    RethRoundTrip(mode, |stmts|, i);
    assert Rest(stmts, s') == Dispatch(stmts, s.bits, i, s'.args);
    Shift(stmts, total, s, s', StmtLog(stmts, s.bits, i, s.args));
  }

  // ---- a drain loop ----

  predicate LoopOnTop(stmts: seq<Stmt>, list: seq<Node>) {
    list != [] && IsLoop(stmts, list[|list| - 1].stmt)
  }

  // The drain loop has popped and called the top node.
  ghost predicate Turned(mode: Mode, stmts: seq<Stmt>, s: State, s': State)
    requires |stmts| > 0 && s.loc.Cond? && s.loc.i < |stmts| && LoopOnTop(stmts, s.args)
  {
    var i, top := s.loc.i, s.args[|s.args| - 1];
    && s'.log == s.log + [Event(top.stmt, Some(top.serial))] && s'.args == s.args[..|s.args| - 1]
    && s'.bits == s.bits && s'.rund == s.rund && s'.reth == Encode(mode, RethTarget(|stmts|, i + 1))
    && ((s'.loc == Cond(i) && s'.landed == s.landed) || (s'.loc == PanicBlk && s'.landed))
  }

  lemma CondStep(mode: Mode, stmts: seq<Stmt>, sites: nat, s: State, panics: bool)
    requires |stmts| > 0 && s.loc.Cond? && s.loc.i < |stmts| && BodyOf(stmts, s.loc.i).Drain?
    ensures var s' := Step(mode, Lower(stmts, sites), s, panics);
            if LoopOnTop(stmts, s.args) then Turned(mode, stmts, s, s') else s' == s.(loc := Done(s.loc.i))
  {
    var i := s.loc.i;
    assert Lower(stmts, sites).blocks[i]
      == Block(RethTarget(|stmts|, i), Drain(LoopIds(stmts), RethTarget(|stmts|, i + 1)));
  }

  lemma TurnKeeps(mode: Mode, stmts: seq<Stmt>, site: nat, total: seq<Event>, s: State, s': State)
    requires |stmts| > 0 && Inv(mode, stmts, site, total, s)
    requires s.loc.Cond? && LoopOnTop(stmts, s.args) && Turned(mode, stmts, s, s')
    ensures Inv(mode, stmts, site, total, s') && Measure(|stmts|, s') < Measure(|stmts|, s)
  {
    RethRoundTrip(mode, |stmts|, s.loc.i + 1);
    TurnRest(mode, stmts, s, s');
    Shift(stmts, total, s, s', [Event(s.args[|s.args| - 1].stmt, Some(s.args[|s.args| - 1].serial))]);
  }

  lemma TurnRest(mode: Mode, stmts: seq<Stmt>, s: State, s': State)
    requires |stmts| > 0 && s.loc.Cond? && s.loc.i < |stmts| && LoopOnTop(stmts, s.args) && Turned(mode, stmts, s, s')
    requires BodyOf(stmts, s.loc.i).Drain? && RethIndex(|stmts|, s'.reth) == s.loc.i + 1
    ensures Rest(stmts, s) == [Event(s.args[|s.args| - 1].stmt, Some(s.args[|s.args| - 1].serial))] + Rest(stmts, s')
  {
    RestDraining(stmts, s.loc.i, s');
    DrainSplit(stmts, s.bits, s.loc.i, s.args);
  }

  // Inside a drain loop, and after a panic of one of its calls, the drain goes on.
  lemma RestDraining(stmts: seq<Stmt>, i: nat, s: State)
    requires i < |stmts| && BodyOf(stmts, i).Drain?
    requires s.loc == Cond(i) || (s.loc == PanicBlk && RethIndex(|stmts|, s.reth) == i + 1)
    ensures Rest(stmts, s) == DrainThen(stmts, s.bits, i, s.args)
  {
    hide Dispatch, DrainThen, DrainLog, DrainRest;
    DispatchLoop(stmts, s.bits, i, s.args);
  }

  // Popping one node of a drain leaves the calls of a drain of the shorter list.
  lemma DrainSplit(stmts: seq<Stmt>, bits: set<nat>, i: nat, list: seq<Node>)
    requires i < |stmts| && LoopOnTop(stmts, list)
    ensures var top, shorter := list[|list| - 1], list[..|list| - 1];
            DrainThen(stmts, bits, i, list) == [Event(top.stmt, Some(top.serial))] + DrainThen(stmts, bits, i, shorter)
  {
    var top, shorter := list[|list| - 1], list[..|list| - 1];
    assert DrainRest(stmts, list) == DrainRest(stmts, shorter);
    assert DrainLog(stmts, list) == [Event(top.stmt, Some(top.serial))] + DrainLog(stmts, shorter);
    Assoc([Event(top.stmt, Some(top.serial))], DrainLog(stmts, shorter),
          Dispatch(stmts, bits, i, DrainRest(stmts, shorter)));
  }

  lemma DrainedKeeps(mode: Mode, stmts: seq<Stmt>, site: nat, total: seq<Event>, s: State, s': State)
    requires |stmts| > 0 && Inv(mode, stmts, site, total, s)
    requires s.loc.Cond? && !LoopOnTop(stmts, s.args) && s' == s.(loc := Done(s.loc.i))
    ensures Inv(mode, stmts, site, total, s') && Measure(|stmts|, s') < Measure(|stmts|, s)
  {
    assert DrainLog(stmts, s.args) == [] && DrainRest(stmts, s.args) == s.args;
    assert Rest(stmts, s) == Rest(stmts, s');
  }

  // ---- leaving a block ----

  // The block a finished statement or a landed panic goes on to.
  function Onward(n: nat, site: nat, s: State): (l: Label)
    requires n > 0 && (s.loc.Done? || RethIndex(n, s.reth) <= n)
  {
    if s.loc == Done(0) then RundTarget(if s.landed then 0 else site).block
    else if s.loc.Done? then ContBlk(s.loc.i - 1)
    else RethTarget(n, RethIndex(n, s.reth)).block
  }

  lemma JumpStep(mode: Mode, stmts: seq<Stmt>, sites: nat, site: nat, s: State, panics: bool)
    requires |stmts| > 0 && 1 <= site && (s.landed || site <= sites) && WordsOk(mode, stmts, site, s)
    requires s.loc.Done? || s.loc.PanicBlk?
    ensures Step(mode, Lower(stmts, sites), s, panics)
            == s.(loc := At(Onward(|stmts|, site, s)),
                  rund := if s.loc.Done? then s.rund else Encode(mode, RundTarget(0)))
  {
    var e, n := Lower(stmts, sites), |stmts|;
    if s.loc == Done(0) {
      var k := if s.landed then 0 else site;
      assert e.rundTargets[k] == RundTarget(k);
      JumpRund(mode, stmts, sites, k);
    } else if s.loc.Done? {
      assert e.blocks[s.loc.i].next == RethTarget(n, s.loc.i);
    } else {
      var j := RethIndex(n, s.reth);
      assert e.rethTargets[j] == RethTarget(n, j) && e.rundTargets[0] == RundTarget(0);
      JumpReth(mode, stmts, sites, j);
    }
  }

  lemma JumpKeeps(mode: Mode, stmts: seq<Stmt>, site: nat, total: seq<Event>, s: State, s': State)
    requires |stmts| > 0 && 1 <= site && Inv(mode, stmts, site, total, s)
    requires s.loc.Done? || s.loc.PanicBlk?
    requires s' == s.(loc := At(Onward(|stmts|, site, s)),
                      rund := if s.loc.Done? then s.rund else Encode(mode, RundTarget(0)))
    ensures Inv(mode, stmts, site, total, s') && Measure(|stmts|, s') < Measure(|stmts|, s)
  {
    var j := if s.loc.Done? then s.loc.i else RethIndex(|stmts|, s.reth);
    assert Rest(stmts, s) == Dispatch(stmts, s.bits, j, s.args);
    assert StmtAt(|stmts|, s'.loc.blk) == if j == 0 then None else Some(j - 1);
    assert Rest(stmts, s') == Dispatch(stmts, s.bits, j, s.args);
  }

  // ---- runs ----

  lemma StepInv(mode: Mode, stmts: seq<Stmt>, sites: nat, site: nat, total: seq<Event>, s: State, s': State,
                panics: bool)
    requires |stmts| > 0 && 1 <= site && (s.landed || site <= sites)
    requires Inv(mode, stmts, site, total, s) && !Final(|stmts|, s)
    requires s' == Step(mode, Lower(stmts, sites), s, panics)
    ensures Inv(mode, stmts, site, total, s') && Measure(|stmts|, s') < Measure(|stmts|, s)
  {
    if s.loc.At? {
      AtStep(mode, stmts, sites, s, panics);
      AtKeeps(mode, stmts, site, total, s, s');
    } else if s.loc.Run? && stmts[s.loc.i].kind == InLoop {
      LoopStep(mode, stmts, sites, s, panics);
      LoopKeeps(mode, stmts, site, total, s, s');
    } else if s.loc.Run? {
      CallStep(mode, stmts, sites, s, panics);
      CallKeeps(mode, stmts, site, total, s, s');
    } else if s.loc.Cond? {
      CondStep(mode, stmts, sites, s, panics);
      if LoopOnTop(stmts, s.args) {
        TurnKeeps(mode, stmts, site, total, s, s');
      } else {
        DrainedKeeps(mode, stmts, site, total, s, s');
      }
    } else {
      JumpStep(mode, stmts, sites, site, s, panics);
      JumpKeeps(mode, stmts, site, total, s, s');
    }
  }

  lemma NextState(mode: Mode, e: Emitted, ss: seq<State>, oracle: seq<bool>, k: nat)
    requires IsRun(mode, e, ss, oracle) && k < |oracle|
    ensures !Final(|e.blocks|, ss[k]) && ss[k + 1] == Step(mode, e, ss[k], oracle[k])
  {
  }

  // Every state of every run satisfies the invariant, and the run is short.
  lemma {:induction false} RunInv(mode: Mode, stmts: seq<Stmt>, sites: nat, site: nat, total: seq<Event>,
                                  ss: seq<State>, oracle: seq<bool>, k: nat)
    requires |stmts| > 0 && 1 <= site
    requires IsRun(mode, Lower(stmts, sites), ss, oracle) && (ss[0].landed || site <= sites)
    requires k < |ss| && Inv(mode, stmts, site, total, ss[0])
    ensures Inv(mode, stmts, site, total, ss[k])
    ensures k + Measure(|stmts|, ss[k]) <= Measure(|stmts|, ss[0])
    decreases k
  {
    hide Inv, Measure, Step, Final;
    if k > 0 {
      RunInv(mode, stmts, sites, site, total, ss, oracle, k - 1);
      NextState(mode, Lower(stmts, sites), ss, oracle, k - 1);
      LandedStays(mode, Lower(stmts, sites), ss, oracle, k - 1);
      StepInv(mode, stmts, sites, site, total, ss[k - 1], ss[k], oracle[k - 1]);
    }
  }

  // The dispatch of a function body that registered h and then left through exit,
  // in either encoding: the log is always a prefix of the reference calls, a run
  // has a bounded number of steps, and a run that stops has started all of them
  // and left through the rethrow block iff a panic landed, else through its site.
  lemma RunsDispatch(mode: Mode, stmts: seq<Stmt>, sites: nat, h: seq<nat>, width: nat, exit: Exit,
                     ss: seq<State>, oracle: seq<bool>)
    requires |stmts| > 0
    requires forall t :: 0 <= t < |h| ==> h[t] < |stmts|
    requires exit.Returned? ==> 1 <= exit.site <= sites
    requires IsRun(mode, Lower(stmts, sites), ss, oracle) && ss[0] == Start(mode, stmts, sites, h, width, exit)
    ensures var calls := Dispatch(stmts, BodyBits(stmts, h, width), |stmts|, Nodes(stmts, h));
            && (forall k :: 0 <= k < |ss| ==> ss[k].log <= calls && ss[k].loc != InvalidBlk)
            && |ss| <= 6 * (|stmts| + |h|) + 5
            && (Final(|stmts|, ss[|ss| - 1]) ==>
                  var last := ss[|ss| - 1];
                  && last.log == calls
                  && (last.landed ==> last.loc == At(RethrowBlk))
                  && (!last.landed ==> exit.Returned? && last.loc == At(SiteBlk(exit.site))))
  {
    var n := |stmts|;
    var site := if exit.Returned? then exit.site else 1;
    var calls := Dispatch(stmts, BodyBits(stmts, h, width), n, Nodes(stmts, h));
    RethRoundTrip(mode, n, n);
    assert ss[0].log + Rest(stmts, ss[0]) == calls;
    assert Inv(mode, stmts, site, calls, ss[0]);
    NodesBound(stmts, h);
    forall k | 0 <= k < |ss|
      ensures Inv(mode, stmts, site, calls, ss[k]) && ss[k].log <= calls && ss[k].loc != InvalidBlk
      ensures k + Measure(n, ss[k]) <= Measure(n, ss[0])
    {
      RunInv(mode, stmts, sites, site, calls, ss, oracle, k);
    }
    LandedStays(mode, Lower(stmts, sites), ss, oracle, |ss| - 1);
    assert Measure(n, ss[0]) <= 6 * (n + |h|) + 4;
    var last := ss[|ss| - 1];
    assert Inv(mode, stmts, site, calls, last);
    assert last.log + Rest(stmts, last) == calls;
  }

  // Whatever the deferred calls do, every run can be continued until it stops.
  lemma RunFinishes(mode: Mode, stmts: seq<Stmt>, sites: nat, h: seq<nat>, width: nat, exit: Exit,
                    panics: nat -> bool)
    returns (ss: seq<State>, oracle: seq<bool>)
    requires |stmts| > 0
    requires forall t :: 0 <= t < |h| ==> h[t] < |stmts|
    requires exit.Returned? ==> 1 <= exit.site <= sites
    ensures IsRun(mode, Lower(stmts, sites), ss, oracle) && ss[0] == Start(mode, stmts, sites, h, width, exit)
    ensures Final(|stmts|, ss[|ss| - 1]) && forall k :: 0 <= k < |oracle| ==> oracle[k] == panics(k)
  {
    hide Start, Step, Final;
    var e := Lower(stmts, sites);
    ss, oracle := [Start(mode, stmts, sites, h, width, exit)], [];
    while !Final(|stmts|, ss[|ss| - 1])
      invariant IsRun(mode, e, ss, oracle) && ss[0] == Start(mode, stmts, sites, h, width, exit)
      invariant forall k :: 0 <= k < |oracle| ==> oracle[k] == panics(k)
      decreases 6 * (|stmts| + |h|) + 5 - |ss|
    {
      var s, b := ss[|ss| - 1], panics(|oracle|);
      ss, oracle := ss + [Step(mode, e, s, b)], oracle + [b];
      RunsDispatch(mode, stmts, sites, h, width, exit, ss, oracle);
    }
  }

  lemma {:induction false} LandedStays(mode: Mode, e: Emitted, ss: seq<State>, oracle: seq<bool>, k: nat)
    requires IsRun(mode, e, ss, oracle) && k < |ss|
    ensures ss[0].landed ==> ss[k].landed
    decreases k
  {
    if k > 0 {
      LandedStays(mode, e, ss, oracle, k - 1);
      assert ss[k - 1 + 1] == Step(mode, e, ss[k - 1], oracle[k - 1]);
    }
  }

  lemma {:induction false} NodesBound(stmts: seq<Stmt>, h: seq<nat>)
    requires forall t :: 0 <= t < |h| ==> h[t] < |stmts|
    ensures |Nodes(stmts, h)| <= |h|
  {
    if h != [] {
      NodesBound(stmts, h[..|h| - 1]);
    }
  }
}
