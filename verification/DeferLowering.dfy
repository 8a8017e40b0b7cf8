// The compile-time half of defer lowering: the defer statements of one function
// are recorded in place while its body is compiled, and the dispatch code is
// emitted from the record, last statement first.
module DeferLowering {

  datatype Kind = Always | InCond | InLoop

  // A recorded defer statement. Its id is its position in the record. `pushes`
  // says whether executing it links a node onto the argument list: a call of a named
  // function without arguments outside a loop links none. `bit` is used by InCond only.
  datatype Stmt = Stmt(kind: Kind, pushes: bool, bit: nat)

  // What is deferred: a function known by name, a closure or method value that has to be
  // saved, or a call built without a function value.
  datatype Callee = Known | Saved | NoFunction

  // Whether a node is linked.
  function LinksNode(kind: Kind, fn: Callee, args: nat): (pushes: bool) {
    !(kind != InLoop && fn != NoFunction && fn != Saved && args == 0)
  }

  datatype Label = ProcBlk | RethrowBlk | ContBlk(i: nat) | SiteBlk(k: nat)

  // A dispatch target: the block, and the selector standing for it on wasm.
  datatype Target = Target(index: nat, block: Label)

  // The code emitted for one statement. A drain loop pops list nodes whose id is
  // one of `cases` and resumes at `resume` when a popped call panics.
  datatype Body =
    | CallIfBit(bit: nat, stmt: nat, pops: bool)
    | CallAlways(stmt: nat, pops: bool)
    | Drain(cases: seq<nat>, resume: Target)
    | Empty

  // One dispatch block: Reth is set to `next`, then `body` runs.
  datatype Block = Block(next: Target, body: Body)

  // blocks[i] holds the code of statement i, at label rethTargets[i + 1].block.
  datatype Emitted = Emitted(blocks: seq<Block>, rethTargets: seq<Target>, rundTargets: seq<Target>)

  // The compiler's own word has 64 bits, whatever the target's word size.
  const HOST_BITS: nat := 64

  predicate IsLoop(stmts: seq<Stmt>, i: nat) {
    i < |stmts| && stmts[i].kind == InLoop
  }

  // Ids of the loop statements, in order.
  function LoopIds(stmts: seq<Stmt>): (ids: seq<nat>)
    ensures forall i: nat :: i in ids <==> IsLoop(stmts, i)
  {
    if stmts == [] then [] else
      var front := stmts[..|stmts| - 1];
      var rest := LoopIds(front);
      assert forall i: nat :: i < |front| ==> front[i] == stmts[i];
      if stmts[|stmts| - 1].kind == InLoop then rest + [|stmts| - 1] else rest
  }

  // Number of conditional statements among stmts.
  function CondCount(stmts: seq<Stmt>): (c: nat) {
    if stmts == [] then 0 else
      CondCount(stmts[..|stmts| - 1]) + (if stmts[|stmts| - 1].kind == InCond then 1 else 0)
  }

  // What recording promises: conditional bits are handed out consecutively, so no
  // two statements share one, and loop statements always link a node.
  ghost predicate Recorded(stmts: seq<Stmt>) {
    && (forall i :: 0 <= i < |stmts| && stmts[i].kind == InCond ==> stmts[i].bit == CondCount(stmts[..i]))
    && (forall i :: 0 <= i < |stmts| && stmts[i].kind == InLoop ==> stmts[i].pushes)
    && CondCount(stmts) <= HOST_BITS
  }

  // The resume targets, in continuation order: the terminal rethrow, the inner
  // continuation blocks, and the entry of the dispatch code, whose selector is 0
  // because it is stored before the number of statements is known.
  function RethTarget(n: nat, j: nat): (t: Target)
    requires j <= n
  {
    if j == n then Target(0, ProcBlk)
    else if j == 0 then Target(1, RethrowBlk)
    else Target(j + 1, ContBlk(j - 1))
  }

  function RundTarget(k: nat): (t: Target) {
    Target(k, if k == 0 then RethrowBlk else SiteBlk(k))
  }

  // The code for statement i. Only the last statement of a contiguous run of loop
  // statements carries the drain loop.
  function BodyOf(stmts: seq<Stmt>, i: nat): (b: Body)
    requires i < |stmts|
  {
    match stmts[i].kind
    case InCond => CallIfBit(stmts[i].bit, i, stmts[i].pushes)
    case Always => CallAlways(i, stmts[i].pushes)
    case InLoop => if IsLoop(stmts, i + 1) then Empty else Drain(LoopIds(stmts), RethTarget(|stmts|, i + 1))
  }

  // The dispatch code of a function with `sites` RunDefers sites.
  function Lower(stmts: seq<Stmt>, sites: nat): (e: Emitted)
    requires |stmts| > 0
  {
    var n := |stmts|;
    Emitted(seq(n, i requires 0 <= i < n => Block(RethTarget(n, i), BodyOf(stmts, i))),
            seq(n + 1, j requires 0 <= j <= n => RethTarget(n, j)),
            seq(sites + 1, k requires 0 <= k => RundTarget(k)))
  }

  // Dispatch code with the right parts is the code.
  lemma LowerParts(stmts: seq<Stmt>, sites: nat, e: Emitted)
    requires |stmts| > 0 && |e.blocks| == |stmts| && |e.rethTargets| == |stmts| + 1 && |e.rundTargets| == sites + 1
    requires forall i :: 0 <= i < |stmts| ==> e.blocks[i] == Block(RethTarget(|stmts|, i), BodyOf(stmts, i))
    requires forall j :: 0 <= j <= |stmts| ==> e.rethTargets[j] == RethTarget(|stmts|, j)
    requires forall k :: 0 <= k <= sites ==> e.rundTargets[k] == RundTarget(k)
    ensures e == Lower(stmts, sites)
  {
    var l := Lower(stmts, sites);
    assert e.blocks == l.blocks && e.rethTargets == l.rethTargets && e.rundTargets == l.rundTargets;
  }

  lemma CountOne(stmts: seq<Stmt>, x: Stmt)
    ensures CondCount(stmts + [x]) == CondCount(stmts) + (if x.kind == InCond then 1 else 0)
    ensures LoopIds(stmts + [x]) == if x.kind == InLoop then LoopIds(stmts) + [|stmts|] else LoopIds(stmts)
  {
    assert (stmts + [x])[..|stmts|] == stmts;
  }

  lemma RecordOne(stmts: seq<Stmt>, x: Stmt)
    requires Recorded(stmts) && (x.kind == InLoop ==> x.pushes)
    requires x.kind == InCond ==> x.bit == CondCount(stmts) < HOST_BITS
    ensures Recorded(stmts + [x])
  {
    var all := stmts + [x];
    CountOne(stmts, x);
    forall i | 0 <= i < |all| && all[i].kind == InCond ensures all[i].bit == CondCount(all[..i]) {
      if i < |stmts| {
        assert all[..i] == stmts[..i];
      } else {
        assert all[..i] == stmts;
      }
    }
  }

  // The resume targets as they are listed: the entry of the dispatch code comes last.
  method RethTargets(n: nat) returns (targets: seq<Target>)
    requires n > 0
    ensures |targets| == n + 1 && forall j :: 0 <= j <= n ==> targets[j] == RethTarget(n, j)
  {
    targets := [Target(1, RethrowBlk)];
    var j := 1;
    while j < n
      invariant 1 <= j <= n && |targets| == j && forall k :: 0 <= k < j ==> targets[k] == RethTarget(n, k)
    {
      targets := targets + [Target(j + 1, ContBlk(j - 1))];
      j := j + 1;
    }
    targets := targets + [Target(0, ProcBlk)];
  }

  class DeferState {
    var nextBit: nat
    var stmts: seq<Stmt>
    var loopCases: seq<nat>
    var rundTargets: seq<Target>
    var loopDrainerGenerated: bool

    ghost predicate Valid()
      reads this
    {
      && Recorded(stmts)
      && nextBit == CondCount(stmts)
      && loopCases == LoopIds(stmts)
      && |rundTargets| >= 1
      && (forall k :: 0 <= k < |rundTargets| ==> rundTargets[k] == RundTarget(k))
    }

    constructor ()
      ensures Valid() && stmts == [] && |rundTargets| == 1 && !loopDrainerGenerated
    {
      nextBit, stmts, loopCases := 0, [], [];
      rundTargets := [Target(0, RethrowBlk)];
      loopDrainerGenerated := false;
    }

    // Records one defer statement. The 65th conditional one aborts compilation.
    method DeferRecover(kind: Kind, fn: Callee, args: nat) returns (ok: bool)
      requires Valid()
      modifies this`nextBit, this`stmts, this`loopCases
      ensures Valid()
      ensures ok <==> kind != InCond || CondCount(old(stmts)) < HOST_BITS
      ensures stmts ==
                if !ok then old(stmts)
                else old(stmts) + [Stmt(kind, kind == InLoop || fn != Known || args > 0,
                                        if kind == InCond then CondCount(old(stmts)) else 0)]
    {
      hide CondCount, LoopIds, Recorded;
      var bit := 0;
      if kind == InCond {
        if nextBit >= HOST_BITS {
          return false;
        }
        bit := nextBit;
        nextBit := nextBit + 1;
      }
      var x := Stmt(kind, LinksNode(kind, fn, args), bit);
      CountOne(stmts, x);
      RecordOne(stmts, x);
      if kind == InLoop {
        loopCases := loopCases + [|stmts|];
      }
      stmts := stmts + [x];
      ok := true;
    }

    // Adds a RunDefers site and returns its target.
    method RunDefers() returns (t: Target)
      requires Valid()
      modifies this`rundTargets
      ensures Valid() && rundTargets == old(rundTargets) + [t] && t == RundTarget(|old(rundTargets)|)
    {
      t := Target(|rundTargets|, SiteBlk(|rundTargets|));
      rundTargets := rundTargets + [t];
    }

    // Emits the dispatch code, walking the statements from last to first.
    method EndDefer() returns (e: Emitted)
      requires Valid() && |stmts| > 0 && !loopDrainerGenerated
      modifies this`loopDrainerGenerated
      ensures e == Lower(stmts, |rundTargets| - 1)
    {
      hide Lower, Recorded, CondCount;
      var n := |stmts|;
      var rethTargets := RethTargets(n);
      var blocks: seq<Block> := [];
      var i := n;
      while i > 0
        invariant 0 <= i <= n
        invariant |blocks| == n - i
        invariant forall k :: i <= k < n ==> blocks[k - i] == Block(RethTarget(n, k), BodyOf(stmts, k))
        invariant loopDrainerGenerated == (i < n && IsLoop(stmts, i))
      {
        i := i - 1;
        var body: Body;
        match stmts[i].kind {
          case InCond =>
            loopDrainerGenerated := false;
            body := CallIfBit(stmts[i].bit, i, stmts[i].pushes);
          case Always =>
            loopDrainerGenerated := false;
            body := CallAlways(i, stmts[i].pushes);
          case InLoop =>
            if loopDrainerGenerated {
              body := Empty;
            } else {
              loopDrainerGenerated := true;
              body := if |loopCases| == 0 then Empty else Drain(loopCases, rethTargets[i + 1]);
              assert i in loopCases;
            }
        }
        blocks := [Block(rethTargets[i], body)] + blocks;
      }
      e := Emitted(blocks, rethTargets, rundTargets);
      LowerParts(stmts, |rundTargets| - 1, e);
    }
  }

  // Conditional bits are distinct and fit the compiler's word.
  lemma {:induction false} BitsDistinct(stmts: seq<Stmt>, i: nat, j: nat)
    requires Recorded(stmts) && i < j < |stmts|
    requires stmts[i].kind == InCond && stmts[j].kind == InCond
    ensures stmts[i].bit < stmts[j].bit < HOST_BITS
  {
    assert stmts[..i + 1][..i] == stmts[..i];
    CondCountMonotone(stmts, i + 1, j);
    assert stmts[..j + 1][..j] == stmts[..j];
    CondCountMonotone(stmts, j + 1, |stmts|);
    assert stmts[..|stmts|] == stmts;
  }

  lemma {:induction false} CondCountMonotone(stmts: seq<Stmt>, i: nat, j: nat)
    requires i <= j <= |stmts|
    ensures CondCount(stmts[..i]) <= CondCount(stmts[..j])
    decreases j
  {
    if i < j {
      CondCountMonotone(stmts, i, j - 1);
      assert stmts[..j][..j - 1] == stmts[..j - 1];
    }
  }

  // Every selector of either dispatch belongs to exactly one target, so a switch
  // over selectors and a jump to a block address pick the same block.
  lemma SelectorsDense(stmts: seq<Stmt>, sites: nat)
    requires |stmts| > 0
    ensures var e := Lower(stmts, sites);
            && (forall i, j :: 0 <= i < |e.rethTargets| && 0 <= j < |e.rethTargets| ==>
                  (e.rethTargets[i].index == e.rethTargets[j].index <==> i == j)
                  && (e.rethTargets[i].block == e.rethTargets[j].block <==> i == j))
            && (forall k :: 0 <= k < |e.rundTargets| ==> e.rundTargets[k].index == k)
            && (forall k, l :: 0 <= k < l < |e.rundTargets| ==> e.rundTargets[k].block != e.rundTargets[l].block)
  {
  }
}
