// When the dispatch code runs deferred calls in Go's order. The reference is the
// reverse of the registration history; the code meets it exactly for the histories
// described by `Orderly`, whatever the deferred calls do.
module DeferOrder {
  import opened Common
  import opened DeferLowering
  import opened DeferMachine
  import opened DeferRuns

  // Both statements lie in one contiguous run of loop statements.
  ghost predicate SameRun(stmts: seq<Stmt>, i: nat, j: nat) {
    forall k: nat :: (i <= k <= j || j <= k <= i) ==> IsLoop(stmts, k)
  }

  // Registrations follow compile order: a statement outside loops registers at most
  // once, and only statements of one loop run can alternate.
  ghost predicate History(stmts: seq<Stmt>, h: seq<nat>) {
    && (forall t :: 0 <= t < |h| ==> h[t] < |stmts|)
    && (forall t, u :: 0 <= t < u < |h| ==> h[t] < h[u] || SameRun(stmts, h[t], h[u]))
  }

  function EventOf(stmts: seq<Stmt>, h: seq<nat>, t: nat): (e: Event)
    requires t < |h| && h[t] < |stmts|
  {
    Event(h[t], if stmts[h[t]].pushes then Some(t) else None)
  }

  // Go's order: each registered call once, last registered first.
  function Reversed(stmts: seq<Stmt>, h: seq<nat>): (log: seq<Event>)
    requires forall t :: 0 <= t < |h| ==> h[t] < |stmts|
  {
    if h == [] then [] else [EventOf(stmts, h, |h| - 1)] + Reversed(stmts, h[..|h| - 1])
  }

  // A statement outside loops that links no node, and one that does.
  predicate Silent(stmts: seq<Stmt>, i: nat) {
    i < |stmts| && stmts[i].kind != InLoop && !stmts[i].pushes
  }

  predicate Links(stmts: seq<Stmt>, i: nat) {
    i < |stmts| && stmts[i].kind != InLoop && stmts[i].pushes
  }

  // The drain loop at or after loop statement q would reach a loop registration
  // older than a silent one that is still due: nothing linked in between stops it.
  ghost predicate Straddled(stmts: seq<Stmt>, h: seq<nat>, q: nat) {
    exists a, s :: StraddledAt(stmts, h, q, a, s)
  }

  ghost predicate StraddledAt(stmts: seq<Stmt>, h: seq<nat>, q: nat, a: nat, s: nat) {
    && a < s < |h| && IsLoop(stmts, h[a]) && Silent(stmts, h[s]) && h[s] < q
    && forall t :: a < t < |h| && h[t] < q ==> !Links(stmts, h[t])
  }

  // No drain loop of statements below c overtakes a silent registration.
  ghost predicate DrainsOk(stmts: seq<Stmt>, c: nat, h: seq<nat>) {
    forall q: nat :: q < c && IsLoop(stmts, q) ==> !Straddled(stmts, h, q)
  }

  // An unconditional statement i that did not register is harmless only if it takes
  // a node and finds the list empty: no older registration outside loops linked a
  // node, and older loop registrations, if any, were drained by a loop statement q
  // above i that no linked registration shields from them.
  ghost predicate Harmless(stmts: seq<Stmt>, c: nat, h: seq<nat>, i: nat) {
    && i < |stmts| && stmts[i].pushes
    && NoLinkBelow(stmts, h, i)
    && (NoLoopBelow(stmts, h, i) || exists q :: i < q < c && Unshielded(stmts, h, i, q))
  }

  ghost predicate NoLinkBelow(stmts: seq<Stmt>, h: seq<nat>, i: nat) {
    forall t :: 0 <= t < |h| && h[t] < i ==> !Links(stmts, h[t])
  }

  ghost predicate NoLoopBelow(stmts: seq<Stmt>, h: seq<nat>, i: nat) {
    forall t :: 0 <= t < |h| && h[t] < i ==> !IsLoop(stmts, h[t])
  }

  ghost predicate Unshielded(stmts: seq<Stmt>, h: seq<nat>, i: nat, q: nat) {
    IsLoop(stmts, q) && forall t :: 0 <= t < |h| && i < h[t] < q ==> !Links(stmts, h[t])
  }

  ghost predicate AlwaysOk(stmts: seq<Stmt>, c: nat, h: seq<nat>) {
    forall i: nat :: i < c && i < |stmts| && stmts[i].kind == Always && i !in h ==> Harmless(stmts, c, h, i)
  }

  // Registered conditional statements have a bit in the target's word.
  ghost predicate BitsOk(stmts: seq<Stmt>, h: seq<nat>, width: nat) {
    forall t :: 0 <= t < |h| && h[t] < |stmts| && stmts[h[t]].kind == InCond ==> stmts[h[t]].bit < width
  }

  ghost predicate Orderly(stmts: seq<Stmt>, h: seq<nat>, width: nat) {
    DrainsOk(stmts, |stmts|, h) && AlwaysOk(stmts, |stmts|, h) && BitsOk(stmts, h, width)
  }

  // The bit tests below c tell exactly which conditional statements registered.
  ghost predicate BitsTell(stmts: seq<Stmt>, bits: set<nat>, width: nat, c: nat, g: seq<nat>) {
    forall i :: 0 <= i < c && i < |stmts| && stmts[i].kind == InCond ==>
      (stmts[i].bit in bits <==> i in g && stmts[i].bit < width)
  }

  lemma {:induction false} BodyBitsTell(stmts: seq<Stmt>, h: seq<nat>, width: nat, i: nat)
    requires Recorded(stmts) && i < |stmts| && stmts[i].kind == InCond
    requires forall t :: 0 <= t < |h| ==> h[t] < |stmts|
    ensures stmts[i].bit in BodyBits(stmts, h, width) <==> i in h && stmts[i].bit < width
  {
    if h != [] {
      var last := h[|h| - 1];
      BodyBitsTell(stmts, h[..|h| - 1], width, i);
      assert i in h <==> i in h[..|h| - 1] || i == last;
      if stmts[last].kind == InCond && last != i {
        BitsDistinct(stmts, if i < last then i else last, if i < last then last else i);
      }
    }
  }

  // A loop registration with nothing linked after it.
  ghost predicate Exposed(stmts: seq<Stmt>, g: seq<nat>) {
    exists a :: ExposedAt(stmts, g, a)
  }

  ghost predicate ExposedAt(stmts: seq<Stmt>, g: seq<nat>, a: nat) {
    a < |g| && IsLoop(stmts, g[a]) && forall t :: a < t < |g| ==> !Links(stmts, g[t])
  }

  // A last registration that is outside loops and links no node does not matter.
  lemma ExposedFront(stmts: seq<Stmt>, g: seq<nat>, a: nat)
    requires g != [] && !IsLoop(stmts, g[|g| - 1]) && !Links(stmts, g[|g| - 1])
    ensures ExposedAt(stmts, g, a) <==> ExposedAt(stmts, g[..|g| - 1], a)
  {
    var front := g[..|g| - 1];
    assert forall t :: 0 <= t < |front| ==> front[t] == g[t];
    if ExposedAt(stmts, front, a) {
      forall t | a < t < |g| ensures !Links(stmts, g[t]) {
        if t < |front| {
          assert !Links(stmts, front[t]);
        }
      }
    }
  }

  // It is exposed exactly when the top list node is a loop node.
  lemma {:induction false} TopExposed(stmts: seq<Stmt>, g: seq<nat>)
    requires Recorded(stmts) && forall t :: 0 <= t < |g| ==> g[t] < |stmts|
    ensures Exposed(stmts, g) <==>
            var list := Nodes(stmts, g); list != [] && IsLoop(stmts, list[|list| - 1].stmt)
  {
    if g != [] {
      var front, last := g[..|g| - 1], g[|g| - 1];
      TopExposed(stmts, front);
      if IsLoop(stmts, last) {
        assert ExposedAt(stmts, g, |g| - 1);
      } else if Links(stmts, last) {
        assert forall a: nat :: a < |g| - 1 ==> !ExposedAt(stmts, g, a);
      } else {
        forall a: nat ensures ExposedAt(stmts, g, a) <==> ExposedAt(stmts, front, a) {
          ExposedFront(stmts, g, a);
        }
      }
    }
  }

  // Statements below c start calls of statements below c, or of loop statements.
  lemma {:induction false} DispatchStmts(stmts: seq<Stmt>, bits: set<nat>, c: nat, list: seq<Node>, e: Event)
    requires c <= |stmts| && e in Dispatch(stmts, bits, c, list)
    ensures e.stmt < c || IsLoop(stmts, e.stmt)
  {
    var i := c - 1;
    if e in StmtLog(stmts, bits, i, list) {
      if stmts[i].kind == InLoop {
        DrainStmts(stmts, list, e);
      }
    } else {
      DispatchStmts(stmts, bits, i, StmtRest(stmts, bits, i, list), e);
    }
  }

  lemma {:induction false} DrainStmts(stmts: seq<Stmt>, list: seq<Node>, e: Event)
    requires e in DrainLog(stmts, list)
    ensures IsLoop(stmts, e.stmt)
    decreases |list|
  {
    var top := list[|list| - 1];
    if e != Event(top.stmt, Some(top.serial)) {
      DrainStmts(stmts, list[..|list| - 1], e);
    }
  }

  // g without its trailing loop registrations.
  function StripLoops(stmts: seq<Stmt>, g: seq<nat>): (r: seq<nat>)
    ensures r <= g
    ensures r == [] || !IsLoop(stmts, r[|r| - 1])
    ensures forall t :: |r| <= t < |g| ==> IsLoop(stmts, g[t])
  {
    if g != [] && IsLoop(stmts, g[|g| - 1]) then StripLoops(stmts, g[..|g| - 1]) else g
  }

  // The part of Go's order made of g's trailing loop registrations.
  function Trailing(stmts: seq<Stmt>, g: seq<nat>): (log: seq<Event>)
    requires forall t :: 0 <= t < |g| ==> g[t] < |stmts|
  {
    if g != [] && IsLoop(stmts, g[|g| - 1]) then [EventOf(stmts, g, |g| - 1)] + Trailing(stmts, g[..|g| - 1]) else []
  }

  lemma {:induction false} ReversedTrailing(stmts: seq<Stmt>, g: seq<nat>)
    requires forall t :: 0 <= t < |g| ==> g[t] < |stmts|
    ensures Reversed(stmts, g) == Trailing(stmts, g) + Reversed(stmts, StripLoops(stmts, g))
  {
    if g != [] && IsLoop(stmts, g[|g| - 1]) {
      ReversedTrailing(stmts, g[..|g| - 1]);
    }
  }

  // A drain of g's nodes is Go's order for the trailing loop registrations,
  // followed by a drain of what is left.
  lemma {:induction false} DrainTrailing(stmts: seq<Stmt>, g: seq<nat>)
    requires Recorded(stmts) && forall t :: 0 <= t < |g| ==> g[t] < |stmts|
    ensures var r := Nodes(stmts, StripLoops(stmts, g));
            && DrainLog(stmts, Nodes(stmts, g)) == Trailing(stmts, g) + DrainLog(stmts, r)
            && DrainRest(stmts, Nodes(stmts, g)) == DrainRest(stmts, r)
  {
    hide Nodes, DrainLog, DrainRest, Trailing, StripLoops, Recorded;
    StripLast(stmts, g);
    if g != [] && IsLoop(stmts, g[|g| - 1]) {
      var front, e := g[..|g| - 1], EventOf(stmts, g, |g| - 1);
      NodesLast(stmts, g);
      DrainTop(stmts, Nodes(stmts, front), Node(g[|g| - 1], |g| - 1));
      DrainTrailing(stmts, front);
      Assoc([e], Trailing(stmts, front), DrainLog(stmts, Nodes(stmts, StripLoops(stmts, front))));
    }
  }

  lemma StripLast(stmts: seq<Stmt>, g: seq<nat>)
    requires forall t :: 0 <= t < |g| ==> g[t] < |stmts|
    ensures if g != [] && IsLoop(stmts, g[|g| - 1]) then
              && StripLoops(stmts, g) == StripLoops(stmts, g[..|g| - 1])
              && Trailing(stmts, g) == [EventOf(stmts, g, |g| - 1)] + Trailing(stmts, g[..|g| - 1])
            else StripLoops(stmts, g) == g && Trailing(stmts, g) == []
  {
  }

  // A loop registration links a node.
  lemma NodesLast(stmts: seq<Stmt>, g: seq<nat>)
    requires Recorded(stmts) && (forall t :: 0 <= t < |g| ==> g[t] < |stmts|) && g != [] && IsLoop(stmts, g[|g| - 1])
    ensures Nodes(stmts, g) == Nodes(stmts, g[..|g| - 1]) + [Node(g[|g| - 1], |g| - 1)] && stmts[g[|g| - 1]].pushes
  {
  }

  lemma DrainTop(stmts: seq<Stmt>, list: seq<Node>, node: Node)
    requires IsLoop(stmts, node.stmt)
    ensures DrainLog(stmts, list + [node]) == [Event(node.stmt, Some(node.serial))] + DrainLog(stmts, list)
    ensures DrainRest(stmts, list + [node]) == DrainRest(stmts, list)
  {
    assert (list + [node])[..|list|] == list;
  }

  // What the walk knows before it runs the statements below c: g is the part of the
  // history still due, and a drain that has just finished left no exposed loop node.
  ghost predicate Due(stmts: seq<Stmt>, bits: set<nat>, width: nat, c: nat, g: seq<nat>) {
    && c <= |stmts| && Recorded(stmts) && History(stmts, g)
    && (forall t :: 0 <= t < |g| ==> g[t] < c)
    && BitsTell(stmts, bits, width, c, g)
    && (IsLoop(stmts, c) ==> !Exposed(stmts, g) && (g == [] || !IsLoop(stmts, g[|g| - 1])))
  }

  ghost predicate OrderlyBelow(stmts: seq<Stmt>, c: nat, g: seq<nat>, width: nat) {
    DrainsOk(stmts, c, g) && AlwaysOk(stmts, c, g) && BitsOk(stmts, g, width)
  }

  // Registrations at or above q, or of loops, do not matter to statement q.
  lemma StraddledPrefix(stmts: seq<Stmt>, g: seq<nat>, r: seq<nat>, q: nat)
    requires r <= g
    requires forall t :: |r| <= t < |g| ==> g[t] >= q || IsLoop(stmts, g[t])
    ensures Straddled(stmts, g, q) <==> Straddled(stmts, r, q)
  {
    if Straddled(stmts, g, q) {
      var a, s :| StraddledAt(stmts, g, q, a, s);
      assert StraddledAt(stmts, r, q, a, s);
    }
    if Straddled(stmts, r, q) {
      var a, s :| StraddledAt(stmts, r, q, a, s);
      assert StraddledAt(stmts, g, q, a, s);
    }
  }

  lemma DrainsOkPrefix(stmts: seq<Stmt>, g: seq<nat>, r: seq<nat>, c: nat)
    requires r <= g
    requires forall t :: |r| <= t < |g| ==> g[t] >= c || IsLoop(stmts, g[t])
    ensures DrainsOk(stmts, c, g) <==> DrainsOk(stmts, c, r)
  {
    forall q: nat | q < c ensures Straddled(stmts, g, q) <==> Straddled(stmts, r, q) {
      StraddledPrefix(stmts, g, r, q);
    }
  }

  // A registration at or above c does not matter to the statements below c.
  lemma AlwaysOkPop(stmts: seq<Stmt>, g: seq<nat>, c: nat)
    requires c <= |stmts| && g != [] && g[|g| - 1] >= c
    ensures AlwaysOk(stmts, c, g) <==> AlwaysOk(stmts, c, g[..|g| - 1])
  {
    var r := g[..|g| - 1];
    forall i: nat | i < c ensures i in g <==> i in r
      ensures Harmless(stmts, c, g, i) <==> Harmless(stmts, c, r, i)
    {
      assert forall t :: 0 <= t < |r| ==> r[t] == g[t];
      forall q: nat | i < q < c ensures Unshielded(stmts, g, i, q) <==> Unshielded(stmts, r, i, q) {
      }
    }
  }

  // Statement c = i is outside loops, so nothing drains between i and i + 1.
  lemma AlwaysOkSkip(stmts: seq<Stmt>, g: seq<nat>, i: nat)
    requires i < |stmts| && stmts[i].kind != InLoop
    requires stmts[i].kind == Always ==> i in g || Harmless(stmts, i + 1, g, i)
    ensures AlwaysOk(stmts, i + 1, g) <==> AlwaysOk(stmts, i, g)
  {
    forall j: nat | j < i ensures Harmless(stmts, i + 1, g, j) <==> Harmless(stmts, i, g, j) {
      assert forall q: nat :: j < q < i + 1 && Unshielded(stmts, g, j, q) ==> q < i;
    }
  }

  // Loop registrations do not shield anything.
  lemma StripSame(stmts: seq<Stmt>, g: seq<nat>, j: nat, q: nat)
    ensures var r := StripLoops(stmts, g);
            && (NoLinkBelow(stmts, g, j) <==> NoLinkBelow(stmts, r, j))
            && (NoLoopBelow(stmts, g, j) ==> NoLoopBelow(stmts, r, j))
            && (Unshielded(stmts, g, j, q) <==> Unshielded(stmts, r, j, q))
  {
    var r := StripLoops(stmts, g);
    assert forall t :: 0 <= t < |r| ==> r[t] == g[t];
  }

  // The drain of statement i empties the list for the statements it is not shielded
  // from: what was due to it is exactly what the shorter history shows.
  lemma HarmlessDrain(stmts: seq<Stmt>, g: seq<nat>, i: nat, j: nat)
    requires IsLoop(stmts, i) && j < i && History(stmts, g) && j !in g && !IsLoop(stmts, j)
    requires forall t :: 0 <= t < |g| ==> g[t] <= i
    requires !Exposed(stmts, StripLoops(stmts, g))
    ensures Harmless(stmts, i + 1, g, j) <==> Harmless(stmts, i, StripLoops(stmts, g), j)
  {
    var r := StripLoops(stmts, g);
    StripSame(stmts, g, j, i);
    forall q: nat ensures Unshielded(stmts, g, j, q) <==> Unshielded(stmts, r, j, q) {
      StripSame(stmts, g, j, q);
    }
    if NoLinkBelow(stmts, r, j) && Unshielded(stmts, r, j, i) {
      NoLinksLeft(stmts, g, i, j);
      assert NoLoopBelow(stmts, r, j);
    }
    if NoLoopBelow(stmts, r, j) && !NoLoopBelow(stmts, g, j) {
      var u :| 0 <= u < |g| && g[u] < j && IsLoop(stmts, g[u]);
      DrainReaches(stmts, g, i, j, u);
    }
  }

  lemma NoLinksLeft(stmts: seq<Stmt>, g: seq<nat>, i: nat, j: nat)
    requires IsLoop(stmts, i) && j < i && j !in g
    requires forall t :: 0 <= t < |g| ==> g[t] <= i
    requires !Exposed(stmts, StripLoops(stmts, g))
    requires NoLinkBelow(stmts, StripLoops(stmts, g), j) && Unshielded(stmts, StripLoops(stmts, g), j, i)
    ensures forall t :: 0 <= t < |StripLoops(stmts, g)| ==> !IsLoop(stmts, StripLoops(stmts, g)[t])
  {
    var r := StripLoops(stmts, g);
    forall t | 0 <= t < |r| ensures !Links(stmts, r[t]) {
      assert r[t] == g[t] && r[t] != j;
    }
    NoLinksNoLoops(stmts, r);
  }

  lemma NoLinksNoLoops(stmts: seq<Stmt>, r: seq<nat>)
    requires !Exposed(stmts, r)
    requires forall t :: 0 <= t < |r| ==> !Links(stmts, r[t])
    ensures forall t :: 0 <= t < |r| ==> !IsLoop(stmts, r[t])
  {
    forall t | 0 <= t < |r| ensures !IsLoop(stmts, r[t]) {
      assert !ExposedAt(stmts, r, t);
    }
  }

  // If a loop registration below j is last, nothing above j is still due.
  lemma DrainReaches(stmts: seq<Stmt>, g: seq<nat>, i: nat, j: nat, u: nat)
    requires IsLoop(stmts, i) && j < i && History(stmts, g)
    requires u < |g| && g[u] < j && IsLoop(stmts, g[u])
    ensures u >= |StripLoops(stmts, g)| ==> Unshielded(stmts, g, j, i)
    ensures u < |StripLoops(stmts, g)| ==> StripLoops(stmts, g)[u] == g[u]
  {
    if u >= |StripLoops(stmts, g)| {
      forall t | 0 <= t < |g| && j < g[t] < i ensures !Links(stmts, g[t]) {
        if t < u {
          assert g[t] < g[u] || SameRun(stmts, g[t], g[u]);
        }
      }
    }
  }

  lemma AlwaysOkDrain(stmts: seq<Stmt>, g: seq<nat>, i: nat)
    requires IsLoop(stmts, i) && History(stmts, g)
    requires forall t :: 0 <= t < |g| ==> g[t] <= i
    requires !Exposed(stmts, StripLoops(stmts, g))
    ensures AlwaysOk(stmts, i + 1, g) <==> AlwaysOk(stmts, i, StripLoops(stmts, g))
  {
    hide StripLoops, Exposed, Harmless, History;
    var r := StripLoops(stmts, g);
    forall j: nat | j < i && stmts[j].kind == Always ensures j in g <==> j in r {
      StripKeeps(stmts, g, r, j);
    }
    forall j: nat | j < i && stmts[j].kind == Always && j !in g
      ensures Harmless(stmts, i + 1, g, j) <==> Harmless(stmts, i, r, j)
    {
      HarmlessDrain(stmts, g, i, j);
    }
  }

  // ---- one statement of the walk: Go's order holds at c iff it holds below ----

  // Statement c - 1 outside loops is the last registered: it is called next.
  lemma WalkPop(stmts: seq<Stmt>, bits: set<nat>, width: nat, c: nat, g: seq<nat>)
    requires c > 0 && Due(stmts, bits, width, c, g) && stmts[c - 1].kind != InLoop
    requires g != [] && g[|g| - 1] == c - 1 && (stmts[c - 1].kind == InCond ==> stmts[c - 1].bit < width)
    ensures Due(stmts, bits, width, c - 1, g[..|g| - 1])
    ensures Dispatch(stmts, bits, c, Nodes(stmts, g))
            == [EventOf(stmts, g, |g| - 1)] + Dispatch(stmts, bits, c - 1, Nodes(stmts, g[..|g| - 1]))
    ensures OrderlyBelow(stmts, c, g, width) <==> OrderlyBelow(stmts, c - 1, g[..|g| - 1], width)
  {
    hide Dispatch, OrderlyBelow;
    DuePop(stmts, bits, width, c, g);
    OrderlyPop(stmts, c, g, width);
    DispatchPop(stmts, bits, width, c, g);
  }

  lemma DispatchPop(stmts: seq<Stmt>, bits: set<nat>, width: nat, c: nat, g: seq<nat>)
    requires 0 < c <= |stmts| && BitsTell(stmts, bits, width, c, g) && stmts[c - 1].kind != InLoop
    requires forall t :: 0 <= t < |g| ==> g[t] < |stmts|
    requires g != [] && g[|g| - 1] == c - 1 && (stmts[c - 1].kind == InCond ==> stmts[c - 1].bit < width)
    ensures Dispatch(stmts, bits, c, Nodes(stmts, g))
            == [EventOf(stmts, g, |g| - 1)] + Dispatch(stmts, bits, c - 1, Nodes(stmts, g[..|g| - 1]))
  {
    var i, r, list := c - 1, g[..|g| - 1], Nodes(stmts, g);
    assert g[|g| - 1] in g;
    if stmts[i].pushes {
      assert list == Nodes(stmts, r) + [Node(i, |g| - 1)];
      assert list[..|list| - 1] == Nodes(stmts, r);
    }
    assert StmtRest(stmts, bits, i, list) == Nodes(stmts, r);
    assert StmtLog(stmts, bits, i, list) == [EventOf(stmts, g, |g| - 1)];
  }

  lemma DuePop(stmts: seq<Stmt>, bits: set<nat>, width: nat, c: nat, g: seq<nat>)
    requires c > 0 && Due(stmts, bits, width, c, g) && stmts[c - 1].kind != InLoop
    requires g != [] && g[|g| - 1] == c - 1
    ensures Due(stmts, bits, width, c - 1, g[..|g| - 1])
  {
    var r := g[..|g| - 1];
    forall t | 0 <= t < |r| ensures r[t] < c - 1 {
      assert g[t] < g[|g| - 1] || SameRun(stmts, g[t], g[|g| - 1]);
      assert !IsLoop(stmts, g[|g| - 1]);
    }
    assert forall k: nat :: k < c - 1 ==> (k in g <==> k in r);
  }

  lemma OrderlyPop(stmts: seq<Stmt>, c: nat, g: seq<nat>, width: nat)
    requires 0 < c <= |stmts| && stmts[c - 1].kind != InLoop
    requires g != [] && g[|g| - 1] == c - 1 && (stmts[c - 1].kind == InCond ==> stmts[c - 1].bit < width)
    ensures OrderlyBelow(stmts, c, g, width) <==> OrderlyBelow(stmts, c - 1, g[..|g| - 1], width)
  {
    var i, r := c - 1, g[..|g| - 1];
    DrainsOkPrefix(stmts, g, r, i);
    assert i in g;
    AlwaysOkSkip(stmts, g, i);
    AlwaysOkPop(stmts, g, i);
    assert forall t :: 0 <= t < |r| ==> r[t] == g[t];
    assert BitsOk(stmts, g, width) <==> BitsOk(stmts, r, width);
  }

  lemma {:induction false} NodesEmpty(stmts: seq<Stmt>, g: seq<nat>)
    requires forall t :: 0 <= t < |g| ==> g[t] < |stmts|
    ensures Nodes(stmts, g) == [] <==> forall t :: 0 <= t < |g| ==> !stmts[g[t]].pushes
  {
    if g != [] {
      var front := g[..|g| - 1];
      NodesEmpty(stmts, front);
      if forall t :: 0 <= t < |front| ==> !stmts[front[t]].pushes {
        assert forall t :: 0 <= t < |front| ==> front[t] == g[t];
      } else {
        var t :| 0 <= t < |front| && stmts[front[t]].pushes;
        assert stmts[g[t]].pushes;
      }
    }
  }

  // The first call differs from Go's, so the whole order does.
  lemma FirstDiffers(stmts: seq<Stmt>, bits: set<nat>, c: nat, list: seq<Node>, g: seq<nat>)
    requires c <= |stmts| && g != [] && forall t :: 0 <= t < |g| ==> g[t] < |stmts|
    requires g[|g| - 1] >= c && !IsLoop(stmts, g[|g| - 1])
    ensures Dispatch(stmts, bits, c, list) != Reversed(stmts, g)
  {
    var calls := Dispatch(stmts, bits, c, list);
    if calls == Reversed(stmts, g) {
      assert calls[0] == EventOf(stmts, g, |g| - 1);
      DispatchStmts(stmts, bits, c, list, calls[0]);
    }
  }

  // Statement c - 1 is conditional and registered, but its bit is outside the
  // target's word: it is never called.
  lemma WalkLost(stmts: seq<Stmt>, bits: set<nat>, width: nat, c: nat, g: seq<nat>)
    requires c > 0 && Due(stmts, bits, width, c, g) && stmts[c - 1].kind == InCond
    requires g != [] && g[|g| - 1] == c - 1 && stmts[c - 1].bit >= width
    ensures Dispatch(stmts, bits, c, Nodes(stmts, g)) != Reversed(stmts, g)
    ensures !OrderlyBelow(stmts, c, g, width)
  {
    hide Dispatch, Reversed, Nodes, StmtLog, StmtRest;
    var list := Nodes(stmts, g);
    assert !Calls(stmts, bits, c - 1, list);
    DispatchSkip(stmts, bits, c, list);
    FirstDiffers(stmts, bits, c - 1, list, g);
  }

  // A statement outside loops that makes no call leaves everything to those below.
  lemma DispatchSkip(stmts: seq<Stmt>, bits: set<nat>, c: nat, list: seq<Node>)
    requires 0 < c <= |stmts| && stmts[c - 1].kind != InLoop && !Calls(stmts, bits, c - 1, list)
    ensures Dispatch(stmts, bits, c, list) == Dispatch(stmts, bits, c - 1, list)
  {
    assert Dispatch(stmts, bits, c, list) == [] + Dispatch(stmts, bits, c - 1, list);
  }

  // Statement c - 1 outside loops is not registered and makes no call.
  lemma WalkSkip(stmts: seq<Stmt>, bits: set<nat>, width: nat, c: nat, g: seq<nat>)
    requires c > 0 && Due(stmts, bits, width, c, g) && stmts[c - 1].kind != InLoop && c - 1 !in g
    requires !Calls(stmts, bits, c - 1, Nodes(stmts, g))
    ensures Due(stmts, bits, width, c - 1, g)
    ensures Dispatch(stmts, bits, c, Nodes(stmts, g)) == Dispatch(stmts, bits, c - 1, Nodes(stmts, g))
    ensures OrderlyBelow(stmts, c, g, width) <==> OrderlyBelow(stmts, c - 1, g, width)
  {
    hide Dispatch, OrderlyBelow, Nodes;
    DispatchSkip(stmts, bits, c, Nodes(stmts, g));
    forall t | 0 <= t < |g| ensures g[t] < c - 1 {
      assert g[t] in g;
    }
    assert !IsLoop(stmts, c - 1);
    OrderlySkip(stmts, bits, c, g, width);
  }

  lemma OrderlySkip(stmts: seq<Stmt>, bits: set<nat>, c: nat, g: seq<nat>, width: nat)
    requires 0 < c <= |stmts| && Recorded(stmts) && stmts[c - 1].kind != InLoop && c - 1 !in g
    requires (forall t :: 0 <= t < |g| ==> g[t] < |stmts|) && !Calls(stmts, bits, c - 1, Nodes(stmts, g))
    ensures OrderlyBelow(stmts, c, g, width) <==> OrderlyBelow(stmts, c - 1, g, width)
  {
    var i := c - 1;
    if stmts[i].kind == Always {
      NodesEmpty(stmts, g);
      assert Harmless(stmts, c, g, i);
    }
    AlwaysOkSkip(stmts, g, i);
    assert !IsLoop(stmts, i);
  }

  // Statement c - 1 is unconditional, not registered, and called all the same.
  lemma WalkStray(stmts: seq<Stmt>, bits: set<nat>, width: nat, c: nat, g: seq<nat>)
    requires c > 0 && Due(stmts, bits, width, c, g) && stmts[c - 1].kind == Always && c - 1 !in g
    requires Calls(stmts, bits, c - 1, Nodes(stmts, g))
    ensures Dispatch(stmts, bits, c, Nodes(stmts, g)) != Reversed(stmts, g)
    ensures !OrderlyBelow(stmts, c, g, width)
  {
    hide Dispatch, Reversed, Nodes, AlwaysOk, DrainsOk, BitsOk;
    StrayDiffers(stmts, bits, c, g);
    StrayHarms(stmts, bits, c, g);
  }

  lemma StrayDiffers(stmts: seq<Stmt>, bits: set<nat>, c: nat, g: seq<nat>)
    requires 0 < c <= |stmts| && (forall t :: 0 <= t < |g| ==> g[t] < |stmts|)
    requires stmts[c - 1].kind == Always && c - 1 !in g && Calls(stmts, bits, c - 1, Nodes(stmts, g))
    ensures Dispatch(stmts, bits, c, Nodes(stmts, g)) != Reversed(stmts, g)
  {
    hide Nodes;
    var list := Nodes(stmts, g);
    var log, rest := StmtLog(stmts, bits, c - 1, list),
      Dispatch(stmts, bits, c - 1, StmtRest(stmts, bits, c - 1, list));
    assert |log| == 1 && log[0].stmt == c - 1 && (log + rest)[0] == log[0];
    assert Dispatch(stmts, bits, c, list) == log + rest;
    if g != [] {
      assert g[|g| - 1] in g;
      assert Reversed(stmts, g)[0].stmt == g[|g| - 1];
    }
  }

  lemma StrayHarms(stmts: seq<Stmt>, bits: set<nat>, c: nat, g: seq<nat>)
    requires 0 < c <= |stmts| && (forall t :: 0 <= t < |g| ==> g[t] < c)
    requires stmts[c - 1].kind == Always && c - 1 !in g && Calls(stmts, bits, c - 1, Nodes(stmts, g))
    ensures !AlwaysOk(stmts, c, g)
  {
    var i := c - 1;
    NodesEmpty(stmts, g);
    if stmts[i].pushes {
      var t :| 0 <= t < |g| && stmts[g[t]].pushes;
      assert g[t] in g && (IsLoop(stmts, g[t]) || Links(stmts, g[t]));
      assert !(NoLinkBelow(stmts, g, i) && NoLoopBelow(stmts, g, i));
    }
    assert !Harmless(stmts, c, g, i);
  }

  // Everything due below a finished drain lies below the loop statement.
  lemma BelowLoop(stmts: seq<Stmt>, g: seq<nat>, i: nat)
    requires History(stmts, g) && IsLoop(stmts, i)
    requires forall t :: 0 <= t < |g| ==> g[t] <= i
    requires g == [] || !IsLoop(stmts, g[|g| - 1])
    ensures forall t :: 0 <= t < |g| ==> g[t] < i
  {
    forall t | 0 <= t < |g| ensures g[t] < i {
      if t < |g| - 1 {
        assert g[t] < g[|g| - 1] || SameRun(stmts, g[t], g[|g| - 1]);
      }
    }
  }

  // With no exposed loop registration, statement i overtakes nothing.
  lemma NotStraddled(stmts: seq<Stmt>, g: seq<nat>, i: nat)
    requires IsLoop(stmts, i) && forall t :: 0 <= t < |g| ==> g[t] <= i
    requires !Exposed(stmts, StripLoops(stmts, g))
    ensures !Straddled(stmts, g, i)
  {
    hide Exposed, StripLoops, StraddledAt;
    forall a: nat, s: nat ensures !StraddledAt(stmts, g, i, a, s) {
      StraddleExposes(stmts, g, i, a, s);
    }
  }

  lemma StraddleExposes(stmts: seq<Stmt>, g: seq<nat>, i: nat, a: nat, s: nat)
    requires IsLoop(stmts, i) && forall t :: 0 <= t < |g| ==> g[t] <= i
    ensures StraddledAt(stmts, g, i, a, s) ==> Exposed(stmts, StripLoops(stmts, g))
  {
    hide StripLoops, StraddledAt, ExposedAt;
    if StraddledAt(stmts, g, i, a, s) {
      AboveExposed(stmts, g, StripLoops(stmts, g), i, a, s);
    }
  }

  lemma AboveExposed(stmts: seq<Stmt>, g: seq<nat>, r: seq<nat>, i: nat, a: nat, s: nat)
    requires IsLoop(stmts, i) && (forall t :: 0 <= t < |g| ==> g[t] <= i) && r <= g
    requires StraddledAt(stmts, g, i, a, s) && forall t :: |r| <= t < |g| ==> IsLoop(stmts, g[t])
    ensures ExposedAt(stmts, r, a)
  {
    assert s < |r| && r[a] == g[a];
    forall t | a < t < |r| ensures !Links(stmts, r[t]) {
      assert r[t] == g[t];
    }
  }

  lemma DueDrain(stmts: seq<Stmt>, bits: set<nat>, width: nat, c: nat, g: seq<nat>)
    requires c > 0 && Due(stmts, bits, width, c, g) && IsLoop(stmts, c - 1) && !Exposed(stmts, StripLoops(stmts, g))
    ensures Due(stmts, bits, width, c - 1, StripLoops(stmts, g))
  {
    hide StripLoops, Exposed, Recorded;
    var i, r := c - 1, StripLoops(stmts, g);
    assert forall t :: 0 <= t < |r| ==> r[t] == g[t];
    BelowLoop(stmts, r, i);
    forall k: nat | k < i && stmts[k].kind == InCond ensures k in g <==> k in r {
      StripKeeps(stmts, g, r, k);
    }
  }

  lemma StripKeeps(stmts: seq<Stmt>, g: seq<nat>, r: seq<nat>, k: nat)
    requires r <= g && !IsLoop(stmts, k) && forall t :: |r| <= t < |g| ==> IsLoop(stmts, g[t])
    ensures k in g <==> k in r
  {
    if k in g {
      var t :| 0 <= t < |g| && g[t] == k;
      assert r[t] == k;
    }
  }

  lemma DispatchDrain(stmts: seq<Stmt>, bits: set<nat>, width: nat, c: nat, g: seq<nat>)
    requires c > 0 && Due(stmts, bits, width, c, g) && IsLoop(stmts, c - 1) && !Exposed(stmts, StripLoops(stmts, g))
    ensures Dispatch(stmts, bits, c, Nodes(stmts, g))
            == Trailing(stmts, g) + Dispatch(stmts, bits, c - 1, Nodes(stmts, StripLoops(stmts, g)))
  {
    hide Dispatch, DrainLog, DrainRest, Nodes, Exposed, StripLoops, Trailing, Recorded, BitsTell;
    var i, r := c - 1, StripLoops(stmts, g);
    DispatchLoop(stmts, bits, i, Nodes(stmts, g));
    if IsLoop(stmts, c) {
      StripLast(stmts, g);
    } else {
      TopExposed(stmts, r);
      DrainTrailing(stmts, g);
      DrainNothing(stmts, Nodes(stmts, r));
    }
  }

  lemma DrainNothing(stmts: seq<Stmt>, list: seq<Node>)
    requires !LoopOnTop(stmts, list)
    ensures DrainLog(stmts, list) == [] && DrainRest(stmts, list) == list
  {
  }

  lemma OrderlyDrain(stmts: seq<Stmt>, c: nat, g: seq<nat>, width: nat)
    requires 0 < c <= |stmts| && History(stmts, g) && IsLoop(stmts, c - 1) && !Exposed(stmts, StripLoops(stmts, g))
    requires forall t :: 0 <= t < |g| ==> g[t] < c
    ensures OrderlyBelow(stmts, c, g, width) <==> OrderlyBelow(stmts, c - 1, StripLoops(stmts, g), width)
  {
    hide DrainsOk, AlwaysOk, BitsOk, Exposed, StripLoops, History;
    DrainsOkDrain(stmts, g, c - 1);
    AlwaysOkDrain(stmts, g, c - 1);
    BitsOkStrip(stmts, g, width);
  }

  lemma DrainsOkDrain(stmts: seq<Stmt>, g: seq<nat>, i: nat)
    requires IsLoop(stmts, i) && (forall t :: 0 <= t < |g| ==> g[t] <= i) && !Exposed(stmts, StripLoops(stmts, g))
    ensures DrainsOk(stmts, i + 1, g) <==> DrainsOk(stmts, i, StripLoops(stmts, g))
  {
    hide Straddled, Exposed;
    NotStraddled(stmts, g, i);
    DrainsOkPrefix(stmts, g, StripLoops(stmts, g), i);
  }

  lemma BitsOkStrip(stmts: seq<Stmt>, g: seq<nat>, width: nat)
    ensures BitsOk(stmts, g, width) <==> BitsOk(stmts, StripLoops(stmts, g), width)
  {
    var r := StripLoops(stmts, g);
    assert forall t :: 0 <= t < |r| ==> r[t] == g[t];
  }

  // The drain of statement c - 1 is clean.
  lemma WalkDrain(stmts: seq<Stmt>, bits: set<nat>, width: nat, c: nat, g: seq<nat>)
    requires c > 0 && Due(stmts, bits, width, c, g) && IsLoop(stmts, c - 1) && !Exposed(stmts, StripLoops(stmts, g))
    ensures var r := StripLoops(stmts, g);
            && Due(stmts, bits, width, c - 1, r)
            && (Dispatch(stmts, bits, c, Nodes(stmts, g)) == Reversed(stmts, g) <==>
                Dispatch(stmts, bits, c - 1, Nodes(stmts, r)) == Reversed(stmts, r))
            && (OrderlyBelow(stmts, c, g, width) <==> OrderlyBelow(stmts, c - 1, r, width))
  {
    var r := StripLoops(stmts, g);
    DueDrain(stmts, bits, width, c, g);
    OrderlyDrain(stmts, c, g, width);
    assert Dispatch(stmts, bits, c, Nodes(stmts, g)) == Reversed(stmts, g) <==>
           Dispatch(stmts, bits, c - 1, Nodes(stmts, r)) == Reversed(stmts, r) by {
      DispatchDrain(stmts, bits, width, c, g);
      ReversedTrailing(stmts, g);
      SamePrefix(Trailing(stmts, g), Dispatch(stmts, bits, c - 1, Nodes(stmts, r)), Reversed(stmts, r));
    }
  }

  // The drain reaches a loop registration under a silent one that is still due.
  lemma WalkOvertake(stmts: seq<Stmt>, bits: set<nat>, width: nat, c: nat, g: seq<nat>)
    requires c > 0 && Due(stmts, bits, width, c, g) && IsLoop(stmts, c - 1) && Exposed(stmts, StripLoops(stmts, g))
    ensures Dispatch(stmts, bits, c, Nodes(stmts, g)) != Reversed(stmts, g)
    ensures !OrderlyBelow(stmts, c, g, width)
  {
    hide Dispatch, Reversed, Exposed, Straddled;
    ExposedStraddles(stmts, g, c - 1);
    OvertakeDiffers(stmts, bits, c, g);
  }

  lemma OvertakeDiffers(stmts: seq<Stmt>, bits: set<nat>, c: nat, g: seq<nat>)
    requires 0 < c <= |stmts| && Recorded(stmts) && (forall t :: 0 <= t < |g| ==> g[t] < |stmts|)
    requires IsLoop(stmts, c - 1) && !IsLoop(stmts, c) && Exposed(stmts, StripLoops(stmts, g))
    ensures Dispatch(stmts, bits, c, Nodes(stmts, g)) != Reversed(stmts, g)
  {
    hide DrainLog, DrainRest, Dispatch, Reversed, Trailing, Nodes, StripLoops, Exposed, Recorded;
    var r := StripLoops(stmts, g);
    ExposedSome(stmts, r);
    TopExposed(stmts, r);
    DrainTrailing(stmts, g);
    ReversedTrailing(stmts, g);
    DispatchLoop(stmts, bits, c - 1, Nodes(stmts, g));
    TopDiffers(stmts, bits, c - 1, r, Trailing(stmts, g), DrainRest(stmts, Nodes(stmts, g)));
  }

  lemma ExposedSome(stmts: seq<Stmt>, g: seq<nat>)
    requires Exposed(stmts, g)
    ensures g != []
  {
  }

  // After the trailing registrations the drain calls a loop statement where Go calls
  // one outside loops.
  lemma TopDiffers(stmts: seq<Stmt>, bits: set<nat>, i: nat, r: seq<nat>, p: seq<Event>, rest: seq<Node>)
    requires i <= |stmts| && (forall t :: 0 <= t < |r| ==> r[t] < |stmts|) && LoopOnTop(stmts, Nodes(stmts, r))
    requires r != [] && !IsLoop(stmts, r[|r| - 1])
    ensures (p + DrainLog(stmts, Nodes(stmts, r))) + Dispatch(stmts, bits, i, rest) != p + Reversed(stmts, r)
  {
    hide Dispatch, Nodes;
    var list := Nodes(stmts, r);
    var calls := (p + DrainLog(stmts, list)) + Dispatch(stmts, bits, i, rest);
    assert calls[|p|] == Event(list[|list| - 1].stmt, Some(list[|list| - 1].serial));
    assert (p + Reversed(stmts, r))[|p|] == EventOf(stmts, r, |r| - 1);
  }

  lemma ExposedStraddles(stmts: seq<Stmt>, g: seq<nat>, i: nat)
    requires IsLoop(stmts, i) && forall t :: 0 <= t < |g| ==> g[t] <= i
    requires Exposed(stmts, StripLoops(stmts, g))
    ensures Straddled(stmts, g, i)
  {
    hide StripLoops, ExposedAt, StraddledAt;
    var r := StripLoops(stmts, g);
    var a :| ExposedAt(stmts, r, a);
    ExposedNone(stmts, r, a);
    ExposedAbove(stmts, g, r, i, a);
  }

  lemma ExposedNone(stmts: seq<Stmt>, r: seq<nat>, a: nat)
    requires ExposedAt(stmts, r, a)
    ensures r != []
  {
  }

  lemma ExposedAbove(stmts: seq<Stmt>, g: seq<nat>, r: seq<nat>, i: nat, a: nat)
    requires IsLoop(stmts, i) && (forall t :: 0 <= t < |g| ==> g[t] <= i) && r <= g
    requires ExposedAt(stmts, r, a) && !IsLoop(stmts, r[|r| - 1]) && forall t :: |r| <= t < |g| ==> IsLoop(stmts, g[t])
    ensures StraddledAt(stmts, g, i, a, |r| - 1)
  {
    var s := |r| - 1;
    assert g[s] == r[s] && g[a] == r[a] && a != s;
    assert !Links(stmts, r[s]) && g[s] != i;
    forall t | a < t < |g| && g[t] < i ensures !Links(stmts, g[t]) {
      if t < |r| {
        assert g[t] == r[t];
      }
    }
  }

  lemma SamePrefix(p: seq<Event>, x: seq<Event>, y: seq<Event>)
    ensures p + x == p + y <==> x == y
  {
    assert (p + x)[|p|..] == x && (p + y)[|p|..] == y;
  }

  // The statements below c run what is due in Go's order iff the due history is
  // orderly for them.
  lemma {:induction false} WalkExact(stmts: seq<Stmt>, bits: set<nat>, width: nat, c: nat, g: seq<nat>)
    requires Due(stmts, bits, width, c, g)
    ensures Dispatch(stmts, bits, c, Nodes(stmts, g)) == Reversed(stmts, g) <==> OrderlyBelow(stmts, c, g, width)
    decreases c, 1
  {
    if c == 0 {
      assert g == [];
    } else if IsLoop(stmts, c - 1) {
      WalkLoop(stmts, bits, width, c, g);
    } else if g != [] && g[|g| - 1] == c - 1 {
      WalkLast(stmts, bits, width, c, g);
    } else {
      LastIsHighest(stmts, g, c - 1);
      if Calls(stmts, bits, c - 1, Nodes(stmts, g)) {
        WalkStray(stmts, bits, width, c, g);
      } else {
        WalkSkip(stmts, bits, width, c, g);
        WalkExact(stmts, bits, width, c - 1, g);
      }
    }
  }

  lemma {:induction false} WalkLoop(stmts: seq<Stmt>, bits: set<nat>, width: nat, c: nat, g: seq<nat>)
    requires c > 0 && Due(stmts, bits, width, c, g) && IsLoop(stmts, c - 1)
    ensures Dispatch(stmts, bits, c, Nodes(stmts, g)) == Reversed(stmts, g) <==> OrderlyBelow(stmts, c, g, width)
    decreases c, 0
  {
    hide Dispatch, Reversed, OrderlyBelow, Exposed;
    var r := StripLoops(stmts, g);
    if Exposed(stmts, r) {
      WalkOvertake(stmts, bits, width, c, g);
    } else {
      WalkDrain(stmts, bits, width, c, g);
      WalkExact(stmts, bits, width, c - 1, r);
    }
  }

  lemma {:induction false} WalkLast(stmts: seq<Stmt>, bits: set<nat>, width: nat, c: nat, g: seq<nat>)
    requires c > 0 && Due(stmts, bits, width, c, g) && !IsLoop(stmts, c - 1)
    requires g != [] && g[|g| - 1] == c - 1
    ensures Dispatch(stmts, bits, c, Nodes(stmts, g)) == Reversed(stmts, g) <==> OrderlyBelow(stmts, c, g, width)
    decreases c, 0
  {
    hide Dispatch, OrderlyBelow, Nodes, Exposed, BitsTell, History, Recorded;
    if stmts[c - 1].kind == InCond && stmts[c - 1].bit >= width {
      WalkLost(stmts, bits, width, c, g);
    } else {
      var r := g[..|g| - 1];
      WalkPop(stmts, bits, width, c, g);
      SamePrefix([EventOf(stmts, g, |g| - 1)], Dispatch(stmts, bits, c - 1, Nodes(stmts, r)), Reversed(stmts, r));
      WalkExact(stmts, bits, width, c - 1, r);
    }
  }

  // A statement outside loops that is not last registered, and above all, is absent.
  lemma LastIsHighest(stmts: seq<Stmt>, g: seq<nat>, i: nat)
    requires History(stmts, g) && !IsLoop(stmts, i)
    requires forall t :: 0 <= t < |g| ==> g[t] <= i
    requires g == [] || g[|g| - 1] != i
    ensures i !in g
  {
    forall t | 0 <= t < |g| ensures g[t] != i {
      if t < |g| - 1 {
        assert g[t] < g[|g| - 1] || SameRun(stmts, g[t], g[|g| - 1]);
      }
    }
  }

  // The main result: for every recorded function, every registration history in
  // compile order, every exit and every choice of panicking calls, a finished run
  // has started exactly the registered calls, last registered first, if and only if
  // the history is orderly.
  lemma DispatchOrder(mode: Mode, stmts: seq<Stmt>, sites: nat, h: seq<nat>, width: nat, exit: Exit,
                      ss: seq<State>, oracle: seq<bool>)
    requires |stmts| > 0 && Recorded(stmts) && History(stmts, h)
    requires exit.Returned? ==> 1 <= exit.site <= sites
    requires IsRun(mode, Lower(stmts, sites), ss, oracle) && ss[0] == Start(mode, stmts, sites, h, width, exit)
    requires Final(|stmts|, ss[|ss| - 1])
    ensures ss[|ss| - 1].log == Reversed(stmts, h) <==> Orderly(stmts, h, width)
  {
    var bits := BodyBits(stmts, h, width);
    forall i | 0 <= i < |stmts| && stmts[i].kind == InCond
      ensures stmts[i].bit in bits <==> i in h && stmts[i].bit < width
    {
      BodyBitsTell(stmts, h, width, i);
    }
    WalkExact(stmts, bits, width, |stmts|, h);
    RunsDispatch(mode, stmts, sites, h, width, exit, ss, oracle);
  }

  // The run of a history that is not orderly exists, and misses Go's order.
  lemma MissesOrder(mode: Mode, stmts: seq<Stmt>, sites: nat, h: seq<nat>, width: nat, exit: Exit, panics: nat -> bool)
    returns (ss: seq<State>, oracle: seq<bool>)
    requires |stmts| > 0 && Recorded(stmts) && History(stmts, h) && !Orderly(stmts, h, width)
    requires exit.Returned? ==> 1 <= exit.site <= sites
    ensures IsRun(mode, Lower(stmts, sites), ss, oracle) && ss[0] == Start(mode, stmts, sites, h, width, exit)
    ensures Final(|stmts|, ss[|ss| - 1]) && ss[|ss| - 1].log != Reversed(stmts, h)
    ensures forall k :: 0 <= k < |oracle| ==> oracle[k] == panics(k)
  {
    hide Start, Step, Final, Orderly, Reversed;
    ss, oracle := RunFinishes(mode, stmts, sites, h, width, exit, panics);
    DispatchOrder(mode, stmts, sites, h, width, exit, ss, oracle);
  }

  // A loop defer, a plain call and another loop, with one registration of each of
  // the first two: the second drain loop runs the loop's call first.
  const OVERTAKING: seq<Stmt> := [Stmt(InLoop, true, 0), Stmt(Always, false, 0), Stmt(InLoop, true, 0)]

  lemma OvertakingExample(mode: Mode, panics: nat -> bool) returns (ss: seq<State>, oracle: seq<bool>)
    ensures Recorded(OVERTAKING) && History(OVERTAKING, [0, 1]) && !Orderly(OVERTAKING, [0, 1], 64)
    ensures IsRun(mode, Lower(OVERTAKING, 1), ss, oracle)
    ensures ss[0] == Start(mode, OVERTAKING, 1, [0, 1], 64, Returned(1))
    ensures Final(3, ss[|ss| - 1]) && ss[|ss| - 1].log != Reversed(OVERTAKING, [0, 1])
    ensures forall k :: 0 <= k < |oracle| ==> oracle[k] == panics(k)
  {
    OvertakingHistory();
    ss, oracle := MissesOrder(mode, OVERTAKING, 1, [0, 1], 64, Returned(1), panics);
  }

  lemma OvertakingHistory()
    ensures Recorded(OVERTAKING) && History(OVERTAKING, [0, 1]) && !Orderly(OVERTAKING, [0, 1], 64)
  {
    var stmts := OVERTAKING;
    assert CondCount(stmts[..2]) == CondCount(stmts[..2][..1]) && CondCount(stmts[..2][..1]) == 0;
    assert IsLoop(stmts, 2) && StraddledAt(stmts, [0, 1], 2, 0, 1);
  }

  // A panic between two unconditional plain calls: the second one, not registered
  // yet, is called. The function has no RunDefers site.
  const STRAY: seq<Stmt> := [Stmt(Always, false, 0), Stmt(Always, false, 0)]

  lemma StrayExample(mode: Mode, panics: nat -> bool) returns (ss: seq<State>, oracle: seq<bool>)
    ensures Recorded(STRAY) && History(STRAY, [0]) && !Orderly(STRAY, [0], 64)
    ensures IsRun(mode, Lower(STRAY, 0), ss, oracle) && ss[0] == Start(mode, STRAY, 0, [0], 64, Panicked)
    ensures Final(2, ss[|ss| - 1]) && ss[|ss| - 1].log != Reversed(STRAY, [0])
    ensures forall k :: 0 <= k < |oracle| ==> oracle[k] == panics(k)
  {
    assert CondCount(STRAY) == 0;
    assert 1 !in [0] && !Harmless(STRAY, 2, [0], 1);
    ss, oracle := MissesOrder(mode, STRAY, 0, [0], 64, Panicked, panics);
  }

  // 33 conditional defers on a 32-bit target: the last one's bit is cut off, and it is
  // never called.
  function Conds(n: nat): (stmts: seq<Stmt>) {
    seq(n, i requires 0 <= i < n => Stmt(InCond, false, i))
  }

  lemma {:induction false} CondsCount(n: nat, k: nat)
    requires k <= n
    ensures CondCount(Conds(n)[..k]) == k
  {
    if k > 0 {
      CondsCount(n, k - 1);
      assert Conds(n)[..k][..k - 1] == Conds(n)[..k - 1];
    }
  }

  lemma LostBitExample(mode: Mode, panics: nat -> bool) returns (ss: seq<State>, oracle: seq<bool>)
    ensures Recorded(Conds(33)) && History(Conds(33), [32]) && !Orderly(Conds(33), [32], 32)
    ensures IsRun(mode, Lower(Conds(33), 1), ss, oracle)
    ensures ss[0] == Start(mode, Conds(33), 1, [32], 32, Returned(1))
    ensures Final(33, ss[|ss| - 1]) && ss[|ss| - 1].log != Reversed(Conds(33), [32])
    ensures forall k :: 0 <= k < |oracle| ==> oracle[k] == panics(k)
  {
    LostBitHistory();
    ss, oracle := MissesOrder(mode, Conds(33), 1, [32], 32, Returned(1), panics);
  }

  lemma LostBitHistory()
    ensures Recorded(Conds(33)) && History(Conds(33), [32]) && !Orderly(Conds(33), [32], 32)
  {
    var stmts := Conds(33);
    forall i | 0 <= i < 33 ensures stmts[i].bit == CondCount(stmts[..i]) {
      CondsCount(33, i);
    }
    CondsCount(33, 33);
    assert stmts[..33] == stmts;
    assert !BitsOk(stmts, [32], 32) by {
      assert stmts[[32][0]].kind == InCond && stmts[[32][0]].bit == 32;
    }
  }
}
