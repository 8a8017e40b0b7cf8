// Lowering of package-local variables: initializer calls and package bases are
// cached per block and looked up along the dominator chain, while blocks are
// compiled in any order. On every path from the entry to an access, what the access
// relies on has already run.
module LocalityLowering {
  import opened CfgPaths
  import opened Common

  type Block = nat
  datatype Kind = Thread | Goroutine

  // Where an emitted operation sits.
  datatype Site = Site(block: Block, index: nat)

  // Emitted operations: the initializer call of an owner, the call that computes a
  // package base, and an access through a base or through direct storage.
  datatype Op =
    | Ensure(owner: nat, kind: Kind)
    | Base(owner: nat, logical: bool)
    | Access(owner: nat, kind: Kind, base: Option<Site>, logical: bool)

  // A control-flow graph with its immediate dominators. depth decreases along the
  // dominator tree.
  datatype Cfg = Cfg(succs: seq<set<Block>>, idom: map<Block, Block>, depth: map<Block, nat>)

  // What the dominator tree promises.
  ghost predicate WellFormed(g: Cfg) {
    && (forall b :: b in g.idom ==> b in g.depth && g.idom[b] in g.depth && g.depth[g.idom[b]] < g.depth[b])
    && (forall b :: b in g.idom ==> Dominates(g.succs, g.idom[b], b))
  }

  // d is b or one of its dominators on the idom chain.
  ghost predicate OnChain(g: Cfg, d: Block, b: Block)
    requires WellFormed(g)
    decreases if b in g.depth then g.depth[b] else 0
  {
    d == b || (b in g.idom && OnChain(g, d, g.idom[b]))
  }

  lemma {:induction false} ChainDominates(g: Cfg, d: Block, b: Block)
    requires WellFormed(g) && OnChain(g, d, b)
    ensures Dominates(g.succs, d, b)
    decreases if b in g.depth then g.depth[b] else 0
  {
    if d == b {
      forall p | IsPath(g.succs, p) && p[|p| - 1] == b ensures d in p {
        assert p[|p| - 1] in p;
      }
    } else {
      var c := g.idom[b];
      ChainDominates(g, d, c);
      DominatesTransitive(g.succs, d, c, b);
    }
  }

  // ---- what an access relies on ----

  type Code = map<Block, seq<Op>>

  ghost predicate Holds(code: Code, s: Site, x: Op) {
    s.block in code && s.index < |code[s.block]| && code[s.block][s.index] == x
  }

  // s runs before at, on every path to at: in the same block earlier, or in a block
  // up the chain.
  ghost predicate Precedes(g: Cfg, s: Site, at: Site)
    requires WellFormed(g)
  {
    OnChain(g, s.block, at.block) && (s.block == at.block ==> s.index < at.index)
  }

  ghost predicate EnsuredAt(g: Cfg, code: Code, at: Site, owner: nat, kind: Kind)
    requires WellFormed(g)
  {
    exists s :: Holds(code, s, Ensure(owner, kind)) && Precedes(g, s, at)
  }

  ghost predicate BasedAt(g: Cfg, code: Code, at: Site, owner: nat, logical: bool)
    requires WellFormed(g)
  {
    exists s :: Holds(code, s, Base(owner, logical)) && Precedes(g, s, at)
  }

  ghost predicate InCache(ensured: set<(Block, nat, Kind)>, bases: map<(Block, nat, bool), Site>, b: Block, x: Op) {
    match x
    case Ensure(owner, kind) => (b, owner, kind) in ensured
    case Base(owner, logical) => (b, owner, logical) in bases
    case Access(_, _, _, _) => true
  }

  ghost predicate AllCached(code: Code, ensured: set<(Block, nat, Kind)>, bases: map<(Block, nat, bool), Site>) {
    forall b, i :: b in code && 0 <= i < |code[b]| ==> InCache(ensured, bases, b, code[b][i])
  }

  lemma CachedMore(was: Code, now: Code, ensured: set<(Block, nat, Kind)>, bases: map<(Block, nat, bool), Site>,
                   b: Block, x: Op)
    requires AllCached(was, ensured, bases) && Appended(was, b, x, now) && InCache(ensured, bases, b, x)
    ensures AllCached(now, ensured, bases)
  {
  }

  lemma CacheGrows(code: Code, e: set<(Block, nat, Kind)>, e': set<(Block, nat, Kind)>,
                   b: map<(Block, nat, bool), Site>, b': map<(Block, nat, bool), Site>)
    requires AllCached(code, e, b) && e <= e' && b.Keys <= b'.Keys
    ensures AllCached(code, e', b')
  {
  }

  // The caches know every call up the chain.
  lemma EnsuredKnown(g: Cfg, code: Code, ensured: set<(Block, nat, Kind)>, bases: map<(Block, nat, bool), Site>,
                     b: Block, owner: nat, kind: Kind)
    requires WellFormed(g) && AllCached(code, ensured, bases) && forall e :: e in ensured ==> CachedEnsure(code, e)
    ensures EnsuredAt(g, code, Site(b, if b in code then |code[b]| else 0), owner, kind)
       <==> exists c: Block :: OnChain(g, c, b) && (c, owner, kind) in ensured
  {
    var at := Site(b, if b in code then |code[b]| else 0);
    if EnsuredAt(g, code, at, owner, kind) {
      var s :| Holds(code, s, Ensure(owner, kind)) && Precedes(g, s, at);
      assert InCache(ensured, bases, s.block, code[s.block][s.index]);
    }
    if c: Block :| OnChain(g, c, b) && (c, owner, kind) in ensured {
      var s: Site :| s.block == c && Holds(code, s, Ensure(owner, kind));
      assert Precedes(g, s, at);
    }
  }

  lemma NowEnsured(g: Cfg, was: Code, code: Code, s: Site, b: Block, owner: nat, kind: Kind)
    requires WellFormed(g) && Appended(was, b, Ensure(owner, kind), code) && Holds(code, s, Ensure(owner, kind))
    requires s.block == b
    ensures EnsuredAt(g, code, Site(b, |code[b]|), owner, kind) && CachedEnsure(code, (b, owner, kind))
  {
    assert Precedes(g, s, Site(b, |code[b]|));
  }

  lemma BaseFound(g: Cfg, code: Code, s: Site, at: Site, owner: nat, logical: bool)
    requires WellFormed(g) && Holds(code, s, Base(owner, logical)) && OnChain(g, s.block, at.block)
    requires at.index == if at.block in code then |code[at.block]| else 0
    ensures BasedAt(g, code, at, owner, logical) && Precedes(g, s, at)
  {
  }

  lemma BaseUnknown(g: Cfg, code: Code, ensured: set<(Block, nat, Kind)>, bases: map<(Block, nat, bool), Site>,
                    b: Block, owner: nat, logical: bool)
    requires WellFormed(g) && AllCached(code, ensured, bases)
    requires forall c: Block :: OnChain(g, c, b) ==> (c, owner, logical) !in bases
    ensures !BasedAt(g, code, Site(b, if b in code then |code[b]| else 0), owner, logical)
  {
    forall s | Holds(code, s, Base(owner, logical)) ensures !OnChain(g, s.block, b) {
      assert InCache(ensured, bases, s.block, code[s.block][s.index]);
    }
  }

  // Operation x comes last in block b, and nothing else is new.
  ghost predicate Appended(was: Code, b: Block, x: Op, now: Code) {
    now == was[b := (if b in was then was[b] else []) + [x]]
  }

  // `inits` are the owners and kinds that have an initializer.
  ghost predicate AccessOk(g: Cfg, inits: set<(nat, Kind)>, code: Code, at: Site, x: Op)
    requires WellFormed(g)
  {
    x.Access? ==>
      && ((x.owner, x.kind) in inits ==> EnsuredAt(g, code, at, x.owner, x.kind))
      && (x.base.Some? ==> Holds(code, x.base.value, Base(x.owner, x.logical)) && Precedes(g, x.base.value, at))
  }

  class Lowering {
    const g: Cfg
    const inits: set<(nat, Kind)>
    var code: Code
    var ensured: set<(Block, nat, Kind)>
    var bases: map<(Block, nat, bool), Site>

    constructor (g: Cfg, inits: set<(nat, Kind)>)
      requires WellFormed(g)
      ensures this.g == g && this.inits == inits && Valid() && Complete()
    {
      this.g, this.inits := g, inits;
      code, ensured, bases := map[], {}, map[];
    }

    // Caches name operations that were emitted, and every access is covered.
    ghost predicate Valid()
      reads this
    {
      && WellFormed(g)
      && (forall e :: e in ensured ==> CachedEnsure(code, e))
      && (forall e :: e in bases ==> bases[e].block == e.0 && Holds(code, bases[e], Base(e.1, e.2)))
      && (forall b, i :: b in code && 0 <= i < |code[b]| ==> AccessOk(g, inits, code, Site(b, i), code[b][i]))
    }

    // Every call and base that was emitted is in a cache.
    ghost predicate Complete()
      reads this
    {
      AllCached(code, ensured, bases)
    }

    function Length(b: Block): (n: nat)
      reads this`code
    {
      if b in code then |code[b]| else 0
    }

    method Emit(b: Block, x: Op) returns (s: Site)
      requires Valid() && AccessOk(g, inits, code, Site(b, Length(b)), x)
      modifies this`code
      ensures Valid() && s == Site(b, old(Length(b))) && Holds(code, s, x) && Grows(old(code), code)
      ensures Length(b) == old(Length(b)) + 1 && Appended(old(code), b, x, code)
    {
      s := Site(b, Length(b));
      ghost var was := code;
      code := code[b := (if b in code then code[b] else []) + [x]];
      assert Grows(was, code);
      GrowsKeeps(g, inits, was, code, b, x);
    }

    // Whether a block up the chain is known to call the owner's initializer.
    method FindEnsured(b: Block, owner: nat, kind: Kind) returns (found: bool)
      requires WellFormed(g)
      ensures found <==> exists c: Block :: OnChain(g, c, b) && (c, owner, kind) in ensured
    {
      var block := b;
      while true
        invariant OnChain(g, block, b)
        invariant forall c: Block :: OnChain(g, c, b) && !OnChain(g, c, block) ==> (c, owner, kind) !in ensured
        decreases if block in g.depth then g.depth[block] else 0
      {
        if (block, owner, kind) in ensured {
          return true;
        }
        if block !in g.idom {
          return false;
        }
        ChainStep(g, block, b);
        block := g.idom[block];
      }
    }

    // Calls the owner's initializer unless a call already precedes this point.
    method EnsureInitializer(b: Block, owner: nat, kind: Kind)
      requires Valid() && Complete()
      modifies this`code, this`ensured
      ensures Valid() && Complete() && Grows(old(code), code)
      ensures (owner, kind) in inits ==> EnsuredAt(g, code, Site(b, Length(b)), owner, kind)
      ensures if (owner, kind) !in inits || old(EnsuredAt(g, code, Site(b, Length(b)), owner, kind))
              then code == old(code) else Appended(old(code), b, Ensure(owner, kind), code)
    {
      hide AllCached, EnsuredAt, AccessOk, CachedEnsure;
      if (owner, kind) !in inits {
        return;
      }
      var found := FindEnsured(b, owner, kind);
      EnsuredKnown(g, code, ensured, bases, b, owner, kind);
      if found {
        return;
      }
      ghost var was := code;
      var s := Emit(b, Ensure(owner, kind));
      ensured := ensured + {(b, owner, kind)};
      NowEnsured(g, was, code, s, b, owner, kind);
      CacheGrows(was, ensured - {(b, owner, kind)}, ensured, bases, bases);
      CachedMore(was, code, ensured, bases, b, Ensure(owner, kind));
    }

    // The block up the chain that is known to compute the owner's base.
    method FindBase(b: Block, owner: nat, logical: bool) returns (found: Option<Block>)
      requires WellFormed(g)
      ensures found.Some? ==> OnChain(g, found.value, b) && (found.value, owner, logical) in bases
      ensures found.None? ==> forall c: Block :: OnChain(g, c, b) ==> (c, owner, logical) !in bases
    {
      var block := b;
      while true
        invariant OnChain(g, block, b)
        invariant forall c: Block :: OnChain(g, c, b) && !OnChain(g, c, block) ==> (c, owner, logical) !in bases
        decreases if block in g.depth then g.depth[block] else 0
      {
        if (block, owner, logical) in bases {
          return Some(block);
        }
        if block !in g.idom {
          return None;
        }
        ChainStep(g, block, b);
        block := g.idom[block];
      }
    }

    // The owner's base, reused from up the chain if it was computed there.
    method PackageBase(b: Block, owner: nat, logical: bool) returns (s: Site)
      requires Valid() && Complete()
      modifies this`code, this`bases
      ensures Valid() && Complete() && Grows(old(code), code)
      ensures Holds(code, s, Base(owner, logical)) && Precedes(g, s, Site(b, Length(b)))
      ensures if old(BasedAt(g, code, Site(b, Length(b)), owner, logical))
              then code == old(code) else Appended(old(code), b, Base(owner, logical), code)
    {
      hide AllCached, BasedAt, AccessOk, CachedEnsure;
      var found := FindBase(b, owner, logical);
      if found.Some? {
        s := bases[(found.value, owner, logical)];
        BaseFound(g, code, s, Site(b, Length(b)), owner, logical);
        return;
      }
      BaseUnknown(g, code, ensured, bases, b, owner, logical);
      ghost var was, had := code, bases;
      s := Emit(b, Base(owner, logical));
      bases := bases[(b, owner, logical) := s];
      CacheGrows(was, ensured, ensured, had, bases);
      CachedMore(was, code, ensured, bases, b, Base(owner, logical));
    }

    // The address of a local variable: initializer first, then its base or its
    // direct storage.
    method VariableAddr(b: Block, owner: nat, kind: Kind, direct: bool, logical: bool)
      returns (at: Site, base: Option<Site>)
      requires Valid() && Complete()
      modifies this
      ensures Valid() && Complete() && at.block == b && at.index + 1 == Length(b)
      ensures Holds(code, at, Access(owner, kind, base, logical && kind == Goroutine))
      ensures base.None? <==> direct && !(logical && kind == Goroutine)
    {
      hide AllCached, EnsuredAt, BasedAt;
      EnsureInitializer(b, owner, kind);
      var gls := logical && kind == Goroutine;
      base := None;
      if gls || !direct {
        var s := PackageBaseAfter(b, owner, kind, gls);
        base := Some(s);
      }
      ghost var was := code;
      at := Emit(b, Access(owner, kind, base, gls));
      CachedMore(was, code, ensured, bases, b, Access(owner, kind, base, gls));
    }

    // Computing a base keeps the initializer call before it in force.
    method PackageBaseAfter(b: Block, owner: nat, kind: Kind, logical: bool) returns (s: Site)
      requires Valid() && Complete()
      requires (owner, kind) in inits ==> EnsuredAt(g, code, Site(b, Length(b)), owner, kind)
      modifies this`code, this`bases
      ensures Valid() && Complete() && Grows(old(code), code)
      ensures Holds(code, s, Base(owner, logical)) && Precedes(g, s, Site(b, Length(b)))
      ensures (owner, kind) in inits ==> EnsuredAt(g, code, Site(b, Length(b)), owner, kind)
    {
      ghost var was, n := code, Length(b);
      s := PackageBase(b, owner, logical);
      if (owner, kind) in inits {
        ghost var e :| Holds(was, e, Ensure(owner, kind)) && Precedes(g, e, Site(b, n));
        assert Holds(code, e, Ensure(owner, kind)) && Precedes(g, e, Site(b, Length(b)));
      }
    }
  }

  ghost predicate CachedEnsure(code: Code, e: (Block, nat, Kind)) {
    exists s: Site :: s.block == e.0 && Holds(code, s, Ensure(e.1, e.2))
  }

  // Code is only ever appended to.
  ghost predicate Grows(a: Code, b: Code) {
    forall k :: k in a ==> k in b && a[k] <= b[k]
  }

  lemma {:induction false} ChainStep(g: Cfg, c: Block, b: Block)
    requires WellFormed(g) && OnChain(g, c, b) && c in g.idom
    ensures OnChain(g, g.idom[c], b)
    decreases if b in g.depth then g.depth[b] else 0
  {
    if c == b {
      assert OnChain(g, g.idom[c], g.idom[b]);
    } else {
      ChainStep(g, c, g.idom[b]);
    }
  }

  // Appending an operation that is itself covered keeps everything covered.
  lemma GrowsKeeps(g: Cfg, inits: set<(nat, Kind)>, was: Code, code: Code, b: Block, x: Op)
    requires WellFormed(g) && Grows(was, code)
    requires code == was[b := (if b in was then was[b] else []) + [x]]
    requires AccessOk(g, inits, was, Site(b, if b in was then |was[b]| else 0), x)
    requires forall c, i :: c in was && 0 <= i < |was[c]| ==> AccessOk(g, inits, was, Site(c, i), was[c][i])
    ensures forall c, i :: c in code && 0 <= i < |code[c]| ==> AccessOk(g, inits, code, Site(c, i), code[c][i])
    ensures forall e :: CachedEnsure(was, e) ==> CachedEnsure(code, e)
    ensures forall s, y :: Holds(was, s, y) ==> Holds(code, s, y)
  {
    hide AccessOk, CachedEnsure, WellFormed;
    forall c, i | c in code && 0 <= i < |code[c]| ensures AccessOk(g, inits, code, Site(c, i), code[c][i]) {
      var y := code[c][i];
      assert AccessOk(g, inits, was, Site(c, i), y);
      AccessGrows(g, inits, was, code, Site(c, i), y);
    }
    forall e | CachedEnsure(was, e) ensures CachedEnsure(code, e) {
      CachedGrows(was, code, e);
    }
  }

  lemma CachedGrows(was: Code, code: Code, e: (Block, nat, Kind))
    requires Grows(was, code) && CachedEnsure(was, e)
    ensures CachedEnsure(code, e)
  {
    var s: Site :| s.block == e.0 && Holds(was, s, Ensure(e.1, e.2));
    assert Holds(code, s, Ensure(e.1, e.2));
  }

  lemma AccessGrows(g: Cfg, inits: set<(nat, Kind)>, was: Code, code: Code, at: Site, x: Op)
    requires WellFormed(g) && Grows(was, code) && AccessOk(g, inits, was, at, x)
    ensures AccessOk(g, inits, code, at, x)
  {
    if x.Access? && (x.owner, x.kind) in inits {
      var s :| Holds(was, s, Ensure(x.owner, x.kind)) && Precedes(g, s, at);
      assert Holds(code, s, Ensure(x.owner, x.kind));
    }
  }

  // ---- runs ----

  // Operation j of the k-th block of a path runs before operation i of its last
  // block.
  ghost predicate RunsBefore(code: Code, p: seq<Block>, i: nat, k: nat, j: nat, x: Op) {
    k < |p| && p[k] in code && j < |code[p[k]]| && code[p[k]][j] == x && (k < |p| - 1 || j < i)
  }

  lemma PrecedesRunsBefore(g: Cfg, code: Code, p: seq<Block>, i: nat, s: Site, x: Op) returns (k: nat)
    requires WellFormed(g) && IsPath(g.succs, p) && Holds(code, s, x) && Precedes(g, s, Site(p[|p| - 1], i))
    ensures RunsBefore(code, p, i, k, s.index, x) && p[k] == s.block
  {
    var b := p[|p| - 1];
    if s.block == b {
      k := |p| - 1;
    } else {
      ChainDominates(g, s.block, b);
      k :| 0 <= k < |p| && p[k] == s.block;
    }
  }

  // The main result: on every path from the entry to an access, the owner's
  // initializer call has run and the base it uses has been computed, on that path.
  lemma AccessCovered(l: Lowering, p: seq<Block>, i: nat)
    requires l.Valid() && IsPath(l.g.succs, p)
    requires p[|p| - 1] in l.code && i < |l.code[p[|p| - 1]]| && l.code[p[|p| - 1]][i].Access?
    ensures var x := l.code[p[|p| - 1]][i];
            && ((x.owner, x.kind) in l.inits ==>
                  exists k, j :: RunsBefore(l.code, p, i, k, j, Ensure(x.owner, x.kind)))
            && (x.base.Some? ==>
                  exists k: nat :: RunsBefore(l.code, p, i, k, x.base.value.index, Base(x.owner, x.logical))
                    && p[k] == x.base.value.block)
  {
    var b := p[|p| - 1];
    var x := l.code[b][i];
    assert AccessOk(l.g, l.inits, l.code, Site(b, i), x);
    if (x.owner, x.kind) in l.inits {
      var s :| Holds(l.code, s, Ensure(x.owner, x.kind)) && Precedes(l.g, s, Site(b, i));
      var k := PrecedesRunsBefore(l.g, l.code, p, i, s, Ensure(x.owner, x.kind));
    }
    if x.base.Some? {
      var k := PrecedesRunsBefore(l.g, l.code, p, i, x.base.value, Base(x.owner, x.logical));
    }
  }
}
