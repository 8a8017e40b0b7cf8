// The interprocedural borrow check for named result slots, with its memo of parameters
// and its budget: it accepts exactly the slots whose uses are all borrowed, whose
// parameters do not reach themselves and whose uses are few enough.
module ResultBorrow {
  import opened ResultEscape

  // ---- uses ----

  // The k-th operand of instruction i.
  datatype Use = Use(i: nat, k: nat)

  function Ops(x: Instr): (s: seq<Val>)
    ensures forall v :: v in s <==> v in Operands(x)
  {
    match x
    case DebugRef(x) => [x]
    case Store(a, v) => [a, v]
    case Load(x) => [x]
    case UnOp(x) => [x]
    case Compare(x, y) => [x, y]
    case BinOp(x, y) => [x, y]
    case FieldAddr(x) => [x]
    case IndexAddr(x, i) => [x, i]
    case ChangeType(x) => [x]
    case Convert(x, _) => [x]
    case Phi(xs) => xs
    case Call(_, args) => args
    case Alloc => []
    case Return(xs) => xs
    case Other(xs) => xs
  }

  predicate Holds(p: Prog, u: Use, v: Val) {
    u.i < |p.instrs| && u.k < |Ops(p.instrs[u.i])| && Ops(p.instrs[u.i])[u.k] == v
  }

  function UsesIn(i: nat, ops: seq<Val>, v: Val, n: nat): (r: seq<Use>)
    requires n <= |ops|
  {
    if n == 0 then [] else UsesIn(i, ops, v, n - 1) + if ops[n - 1] == v then [Use(i, n - 1)] else []
  }

  // The uses of a value in the first n instructions: an instruction that mentions it
  // twice is listed twice.
  function Referrers(p: Prog, v: Val, n: nat): (r: seq<Use>)
    requires n <= |p.instrs|
  {
    if n == 0 then []
    else Referrers(p, v, n - 1) + UsesIn(n - 1, Ops(p.instrs[n - 1]), v, |Ops(p.instrs[n - 1])|)
  }

  ghost predicate Distinct(r: seq<Use>) {
    forall a, b :: 0 <= a < b < |r| ==> r[a] != r[b]
  }

  lemma DistinctSum(r: seq<Use>, s: seq<Use>)
    requires Distinct(r) && Distinct(s) && forall u :: u in r ==> u !in s
    ensures Distinct(r + s)
  {
    forall a, b | 0 <= a < b < |r + s| ensures (r + s)[a] != (r + s)[b] {
      if a < |r| <= b {
        assert r[a] in r && s[b - |r|] in s;
      }
    }
  }

  lemma {:induction false} UsesInAre(i: nat, ops: seq<Val>, v: Val, n: nat)
    requires n <= |ops|
    ensures forall u :: u in UsesIn(i, ops, v, n) <==> u.i == i && u.k < n && ops[u.k] == v
    ensures Distinct(UsesIn(i, ops, v, n))
  {
    if n > 0 {
      UsesInAre(i, ops, v, n - 1);
      DistinctSum(UsesIn(i, ops, v, n - 1), if ops[n - 1] == v then [Use(i, n - 1)] else []);
    }
  }

  // All uses, each of them once.
  lemma {:induction false} ReferrersAre(p: Prog, v: Val, n: nat)
    requires n <= |p.instrs|
    ensures forall u :: u in Referrers(p, v, n) <==> u.i < n && Holds(p, u, v)
    ensures Distinct(Referrers(p, v, n))
  {
    if n > 0 {
      ReferrersAre(p, v, n - 1);
      var ops := Ops(p.instrs[n - 1]);
      UsesInAre(n - 1, ops, v, |ops|);
      DistinctSum(Referrers(p, v, n - 1), UsesIn(n - 1, ops, v, |ops|));
    }
  }

  // ---- what a value leads to ----

  // Instruction i makes w a view of the memory v points into.
  ghost predicate Views(p: Prog, i: nat, v: Val, w: Val) {
    && i < |p.instrs| && w == Res(i)
    && match p.instrs[i]
       case FieldAddr(x) => x == v
       case IndexAddr(x, _) => x == v
       case ChangeType(x) => x == v
       case Convert(x, toPointer) => x == v && toPointer
       case Phi(xs) => v in xs
       case _ => false
  }

  // Instruction i calls a function with v as argument for its parameter w.
  ghost predicate Passes(p: Prog, i: nat, v: Val, w: Val) {
    && i < |p.instrs| && p.instrs[i].Call? && w.Param? && w.fn == p.instrs[i].callee
    && w.k < |p.instrs[i].args| && p.instrs[i].args[w.k] == v
  }

  ghost predicate Leads(p: Prog, i: nat, v: Val, w: Val) {
    Views(p, i, v, w) || Passes(p, i, v, w)
  }

  // The views of c inside its function.
  least predicate Within(p: Prog, c: Val, v: Val) {
    v == c || exists i: nat, u :: Within(p, c, u) && Views(p, i, u, v)
  }

  // The values that c leads to, calls included.
  least predicate Reaches(p: Prog, c: Val, v: Val) {
    v == c || exists i: nat, u :: Reaches(p, c, u) && Leads(p, i, u, v)
  }

  ghost predicate Recursive(p: Prog, q: Val) {
    exists i: nat, u :: Reaches(p, q, u) && Passes(p, i, u, q)
  }

  least lemma WithinReaches(p: Prog, c: Val, v: Val)
    requires Within(p, c, v)
    ensures Reaches(p, c, v)
  {
    if v != c {
      var i: nat, u :| Within#[_k - 1](p, c, u) && Views(p, i, u, v);
      WithinReaches(p, c, u);
      assert Leads(p, i, u, v);
    }
  }

  ghost predicate LedTo(p: Prog, c: Val, v: Val) {
    Reaches(p, c, v)
  }

  least lemma ReachesTrans(p: Prog, a: Val, c: Val, v: Val)
    requires Reaches(p, c, v) && LedTo(p, a, c)
    ensures LedTo(p, a, v)
  {
    if v != c {
      var i: nat, u :| Reaches#[_k - 1](p, c, u) && Leads(p, i, u, v);
      ReachesTrans(p, a, c, u);
      assert Leads(p, i, u, v);
    }
  }

  // A parameter is no view of anything else.
  lemma ParamWithin(p: Prog, c: Val, q: Val)
    requires Within(p, c, q) && q.Param?
    ensures q == c
  {
  }

  // ---- the decision, stated on its own ----

  ghost function Reached(p: Prog, root: Val): (b: iset<Val>) {
    iset v | Reaches(p, root, v)
  }

  // The slot and every parameter it reaches is looked at once, and each use found there
  // is paid for once.
  datatype Charge = Charge(ctx: Val, use: Use)

  ghost predicate Due(p: Prog, root: Val, c: Charge) {
    && (c.ctx == root || (c.ctx.Param? && Reaches(p, root, c.ctx)))
    && exists v :: Within(p, c.ctx, v) && Holds(p, c.use, v)
  }

  ghost predicate AllDue(p: Prog, root: Val, s: set<Charge>) {
    forall c :: c in s ==> Due(p, root, c)
  }

  ghost predicate Affordable(p: Prog, root: Val) {
    forall s :: AllDue(p, root, s) ==> |s| <= 1024
  }

  ghost predicate Harmless(p: Prog, pkg: nat, root: Val) {
    && BorrowSet(p, pkg, Reached(p, root))
    && (forall q: Val :: q.Param? && Reaches(p, root, q) ==> !Recursive(p, q))
    && Affordable(p, root)
  }

  // ---- what the check has found out ----

  // Instruction i may use v if what it makes of v is borrowed too.
  ghost predicate Allowed(p: Prog, pkg: nat, i: nat, v: Val) {
    i < |p.instrs| && exists b :: Keeps(p, pkg, b, i, v)
  }

  // The memo; the uses paid for; and the parameters found borrowed, by the time at which
  // they were.
  datatype Log = Log(params: map<Val, bool>, spent: set<Charge>, order: map<Val, nat>, clock: nat)

  // Everything c leads to inside its function is borrowed and paid for, and the parameters
  // it is passed to were found borrowed before time n.
  ghost predicate Settled(p: Prog, pkg: nat, c: Val, g: Log, n: nat) {
    forall v, u :: Within(p, c, v) && Holds(p, u, v) ==> SettledUse(p, pkg, c, v, u, g, n)
  }

  ghost predicate SettledUse(p: Prog, pkg: nat, c: Val, v: Val, u: Use, g: Log, n: nat)
    requires Holds(p, u, v)
  {
    && Charge(c, u) in g.spent && Allowed(p, pkg, u.i, v)
    && forall w :: Passes(p, u.i, v, w) ==> w in g.order && g.order[w] < n
  }

  ghost predicate Sound(p: Prog, pkg: nat, root: Val, g: Log) {
    && root.Res? && AllDue(p, root, g.spent)
    && (forall c :: c in g.spent ==> c.ctx == root || c.ctx in g.params)
    && (forall q :: q in g.params ==> q.Param? && Reaches(p, root, q))
    && (forall q :: q in g.order <==> q in g.params && g.params[q])
    && (forall q :: q in g.order ==> g.order[q] < g.clock && Settled(p, pkg, q, g, g.order[q]))
  }

  // The check is at work on c, whose values `seen` it has come to: c's uses paid for so
  // far are theirs, and the parameters without an answer yet all lead to c.
  ghost predicate AtWork(p: Prog, root: Val, g: Log, c: Val, seen: set<Val>) {
    && (c == root || (c in g.params && !g.params[c]))
    && (forall v :: v in seen ==> Within(p, c, v))
    && (forall u :: Charge(c, u) in g.spent ==> exists v :: v in seen && Holds(p, u, v))
    && (forall q :: q in g.params && !g.params[q] ==> Reaches(p, q, c))
  }

  // Use u of v has been looked at.
  ghost predicate HandledUse(p: Prog, pkg: nat, c: Val, v: Val, u: Use, seen: set<Val>, g: Log)
    requires Holds(p, u, v)
  {
    && Charge(c, u) in g.spent && Allowed(p, pkg, u.i, v)
    && (forall w :: Views(p, u.i, v, w) ==> w in seen)
    && (forall w :: Passes(p, u.i, v, w) ==> w in g.order)
  }

  ghost predicate Handled(p: Prog, pkg: nat, c: Val, v: Val, seen: set<Val>, g: Log) {
    forall u :: Holds(p, u, v) ==> HandledUse(p, pkg, c, v, u, seen, g)
  }

  // The log grew by looking at the values of c that are in now and not in was, and at
  // parameters not looked at before, all of them found borrowed.
  ghost predicate Grew(p: Prog, root: Val, f: Log, g: Log, c: Val, was: set<Val>, now: set<Val>) {
    && was <= now && f.spent <= g.spent && f.clock <= g.clock
    && (forall q :: q in f.order ==> q in g.order && g.order[q] == f.order[q])
    && (forall q :: q in f.params ==> q in g.params && g.params[q] == f.params[q])
    && (forall q :: q in g.params && q !in f.params ==> g.params[q])
    && (forall x :: x in g.spent && x !in f.spent ==>
          (x.ctx != root && x.ctx !in f.params)
            || (x.ctx == c && exists v :: v in now && v !in was && Holds(p, x.use, v)))
  }

  lemma GrewTrans(p: Prog, root: Val, f: Log, g: Log, h: Log, c: Val, a: set<Val>, b: set<Val>, d: set<Val>)
    requires Grew(p, root, f, g, c, a, b) && Grew(p, root, g, h, c, b, d)
    ensures Grew(p, root, f, h, c, a, d)
  {
  }

  lemma HandledMore(p: Prog, pkg: nat, root: Val, f: Log, g: Log, c: Val, v: Val, was: set<Val>, now: set<Val>)
    requires Grew(p, root, f, g, c, was, now)
    ensures Handled(p, pkg, c, v, was, f) ==> Handled(p, pkg, c, v, now, g)
    ensures forall u :: Holds(p, u, v) && HandledUse(p, pkg, c, v, u, was, f) ==> HandledUse(p, pkg, c, v, u, now, g)
  {
  }

  lemma SettledMore(p: Prog, pkg: nat, c: Val, f: Log, g: Log, n: nat)
    requires Settled(p, pkg, c, f, n) && f.spent <= g.spent
    requires forall q :: q in f.order ==> q in g.order && g.order[q] == f.order[q]
    ensures Settled(p, pkg, c, g, n)
  {
    forall v, u | Within(p, c, v) && Holds(p, u, v) ensures SettledUse(p, pkg, c, v, u, g, n) {
      assert SettledUse(p, pkg, c, v, u, f, n);
    }
  }

  // The check has come to all views of c.
  least lemma SeenAll(p: Prog, pkg: nat, c: Val, seen: set<Val>, g: Log, v: Val)
    requires Within(p, c, v) && c in seen && forall w :: w in seen ==> Handled(p, pkg, c, w, seen, g)
    ensures v in seen
  {
    if v != c {
      var i: nat, u :| Within#[_k - 1](p, c, u) && Views(p, i, u, v);
      SeenAll(p, pkg, c, seen, g, u);
      var k := ViewUse(p, i, u, v);
      assert HandledUse(p, pkg, c, u, Use(i, k), seen, g);
    }
  }

  lemma ViewUse(p: Prog, i: nat, v: Val, w: Val) returns (k: nat)
    requires Views(p, i, v, w)
    ensures Holds(p, Use(i, k), v)
  {
    assert v in Ops(p.instrs[i]);
    k :| k < |Ops(p.instrs[i])| && Ops(p.instrs[i])[k] == v;
  }

  lemma Settles(p: Prog, pkg: nat, root: Val, c: Val, seen: set<Val>, g: Log)
    requires Sound(p, pkg, root, g) && c in seen && forall w :: w in seen ==> Handled(p, pkg, c, w, seen, g)
    ensures Settled(p, pkg, c, g, g.clock)
  {
    forall v, u | Within(p, c, v) && Holds(p, u, v) ensures SettledUse(p, pkg, c, v, u, g, g.clock) {
      SeenAll(p, pkg, c, seen, g, v);
      assert HandledUse(p, pkg, c, v, u, seen, g);
    }
  }

  // ---- a finished check ----

  // Every parameter has an answer, and the slot and all of them are settled.
  ghost predicate Finished(p: Prog, pkg: nat, root: Val, g: Log) {
    Sound(p, pkg, root, g) && Settled(p, pkg, root, g, g.clock) && (forall q :: q in g.params ==> g.params[q])
  }

  // c has been settled, not after time n.
  ghost predicate Looked(g: Log, root: Val, c: Val, n: nat) {
    c == root || (c in g.order && g.order[c] <= n)
  }

  // The time at which c was settled.
  ghost function Time(g: Log, root: Val, c: Val): (n: nat)
    requires Looked(g, root, c, g.clock)
  {
    if c == root then g.clock else g.order[c]
  }

  lemma LookedSettled(p: Prog, pkg: nat, root: Val, g: Log, c: Val, v: Val, u: Use)
    requires Finished(p, pkg, root, g) && Looked(g, root, c, g.clock) && Within(p, c, v) && Holds(p, u, v)
    ensures SettledUse(p, pkg, c, v, u, g, Time(g, root, c))
  {
  }

  // v is a view of d, which was settled when c was or before.
  ghost predicate Covers(p: Prog, root: Val, g: Log, c: Val, d: Val, v: Val)
    requires Looked(g, root, c, g.clock)
  {
    Looked(g, root, d, Time(g, root, c)) && Within(p, d, v) && (d == root ==> c == root)
  }

  lemma CoveredStep(p: Prog, pkg: nat, root: Val, g: Log, c: Val, d: Val, u: Val, i: nat, v: Val) returns (e: Val)
    requires Finished(p, pkg, root, g) && Looked(g, root, c, g.clock) && Covers(p, root, g, c, d, u)
             && Leads(p, i, u, v)
    ensures Covers(p, root, g, c, e, v)
  {
    if Views(p, i, u, v) {
      e := d;
    } else {
      e := v;
      assert Holds(p, Use(i, v.k), u);
      assert Looked(g, root, d, g.clock);
      LookedSettled(p, pkg, root, g, d, u, Use(i, v.k));
      assert Within(p, v, v);
    }
  }

  // Whatever the slot or a parameter leads to belongs to one settled before it.
  least lemma Covered(p: Prog, pkg: nat, root: Val, g: Log, c: Val, v: Val)
    requires Reaches(p, c, v) && Finished(p, pkg, root, g) && Looked(g, root, c, g.clock)
    ensures exists d :: Covers(p, root, g, c, d, v)
  {
    hide Finished;
    if v == c {
      assert Within(p, c, c);
      assert Covers(p, root, g, c, c, v);
    } else {
      var i: nat, u :| Reaches#[_k - 1](p, c, u) && Leads(p, i, u, v);
      Covered(p, pkg, root, g, c, u);
      var d :| Covers(p, root, g, c, d, u);
      var e := CoveredStep(p, pkg, root, g, c, d, u, i, v);
    }
  }

  // The parameters reached are settled.
  lemma ParamLooked(p: Prog, pkg: nat, root: Val, g: Log, q: Val)
    requires Finished(p, pkg, root, g) && q.Param? && Reaches(p, root, q)
    ensures q in g.order
  {
    Covered(p, pkg, root, g, root, q);
    var d :| Covers(p, root, g, root, d, q);
    ParamWithin(p, d, q);
  }

  lemma SoundOrder(p: Prog, pkg: nat, root: Val, g: Log)
    requires Finished(p, pkg, root, g)
    ensures root.Res? && forall q :: q in g.order ==> g.order[q] < g.clock
  {
  }

  lemma NotRecursive(p: Prog, pkg: nat, root: Val, g: Log, q: Val)
    requires Finished(p, pkg, root, g) && q.Param? && Reaches(p, root, q)
    ensures !Recursive(p, q)
  {
    hide Finished;
    ParamLooked(p, pkg, root, g, q);
    SoundOrder(p, pkg, root, g);
    forall i: nat, u | Reaches(p, q, u) ensures !Passes(p, i, u, q) {
      Covered(p, pkg, root, g, q, u);
      var d :| Covers(p, root, g, q, d, u);
      if Passes(p, i, u, q) {
        LookedSettled(p, pkg, root, g, d, u, Use(i, q.k));
      }
    }
  }

  lemma DueSpent(p: Prog, pkg: nat, root: Val, g: Log, c: Charge)
    requires Finished(p, pkg, root, g) && Due(p, root, c)
    ensures c in g.spent
  {
    if c.ctx != root {
      ParamLooked(p, pkg, root, g, c.ctx);
    }
    var v :| Within(p, c.ctx, v) && Holds(p, c.use, v);
    LookedSettled(p, pkg, root, g, c.ctx, v, c.use);
  }

  lemma Subset<T>(a: set<T>, b: set<T>)
    requires a <= b
    ensures |a| <= |b|
  {
    assert b == a + (b - a);
  }

  lemma KeepsReached(p: Prog, pkg: nat, root: Val, i: nat, v: Val)
    requires Reaches(p, root, v) && Refers(p, i, v) && Allowed(p, pkg, i, v)
    ensures Keeps(p, pkg, Reached(p, root), i, v)
  {
    var b :| Keeps(p, pkg, b, i, v);
    forall w | Leads(p, i, v, w) ensures Reaches(p, root, w) {
    }
    assert Views(p, i, v, Res(i)) ==> Leads(p, i, v, Res(i));
    var x := p.instrs[i];
    if x.Call? {
      forall k | 0 <= k < |x.args| && x.args[k] == v ensures Param(x.callee, k) in Reached(p, root) {
        assert Leads(p, i, v, Param(x.callee, k));
      }
    }
  }

  lemma FinishedHarmless(p: Prog, pkg: nat, root: Val, g: Log)
    requires Finished(p, pkg, root, g) && |g.spent| <= 1024
    ensures Harmless(p, pkg, root)
  {
    hide Finished, Recursive, Due;
    forall v, i: nat | Reaches(p, root, v) && Refers(p, i, v) ensures Keeps(p, pkg, Reached(p, root), i, v) {
      ReachedAllowed(p, pkg, root, g, v, i);
      KeepsReached(p, pkg, root, i, v);
    }
    forall q: Val | q.Param? && Reaches(p, root, q) ensures !Recursive(p, q) {
      NotRecursive(p, pkg, root, g, q);
    }
    forall s | AllDue(p, root, s) ensures |s| <= 1024 {
      forall c | c in s ensures c in g.spent {
        DueSpent(p, pkg, root, g, c);
      }
      Subset(s, g.spent);
    }
  }

  lemma ReachedAllowed(p: Prog, pkg: nat, root: Val, g: Log, v: Val, i: nat)
    requires Finished(p, pkg, root, g) && Reaches(p, root, v) && Refers(p, i, v)
    ensures Allowed(p, pkg, i, v)
  {
    Covered(p, pkg, root, g, root, v);
    var d :| Covers(p, root, g, root, d, v);
    assert v in Ops(p.instrs[i]);
    var k: nat :| k < |Ops(p.instrs[i])| && Ops(p.instrs[i])[k] == v;
    LookedSettled(p, pkg, root, g, d, v, Use(i, k));
  }

  // ---- why the check gives up ----

  lemma ValueReached(p: Prog, pkg: nat, root: Val, g: Log, c: Val, seen: set<Val>, v: Val)
    requires Sound(p, pkg, root, g) && AtWork(p, root, g, c, seen) && Within(p, c, v)
    ensures Reaches(p, root, v)
  {
    WithinReaches(p, c, v);
    assert Reaches(p, root, c);
    ReachesTrans(p, root, c, v);
  }

  lemma Forbidden(p: Prog, pkg: nat, root: Val, i: nat, v: Val)
    requires Reaches(p, root, v) && Refers(p, i, v) && !Allowed(p, pkg, i, v)
    ensures !Harmless(p, pkg, root)
  {
    assert v in Reached(p, root);
    assert BorrowSet(p, pkg, Reached(p, root)) ==> KeptAt(p, pkg, Reached(p, root), v);
  }

  lemma TooMany(p: Prog, pkg: nat, root: Val, g: Log)
    requires Sound(p, pkg, root, g) && |g.spent| > 1024
    ensures !Harmless(p, pkg, root)
  {
  }

  // A parameter still being checked leads to itself.
  lemma StillOpen(p: Prog, pkg: nat, root: Val, g: Log, c: Val, seen: set<Val>, i: nat, v: Val, q: Val)
    requires Sound(p, pkg, root, g) && AtWork(p, root, g, c, seen) && Within(p, c, v) && Passes(p, i, v, q)
    requires q in g.params && !g.params[q]
    ensures !Harmless(p, pkg, root)
  {
    WithinReaches(p, c, v);
    ReachesTrans(p, q, c, v);
    assert Recursive(p, q);
  }

  // ---- one value's uses ----

  // The uses of value before the j-th have been looked at, and the others not paid for.
  ghost predicate Halfway(p: Prog, pkg: nat, root: Val, f: Log, g: Log, c: Val, was: set<Val>, now: set<Val>,
                          value: Val,
                          refs: seq<Use>, j: nat) {
    && Sound(p, pkg, root, g) && AtWork(p, root, g, c, now) && Grew(p, root, f, g, c, was, now)
    && value in now && value !in was && j <= |refs|
    && (forall k :: 0 <= k < |refs| ==> Holds(p, refs[k], value))
    && Distinct(refs)
    && (forall v :: v in now && v !in was && v != value ==> Handled(p, pkg, c, v, now, g))
    && (forall k :: 0 <= k < j ==> HandledUse(p, pkg, c, value, refs[k], now, g))
    && (forall k :: j <= k < |refs| ==> Charge(c, refs[k]) !in g.spent)
  }

  lemma Begin(p: Prog, pkg: nat, root: Val, f: Log, c: Val, seen: set<Val>, value: Val)
    requires Sound(p, pkg, root, f) && AtWork(p, root, f, c, seen) && Within(p, c, value) && value !in seen
    ensures Halfway(p, pkg, root, f, f, c, seen, seen + {value}, value, Referrers(p, value, |p.instrs|), 0)
  {
    hide Sound, Settled;
    var refs := Referrers(p, value, |p.instrs|);
    ReferrersAre(p, value, |p.instrs|);
    forall k | 0 <= k < |refs| ensures Holds(p, refs[k], value) {
      assert refs[k] in refs;
    }
  }

  function Paid(g: Log, x: Charge): (h: Log) {
    g.(spent := g.spent + {x})
  }

  lemma PaidSound(p: Prog, pkg: nat, root: Val, g: Log, c: Val, now: set<Val>, value: Val, u: Use)
    requires Sound(p, pkg, root, g) && AtWork(p, root, g, c, now) && value in now && Holds(p, u, value)
    ensures Sound(p, pkg, root, Paid(g, Charge(c, u))) && AtWork(p, root, Paid(g, Charge(c, u)), c, now)
  {
    var h := Paid(g, Charge(c, u));
    assert Due(p, root, Charge(c, u));
    forall q | q in g.order ensures Settled(p, pkg, q, h, h.order[q]) {
      SettledMore(p, pkg, q, g, h, g.order[q]);
    }
  }

  // The j-th use has been paid for and looked at.
  lemma Advance(p: Prog, pkg: nat, root: Val, f: Log, g: Log, h: Log, c: Val, was: set<Val>, now: set<Val>,
                next: set<Val>, value: Val, refs: seq<Use>, j: nat)
    requires Halfway(p, pkg, root, f, g, c, was, now, value, refs, j) && j < |refs|
    requires Sound(p, pkg, root, h) && AtWork(p, root, h, c, next)
    requires Grew(p, root, Paid(g, Charge(c, refs[j])), h, c, now, next)
    requires HandledUse(p, pkg, c, value, refs[j], next, h)
    requires forall v :: v in next && v !in now ==> Handled(p, pkg, c, v, next, h)
    ensures Halfway(p, pkg, root, f, h, c, was, next, value, refs, j + 1)
  {
    hide Sound, Handled, HandledUse;
    var x := Charge(c, refs[j]);
    PaidGrew(p, root, f, g, h, c, was, now, next, value, refs[j]);
    forall v | v in next && v !in was && v != value ensures Handled(p, pkg, c, v, next, h) {
      if v in now {
        PaidMore(p, pkg, root, g, h, c, v, now, next, x);
      }
    }
    forall k | 0 <= k < j ensures HandledUse(p, pkg, c, value, refs[k], next, h) {
      PaidMore(p, pkg, root, g, h, c, value, now, next, x);
    }
  }

  lemma PaidGrew(p: Prog, root: Val, f: Log, g: Log, h: Log, c: Val, was: set<Val>, now: set<Val>, next: set<Val>,
                 value: Val, u: Use)
    requires Grew(p, root, f, g, c, was, now) && Grew(p, root, Paid(g, Charge(c, u)), h, c, now, next)
    requires value in now && value !in was && Holds(p, u, value)
    ensures Grew(p, root, f, h, c, was, next)
  {
    assert Grew(p, root, f, Paid(g, Charge(c, u)), c, was, now);
    GrewTrans(p, root, f, Paid(g, Charge(c, u)), h, c, was, now, next);
  }

  lemma PaidMore(p: Prog, pkg: nat, root: Val, g: Log, h: Log, c: Val, v: Val, now: set<Val>, next: set<Val>, x: Charge)
    requires Grew(p, root, Paid(g, x), h, c, now, next)
    ensures Handled(p, pkg, c, v, now, g) ==> Handled(p, pkg, c, v, next, h)
    ensures forall u :: Holds(p, u, v) && HandledUse(p, pkg, c, v, u, now, g) ==> HandledUse(p, pkg, c, v, u, next, h)
  {
    HandledMore(p, pkg, root, Paid(g, x), h, c, v, now, next);
  }

  lemma End(p: Prog, pkg: nat, root: Val, f: Log, g: Log, c: Val, was: set<Val>, now: set<Val>, value: Val)
    requires var refs := Referrers(p, value, |p.instrs|);
             Halfway(p, pkg, root, f, g, c, was, now, value, refs, |refs|)
    ensures forall v :: v in now && v !in was ==> Handled(p, pkg, c, v, now, g)
  {
    ReferrersAre(p, value, |p.instrs|);
    forall u | Holds(p, u, value) ensures HandledUse(p, pkg, c, value, u, now, g) {
      assert u in Referrers(p, value, |p.instrs|);
    }
  }

  // ---- one use ----

  // What looking at use u of value, in the course of c, has to bring about.
  ghost predicate Looking(p: Prog, pkg: nat, root: Val, f: Log, g: Log, c: Val, was: set<Val>, now: set<Val>) {
    && Sound(p, pkg, root, g) && AtWork(p, root, g, c, now) && Grew(p, root, f, g, c, was, now)
    && forall v :: v in now && v !in was ==> Handled(p, pkg, c, v, now, g)
  }

  lemma NothingNew(p: Prog, pkg: nat, root: Val, g: Log, c: Val, seen: set<Val>)
    requires Sound(p, pkg, root, g) && AtWork(p, root, g, c, seen)
    ensures Looking(p, pkg, root, g, g, c, seen, seen)
  {
  }

  // A use that makes nothing of the value.
  lemma PlainUse(p: Prog, pkg: nat, c: Val, v: Val, u: Use, seen: set<Val>, g: Log)
    requires Holds(p, u, v) && Charge(c, u) in g.spent && Keeps(p, pkg, iset{}, u.i, v) && !p.instrs[u.i].Call?
    ensures HandledUse(p, pkg, c, v, u, seen, g)
  {
  }

  // A use that makes a view of the value.
  lemma ViewHandled(p: Prog, pkg: nat, c: Val, v: Val, u: Use, seen: set<Val>, g: Log)
    requires Holds(p, u, v) && Charge(c, u) in g.spent && Views(p, u.i, v, Res(u.i)) && Res(u.i) in seen
    ensures HandledUse(p, pkg, c, v, u, seen, g)
  {
    assert Keeps(p, pkg, iset{Res(u.i)}, u.i, v);
  }

  lemma ViewWithin(p: Prog, c: Val, v: Val, i: nat)
    requires Within(p, c, v) && Views(p, i, v, Res(i))
    ensures Within(p, c, Res(i))
  {
  }

  // The parameters of f that receive v in the first n arguments are borrowed.
  ghost predicate Received(p: Prog, f: nat, args: seq<Val>, v: Val, n: nat, g: Log) {
    forall k :: 0 <= k < n && k < |args| && args[k] == v ==>
      f < |p.fns| && k < p.fns[f].params && Param(f, k) in g.order
  }

  lemma CallHandled(p: Prog, pkg: nat, c: Val, v: Val, u: Use, seen: set<Val>, g: Log)
    requires Holds(p, u, v) && Charge(c, u) in g.spent && p.instrs[u.i].Call?
    requires Inspectable(p, pkg, p.instrs[u.i].callee)
    requires Received(p, p.instrs[u.i].callee, p.instrs[u.i].args, v, |p.instrs[u.i].args|, g)
    ensures HandledUse(p, pkg, c, v, u, seen, g)
  {
    var b := iset q | q in g.order;
    assert Keeps(p, pkg, b, u.i, v);
  }

  // A new parameter q is taken up.
  function Opened(g: Log, q: Val): (h: Log) {
    g.(params := g.params[q := false])
  }

  lemma OpenedSound(p: Prog, pkg: nat, root: Val, g: Log, c: Val, seen: set<Val>, i: nat, v: Val, q: Val)
    requires Sound(p, pkg, root, g) && AtWork(p, root, g, c, seen) && Within(p, c, v) && Passes(p, i, v, q)
    requires q !in g.params
    ensures Sound(p, pkg, root, Opened(g, q)) && AtWork(p, root, Opened(g, q), q, {}) && Within(p, q, q)
  {
    hide AllDue, Settled, Reaches;
    var h := Opened(g, q);
    PassReaches(p, pkg, root, g, c, seen, i, v, q);
    forall x | x in g.order ensures Settled(p, pkg, x, h, h.order[x]) {
      SettledMore(p, pkg, x, g, h, g.order[x]);
    }
  }

  lemma PassReaches(p: Prog, pkg: nat, root: Val, g: Log, c: Val, seen: set<Val>, i: nat, v: Val, q: Val)
    requires Sound(p, pkg, root, g) && AtWork(p, root, g, c, seen) && Within(p, c, v) && Passes(p, i, v, q)
    ensures Reaches(p, root, q) && Reaches(p, q, q) && Within(p, q, q)
    ensures forall x :: x in g.params && !g.params[x] ==> Reaches(p, x, q)
  {
    hide Sound;
    ValueReached(p, pkg, root, g, c, seen, v);
    assert Leads(p, i, v, q);
    WithinReaches(p, c, v);
    forall x | x in g.params && !g.params[x] ensures Reaches(p, x, q) {
      ReachesTrans(p, x, c, v);
    }
  }

  // The parameter q is found borrowed.
  function Closed(g: Log, q: Val): (h: Log) {
    Log(g.params[q := true], g.spent, g.order[q := g.clock], g.clock + 1)
  }

  lemma ClosedSound(p: Prog, pkg: nat, root: Val, f: Log, g: Log, c: Val, was: set<Val>, q: Val, seen: set<Val>)
    requires Sound(p, pkg, root, f) && AtWork(p, root, f, c, was) && q !in f.params
    requires Looking(p, pkg, root, Opened(f, q), g, q, {}, seen) && q in seen
    ensures Looking(p, pkg, root, f, Closed(g, q), c, was, was)
  {
    hide Handled;
    var h := Closed(g, q);
    Settles(p, pkg, root, q, seen, g);
    ClosedSettled(p, pkg, root, g, q);
    ClosedGrew(p, root, f, g, c, was, q, seen);
  }

  lemma ClosedSettled(p: Prog, pkg: nat, root: Val, g: Log, q: Val)
    requires Sound(p, pkg, root, g) && q in g.params && !g.params[q] && Settled(p, pkg, q, g, g.clock)
    ensures Sound(p, pkg, root, Closed(g, q))
  {
    hide AllDue, Settled, Reaches;
    var h := Closed(g, q);
    forall x | x in h.order ensures Settled(p, pkg, x, h, h.order[x]) {
      SettledMore(p, pkg, x, g, h, h.order[x]);
    }
  }

  lemma ClosedGrew(p: Prog, root: Val, f: Log, g: Log, c: Val, was: set<Val>, q: Val, seen: set<Val>)
    requires AtWork(p, root, f, c, was) && q !in f.params && q.Param? && root.Res?
    requires forall x :: x in f.order ==> x in f.params
    requires Grew(p, root, Opened(f, q), g, q, {}, seen)
    ensures Grew(p, root, f, Closed(g, q), c, was, was) && AtWork(p, root, Closed(g, q), c, was)
  {
  }

  lemma HalfwayFacts(p: Prog, pkg: nat, root: Val, f: Log, g: Log, c: Val, was: set<Val>, now: set<Val>, value: Val,
                     refs: seq<Use>, j: nat)
    requires Halfway(p, pkg, root, f, g, c, was, now, value, refs, j) && j < |refs|
    ensures Sound(p, pkg, root, g) && AtWork(p, root, g, c, now) && value in now
    ensures Holds(p, refs[j], value) && Charge(c, refs[j]) !in g.spent
  {
  }

  lemma HalfwayLooking(p: Prog, pkg: nat, root: Val, f: Log, g: Log, c: Val, was: set<Val>, now: set<Val>, value: Val,
                       refs: seq<Use>)
    requires Halfway(p, pkg, root, f, g, c, was, now, value, refs, |refs|)
    requires forall v :: v in now && v !in was ==> Handled(p, pkg, c, v, now, g)
    ensures Looking(p, pkg, root, f, g, c, was, now) && value in now
  {
  }

  lemma LookingSpent(p: Prog, pkg: nat, root: Val, f: Log, g: Log, c: Val, was: set<Val>, now: set<Val>)
    requires Looking(p, pkg, root, f, g, c, was, now)
    ensures f.spent <= g.spent
  {
  }

  lemma LookingWorks(p: Prog, pkg: nat, root: Val, f: Log, g: Log, c: Val, was: set<Val>, now: set<Val>)
    requires Looking(p, pkg, root, f, g, c, was, now)
    ensures Sound(p, pkg, root, g) && AtWork(p, root, g, c, now)
  {
  }

  lemma LookingTrans(p: Prog, pkg: nat, root: Val, f: Log, g: Log, h: Log, c: Val, seen: set<Val>)
    requires Looking(p, pkg, root, f, g, c, seen, seen) && Looking(p, pkg, root, g, h, c, seen, seen)
    ensures Looking(p, pkg, root, f, h, c, seen, seen)
  {
    GrewTrans(p, root, f, g, h, c, seen, seen, seen);
  }

  lemma ReceivedMore(p: Prog, pkg: nat, root: Val, g: Log, h: Log, c: Val, seen: set<Val>, f: nat, args: seq<Val>,
                     v: Val, k: nat)
    requires Looking(p, pkg, root, g, h, c, seen, seen) && Received(p, f, args, v, k, g) && f < |p.fns|
    requires k < p.fns[f].params && Param(f, k) in h.order
    ensures Received(p, f, args, v, k + 1, h)
  {
    hide Sound, AtWork, Handled;
  }

  lemma NotAllowed(p: Prog, pkg: nat, u: Use, v: Val)
    requires Holds(p, u, v)
    requires match p.instrs[u.i]
             case Store(a, x) => x == v || a != v
             case IndexAddr(x, _) => x != v
             case Convert(_, toPointer) => !toPointer
             case x => x.UnOp? || x.BinOp? || x.Alloc? || x.Return? || x.Other?
    ensures !Allowed(p, pkg, u.i, v) && Refers(p, u.i, v)
  {
  }

  lemma BadCall(p: Prog, pkg: nat, u: Use, v: Val)
    requires Holds(p, u, v) && p.instrs[u.i].Call? && !Inspectable(p, pkg, p.instrs[u.i].callee)
    ensures !Allowed(p, pkg, u.i, v) && Refers(p, u.i, v)
  {
  }

  lemma BadArgument(p: Prog, pkg: nat, u: Use, v: Val, k: nat)
    requires Holds(p, u, v) && p.instrs[u.i].Call? && Inspectable(p, pkg, p.instrs[u.i].callee)
    requires k < |p.instrs[u.i].args| && p.instrs[u.i].args[k] == v && k >= p.fns[p.instrs[u.i].callee].params
    ensures !Allowed(p, pkg, u.i, v) && Refers(p, u.i, v)
  {
  }

  // ---- the check itself ----

  class ResultEscapeAnalysis {
    const p: Prog
    const pkg: nat
    ghost const root: Val
    var params: map<Val, bool>
    var budget: int
    ghost var log: Log

    constructor (p: Prog, pkg: nat, ghost root: Val)
      requires root.Res?
      ensures this.p == p && this.pkg == pkg && this.root == root && Valid() && log == Log(map[], {}, map[], 0)
    {
      this.p, this.pkg, this.root := p, pkg, root;
      params, budget, log := map[], 1024, Log(map[], {}, map[], 0);
    }

    ghost predicate Valid()
      reads this
    {
      Sound(p, pkg, root, log) && params == log.params && 0 <= budget == 1024 - |log.spent|
    }

    // `seen` holds the values already being checked in the current function, whose slot or
    // parameter is c.
    method Borrowed(value: Val, seen: set<Val>, ghost c: Val) returns (ok: bool, seen': set<Val>)
      requires Valid() && AtWork(p, root, log, c, seen) && Within(p, c, value)
      modifies this
      ensures budget <= old(budget)
      ensures !ok ==> !Harmless(p, pkg, root)
      ensures ok ==> Valid() && Looking(p, pkg, root, old(log), log, c, seen, seen') && value in seen'
      decreases budget, 1
    {
      hide Sound, AtWork, Grew, Halfway, Handled, HandledUse, Harmless, Within;
      if value in seen {
        NothingNew(p, pkg, root, log, c, seen);
        return true, seen;
      }
      seen' := seen + {value};
      var refs := Referrers(p, value, |p.instrs|);
      Begin(p, pkg, root, log, c, seen, value);
      var j := 0;
      while j < |refs|
        invariant 0 <= j <= |refs| && Valid() && budget <= old(budget)
        invariant Halfway(p, pkg, root, old(log), log, c, seen, seen', value, refs, j)
      {
        ghost var before, had := log, seen';
        HalfwayFacts(p, pkg, root, old(log), log, c, seen, seen', value, refs, j);
        PaidSound(p, pkg, root, log, c, seen', value, refs[j]);
        log := Paid(log, Charge(c, refs[j]));
        budget := budget - 1;
        if budget < 0 {
          TooMany(p, pkg, root, log);
          return false, seen';
        }
        ok, seen' := BorrowedUse(refs[j], value, seen', c);
        if !ok {
          return;
        }
        Advance(p, pkg, root, old(log), before, log, c, seen, had, seen', value, refs, j);
        j := j + 1;
      }
      End(p, pkg, root, old(log), log, c, seen, seen', value);
      HalfwayLooking(p, pkg, root, old(log), log, c, seen, seen', value, refs);
      ok := true;
    }

    // One use of a borrowed value.
    method BorrowedUse(u: Use, value: Val, seen: set<Val>, ghost c: Val) returns (ok: bool, seen': set<Val>)
      requires Valid() && AtWork(p, root, log, c, seen) && Within(p, c, value)
      requires Holds(p, u, value) && Charge(c, u) in log.spent
      modifies this
      ensures budget <= old(budget)
      ensures !ok ==> !Harmless(p, pkg, root)
      ensures ok ==> Valid() && Looking(p, pkg, root, old(log), log, c, seen, seen')
      ensures ok ==> HandledUse(p, pkg, c, value, u, seen', log)
      decreases budget, 4
    {
      hide Sound, AtWork, Grew, Looking, HandledUse, Harmless, Within, Allowed;
      seen' := seen;
      var plain, view := false, false;
      match p.instrs[u.i] {
        case DebugRef(_) => plain := true;
        case Store(a, x) => plain := x != value && a == value;
        case Load(_) => plain := true;
        case Compare(_, _) => plain := true;
        case FieldAddr(_) => view := true;
        case IndexAddr(x, _) => view := x == value;
        case ChangeType(_) => view := true;
        case Convert(_, toPointer) => view := toPointer;
        case Phi(_) => view := true;
        case Call(f, args) =>
          ok := BorrowedCall(u, f, args, value, c, seen);
          return;
        case _ =>
      }
      if plain {
        NothingNew(p, pkg, root, log, c, seen);
        PlainUse(p, pkg, c, value, u, seen, log);
        ok := true;
      } else if view {
        ViewWithin(p, c, value, u.i);
        ok, seen' := Borrowed(Res(u.i), seen, c);
        if ok {
          LookingSpent(p, pkg, root, old(log), log, c, seen, seen');
          ViewHandled(p, pkg, c, value, u, seen', log);
        }
      } else {
        ValueReached(p, pkg, root, log, c, seen, value);
        NotAllowed(p, pkg, u, value);
        Forbidden(p, pkg, root, u.i, value);
        ok := false;
      }
    }

    // A synchronous call: every parameter that receives the value must borrow it.
    method BorrowedCall(u: Use, f: nat, args: seq<Val>, value: Val, ghost c: Val, ghost seen: set<Val>)
      returns (ok: bool)
      requires Valid() && AtWork(p, root, log, c, seen) && Within(p, c, value)
      requires Holds(p, u, value) && Charge(c, u) in log.spent && p.instrs[u.i] == Call(f, args)
      modifies this
      ensures budget <= old(budget)
      ensures !ok ==> !Harmless(p, pkg, root)
      ensures ok ==> Valid() && Looking(p, pkg, root, old(log), log, c, seen, seen)
      ensures ok ==> HandledUse(p, pkg, c, value, u, seen, log)
      decreases budget, 3
    {
      hide Sound, AtWork, Grew, Looking, HandledUse, Harmless, Within, Allowed;
      ValueReached(p, pkg, root, log, c, seen, value);
      if !Inspectable(p, pkg, f) {
        BadCall(p, pkg, u, value);
        Forbidden(p, pkg, root, u.i, value);
        return false;
      }
      NothingNew(p, pkg, root, log, c, seen);
      var k := 0;
      while k < |args|
        invariant 0 <= k <= |args| && Valid() && budget <= old(budget)
        invariant Looking(p, pkg, root, old(log), log, c, seen, seen)
        invariant Received(p, f, args, value, k, log)
      {
        if args[k] == value {
          if k >= p.fns[f].params {
            BadArgument(p, pkg, u, value, k);
            Forbidden(p, pkg, root, u.i, value);
            return false;
          }
          ghost var before := log;
          LookingWorks(p, pkg, root, old(log), log, c, seen, seen);
          ok := BorrowedParam(Param(f, k), u.i, value, c, seen);
          if !ok {
            return;
          }
          LookingTrans(p, pkg, root, old(log), before, log, c, seen);
          ReceivedMore(p, pkg, root, before, log, c, seen, f, args, value, k);
        }
        k := k + 1;
      }
      LookingSpent(p, pkg, root, old(log), log, c, seen, seen);
      CallHandled(p, pkg, c, value, u, seen, log);
      ok := true;
    }

    // A parameter, through the memo; a recursive call finds false.
    method BorrowedParam(q: Val, ghost i: nat, ghost value: Val, ghost c: Val, ghost seen: set<Val>)
      returns (ok: bool)
      requires Valid() && AtWork(p, root, log, c, seen) && Within(p, c, value) && Passes(p, i, value, q)
      modifies this
      ensures budget <= old(budget)
      ensures !ok ==> !Harmless(p, pkg, root)
      ensures ok ==> Valid() && Looking(p, pkg, root, old(log), log, c, seen, seen) && q in log.order
      decreases budget, 2
    {
      hide AtWork, Grew, Looking, Harmless, Within, Settled, AllDue, Reaches;
      if q in params {
        if params[q] {
          NothingNew(p, pkg, root, log, c, seen);
        } else {
          StillOpen(p, pkg, root, log, c, seen, i, value, q);
        }
        return params[q];
      }
      OpenedSound(p, pkg, root, log, c, seen, i, value, q);
      params := params[q := false];
      log := Opened(log, q);
      var inner: set<Val> := {};
      ok, inner := Borrowed(q, inner, q);
      if ok {
        ClosedSound(p, pkg, root, old(log), log, c, seen, q, inner);
        log := Closed(log, q);
        LookingWorks(p, pkg, root, old(log), log, c, seen, seen);
      }
      params := params[q := ok];
    }
  }

  // ---- the decision ----

  // A named result slot, and the guards that keep it on the heap whatever its uses are.
  datatype Slot = Slot(alloc: nat, heap: bool, recovers: bool, inEntry: bool, namedResult: bool, zeroSized: bool,
                       rooted: bool)

  method CanStackAllocateResult(p: Prog, pkg: nat, s: Slot) returns (ok: bool)
    ensures ok <==> s.heap && !s.recovers && s.inEntry && s.namedResult && !s.zeroSized && !s.rooted
                    && Harmless(p, pkg, Res(s.alloc))
    ensures ok ==> FitsStack(p, Res(s.alloc))
  {
    if !s.heap || s.recovers || !s.inEntry || !s.namedResult || s.zeroSized || s.rooted {
      return false;
    }
    ghost var root := Res(s.alloc);
    var a := new ResultEscapeAnalysis(p, pkg, root);
    var seen: set<Val> := {};
    assert Within(p, root, root);
    ok, seen := a.Borrowed(Res(s.alloc), seen, root);
    if ok {
      Settles(p, pkg, root, root, seen, a.log);
      FinishedHarmless(p, pkg, root, a.log);
      assert root in Reached(p, root);
      BorrowedFitsStack(p, pkg, Reached(p, root), root);
    }
  }

  // ---- slots that are accepted ----

  least lemma ReachedInside(p: Prog, pkg: nat, b: iset<Val>, root: Val, v: Val)
    requires Reaches(p, root, v) && BorrowSet(p, pkg, b) && root in b
    ensures v in b
  {
    if v != root {
      var i: nat, u :| Reaches#[_k - 1](p, root, u) && Leads(p, i, u, v);
      ReachedInside(p, pkg, b, root, u);
      assert KeptAt(p, pkg, b, u) && Refers(p, i, u);
    }
  }

  // Any set of borrowed values around the slot will do: the values reached are the least.
  lemma ReachedLeast(p: Prog, pkg: nat, b: iset<Val>, root: Val)
    requires BorrowSet(p, pkg, b) && root in b
    ensures Reached(p, root) <= b && BorrowSet(p, pkg, Reached(p, root))
  {
    forall v | Reaches(p, root, v) ensures v in b && KeptAt(p, pkg, Reached(p, root), v) {
      ReachedInside(p, pkg, b, root, v);
      assert KeptAt(p, pkg, b, v);
      forall i: nat | Refers(p, i, v) ensures Keeps(p, pkg, Reached(p, root), i, v) {
        assert Keeps(p, pkg, b, i, v);
        KeepsReached(p, pkg, root, i, v);
      }
    }
  }

  // Without calls on borrowed values, at most 1024 uses of them are enough.
  lemma FewUsesHarmless(p: Prog, pkg: nat, b: iset<Val>, root: Val)
    requires BorrowSet(p, pkg, b) && root in b && root.Res?
    requires forall i: nat, v, q :: v in b ==> !Passes(p, i, v, q)
    requires forall us: set<Use> :: (forall u :: u in us ==> exists v :: v in b && Holds(p, u, v)) ==> |us| <= 1024
    ensures Harmless(p, pkg, root)
  {
    ReachedLeast(p, pkg, b, root);
    forall q: Val | q.Param? ensures !Reaches(p, root, q) {
      NoParamReached(p, b, root, q);
    }
    forall s: set<Charge> | AllDue(p, root, s) ensures |s| <= 1024 {
      var us := set c | c in s :: c.use;
      forall c | c in s ensures c.ctx == root && exists v :: v in b && Holds(p, c.use, v) {
        assert Due(p, root, c);
        var v :| Within(p, root, v) && Holds(p, c.use, v);
        WithinReaches(p, root, v);
      }
      SameSize(s, us, root);
    }
  }

  lemma NoParamReached(p: Prog, b: iset<Val>, root: Val, q: Val)
    requires Reached(p, root) <= b && root.Res? && q.Param?
    requires forall i: nat, v, q :: v in b ==> !Passes(p, i, v, q)
    ensures !Reaches(p, root, q)
  {
    forall i: nat, u | Reaches(p, root, u) ensures !Leads(p, i, u, q) {
      assert u in Reached(p, root);
    }
  }

  lemma {:induction false} SameSize(s: set<Charge>, us: set<Use>, root: Val)
    requires us == (set c | c in s :: c.use) && forall c :: c in s ==> c.ctx == root
    ensures |s| == |us|
    decreases s
  {
    if s != {} {
      var c :| c in s;
      var rest := s - {c};
      assert us == (set d | d in rest :: d.use) + {c.use};
      SameSize(rest, set d | d in rest :: d.use, root);
    }
  }
}
