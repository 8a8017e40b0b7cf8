// Whole-program elimination of unused package initializers: the plan is the least
// set of instructions closed under three removal rules, and skipping the planned
// instructions changes nothing the program can observe.
module UnusedInits {
  import opened Common

  type Global = nat
  type InstrId = nat
  type FnId = nat

  datatype Operand = OGlobal(g: Global) | OInstr(i: InstrId) | OConst(v: int)

  // The hash-relevant shape of a map key type, and of a key value.
  datatype KeyType = Plain | Interface | Array(elem: KeyType) | Struct(fields: seq<KeyType>)
  datatype Shape = PlainShape | Dynamic(hashable: bool) | Aggregate(parts: seq<Shape>)

  datatype Hint = NoHint | ConstHint(n: int) | ValueHint(o: Operand)

  // Direct stores to and loads from globals, map construction and writes, debug
  // references; everything else, control flow and calls included, is Other.
  datatype Instr =
    | Store(g: Global, val: Operand)
    | Load(g: Global)
    | MakeMap(hint: Hint, key: KeyType)
    | MapUpdate(m: Operand, k: Operand, v: Operand)
    | Other(ops: seq<Operand>)
    | Debug(x: Operand)

  // fn[i] is the function holding instruction i; `inits` are the synthetic package
  // initializers; initOf maps a global to the initializer of its package, if any;
  // `preserved` globals are visible to native code or kept as GC roots.
  datatype Prog = Prog(instrs: seq<Instr>, fn: seq<FnId>, inits: set<FnId>,
                       initOf: map<Global, FnId>, preserved: set<Global>)

  predicate WellFormed(p: Prog) {
    && |p.fn| == |p.instrs|
    && (forall g :: g in p.initOf ==> p.initOf[g] in p.inits)
  }

  const MAX_STATIC_ELEMENTS: int := 65536

  predicate MapKeyCannotPanic(t: KeyType) {
    match t
    case Interface => false
    case Array(e) => MapKeyCannotPanic(e)
    case Struct(fs) => forall i :: 0 <= i < |fs| ==> MapKeyCannotPanic(fs[i])
    case Plain => true
  }

  predicate DiscardableMap(hint: Hint, key: KeyType) {
    && match hint {
         case NoHint => true
         case ConstHint(n) => 0 <= n <= MAX_STATIC_ELEMENTS
         case ValueHint(_) => false
       }
    && MapKeyCannotPanic(key)
  }

  function Operands(x: Instr): (os: set<Operand>) {
    match x
    case Store(g, v) => {OGlobal(g), v}
    case Load(g) => {OGlobal(g)}
    case MakeMap(h, _) => if h.ValueHint? then {h.o} else {}
    case MapUpdate(m, k, v) => {m, k, v}
    case Other(ops) => set o | o in ops
    case Debug(x) => {x}
  }

  // Non-debug instructions that mention an operand.
  function Refs(p: Prog, o: Operand): (s: set<InstrId>) {
    set i | 0 <= i < |p.instrs| && !p.instrs[i].Debug? && o in Operands(p.instrs[i])
  }

  predicate InInit(p: Prog, i: InstrId)
    requires WellFormed(p)
  {
    i < |p.instrs| && p.fn[i] in p.inits
  }

  // ---- the three rules ----

  // A global is dead when every remaining use is a store by its own initializer.
  predicate DeadGlobal(p: Prog, removed: set<InstrId>, g: Global)
    requires WellFormed(p)
  {
    && g in p.initOf && g !in p.preserved && Refs(p, OGlobal(g)) != {}
    && forall i :: i in Refs(p, OGlobal(g)) - removed ==>
         p.instrs[i].Store? && p.instrs[i].g == g && p.fn[i] == p.initOf[g]
  }

  predicate DeadLoad(p: Prog, removed: set<InstrId>, i: InstrId)
    requires WellFormed(p)
  {
    InInit(p, i) && p.instrs[i].Load? && p.instrs[i].g !in p.preserved && Refs(p, OInstr(i)) <= removed
  }

  predicate DeadMap(p: Prog, removed: set<InstrId>, i: InstrId)
    requires WellFormed(p)
  {
    && InInit(p, i) && p.instrs[i].MakeMap? && DiscardableMap(p.instrs[i].hint, p.instrs[i].key)
    && forall j :: j in Refs(p, OInstr(i)) - removed ==>
         p.instrs[j].MapUpdate? && p.instrs[j].m == OInstr(i) && p.instrs[j].k != OInstr(i)
           && p.instrs[j].v != OInstr(i)
  }

  // A plan: removed instructions and dead globals.
  datatype Plan = Plan(removed: set<InstrId>, dead: set<Global>)

  ghost predicate ClosedGlobal(p: Prog, plan: Plan, g: Global)
    requires WellFormed(p)
  {
    DeadGlobal(p, plan.removed, g) ==> g in plan.dead && Refs(p, OGlobal(g)) <= plan.removed
  }

  ghost predicate ClosedInstr(p: Prog, removed: set<InstrId>, i: InstrId)
    requires WellFormed(p)
  {
    && (DeadLoad(p, removed, i) ==> i in removed)
    && (DeadMap(p, removed, i) ==> i in removed && Refs(p, OInstr(i)) <= removed)
  }

  ghost predicate Closed(p: Prog, plan: Plan)
    requires WellFormed(p)
  {
    && (forall g: Global :: ClosedGlobal(p, plan, g))
    && (forall i: InstrId :: ClosedInstr(p, plan.removed, i))
  }

  // Contained in every closed plan.
  ghost predicate Least(p: Prog, plan: Plan)
    requires WellFormed(p)
  {
    forall other: Plan :: Closed(p, other) ==> plan.removed <= other.removed && plan.dead <= other.dead
  }

  // Every removal has its reason.
  ghost predicate Justified(p: Prog, plan: Plan)
    requires WellFormed(p)
  {
    && (forall g :: g in plan.dead ==> g !in p.preserved && Refs(p, OGlobal(g)) <= plan.removed)
    && (forall i :: i in plan.removed ==> JustifiedInstr(p, plan, i))
  }

  ghost predicate JustifiedInstr(p: Prog, plan: Plan, i: InstrId)
    requires WellFormed(p)
  {
    InInit(p, i) && match p.instrs[i]
      case Store(g, _) => g in plan.dead
      case Load(_) => Refs(p, OInstr(i)) <= plan.removed
      case MakeMap(h, k) => DiscardableMap(h, k) && Refs(p, OInstr(i)) <= plan.removed
      case MapUpdate(m, _, _) => m.OInstr? && m.i in plan.removed && m.i < |p.instrs| && p.instrs[m.i].MakeMap?
      case Other(_) => false
      case Debug(_) => false
  }

  // The rules are monotone: with fewer remaining uses they still apply.
  lemma RulesMonotone(p: Prog, small: set<InstrId>, big: set<InstrId>)
    requires WellFormed(p) && small <= big
    ensures forall g: Global :: DeadGlobal(p, small, g) ==> DeadGlobal(p, big, g)
    ensures forall i: InstrId :: DeadLoad(p, small, i) ==> DeadLoad(p, big, i)
    ensures forall i: InstrId :: DeadMap(p, small, i) ==> DeadMap(p, big, i)
  {
  }

  // Each rule keeps a plan below every closed plan.
  lemma AddGlobal(p: Prog, plan: Plan, g: Global)
    requires WellFormed(p) && Least(p, plan) && DeadGlobal(p, plan.removed, g)
    ensures Least(p, Plan(plan.removed + Refs(p, OGlobal(g)), plan.dead + {g}))
  {
    forall other: Plan | Closed(p, other)
      ensures plan.removed + Refs(p, OGlobal(g)) <= other.removed && plan.dead + {g} <= other.dead
    {
      RulesMonotone(p, plan.removed, other.removed);
      assert ClosedGlobal(p, other, g);
    }
  }

  lemma AddInstr(p: Prog, plan: Plan, i: InstrId)
    requires WellFormed(p) && Least(p, plan) && (DeadLoad(p, plan.removed, i) || DeadMap(p, plan.removed, i))
    ensures Least(p, Plan(plan.removed + {i} + Refs(p, OInstr(i)), plan.dead))
  {
    forall other: Plan | Closed(p, other)
      ensures plan.removed + {i} + Refs(p, OInstr(i)) <= other.removed && plan.dead <= other.dead
    {
      RulesMonotone(p, plan.removed, other.removed);
      assert ClosedInstr(p, other.removed, i);
    }
  }

  lemma JustifyGlobal(p: Prog, plan: Plan, g: Global)
    requires WellFormed(p) && Justified(p, plan) && DeadGlobal(p, plan.removed, g)
    ensures Justified(p, Plan(plan.removed + Refs(p, OGlobal(g)), plan.dead + {g}))
  {
    var next := Plan(plan.removed + Refs(p, OGlobal(g)), plan.dead + {g});
    forall i | i in next.removed ensures JustifiedInstr(p, next, i) {
      if i in plan.removed {
        assert JustifiedInstr(p, plan, i);
      }
    }
  }

  lemma JustifyInstr(p: Prog, plan: Plan, i: InstrId)
    requires WellFormed(p) && Justified(p, plan) && (DeadLoad(p, plan.removed, i) || DeadMap(p, plan.removed, i))
    requires forall j :: j in Refs(p, OInstr(i)) ==> InInit(p, j)
    ensures Justified(p, Plan(plan.removed + {i} + Refs(p, OInstr(i)), plan.dead))
  {
    var next := Plan(plan.removed + {i} + Refs(p, OInstr(i)), plan.dead);
    forall j | j in next.removed ensures JustifiedInstr(p, next, j) {
      if j in plan.removed {
        assert JustifiedInstr(p, plan, j);
      }
    }
  }

  // ---- what the key test promises ----

  predicate HasShape(s: Shape, t: KeyType)
    decreases t
  {
    match t
    case Plain => s.PlainShape?
    case Interface => s.Dynamic?
    case Array(e) => s.Aggregate? && forall i :: 0 <= i < |s.parts| ==> HasShape(s.parts[i], e)
    case Struct(fs) => s.Aggregate? && |s.parts| == |fs| && forall i :: 0 <= i < |fs| ==> HasShape(s.parts[i], fs[i])
  }

  // Hashing panics on an unhashable value held in an interface.
  predicate HashPanics(s: Shape) {
    match s
    case PlainShape => false
    case Dynamic(h) => !h
    case Aggregate(ps) => exists i :: 0 <= i < |ps| && HashPanics(ps[i])
  }

  lemma {:induction false} KeyCannotPanic(s: Shape, t: KeyType)
    requires HasShape(s, t) && MapKeyCannotPanic(t)
    ensures !HashPanics(s)
    decreases t
  {
    if s.Aggregate? {
      forall i | 0 <= i < |s.parts| ensures !HashPanics(s.parts[i]) {
        KeyCannotPanic(s.parts[i], if t.Array? then t.elem else t.fields[i]);
      }
    }
  }

  // A value of the type, with one-element arrays and unhashable values in interfaces.
  function Worst(t: KeyType): (s: Shape)
    ensures HasShape(s, t)
  {
    match t
    case Plain => PlainShape
    case Interface => Dynamic(false)
    case Array(e) => Aggregate([Worst(e)])
    case Struct(fs) => Aggregate(seq(|fs|, i requires 0 <= i < |fs| => Worst(fs[i])))
  }

  lemma {:induction false} WorstPanics(t: KeyType)
    requires !MapKeyCannotPanic(t)
    ensures HashPanics(Worst(t))
  {
    if t.Array? {
      WorstPanics(t.elem);
      assert Worst(t).parts[0] == Worst(t.elem);
    } else if t.Struct? {
      var i :| 0 <= i < |t.fields| && !MapKeyCannotPanic(t.fields[i]);
      WorstPanics(t.fields[i]);
      assert Worst(t).parts[i] == Worst(t.fields[i]);
    }
  }

  ghost predicate NeverPanics(t: KeyType) {
    forall s :: HasShape(s, t) ==> !HashPanics(s)
  }

  // The key test accepts exactly the types without a value whose hashing panics.
  lemma KeyTestExact(t: KeyType)
    ensures MapKeyCannotPanic(t) <==> NeverPanics(t)
  {
    if MapKeyCannotPanic(t) {
      forall s | HasShape(s, t) ensures !HashPanics(s) {
        KeyCannotPanic(s, t);
      }
    } else {
      WorstPanics(t);
      assert HasShape(Worst(t), t);
    }
  }

  // ---- removals in an order ----

  // Instruction j mentions o, and is more than a debug reference.
  ghost predicate Mentions(p: Prog, j: InstrId, o: Operand) {
    && j < |p.instrs|
    && match p.instrs[j]
       case Store(g, v) => o == OGlobal(g) || o == v
       case Load(g) => o == OGlobal(g)
       case MakeMap(h, _) => h == ValueHint(o)
       case MapUpdate(m, k, v) => o == m || o == k || o == v
       case Other(ops) => o in ops
       case Debug(_) => false
  }

  // Globals and instructions to remove, each with its turn.
  datatype Order = Order(globals: map<Global, nat>, instrs: map<InstrId, nat>)

  ghost predicate RemovedBefore(o: Order, j: InstrId, turn: nat) {
    j in o.instrs && o.instrs[j] < turn
  }

  // By the turn of g only the stores of its own initializer are left.
  ghost predicate GlobalInTurn(p: Prog, o: Order, g: Global)
    requires g in o.globals
  {
    && g in p.initOf && g !in p.preserved && (exists j: InstrId :: Mentions(p, j, OGlobal(g)))
    && forall j: InstrId :: Mentions(p, j, OGlobal(g)) ==>
         j in o.instrs && (OwnStore(p, g, j) || o.instrs[j] < o.globals[g])
  }

  ghost predicate OwnStore(p: Prog, g: Global, j: InstrId) {
    j < |p.instrs| && j < |p.fn| && g in p.initOf && p.instrs[j].Store? && p.instrs[j].g == g && p.fn[j] == p.initOf[g]
  }

  // A write to map i that does not mention it as key or value.
  ghost predicate OwnUpdate(p: Prog, i: InstrId, j: InstrId) {
    && j < |p.instrs| && p.instrs[j].MapUpdate?
    && p.instrs[j].m == OInstr(i) && p.instrs[j].k != OInstr(i) && p.instrs[j].v != OInstr(i)
  }

  // A load goes after its uses, a map after its uses other than writes to it, a store
  // after its global and a map write after its map.
  ghost predicate InstrInTurn(p: Prog, o: Order, i: InstrId)
    requires WellFormed(p) && i in o.instrs
  {
    && i < |p.instrs|
    && match p.instrs[i]
       case Store(g, _) => OwnStore(p, g, i) && g in o.globals && o.globals[g] < o.instrs[i]
       case Load(g) =>
         && p.fn[i] in p.inits && g !in p.preserved
         && forall j: InstrId :: Mentions(p, j, OInstr(i)) ==> RemovedBefore(o, j, o.instrs[i])
       case MakeMap(hint, key) =>
         && p.fn[i] in p.inits && NeverPanics(key)
         && (hint == NoHint || (hint.ConstHint? && 0 <= hint.n <= 65536))
         && forall j: InstrId :: Mentions(p, j, OInstr(i)) ==>
              j in o.instrs && (OwnUpdate(p, i, j) || o.instrs[j] < o.instrs[i])
       case MapUpdate(m, _, _) =>
         && m.OInstr? && m.i < |p.instrs| && p.instrs[m.i].MakeMap? && OwnUpdate(p, m.i, i)
         && RemovedBefore(o, m.i, o.instrs[i])
       case Other(_) => false
       case Debug(_) => false
  }

  ghost predicate InTurn(p: Prog, o: Order)
    requires WellFormed(p)
  {
    && (forall g: Global :: g in o.globals ==> GlobalInTurn(p, o, g))
    && (forall i: InstrId :: i in o.instrs ==> InstrInTurn(p, o, i))
  }

  // Removing in turn never removes more than a plan closed under the rules.
  lemma InTurnWithin(p: Prog, o: Order, plan: Plan)
    requires WellFormed(p) && InTurn(p, o) && Closed(p, plan)
    ensures o.instrs.Keys <= plan.removed && o.globals.Keys <= plan.dead
  {
    forall i | i in o.instrs ensures i in plan.removed {
      TurnOfInstr(p, o, plan, i);
    }
    forall g | g in o.globals ensures g in plan.dead {
      TurnOfGlobal(p, o, plan, g);
    }
  }

  lemma {:induction false} TurnOfGlobal(p: Prog, o: Order, plan: Plan, g: Global)
    requires WellFormed(p) && InTurn(p, o) && Closed(p, plan) && g in o.globals
    ensures g in plan.dead && Refs(p, OGlobal(g)) <= plan.removed
    decreases o.globals[g]
  {
    hide InTurn, Closed;
    InTurnGlobal(p, o, g);
    forall j | j in Refs(p, OGlobal(g)) ensures OwnStore(p, g, j) || j in plan.removed {
      assert Mentions(p, j, OGlobal(g));
      if !OwnStore(p, g, j) {
        TurnOfInstr(p, o, plan, j);
      }
    }
    var used: InstrId :| Mentions(p, used, OGlobal(g));
    assert used in Refs(p, OGlobal(g));
    AtGlobal(p, plan, g);
  }

  lemma {:induction false} TurnOfInstr(p: Prog, o: Order, plan: Plan, i: InstrId)
    requires WellFormed(p) && InTurn(p, o) && Closed(p, plan) && i in o.instrs
    ensures i in plan.removed
    ensures i < |p.instrs| && (p.instrs[i].MakeMap? ==> Refs(p, OInstr(i)) <= plan.removed)
    decreases o.instrs[i]
  {
    hide InTurn, Closed;
    InTurnInstr(p, o, i);
    match p.instrs[i]
    case Store(g, _) =>
      TurnOfGlobal(p, o, plan, g);
      assert i in Refs(p, OGlobal(g));
    case MapUpdate(m, _, _) =>
      TurnOfInstr(p, o, plan, m.i);
      assert i in Refs(p, m);
    case Load(_) =>
      forall j | j in Refs(p, OInstr(i)) ensures j in plan.removed {
        assert Mentions(p, j, OInstr(i));
        TurnOfInstr(p, o, plan, j);
      }
      AtInstr(p, plan, i);
    case MakeMap(_, key) =>
      forall j | j in Refs(p, OInstr(i)) ensures OwnUpdate(p, i, j) || j in plan.removed {
        assert Mentions(p, j, OInstr(i));
        if !OwnUpdate(p, i, j) {
          TurnOfInstr(p, o, plan, j);
        }
      }
      KeyTestExact(key);
      AtInstr(p, plan, i);
  }

  lemma InTurnGlobal(p: Prog, o: Order, g: Global)
    requires WellFormed(p) && InTurn(p, o) && g in o.globals
    ensures GlobalInTurn(p, o, g)
  {
  }

  lemma InTurnInstr(p: Prog, o: Order, i: InstrId)
    requires WellFormed(p) && InTurn(p, o) && i in o.instrs
    ensures InstrInTurn(p, o, i)
  {
  }

  lemma AtGlobal(p: Prog, plan: Plan, g: Global)
    requires WellFormed(p) && Closed(p, plan) && DeadGlobal(p, plan.removed, g)
    ensures g in plan.dead && Refs(p, OGlobal(g)) <= plan.removed
  {
    assert ClosedGlobal(p, plan, g);
  }

  lemma AtInstr(p: Prog, plan: Plan, i: InstrId)
    requires WellFormed(p) && Closed(p, plan) && (DeadLoad(p, plan.removed, i) || DeadMap(p, plan.removed, i))
    ensures i in plan.removed && (DeadMap(p, plan.removed, i) ==> Refs(p, OInstr(i)) <= plan.removed)
  {
    assert ClosedInstr(p, plan.removed, i);
  }

  // The plan's removals can be put in an order, all of its turns below n.
  ghost predicate Orders(p: Prog, plan: Plan, o: Order, n: nat)
    requires WellFormed(p)
  {
    && InTurn(p, o) && o.globals.Keys == plan.dead && o.instrs.Keys == plan.removed
    && (forall g :: g in o.globals ==> o.globals[g] < n) && (forall i :: i in o.instrs ==> o.instrs[i] < n)
  }

  ghost predicate Ordered(p: Prog, plan: Plan)
    requires WellFormed(p)
  {
    exists o, n :: Orders(p, plan, o, n)
  }

  // New removals take the turns after those of an order.
  ghost function Then(o: Order, n: nat, g: set<Global>, first: set<InstrId>, second: set<InstrId>): (r: Order)
    ensures r.globals.Keys == o.globals.Keys + g && r.instrs.Keys == o.instrs.Keys + first + second
  {
    Order(map x | x in o.globals.Keys + g :: if x in o.globals then o.globals[x] else n,
          map i | i in o.instrs.Keys + first + second ::
            if i in o.instrs then o.instrs[i] else if i in first then n else n + 1)
  }

  lemma ThenKeeps(p: Prog, o: Order, n: nat, g: set<Global>, first: set<InstrId>, second: set<InstrId>)
    requires WellFormed(p) && InTurn(p, o)
    ensures forall x: Global :: x in o.globals ==> GlobalInTurn(p, Then(o, n, g, first, second), x)
    ensures forall i: InstrId :: i in o.instrs ==> InstrInTurn(p, Then(o, n, g, first, second), i)
  {
    var r := Then(o, n, g, first, second);
    forall x: Global | x in o.globals ensures GlobalInTurn(p, r, x) {
      assert GlobalInTurn(p, o, x);
    }
    forall i: InstrId | i in o.instrs ensures InstrInTurn(p, r, i) {
      assert InstrInTurn(p, o, i);
    }
  }

  lemma NewGlobal(p: Prog, plan: Plan, o: Order, n: nat, g: Global)
    requires WellFormed(p) && Orders(p, plan, o, n) && DeadGlobal(p, plan.removed, g) && g !in plan.dead
    ensures GlobalInTurn(p, Then(o, n, {g}, {}, Refs(p, OGlobal(g))), g)
  {
    hide InTurn;
    var stores := Refs(p, OGlobal(g));
    var used :| used in stores;
    assert Mentions(p, used, OGlobal(g));
    forall j: InstrId | Mentions(p, j, OGlobal(g)) ensures j in stores {
    }
  }

  lemma NewStore(p: Prog, plan: Plan, o: Order, n: nat, g: Global, i: InstrId)
    requires WellFormed(p) && Orders(p, plan, o, n) && DeadGlobal(p, plan.removed, g) && g !in plan.dead
    requires i in Refs(p, OGlobal(g)) && i !in plan.removed
    ensures InstrInTurn(p, Then(o, n, {g}, {}, Refs(p, OGlobal(g))), i)
  {
    hide InTurn;
  }

  lemma OrderGlobal(p: Prog, plan: Plan, g: Global)
    requires WellFormed(p) && Ordered(p, plan) && DeadGlobal(p, plan.removed, g) && g !in plan.dead
    ensures Ordered(p, Plan(plan.removed + Refs(p, OGlobal(g)), plan.dead + {g}))
  {
    hide DeadGlobal, InstrInTurn, GlobalInTurn, Refs;
    var o, n: nat :| Orders(p, plan, o, n);
    var stores := Refs(p, OGlobal(g));
    var r := Then(o, n, {g}, {}, stores);
    ThenKeeps(p, o, n, {g}, {}, stores);
    NewGlobal(p, plan, o, n, g);
    forall i: InstrId | i in r.instrs ensures InstrInTurn(p, r, i) {
      if i !in o.instrs {
        NewStore(p, plan, o, n, g, i);
      }
    }
    assert Orders(p, Plan(plan.removed + stores, plan.dead + {g}), r, n + 2);
  }

  lemma NewInstr(p: Prog, plan: Plan, o: Order, n: nat, i: InstrId)
    requires WellFormed(p) && Orders(p, plan, o, n) && i !in plan.removed
    requires DeadLoad(p, plan.removed, i) || DeadMap(p, plan.removed, i)
    ensures InstrInTurn(p, Then(o, n, {}, {i}, Refs(p, OInstr(i))), i)
  {
    hide InTurn;
    forall j: InstrId | Mentions(p, j, OInstr(i)) ensures j in Refs(p, OInstr(i)) {
    }
    if p.instrs[i].MakeMap? {
      KeyTestExact(p.instrs[i].key);
    }
  }

  lemma NewUpdate(p: Prog, plan: Plan, o: Order, n: nat, i: InstrId, j: InstrId)
    requires WellFormed(p) && Orders(p, plan, o, n) && i !in plan.removed
    requires DeadLoad(p, plan.removed, i) || DeadMap(p, plan.removed, i)
    requires j in Refs(p, OInstr(i)) && j !in plan.removed
    ensures InstrInTurn(p, Then(o, n, {}, {i}, Refs(p, OInstr(i))), j)
  {
    hide InTurn;
  }

  lemma OrderInstr(p: Prog, plan: Plan, i: InstrId)
    requires WellFormed(p) && Ordered(p, plan) && i !in plan.removed
    requires DeadLoad(p, plan.removed, i) || DeadMap(p, plan.removed, i)
    ensures Ordered(p, Plan(plan.removed + {i} + Refs(p, OInstr(i)), plan.dead))
  {
    hide DeadLoad, DeadMap, InstrInTurn, GlobalInTurn, Refs;
    var o, n: nat :| Orders(p, plan, o, n);
    var uses := Refs(p, OInstr(i));
    var r := Then(o, n, {}, {i}, uses);
    ThenKeeps(p, o, n, {}, {i}, uses);
    NewInstr(p, plan, o, n, i);
    forall j: InstrId | j in r.instrs ensures InstrInTurn(p, r, j) {
      if j !in o.instrs && j != i {
        NewUpdate(p, plan, o, n, i, j);
      }
    }
    assert Orders(p, Plan(plan.removed + {i} + uses, plan.dead), r, n + 2);
  }

  lemma RemovedClosed(p: Prog, plan: Plan, i: InstrId)
    requires WellFormed(p) && Justified(p, plan) && i in plan.removed
    ensures ClosedInstr(p, plan.removed, i)
  {
    assert JustifiedInstr(p, plan, i);
  }

  lemma UsesInInit(p: Prog, i: InstrId)
    requires WellFormed(p) && SsaUses(p) && InInit(p, i)
    ensures forall j :: j in Refs(p, OInstr(i)) ==> InInit(p, j)
  {
  }

  // Stores, map writes and debug references have no result, and values do not
  // cross functions.
  ghost predicate SsaUses(p: Prog)
    requires WellFormed(p)
  {
    forall i: InstrId, j :: j in Refs(p, OInstr(i)) ==>
      i < |p.instrs| && p.fn[j] == p.fn[i] && (p.instrs[i].Load? || p.instrs[i].MakeMap? || p.instrs[i].Other?)
  }

  // One pass over the used globals, in any order.
  method GlobalPass(p: Prog, plan: Plan) returns (next: Plan)
    requires WellFormed(p) && Least(p, plan) && Justified(p, plan) && Ordered(p, plan)
    ensures Least(p, next) && Justified(p, next) && Ordered(p, next)
    ensures plan.removed <= next.removed && plan.dead <= next.dead
    ensures next.removed == plan.removed ==> forall g: Global :: ClosedGlobal(p, next, g)
  {
    next := plan;
    var todo := p.initOf.Keys;
    while todo != {}
      invariant Least(p, next) && Justified(p, next) && Ordered(p, next)
      invariant plan.removed <= next.removed && plan.dead <= next.dead
      invariant todo <= p.initOf.Keys
      invariant next.removed == plan.removed ==> forall g: Global :: g !in todo ==> ClosedGlobal(p, next, g)
      decreases |todo|
    {
      var g :| g in todo;
      todo := todo - {g};
      if g !in next.dead && DeadGlobal(p, next.removed, g) {
        AddGlobal(p, next, g);
        JustifyGlobal(p, next, g);
        OrderGlobal(p, next, g);
        next := Plan(next.removed + Refs(p, OGlobal(g)), next.dead + {g});
      }
    }
  }

  // One pass over the initializers' instructions, in program order.
  method InstrPass(p: Prog, plan: Plan) returns (next: Plan)
    requires WellFormed(p) && SsaUses(p) && Least(p, plan) && Justified(p, plan) && Ordered(p, plan)
    ensures Least(p, next) && Justified(p, next) && Ordered(p, next)
    ensures plan.removed <= next.removed && plan.dead == next.dead
    ensures next.removed == plan.removed ==> forall i: InstrId :: ClosedInstr(p, next.removed, i)
  {
    hide Least, Justified, Ordered, SsaUses, Refs;
    next := plan;
    var i := 0;
    while i < |p.instrs|
      invariant 0 <= i <= |p.instrs|
      invariant Least(p, next) && Justified(p, next) && Ordered(p, next)
      invariant plan.removed <= next.removed && plan.dead == next.dead
      invariant next.removed == plan.removed ==> forall j: InstrId :: j < i ==> ClosedInstr(p, next.removed, j)
    {
      if i in next.removed {
        RemovedClosed(p, next, i);
      } else if DeadLoad(p, next.removed, i) || DeadMap(p, next.removed, i) {
        UsesInInit(p, i);
        AddInstr(p, next, i);
        JustifyInstr(p, next, i);
        OrderInstr(p, next, i);
        next := Plan(next.removed + {i} + Refs(p, OInstr(i)), next.dead);
      }
      i := i + 1;
    }
  }

  // The fixed point. Whatever order the passes visit globals in, the plan is the
  // least closed one; its removals can be put in an order, and any removals that can be
  // are among them.
  method FindUnusedGlobalInits(p: Prog) returns (plan: Plan)
    requires WellFormed(p) && SsaUses(p)
    ensures Closed(p, plan) && Least(p, plan) && Justified(p, plan)
    ensures Ordered(p, plan)
    ensures forall o :: InTurn(p, o) ==> o.instrs.Keys <= plan.removed && o.globals.Keys <= plan.dead
  {
    plan := Plan({}, {});
    ghost var all := Ids(|p.instrs|);
    assert Orders(p, plan, Order(map[], map[]), 0);
    var changed := true;
    while changed
      invariant Least(p, plan) && Justified(p, plan) && Ordered(p, plan)
      invariant plan.removed <= all
      invariant !changed ==> Closed(p, plan)
      decreases all - plan.removed, changed
    {
      var before := plan.removed;
      plan := GlobalPass(p, plan);
      plan := InstrPass(p, plan);
      forall i | i in plan.removed ensures i in all {
        assert JustifiedInstr(p, plan, i);
      }
      changed := plan.removed != before;
    }
    forall o | InTurn(p, o) ensures o.instrs.Keys <= plan.removed && o.globals.Keys <= plan.dead {
      InTurnWithin(p, o, plan);
    }
  }

  // Any two runs of the fixed point give the same plan, hence the same cache key.
  lemma PlanUnique(p: Prog, a: Plan, b: Plan)
    requires WellFormed(p) && Closed(p, a) && Least(p, a) && Closed(p, b) && Least(p, b)
    ensures a == b
  {
    assert a.removed <= b.removed && b.removed <= a.removed && a.dead <= b.dead && b.dead <= a.dead;
  }
}
