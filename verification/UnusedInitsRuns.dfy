// Skipping the planned instructions preserves every run of the initializers: the
// values of all surviving instructions, the sequence of calls, receives and panics
// with their operands, control flow, and the contents of every global and map the
// program can still reach.
module UnusedInitsRuns {
  import opened UnusedInits

  // A map object is named by its MakeMap instruction and the step that made it.
  datatype Ref = Ref(site: InstrId, step: nat)

  // A value: a map, or anything else with the maps and globals that pointers inside it
  // lead to without passing through a map or a global, and its hash-relevant shape.
  datatype Val = MapVal(r: Ref) | Opaque(data: int, refs: set<Ref>, addrs: set<Global>, shape: Shape)

  // `world` is everything outside globals and maps, the heap and return addresses
  // included.
  datatype Mem = Mem(globals: map<Global, Val>, maps: map<Ref, map<Val, Val>>, world: Val)

  // Where an uninterpreted instruction goes on: in its own activation, in a new one, or
  // after the call that made the present one.
  datatype Ctl = Goto(pc: nat) | Enter(pc: nat) | Leave | Halt
  datatype Out = Out(result: Val, mem: Mem, ctl: Ctl)
  datatype Event = Event(i: InstrId, vals: seq<Val>)

  // A waiting activation: its call, and the values it has computed.
  datatype Frame = Frame(call: InstrId, env: map<InstrId, Val>)

  datatype State = State(
    pc: nat, halted: bool, env: map<InstrId, Val>, stack: seq<Frame>, mem: Mem, trace: seq<Event>, step: nat)

  // What the instructions left uninterpreted do, and which map hints panic.
  datatype Outside = Outside(effect: (InstrId, seq<Val>, Mem) -> Out, hintPanics: int -> bool, addr: Global -> int)

  function RefsOf(v: Val): (s: set<Ref>) {
    if v.MapVal? then {v.r} else v.refs
  }

  function AddrsOf(v: Val): (s: set<Global>) {
    if v.MapVal? then {} else v.addrs
  }

  function Number(n: int): (v: Val) {
    Opaque(n, {}, {}, PlainShape)
  }

  function ValOf(o: Outside, env: map<InstrId, Val>, x: Operand): (v: Val) {
    match x
    case OGlobal(g) => Opaque(o.addr(g), {}, {g}, PlainShape)
    case OInstr(i) => if i in env then env[i] else Number(0)
    case OConst(c) => Number(c)
  }

  function Vals(o: Outside, env: map<InstrId, Val>, xs: seq<Operand>): (vs: seq<Val>)
    ensures |vs| == |xs| && forall k :: 0 <= k < |xs| ==> vs[k] == ValOf(o, env, xs[k])
  {
    seq(|xs|, k requires 0 <= k < |xs| => ValOf(o, env, xs[k]))
  }

  function DataOf(v: Val): (d: int) {
    if v.Opaque? then v.data else 0
  }

  predicate MakePanics(o: Outside, env: map<InstrId, Val>, h: Hint) {
    match h
    case NoHint => false
    case ConstHint(n) => o.hintPanics(n)
    case ValueHint(x) => o.hintPanics(DataOf(ValOf(o, env, x)))
  }

  predicate UpdatePanics(m: Val, k: Val) {
    !m.MapVal? || k.MapVal? || HashPanics(k.shape)
  }

  // Instruction i has had its effect and gave v. Each activation has its own values.
  function Go(s: State, i: InstrId, v: Val, ctl: Ctl): (s': State) {
    match ctl
    case Goto(pc) => s.(env := s.env[i := v], pc := pc)
    case Enter(pc) => s.(env := map[], stack := s.stack + [Frame(i, s.env)], pc := pc)
    case Leave =>
      if s.stack == [] then s.(halted := true)
      else
        var n := |s.stack| - 1;
        var f := s.stack[n];
        s.(env := f.env[f.call := v], stack := s.stack[..n], pc := f.call + 1)
    case Halt => s.(env := s.env[i := v], halted := true)
  }

  // One step. Instructions in `skip` are passed over.
  function Step(p: Prog, o: Outside, skip: set<InstrId>, s: State): (s': State) {
    if s.halted || s.pc >= |p.instrs| then s
    else
      var i := s.pc;
      var next := s.(pc := i + 1, step := s.step + 1);
      if i in skip then next else
      match p.instrs[i]
      case Store(g, x) => next.(mem := s.mem.(globals := s.mem.globals[g := ValOf(o, s.env, x)]))
      case Load(g) =>
        next.(env := s.env[i := if g in s.mem.globals then s.mem.globals[g] else Number(0)])
      case MakeMap(h, _) =>
        if MakePanics(o, s.env, h) then next.(halted := true, trace := s.trace + [Event(i, [])])
        else
          var r := Ref(i, s.step);
          next.(env := s.env[i := MapVal(r)], mem := s.mem.(maps := s.mem.maps[r := map[]]))
      case MapUpdate(m, k, v) =>
        var mv, kv, vv := ValOf(o, s.env, m), ValOf(o, s.env, k), ValOf(o, s.env, v);
        if UpdatePanics(mv, kv) then next.(halted := true, trace := s.trace + [Event(i, [mv, kv, vv])])
        else
          var old_ := if mv.r in s.mem.maps then s.mem.maps[mv.r] else map[];
          next.(mem := s.mem.(maps := s.mem.maps[mv.r := old_[kv := vv]]))
      case Other(ops) =>
        var vs := Vals(o, s.env, ops);
        var out := o.effect(i, vs, s.mem);
        Go(next.(mem := out.mem, trace := s.trace + [Event(i, vs)]), i, out.result, out.ctl)
      case Debug(_) => next
  }

  function Steps(p: Prog, o: Outside, skip: set<InstrId>, s: State, n: nat): (s': State) {
    if n == 0 then s else Step(p, o, skip, Steps(p, o, skip, s, n - 1))
  }

  // ---- what surviving code cannot reach ----

  // v leads to no map made by a removed instruction and to no dead global.
  predicate CleanVal(plan: Plan, v: Val) {
    AddrsOf(v) !! plan.dead && forall r :: r in RefsOf(v) ==> r.site !in plan.removed
  }

  // Nothing reachable from live globals, live maps and the rest of the world is a
  // removed map or a dead global.
  ghost predicate CleanMem(plan: Plan, m: Mem) {
    && CleanVal(plan, m.world)
    && (forall g :: g in m.globals && g !in plan.dead ==> CleanVal(plan, m.globals[g]))
    && (forall r, k :: r in m.maps && r.site !in plan.removed && k in m.maps[r] ==>
          CleanVal(plan, k) && CleanVal(plan, m.maps[r][k]))
  }

  // Before the initializers run no map has been made, and only addresses of globals
  // exposed to native code are known.
  ghost predicate Initial(p: Prog, m: Mem) {
    m.maps == map[] && Untouched(p, m.world) && forall g :: g in m.globals ==> Untouched(p, m.globals[g])
  }

  predicate Untouched(p: Prog, v: Val) {
    RefsOf(v) == {} && AddrsOf(v) <= p.preserved
  }

  // The two memories agree on live globals, live maps and the rest of the world.
  ghost predicate SameLive(plan: Plan, a: Mem, b: Mem) {
    && (forall g :: g !in plan.dead ==>
          (g in a.globals <==> g in b.globals) && (g in a.globals ==> a.globals[g] == b.globals[g]))
    && (forall r: Ref :: r.site !in plan.removed ==>
          (r in a.maps <==> r in b.maps) && (r in a.maps ==> a.maps[r] == b.maps[r]))
    && a.world == b.world
  }

  // Memory safety of uninterpreted instructions: they neither see nor produce what
  // nothing leads to, be it an operand, a live global, a live map, the rest of the world
  // or a global exposed to native code, whatever set of hidden globals and map sites one
  // considers. They may follow any pointer they get.
  ghost predicate MemorySafe(p: Prog, o: Outside) {
    forall plan: Plan, i: InstrId, vs: seq<Val>, a: Mem, b: Mem ::
      (plan.dead !! p.preserved && (forall k :: 0 <= k < |vs| ==> CleanVal(plan, vs[k]))
       && CleanMem(plan, a) && SameLive(plan, a, b)) ==> SameOutcome(plan, o.effect(i, vs, a), o.effect(i, vs, b))
  }

  ghost predicate SameOutcome(plan: Plan, x: Out, y: Out) {
    x.result == y.result && x.ctl == y.ctl && SameLive(plan, x.mem, y.mem)
    && CleanVal(plan, x.result) && CleanMem(plan, x.mem)
  }

  // What Go SSA promises of the instruction about to run: its operands have been
  // computed in its own activation, and a key written to a map has the map's key type.
  ghost predicate SsaSound(p: Prog, o: Outside, s: State) {
    !s.halted && s.pc < |p.instrs| ==>
      && (forall x :: x in Operands(p.instrs[s.pc]) && x.OInstr? ==> x.i in s.env)
      && (p.instrs[s.pc].MapUpdate? && p.instrs[s.pc].m.OInstr? && p.instrs[s.pc].m.i < |p.instrs|
          && p.instrs[p.instrs[s.pc].m.i].MakeMap? ==>
            var k := ValOf(o, s.env, p.instrs[s.pc].k);
            k.Opaque? && HasShape(k.shape, p.instrs[p.instrs[s.pc].m.i].key))
  }

  // The lockstep relation: a is the full run, b the run with the plan skipped.
  ghost predicate Related(p: Prog, plan: Plan, a: State, b: State) {
    && a.pc == b.pc && a.halted == b.halted && a.trace == b.trace && a.step == b.step
    && SameEnv(plan, a.env, b.env)
    && SameLive(plan, a.mem, b.mem) && CleanMem(plan, a.mem)
    && CleanEnv(plan, a.env) && MapEnv(p, a.env)
    && |a.stack| == |b.stack| && (forall k :: 0 <= k < |a.stack| ==> SameFrame(p, plan, a.stack[k], b.stack[k]))
  }

  ghost predicate SameFrame(p: Prog, plan: Plan, a: Frame, b: Frame) {
    && a.call == b.call < |p.instrs| && p.instrs[a.call].Other?
    && SameEnv(plan, a.env, b.env) && CleanEnv(plan, a.env) && MapEnv(p, a.env)
  }

  ghost predicate CleanEnv(plan: Plan, env: map<InstrId, Val>) {
    forall i :: i in env && i !in plan.removed ==> CleanVal(plan, env[i])
  }

  // A MakeMap's value is a map it made.
  ghost predicate MapEnv(p: Prog, env: map<InstrId, Val>) {
    forall i :: i in env && i < |p.instrs| && p.instrs[i].MakeMap? ==> env[i].MapVal? && env[i].r.site == i
  }

  ghost predicate SameEnv(plan: Plan, a: map<InstrId, Val>, b: map<InstrId, Val>) {
    forall i: InstrId :: i !in plan.removed ==> (i in a <==> i in b) && (i in a ==> a[i] == b[i])
  }

  lemma RemovedRefs(p: Prog, plan: Plan, i: InstrId, j: InstrId)
    requires WellFormed(p) && SsaUses(p) && Justified(p, plan)
    requires i in plan.removed && j in Refs(p, OInstr(i))
    ensures j in plan.removed
  {
    assert JustifiedInstr(p, plan, i);
    assert p.fn[j] == p.fn[i];
  }

  // A surviving instruction mentions no removed value and no dead global.
  lemma SurvivorOperands(p: Prog, plan: Plan, i: InstrId, x: Operand)
    requires WellFormed(p) && SsaUses(p) && Justified(p, plan)
    requires i < |p.instrs| && i !in plan.removed && !p.instrs[i].Debug? && x in Operands(p.instrs[i])
    ensures x.OInstr? ==> x.i !in plan.removed
    ensures x.OGlobal? ==> x.g !in plan.dead
  {
    if x.OInstr? {
      assert x == OInstr(x.i) && i in Refs(p, x);
      if x.i in plan.removed {
        RemovedRefs(p, plan, x.i, i);
      }
    }
    if x.OGlobal? {
      assert x == OGlobal(x.g) && i in Refs(p, x);
    }
  }

  // Such an operand has the same, clean value in both runs.
  lemma SameOperand(p: Prog, o: Outside, plan: Plan, a: State, b: State, x: Operand)
    requires WellFormed(p) && SsaUses(p) && Justified(p, plan) && Related(p, plan, a, b)
    requires a.pc < |p.instrs| && a.pc !in plan.removed && !p.instrs[a.pc].Debug? && x in Operands(p.instrs[a.pc])
    ensures ValOf(o, a.env, x) == ValOf(o, b.env, x) && CleanVal(plan, ValOf(o, a.env, x))
  {
    SurvivorOperands(p, plan, a.pc, x);
  }

  // ---- what removed instructions do is out of reach ----

  lemma DeadWrite(plan: Plan, a: Mem, b: Mem, g: Global, v: Val)
    requires SameLive(plan, a, b) && CleanMem(plan, a) && g in plan.dead
    ensures SameLive(plan, a.(globals := a.globals[g := v]), b) && CleanMem(plan, a.(globals := a.globals[g := v]))
  {
    hide CleanVal;
  }

  lemma DeadMap(plan: Plan, a: Mem, b: Mem, r: Ref, entries: map<Val, Val>)
    requires SameLive(plan, a, b) && CleanMem(plan, a) && r.site in plan.removed
    ensures SameLive(plan, a.(maps := a.maps[r := entries]), b) && CleanMem(plan, a.(maps := a.maps[r := entries]))
  {
    hide CleanVal;
  }

  lemma DeadValue(p: Prog, plan: Plan, a: map<InstrId, Val>, b: map<InstrId, Val>, i: InstrId, v: Val)
    requires SameEnv(plan, a, b) && CleanEnv(plan, a) && MapEnv(p, a) && i in plan.removed
    requires i < |p.instrs| && (p.instrs[i].MakeMap? ==> v.MapVal? && v.r.site == i)
    ensures SameEnv(plan, a[i := v], b) && CleanEnv(plan, a[i := v]) && MapEnv(p, a[i := v])
  {
    hide CleanVal;
  }

  // The map that a removed write goes to was made by a removed instruction, and its key can
  // be hashed.
  lemma RemovedUpdate(p: Prog, o: Outside, plan: Plan, s: State)
    requires WellFormed(p) && Justified(p, plan) && MapEnv(p, s.env) && SsaSound(p, o, s)
    requires !s.halted && s.pc < |p.instrs| && s.pc in plan.removed && p.instrs[s.pc].MapUpdate?
    ensures var m, k := ValOf(o, s.env, p.instrs[s.pc].m), ValOf(o, s.env, p.instrs[s.pc].k);
            !UpdatePanics(m, k) && m.r.site in plan.removed
  {
    hide Refs;
    var i := s.pc;
    assert JustifiedInstr(p, plan, i);
    var m := p.instrs[i].m;
    assert m in Operands(p.instrs[i]) && JustifiedInstr(p, plan, m.i);
    KeyCannotPanic(ValOf(o, s.env, p.instrs[i].k).shape, p.instrs[m.i].key);
  }

  // A removed instruction only touches what surviving code cannot reach, and never
  // panics.
  lemma StepRemoved(p: Prog, o: Outside, plan: Plan, a: State, b: State)
    requires WellFormed(p) && SsaUses(p) && Justified(p, plan) && Related(p, plan, a, b) && SsaSound(p, o, a)
    requires forall n :: 0 <= n <= MAX_STATIC_ELEMENTS ==> !o.hintPanics(n)
    requires !a.halted && a.pc < |p.instrs| && a.pc in plan.removed
    ensures Related(p, plan, Step(p, o, {}, a), Step(p, o, plan.removed, b))
  {
    hide SameLive, CleanMem, CleanVal, SameEnv, CleanEnv, MapEnv, SameFrame, SsaUses, SsaSound, Refs;
    var i := a.pc;
    assert JustifiedInstr(p, plan, i);
    match p.instrs[i]
    case Store(g, x) => DeadWrite(plan, a.mem, b.mem, g, ValOf(o, a.env, x));
    case Load(g) => DeadValue(p, plan, a.env, b.env, i, if g in a.mem.globals then a.mem.globals[g] else Number(0));
    case MakeMap(_, _) =>
      DeadMap(plan, a.mem, b.mem, Ref(i, a.step), map[]);
      DeadValue(p, plan, a.env, b.env, i, MapVal(Ref(i, a.step)));
    case MapUpdate(m, k, v) =>
      RemovedUpdate(p, o, plan, a);
      var r := ValOf(o, a.env, m).r;
      var was := if r in a.mem.maps then a.mem.maps[r] else map[];
      DeadMap(plan, a.mem, b.mem, r, was[ValOf(o, a.env, k) := ValOf(o, a.env, v)]);
  }

  lemma StepGlobal(p: Prog, o: Outside, plan: Plan, a: State, b: State)
    requires WellFormed(p) && SsaUses(p) && Justified(p, plan) && Related(p, plan, a, b)
    requires !a.halted && a.pc < |p.instrs| && a.pc !in plan.removed
             && (p.instrs[a.pc].Store? || p.instrs[a.pc].Load? || p.instrs[a.pc].Debug?)
    ensures Related(p, plan, Step(p, o, {}, a), Step(p, o, plan.removed, b))
  {
    var x := p.instrs[a.pc];
    if x.Store? {
      SameOperand(p, o, plan, a, b, x.val);
    } else if x.Load? {
      SurvivorOperands(p, plan, a.pc, OGlobal(x.g));
    }
  }

  lemma StepMake(p: Prog, o: Outside, plan: Plan, a: State, b: State)
    requires WellFormed(p) && SsaUses(p) && Justified(p, plan) && Related(p, plan, a, b)
    requires !a.halted && a.pc < |p.instrs| && a.pc !in plan.removed && (p.instrs[a.pc].MakeMap?)
    ensures Related(p, plan, Step(p, o, {}, a), Step(p, o, plan.removed, b))
  {
    var h := p.instrs[a.pc].hint;
    if h.ValueHint? {
      SameOperand(p, o, plan, a, b, h.o);
    }
    assert MakePanics(o, a.env, h) == MakePanics(o, b.env, h);
    if !MakePanics(o, a.env, h) {
      var r := Ref(a.pc, a.step);
      AllocSame(plan, a.mem, b.mem, r);
      BindSame(p, plan, a.env, b.env, a.pc, MapVal(r));
    }
  }

  // Giving a surviving instruction the same clean value in both runs.
  lemma BindSame(p: Prog, plan: Plan, a: map<InstrId, Val>, b: map<InstrId, Val>, i: InstrId, v: Val)
    requires SameEnv(plan, a, b) && CleanEnv(plan, a) && MapEnv(p, a) && CleanVal(plan, v)
    requires i < |p.instrs| && (p.instrs[i].MakeMap? ==> v.MapVal? && v.r.site == i)
    ensures SameEnv(plan, a[i := v], b[i := v]) && CleanEnv(plan, a[i := v]) && MapEnv(p, a[i := v])
  {
  }

  // Allocating the same live map keeps live memory equal and clean.
  lemma AllocSame(plan: Plan, a: Mem, b: Mem, r: Ref)
    requires SameLive(plan, a, b) && CleanMem(plan, a)
    ensures var a', b' := a.(maps := a.maps[r := map[]]), b.(maps := b.maps[r := map[]]);
            SameLive(plan, a', b') && CleanMem(plan, a')
  {
  }

  lemma StepUpdate(p: Prog, o: Outside, plan: Plan, a: State, b: State)
    requires WellFormed(p) && SsaUses(p) && Justified(p, plan) && Related(p, plan, a, b)
    requires !a.halted && a.pc < |p.instrs| && a.pc !in plan.removed && (p.instrs[a.pc].MapUpdate?)
    ensures Related(p, plan, Step(p, o, {}, a), Step(p, o, plan.removed, b))
  {
    hide SameLive, CleanMem, CleanVal, SameEnv, CleanEnv, MapEnv, Justified, SsaUses;
    var x := p.instrs[a.pc];
    SameOperand(p, o, plan, a, b, x.m);
    SameOperand(p, o, plan, a, b, x.k);
    SameOperand(p, o, plan, a, b, x.v);
    var mv, kv, vv := ValOf(o, a.env, x.m), ValOf(o, a.env, x.k), ValOf(o, a.env, x.v);
    if !UpdatePanics(mv, kv) {
      PutSame(plan, a.mem, b.mem, mv.r, kv, vv);
    }
  }

  function Put(m: Mem, r: Ref, k: Val, v: Val): (m': Mem) {
    m.(maps := m.maps[r := (if r in m.maps then m.maps[r] else map[])[k := v]])
  }

  // Writing the same clean entry of the same live map keeps live memory equal and clean.
  lemma PutSame(plan: Plan, a: Mem, b: Mem, r: Ref, k: Val, v: Val)
    requires SameLive(plan, a, b) && CleanMem(plan, a)
    requires CleanVal(plan, MapVal(r)) && CleanVal(plan, k) && CleanVal(plan, v)
    ensures SameLive(plan, Put(a, r, k, v), Put(b, r, k, v)) && CleanMem(plan, Put(a, r, k, v))
  {
    hide SameLive, CleanMem;
    assert r in RefsOf(MapVal(r));
    PutLive(plan, a, b, r, k, v);
    PutClean(plan, a, r, k, v);
  }

  lemma PutLive(plan: Plan, a: Mem, b: Mem, r: Ref, k: Val, v: Val)
    requires SameLive(plan, a, b) && r.site !in plan.removed
    ensures SameLive(plan, Put(a, r, k, v), Put(b, r, k, v))
  {
  }

  lemma PutClean(plan: Plan, m: Mem, r: Ref, k: Val, v: Val)
    requires CleanMem(plan, m) && r.site !in plan.removed && CleanVal(plan, k) && CleanVal(plan, v)
    ensures CleanMem(plan, Put(m, r, k, v))
  {
    hide CleanVal;
  }

  // An uninterpreted instruction gets the same clean operands in both runs.
  lemma SameOperands(p: Prog, o: Outside, plan: Plan, a: State, b: State)
    requires WellFormed(p) && SsaUses(p) && Justified(p, plan) && Related(p, plan, a, b)
    requires a.pc < |p.instrs| && a.pc !in plan.removed && p.instrs[a.pc].Other?
    ensures var vs := Vals(o, a.env, p.instrs[a.pc].ops);
            vs == Vals(o, b.env, p.instrs[a.pc].ops) && forall k :: 0 <= k < |vs| ==> CleanVal(plan, vs[k])
  {
    hide Justified, SsaUses, Related, CleanVal;
    var ops := p.instrs[a.pc].ops;
    forall k | 0 <= k < |ops|
      ensures Vals(o, a.env, ops)[k] == Vals(o, b.env, ops)[k] && CleanVal(plan, Vals(o, a.env, ops)[k])
    {
      SameOperand(p, o, plan, a, b, ops[k]);
    }
  }

  lemma SameEffect(p: Prog, o: Outside, plan: Plan, i: InstrId, vs: seq<Val>, a: Mem, b: Mem)
    requires WellFormed(p) && Justified(p, plan) && MemorySafe(p, o)
    requires (forall k :: 0 <= k < |vs| ==> CleanVal(plan, vs[k])) && CleanMem(plan, a) && SameLive(plan, a, b)
    ensures SameOutcome(plan, o.effect(i, vs, a), o.effect(i, vs, b))
  {
    hide CleanVal, CleanMem, SameLive, SameOutcome;
  }

  lemma StepOther(p: Prog, o: Outside, plan: Plan, a: State, b: State)
    requires WellFormed(p) && SsaUses(p) && Justified(p, plan) && Related(p, plan, a, b) && MemorySafe(p, o)
    requires !a.halted && a.pc < |p.instrs| && a.pc !in plan.removed && p.instrs[a.pc].Other?
    ensures Related(p, plan, Step(p, o, {}, a), Step(p, o, plan.removed, b))
  {
    hide Justified, SsaUses, MemorySafe, CleanVal, CleanMem, SameLive, SameEnv, CleanEnv, MapEnv, SameFrame, Go;
    var i := a.pc;
    var vs := Vals(o, a.env, p.instrs[i].ops);
    SameOperands(p, o, plan, a, b);
    SameEffect(p, o, plan, i, vs, a.mem, b.mem);
    var x, y, e := o.effect(i, vs, a.mem), o.effect(i, vs, b.mem), Event(i, vs);
    GoSame(p, plan, a.(pc := i + 1, step := a.step + 1, mem := x.mem, trace := a.trace + [e]),
           b.(pc := i + 1, step := b.step + 1, mem := y.mem, trace := b.trace + [e]), i, x.result, x.ctl);
  }

  // Going on in the same way keeps the runs together.
  lemma GoSame(p: Prog, plan: Plan, a: State, b: State, i: InstrId, v: Val, ctl: Ctl)
    requires Related(p, plan, a, b) && CleanVal(plan, v) && i < |p.instrs| && p.instrs[i].Other?
    ensures Related(p, plan, Go(a, i, v, ctl), Go(b, i, v, ctl))
  {
    hide SameLive, CleanMem, CleanVal, SameEnv, CleanEnv, MapEnv;
    match ctl
    case Goto(_) => BindSame(p, plan, a.env, b.env, i, v);
    case Halt => BindSame(p, plan, a.env, b.env, i, v);
    case Enter(_) => NoValues(p, plan);
    case Leave =>
      if a.stack != [] {
        var f, g := a.stack[|a.stack| - 1], b.stack[|b.stack| - 1];
        assert SameFrame(p, plan, f, g);
        BindSame(p, plan, f.env, g.env, f.call, v);
      }
  }

  lemma NoValues(p: Prog, plan: Plan)
    ensures SameEnv(plan, map[], map[]) && CleanEnv(plan, map[]) && MapEnv(p, map[])
  {
  }

  lemma InitialRelated(p: Prog, plan: Plan, s: State)
    requires WellFormed(p) && Justified(p, plan) && s.env == map[] && s.stack == [] && Initial(p, s.mem)
    ensures Related(p, plan, s, s)
  {
  }

  lemma StepRelated(p: Prog, o: Outside, plan: Plan, a: State, b: State)
    requires WellFormed(p) && SsaUses(p) && Justified(p, plan) && MemorySafe(p, o)
    requires forall k :: 0 <= k <= MAX_STATIC_ELEMENTS ==> !o.hintPanics(k)
    requires Related(p, plan, a, b) && SsaSound(p, o, a)
    ensures Related(p, plan, Step(p, o, {}, a), Step(p, o, plan.removed, b))
  {
    if a.halted || a.pc >= |p.instrs| {
      return;
    }
    hide Step, SsaSound, Justified, MemorySafe, SsaUses, SameLive, CleanMem, SameEnv, CleanEnv, MapEnv;
    if a.pc in plan.removed {
      StepRemoved(p, o, plan, a, b);
    } else if p.instrs[a.pc].Other? {
      StepOther(p, o, plan, a, b);
    } else if p.instrs[a.pc].MakeMap? {
      StepMake(p, o, plan, a, b);
    } else if p.instrs[a.pc].MapUpdate? {
      StepUpdate(p, o, plan, a, b);
    } else {
      StepGlobal(p, o, plan, a, b);
    }
  }

  // For every run: after any number of steps the full program and the program with
  // the plan skipped are at the same place with the same trace, the same values of
  // surviving instructions and the same live memory.
  lemma {:induction false} EliminationPreserves(p: Prog, o: Outside, plan: Plan, s: State, n: nat)
    requires WellFormed(p) && SsaUses(p) && Justified(p, plan) && MemorySafe(p, o)
    requires forall k :: 0 <= k <= MAX_STATIC_ELEMENTS ==> !o.hintPanics(k)
    requires s.env == map[] && s.stack == [] && Initial(p, s.mem)
    requires forall k: nat :: k < n ==> SsaSound(p, o, Steps(p, o, {}, s, k))
    ensures Related(p, plan, Steps(p, o, {}, s, n), Steps(p, o, plan.removed, s, n))
  {
    hide Step, Related, SsaSound, Justified, MemorySafe, SsaUses, Initial;
    if n == 0 {
      InitialRelated(p, plan, s);
    } else {
      EliminationPreserves(p, o, plan, s, n - 1);
      StepRelated(p, o, plan, Steps(p, o, {}, s, n - 1), Steps(p, o, plan.removed, s, n - 1));
    }
  }

  // ---- pointers to globals ----

  // The address of global 1 is stored in global 0, loaded and followed by instruction 2.
  const ADDRESS_TAKEN: Prog :=
    Prog([Store(0, OGlobal(1)), Load(0), Other([OInstr(1)])], [0, 1, 1], {0}, map[0 := 0, 1 := 0], {})

  function Followed(vs: seq<Val>, m: Mem): (v: Val) {
    if vs != [] && 1 in AddrsOf(vs[0]) && 1 in m.globals then m.globals[1] else Number(0)
  }

  const FOLLOWING: Outside :=
    Outside((i: InstrId, vs: seq<Val>, m: Mem) => Out(Followed(vs, m), m, Goto(i + 1)), n => false, g => g)

  lemma FollowedSame(plan: Plan, vs: seq<Val>, a: Mem, b: Mem)
    requires (forall k :: 0 <= k < |vs| ==> CleanVal(plan, vs[k])) && CleanMem(plan, a) && SameLive(plan, a, b)
    ensures Followed(vs, a) == Followed(vs, b) && CleanVal(plan, Followed(vs, a))
  {
    if vs != [] && 1 in AddrsOf(vs[0]) {
      assert CleanVal(plan, vs[0]);
    }
  }

  lemma FollowingSteps(s: State)
    requires s.pc == 0 && !s.halted && 1 in s.mem.globals
    ensures var t := Steps(ADDRESS_TAKEN, FOLLOWING, {}, s, 3); 2 in t.env && t.env[2] == s.mem.globals[1]
  {
    var p, o := ADDRESS_TAKEN, FOLLOWING;
    var v := Opaque(1, {}, {1}, PlainShape);
    var s1 := Step(p, o, {}, s);
    assert s1.mem.globals == s.mem.globals[0 := v] && s1.pc == 1 && !s1.halted;
    var s2 := Step(p, o, {}, s1);
    assert s2.env == s1.env[1 := v] && s2.mem == s1.mem && s2.pc == 2 && !s2.halted;
    assert Vals(o, s2.env, [OInstr(1)])[0] == v;
    var s3 := Step(p, o, {}, s2);
    assert s3.env == s2.env[2 := s.mem.globals[1]];
    hide Step;
    assert Steps(p, o, {}, s, 0) == s;
    assert Steps(p, o, {}, s, 1) == s1;
    assert Steps(p, o, {}, s, 2) == s2;
  }

  // Code that follows a pointer to a global is memory safe, and it does see the global.
  lemma FollowingIsSafe(s: State)
    requires s.pc == 0 && !s.halted && 1 in s.mem.globals
    ensures MemorySafe(ADDRESS_TAKEN, FOLLOWING)
    ensures var t := Steps(ADDRESS_TAKEN, FOLLOWING, {}, s, 3); 2 in t.env && t.env[2] == s.mem.globals[1]
  {
    hide Steps, Followed;
    FollowingSteps(s);
    forall plan: Plan, i: InstrId, vs: seq<Val>, a: Mem, b: Mem |
      (forall k :: 0 <= k < |vs| ==> CleanVal(plan, vs[k])) && CleanMem(plan, a) && SameLive(plan, a, b)
      ensures SameOutcome(plan, FOLLOWING.effect(i, vs, a), FOLLOWING.effect(i, vs, b))
    {
      FollowedSame(plan, vs, a, b);
    }
  }
}
