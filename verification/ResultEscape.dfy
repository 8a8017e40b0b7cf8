// Escape of named result slots: values whose uses all stay among themselves keep what
// they point into in the allocating frame, in every run of a heap semantics.
module ResultEscape {

  // SSA values: results of instructions, and parameters of functions.
  datatype Val = Res(i: nat) | Param(fn: nat, k: nat)

  datatype Instr =
    | DebugRef(x: Val)
    | Store(addr: Val, val: Val)
    | Load(x: Val)                        // *x
    | UnOp(x: Val)                        // any other unary operation
    | Compare(x: Val, y: Val)             // == or !=
    | BinOp(x: Val, y: Val)               // any other binary operation
    | FieldAddr(x: Val)
    | IndexAddr(x: Val, index: Val)
    | ChangeType(x: Val)
    | Convert(x: Val, toPointer: bool)
    | Phi(xs: seq<Val>)
    | Call(callee: nat, args: seq<Val>)   // synchronous call of a known function
    | Alloc
    | Return(xs: seq<Val>)
    | Other(xs: seq<Val>)                 // closures, go, defer, unknown calls, ...

  // A function: its package, its number of parameters, and whether it has a body
  // that is an ordinary Go function.
  datatype Fn = Fn(pkg: nat, params: nat, hasBody: bool, goFunc: bool)

  // owner[i] is the function that instruction i belongs to.
  datatype Prog = Prog(fns: seq<Fn>, instrs: seq<Instr>, owner: seq<nat>)

  predicate WellFormed(p: Prog) {
    |p.owner| == |p.instrs|
  }

  function Operands(x: Instr): (s: set<Val>) {
    match x
    case DebugRef(x) => {x}
    case Store(a, v) => {a, v}
    case Load(x) => {x}
    case UnOp(x) => {x}
    case Compare(x, y) => {x, y}
    case BinOp(x, y) => {x, y}
    case FieldAddr(x) => {x}
    case IndexAddr(x, i) => {x, i}
    case ChangeType(x) => {x}
    case Convert(x, _) => {x}
    case Phi(xs) => set v | v in xs
    case Call(_, args) => set v | v in args
    case Alloc => {}
    case Return(xs) => set v | v in xs
    case Other(xs) => set v | v in xs
  }

  predicate Refers(p: Prog, i: nat, v: Val) {
    i < |p.instrs| && v in Operands(p.instrs[i])
  }

  // A call whose body can be inspected.
  predicate Inspectable(p: Prog, pkg: nat, f: nat) {
    f < |p.fns| && p.fns[f].pkg == pkg && p.fns[f].hasBody && p.fns[f].goFunc
  }

  // ---- what the check establishes ----

  // Instruction i does not let v out of the set b of borrowed values.
  ghost predicate Keeps(p: Prog, pkg: nat, b: iset<Val>, i: nat, v: Val)
    requires i < |p.instrs|
  {
    match p.instrs[i]
    case DebugRef(_) => true
    case Store(a, x) => a == v && x != v
    case Load(_) => true
    case Compare(_, _) => true
    case FieldAddr(_) => Res(i) in b
    case IndexAddr(x, _) => x == v && Res(i) in b
    case ChangeType(_) => Res(i) in b
    case Convert(_, toPointer) => toPointer && Res(i) in b
    case Phi(_) => Res(i) in b
    case Call(f, args) =>
      Inspectable(p, pkg, f) && forall k :: 0 <= k < |args| && args[k] == v ==> k < p.fns[f].params && Param(f, k) in b
    case _ => false
  }

  ghost predicate KeptAt(p: Prog, pkg: nat, b: iset<Val>, v: Val) {
    forall i: nat :: Refers(p, i, v) ==> Keeps(p, pkg, b, i, v)
  }

  // A set of values that every use keeps inside itself.
  ghost predicate BorrowSet(p: Prog, pkg: nat, b: iset<Val>) {
    forall v :: v in b ==> KeptAt(p, pkg, b, v)
  }

  // ---- heap semantics ----

  type Obj = nat

  // env gives the objects each value may point into; a frame runs one function.
  datatype Frame = Frame(fn: nat, env: map<Val, set<Obj>>)

  // mem gives the objects that the contents of an object point into; `leaked` is
  // everything reachable from returned values, closures, goroutines, channels and
  // other code. Calls wait for their result below the top of the stack.
  datatype State = State(stack: seq<Frame>, waits: seq<nat>, mem: map<Obj, set<Obj>>, leaked: set<Obj>)

  function At(env: map<Val, set<Obj>>, v: Val): (s: set<Obj>) {
    if v in env then env[v] else {}
  }

  function AtAny(env: map<Val, set<Obj>>, xs: seq<Val>): (s: set<Obj>) {
    set k, o | 0 <= k < |xs| && o in At(env, xs[k]) :: o
  }

  function ParamEnv(env: map<Val, set<Obj>>, f: nat, args: seq<Val>): (e: map<Val, set<Obj>>) {
    map k | 0 <= k < |args| :: Param(f, k) := At(env, args[k])
  }

  // s' is s after the top frame ran its instruction i. Control flow is left open:
  // any instruction of the running function may be next. Loads, phis and unknown
  // operations may produce any pointer they could have produced.
  ghost predicate Step(p: Prog, s: State, i: nat, s': State)
    requires WellFormed(p)
  {
    && s.stack != [] && |s.waits| == |s.stack| - 1 && i < |p.instrs|
    && var top := s.stack[|s.stack| - 1];
       var below := s.stack[..|s.stack| - 1];
       p.owner[i] == top.fn && match p.instrs[i]
       case DebugRef(_) => s' == s
       case Store(a, v) =>
         s'.stack == s.stack && s'.waits == s.waits && s'.leaked == s.leaked
         && s'.mem == map o | o in s.mem.Keys + At(top.env, a) ::
              (if o in s.mem then s.mem[o] else {}) + (if o in At(top.env, a) then At(top.env, v) else {})
       case Load(x) =>
         exists r: set<Obj> :: Loaded(s.mem, At(top.env, x), r) && Sets(s, i, r, s')
       case UnOp(x) => Sets(s, i, At(top.env, x), s')
       case Compare(_, _) => Sets(s, i, {}, s')
       case BinOp(x, y) => Sets(s, i, At(top.env, x) + At(top.env, y), s')
       case FieldAddr(x) => Sets(s, i, At(top.env, x), s')
       case IndexAddr(x, _) => Sets(s, i, At(top.env, x), s')
       case ChangeType(x) => Sets(s, i, At(top.env, x), s')
       case Convert(x, _) => Sets(s, i, At(top.env, x), s')
       case Phi(xs) => exists k :: 0 <= k < |xs| && Sets(s, i, At(top.env, xs[k]), s')
       case Call(f, args) =>
         if f >= |p.fns| || !p.fns[f].hasBody || !p.fns[f].goFunc then Unknown(s, i, args, s')
         else s' == s.(stack := s.stack + [Frame(f, ParamEnv(top.env, f, args))], waits := s.waits + [i])
       case Alloc => exists o: Obj :: Allocates(s, i, o, s')
       case Return(xs) =>
         if |s.stack| == 1 then s'.stack == [] && s'.waits == [] && s'.mem == s.mem
           && s'.leaked == s.leaked + AtAny(top.env, xs)
         else
           var w := s.waits[|s.waits| - 1];
           var caller := below[|below| - 1];
           s' == s.(stack := below[|below| - 1 := caller.(env := caller.env[Res(w) := AtAny(top.env, xs)])],
                    waits := s.waits[..|s.waits| - 1])
       case Other(xs) => Unknown(s, i, xs, s')
  }

  // o is pointed to by the contents of one of the objects from.
  ghost predicate Pointed(mem: map<Obj, set<Obj>>, from: set<Obj>, o: Obj) {
    exists t :: t in from && t in mem && o in mem[t]
  }

  ghost predicate Loaded(mem: map<Obj, set<Obj>>, from: set<Obj>, r: set<Obj>) {
    forall o :: o in r ==> Pointed(mem, from, o)
  }

  // Unknown code ran on the operands xs. It reaches what it was given, what had
  // leaked, new objects, and what the contents of reached objects point into; it may
  // change the contents of objects to anything it reaches.
  ghost predicate Unknown(s: State, i: nat, xs: seq<Val>, s': State)
    requires s.stack != []
  {
    var given := AtAny(s.stack[|s.stack| - 1].env, xs);
    && s.mem.Keys <= s'.mem.Keys && s.leaked + given <= s'.leaked <= s'.mem.Keys
    && (forall o :: o in s'.leaked ==> o in s.leaked || o in given || o !in s.mem || Pointed(s.mem, s.mem.Keys, o))
    && (forall t :: t in s'.mem ==> (t in s.mem && s'.mem[t] == s.mem[t]) || s'.mem[t] <= s'.leaked)
    && s'.waits == s.waits && exists r: set<Obj> :: r <= s'.leaked && s'.stack == SetTop(s, i, r)
  }

  ghost predicate Allocates(s: State, i: nat, o: Obj, s': State)
    requires s.stack != []
  {
    o !in s.mem && s' == s.(stack := SetTop(s, i, {o}), mem := s.mem[o := {}])
  }

  function SetTop(s: State, i: nat, r: set<Obj>): (stack: seq<Frame>)
    requires s.stack != []
  {
    var n := |s.stack| - 1;
    s.stack[n := s.stack[n].(env := s.stack[n].env[Res(i) := r])]
  }

  ghost predicate Sets(s: State, i: nat, r: set<Obj>, s': State)
    requires s.stack != []
  {
    s' == s.(stack := SetTop(s, i, r))
  }

  // ---- soundness ----

  // Every object in a state has been allocated.
  ghost predicate Allocated(s: State) {
    && s.leaked <= s.mem.Keys
    && (forall t :: t in s.mem ==> s.mem[t] <= s.mem.Keys)
    && (forall f, v :: 0 <= f < |s.stack| && v in s.stack[f].env ==> s.stack[f].env[v] <= s.mem.Keys)
  }

  // The slot's object is held by borrowed values of live frames, and by nothing
  // else: no memory cell, no leaked value.
  ghost predicate Confined(b: iset<Val>, slot: Obj, s: State) {
    && slot in s.mem && slot !in s.leaked
    && (forall t :: t in s.mem ==> slot !in s.mem[t])
    && (forall f, v :: 0 <= f < |s.stack| && v in s.stack[f].env && slot in s.stack[f].env[v] ==> v in b)
  }

  // Operands that are not borrowed, or whose use would not keep them, do not hold
  // the slot.
  lemma OperandClean(p: Prog, pkg: nat, b: iset<Val>, slot: Obj, s: State, i: nat, v: Val)
    requires WellFormed(p) && BorrowSet(p, pkg, b) && Confined(b, slot, s) && s.stack != [] && Refers(p, i, v)
    requires !Keeps(p, pkg, b, i, v)
    ensures slot !in At(s.stack[|s.stack| - 1].env, v)
  {
    assert v in b ==> KeptAt(p, pkg, b, v);
  }

  lemma AnyClean(p: Prog, pkg: nat, b: iset<Val>, slot: Obj, s: State, i: nat, xs: seq<Val>)
    requires WellFormed(p) && BorrowSet(p, pkg, b) && Confined(b, slot, s) && s.stack != []
    requires forall k :: 0 <= k < |xs| ==> Refers(p, i, xs[k]) && !Keeps(p, pkg, b, i, xs[k])
    ensures slot !in AtAny(s.stack[|s.stack| - 1].env, xs)
  {
    forall k | 0 <= k < |xs| ensures slot !in At(s.stack[|s.stack| - 1].env, xs[k]) {
      OperandClean(p, pkg, b, slot, s, i, xs[k]);
    }
  }

  // Giving the top frame's result i objects r keeps the slot confined if r does not
  // hold it or the result is borrowed.
  lemma SetConfined(b: iset<Val>, slot: Obj, s: State, i: nat, r: set<Obj>)
    requires Confined(b, slot, s) && s.stack != [] && (slot in r ==> Res(i) in b)
    ensures Confined(b, slot, s.(stack := SetTop(s, i, r)))
  {
  }

  lemma StepDerive(p: Prog, pkg: nat, b: iset<Val>, slot: Obj, s: State, i: nat, s': State)
    requires WellFormed(p) && BorrowSet(p, pkg, b) && Confined(b, slot, s) && Step(p, s, i, s')
    requires p.instrs[i].FieldAddr? || p.instrs[i].IndexAddr? || p.instrs[i].ChangeType? || p.instrs[i].Convert?
             || p.instrs[i].Phi?
    ensures Confined(b, slot, s')
  {
    var top, x := s.stack[|s.stack| - 1], p.instrs[i];
    var v := if x.Phi? then (var k :| 0 <= k < |x.xs| && Sets(s, i, At(top.env, x.xs[k]), s'); x.xs[k]) else x.x;
    assert Refers(p, i, v);
    if Res(i) !in b {
      OperandClean(p, pkg, b, slot, s, i, v);
    }
    SetConfined(b, slot, s, i, At(top.env, v));
  }

  lemma StepCompute(p: Prog, pkg: nat, b: iset<Val>, slot: Obj, s: State, i: nat, s': State)
    requires WellFormed(p) && BorrowSet(p, pkg, b) && Confined(b, slot, s) && Step(p, s, i, s')
    requires p.instrs[i].Load? || p.instrs[i].UnOp? || p.instrs[i].Compare? || p.instrs[i].BinOp?
    ensures Confined(b, slot, s')
  {
    var top := s.stack[|s.stack| - 1];
    match p.instrs[i]
    case Load(x) =>
      var r: set<Obj> :| Loaded(s.mem, At(top.env, x), r) && Sets(s, i, r, s');
      SetConfined(b, slot, s, i, r);
    case UnOp(x) =>
      OperandClean(p, pkg, b, slot, s, i, x);
      SetConfined(b, slot, s, i, At(top.env, x));
    case Compare(_, _) => SetConfined(b, slot, s, i, {});
    case BinOp(x, y) =>
      OperandClean(p, pkg, b, slot, s, i, x);
      OperandClean(p, pkg, b, slot, s, i, y);
      SetConfined(b, slot, s, i, At(top.env, x) + At(top.env, y));
  }

  lemma StepStore(p: Prog, pkg: nat, b: iset<Val>, slot: Obj, s: State, i: nat, s': State)
    requires WellFormed(p) && BorrowSet(p, pkg, b) && Confined(b, slot, s) && Step(p, s, i, s') && p.instrs[i].Store?
    ensures Confined(b, slot, s')
  {
    OperandClean(p, pkg, b, slot, s, i, p.instrs[i].val);
  }

  lemma StepUnknown(p: Prog, pkg: nat, b: iset<Val>, slot: Obj, s: State, i: nat, xs: seq<Val>, s': State)
    requires WellFormed(p) && BorrowSet(p, pkg, b) && Confined(b, slot, s) && s.stack != [] && Unknown(s, i, xs, s')
    requires forall k :: 0 <= k < |xs| ==> Refers(p, i, xs[k]) && !Keeps(p, pkg, b, i, xs[k])
    ensures Confined(b, slot, s')
  {
    AnyClean(p, pkg, b, slot, s, i, xs);
    assert slot !in s'.leaked;
  }

  lemma StepCall(p: Prog, pkg: nat, b: iset<Val>, slot: Obj, s: State, i: nat, s': State)
    requires WellFormed(p) && BorrowSet(p, pkg, b) && Confined(b, slot, s) && Step(p, s, i, s') && p.instrs[i].Call?
    ensures Confined(b, slot, s')
  {
    var top, f, args := s.stack[|s.stack| - 1], p.instrs[i].callee, p.instrs[i].args;
    if f >= |p.fns| || !p.fns[f].hasBody || !p.fns[f].goFunc {
      StepUnknown(p, pkg, b, slot, s, i, args, s');
    } else {
      var env := ParamEnv(top.env, f, args);
      forall v | v in env && slot in env[v] ensures v in b {
        var k := v.k;
        assert args[k] in top.env && slot in top.env[args[k]];
        assert Refers(p, i, args[k]) && KeptAt(p, pkg, b, args[k]);
        assert Keeps(p, pkg, b, i, args[k]);
      }
    }
  }

  lemma StepReturn(p: Prog, pkg: nat, b: iset<Val>, slot: Obj, s: State, i: nat, s': State)
    requires WellFormed(p) && BorrowSet(p, pkg, b) && Confined(b, slot, s) && Step(p, s, i, s') && p.instrs[i].Return?
    ensures Confined(b, slot, s')
  {
    AnyClean(p, pkg, b, slot, s, i, p.instrs[i].xs);
  }

  // No step lets the slot out.
  lemma StepConfined(p: Prog, pkg: nat, b: iset<Val>, slot: Obj, s: State, i: nat, s': State)
    requires WellFormed(p) && BorrowSet(p, pkg, b) && Confined(b, slot, s) && Step(p, s, i, s')
    ensures Confined(b, slot, s')
  {
    match p.instrs[i]
    case DebugRef(_) =>
    case Store(_, _) => StepStore(p, pkg, b, slot, s, i, s');
    case Load(_) => StepCompute(p, pkg, b, slot, s, i, s');
    case UnOp(_) => StepCompute(p, pkg, b, slot, s, i, s');
    case Compare(_, _) => StepCompute(p, pkg, b, slot, s, i, s');
    case BinOp(_, _) => StepCompute(p, pkg, b, slot, s, i, s');
    case Call(_, _) => StepCall(p, pkg, b, slot, s, i, s');
    case Alloc =>
    case Return(_) => StepReturn(p, pkg, b, slot, s, i, s');
    case Other(xs) => StepUnknown(p, pkg, b, slot, s, i, xs, s');
    case _ => StepDerive(p, pkg, b, slot, s, i, s');
  }

  // A run: the slot is allocated by its instruction in the first step, and any
  // instructions of any frames follow, through calls, returns and recursion.
  ghost predicate IsRun(p: Prog, ss: seq<State>, pcs: seq<nat>)
    requires WellFormed(p)
  {
    |ss| == |pcs| + 1 && forall k :: 0 <= k < |pcs| ==> Step(p, ss[k], pcs[k], ss[k + 1])
  }

  // If all uses of the slot are borrowed, then in every run after its allocation no memory
  // cell and no leaked or returned value points into it.
  lemma {:induction false} BorrowedNeverEscapes(p: Prog, pkg: nat, b: iset<Val>, slot: Obj, ss: seq<State>,
                                                pcs: seq<nat>, k: nat)
    requires WellFormed(p) && BorrowSet(p, pkg, b) && IsRun(p, ss, pcs) && pcs != []
    requires Allocated(ss[0]) && pcs[0] < |p.instrs| && p.instrs[pcs[0]].Alloc? && Res(pcs[0]) in b
    requires Allocates(ss[0], pcs[0], slot, ss[1])
    requires 1 <= k < |ss|
    ensures Confined(b, slot, ss[k])
    decreases k
  {
    if k == 1 {
      assert slot !in ss[0].mem;
    } else {
      BorrowedNeverEscapes(p, pkg, b, slot, ss, pcs, k - 1);
      assert Step(p, ss[k - 1], pcs[k - 1], ss[k - 1 + 1]);
      StepConfined(p, pkg, b, slot, ss[k - 1], pcs[k - 1], ss[k]);
    }
  }

  // Frames below the d-th do not hold the slot.
  ghost predicate Lower(d: nat, slot: Obj, s: State) {
    forall f, v :: 0 <= f < d && f < |s.stack| && v in s.stack[f].env ==> slot !in s.stack[f].env[v]
  }

  // A step changes the top frame, adds one, or hands a result that does not hold the slot
  // to the frame below.
  lemma StepLower(p: Prog, pkg: nat, b: iset<Val>, slot: Obj, d: nat, s: State, i: nat, s': State)
    requires WellFormed(p) && BorrowSet(p, pkg, b) && Confined(b, slot, s) && Step(p, s, i, s')
    requires Lower(d, slot, s) && |s.stack| > d
    ensures Lower(d, slot, s')
  {
    if p.instrs[i].Return? {
      AnyClean(p, pkg, b, slot, s, i, p.instrs[i].xs);
    }
  }

  // The run begins with the allocation of v's object in some frame.
  ghost predicate Makes(p: Prog, v: Val, slot: Obj, ss: seq<State>, pcs: seq<nat>)
    requires WellFormed(p)
  {
    && IsRun(p, ss, pcs) && pcs != [] && Allocated(ss[0]) && ss[0].stack != []
    && pcs[0] < |p.instrs| && p.instrs[pcs[0]].Alloc? && v == Res(pcs[0]) && Allocates(ss[0], pcs[0], slot, ss[1])
  }

  // At step k nothing in memory, returned or leaked points into the slot, and a value that
  // does is in the allocating frame or above it while that frame lives.
  ghost predicate Private(slot: Obj, ss: seq<State>, k: nat)
    requires k < |ss| && ss[0].stack != []
  {
    && slot !in ss[k].leaked && (forall t :: t in ss[k].mem ==> slot !in ss[k].mem[t])
    && forall f, v :: 0 <= f < |ss[k].stack| && v in ss[k].stack[f].env && slot in ss[k].stack[f].env[v] ==>
         |ss[0].stack| - 1 <= f && Lives(ss, k)
  }

  // The frame on top at the start has not been left in the first k steps.
  ghost predicate Lives(ss: seq<State>, k: nat)
    requires k < |ss|
  {
    forall j :: 0 <= j <= k ==> |ss[j].stack| >= |ss[0].stack|
  }

  lemma {:induction false} SlotConfined(p: Prog, pkg: nat, b: iset<Val>, v: Val, slot: Obj, ss: seq<State>,
                                        pcs: seq<nat>, k: nat)
    requires WellFormed(p) && BorrowSet(p, pkg, b) && v in b && Makes(p, v, slot, ss, pcs) && 1 <= k < |ss|
    ensures Confined(if Lives(ss, k) then b else iset{}, slot, ss[k])
    ensures Lives(ss, k) ==> Lower(|ss[0].stack| - 1, slot, ss[k])
    decreases k
  {
    hide Step, Allocated, BorrowSet;
    if k == 1 {
      BorrowedNeverEscapes(p, pkg, b, slot, ss, pcs, 1);
      FreshLower(ss[0], pcs[0], slot, ss[1]);
    } else {
      SlotConfined(p, pkg, b, v, slot, ss, pcs, k - 1);
      var s, s', d := ss[k - 1], ss[k], |ss[0].stack| - 1;
      assert Step(p, s, pcs[k - 1], s');
      if Lives(ss, k - 1) {
        StepConfined(p, pkg, b, slot, s, pcs[k - 1], s');
        StepLower(p, pkg, b, slot, d, s, pcs[k - 1], s');
        if !Lives(ss, k) {
          assert |s'.stack| <= d;
        }
      } else {
        NoBorrows(p, pkg);
        StepConfined(p, pkg, iset{}, slot, s, pcs[k - 1], s');
      }
    }
  }

  lemma NoBorrows(p: Prog, pkg: nat)
    ensures BorrowSet(p, pkg, iset{})
  {
  }

  lemma FreshLower(s: State, i: nat, slot: Obj, s': State)
    requires Allocated(s) && s.stack != [] && Allocates(s, i, slot, s')
    ensures Lower(|s.stack| - 1, slot, s') && |s'.stack| == |s.stack|
  {
  }

  lemma ConfinedPrivate(b: iset<Val>, slot: Obj, ss: seq<State>, k: nat)
    requires k < |ss| && ss[0].stack != [] && Confined(if Lives(ss, k) then b else iset{}, slot, ss[k])
    requires Lives(ss, k) ==> Lower(|ss[0].stack| - 1, slot, ss[k])
    ensures Private(slot, ss, k)
  {
    forall f, v | 0 <= f < |ss[k].stack| && v in ss[k].stack[f].env && slot in ss[k].stack[f].env[v]
      ensures |ss[0].stack| - 1 <= f && Lives(ss, k)
    {
      assert v in if Lives(ss, k) then b else iset{};
    }
  }

  // What the decision is for: in every run in which v's object is allocated, it can live in
  // the allocating frame.
  ghost predicate FitsStack(p: Prog, v: Val) {
    WellFormed(p) ==> forall slot: Obj, ss, pcs, k: nat ::
      Makes(p, v, slot, ss, pcs) && 1 <= k < |ss| ==> Private(slot, ss, k)
  }

  // The main result: a slot all of whose uses are borrowed fits the stack.
  lemma BorrowedFitsStack(p: Prog, pkg: nat, b: iset<Val>, v: Val)
    requires BorrowSet(p, pkg, b) && v in b
    ensures FitsStack(p, v)
  {
    if WellFormed(p) {
      forall slot: Obj, ss, pcs, k: nat | Makes(p, v, slot, ss, pcs) && 1 <= k < |ss| ensures Private(slot, ss, k) {
        SlotConfined(p, pkg, b, v, slot, ss, pcs, k);
        ConfinedPrivate(b, slot, ss, k);
      }
    }
  }
}
