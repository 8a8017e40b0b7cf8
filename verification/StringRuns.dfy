// Runs of a linked module, as far as its strings are concerned: values in SSA form,
// steps through a control-flow graph, calls and returns. A string is a pointer and a
// length, together or apart.
module StringRuns {
  import opened CfgPaths
  import opened Common

  // ---- the module ----

  datatype Ty = TStr | TPtr | TInt | TOther

  // What a load or a store moves: a type and its size in bytes.
  datatype Access = Access(ty: Ty, size: nat)

  // An address in a global, an integer, string aggregates, and anything else.
  datatype Const =
    | CAddr(base: nat, off: int)
    | CInt(n: int)
    | CZero
    | CPair(ptr: Const, len: Const)
    | CUnknown(ty: Ty)

  datatype Operand = C(c: Const) | Arg(i: nat) | Ref(x: nat)

  // The runtime's concatenation and slicing (with 2 or 4 arguments after the string).
  datatype Kind = Plain | Cat | Slice(bounds: nat)

  // An element type with its size, and arrays of it.
  datatype Elem = Elem(id: nat, size: nat)
  datatype ArrayOf = ArrayOf(elem: Elem, len: nat)

  // A step of address arithmetic after the first index: to a field, or to an item by an
  // index, below a bound if the items are those of an array.
  datatype Index = Index(o: Operand, counter: bool)
  datatype Step = Field(offset: int) | Item(index: Index, stride: nat, bound: Option<nat>)

  datatype Def =
    | Phi(incoming: map<nat, Operand>)
    | Select(cond: Operand, t: Operand, f: Operand)
    | Cast(p: Operand)
    | ZExtBool
    | Insert(agg: Operand, index: nat, elem: Operand)
    | Extract(agg: Operand, index: nat)
    | Call(kind: Kind, callee: Option<nat>, args: seq<Operand>)
    | Load(addr: Operand, what: Access)
    | Store(addr: Operand, val: Operand, what: Access)
    | Alloca(items: Option<ArrayOf>)
    | Gep(base: Operand, source: Elem, first: Index, rest: seq<Step>)
    | Unknown(uses: seq<Operand>)

  // Definitions, their types and the node that runs each one; the graph and its
  // dominator tree; the nodes that return, with the value returned. All phis of a block
  // share a node.
  datatype Fn = Fn(
    params: seq<Ty>, defs: map<nat, Def>, ty: map<nat, Ty>, node: map<nat, nat>,
    succs: seq<set<nat>>, dom: set<Pair>, rets: map<nat, Option<Operand>>)
  datatype Pair = Pair(above: nat, below: nat)

  // A cell of a global.
  datatype Cell = Cell(base: nat, off: int, what: Access)

  // escaped: the functions with a use other than a direct call. Of globals: arrays, those
  // that are arrays; texts, the initializers of byte arrays; init, the parts of the other
  // initializers, at every offset and type; constants, those that are never written;
  // readable, those whose parts the collector reads.
  datatype Module = Module(
    fns: seq<Fn>, escaped: set<nat>, arrays: map<nat, ArrayOf>,
    texts: map<nat, string>, init: map<Cell, Const>, constants: set<nat>, readable: set<nat>)

  function TypeOf(f: Fn, o: Operand): (t: Ty) {
    match o
    case C(CAddr(_, _)) => TPtr
    case C(CInt(_)) => TInt
    case C(CZero) => TStr
    case C(CPair(_, _)) => TStr
    case C(CUnknown(t)) => t
    case Arg(i) => if i < |f.params| then f.params[i] else TOther
    case Ref(x) => if x in f.ty then f.ty[x] else TOther
  }

  function Operands(d: Def): (s: seq<Operand>) {
    match d
    case Select(c, t, f) => [c, t, f]
    case Cast(p) => [p]
    case Insert(a, _, e) => [a, e]
    case Extract(a, _) => [a]
    case Call(_, _, args) => args
    case Load(a, _) => [a]
    case Store(a, v, _) => [a, v]
    case Gep(b, _, i, rest) => [b, i.o] + Indices(rest)
    case Unknown(uses) => uses
    case _ => []
  }

  function Indices(steps: seq<Step>): (s: seq<Operand>) {
    if steps == [] then []
    else (if steps[0].Item? then [steps[0].index.o] else []) + Indices(steps[1..])
  }

  // The local that an address is derived from.
  function Root(f: Fn, o: Operand): (r: Option<nat>)
    decreases if o.Ref? then o.x + 1 else 0
  {
    if !(o.Ref? && o.x in f.defs) then None
    else
      match f.defs[o.x]
      case Alloca(_) => Some(o.x)
      case Cast(p) => if p.Ref? && p.x < o.x then Root(f, p) else None
      case Gep(b, _, _, _) => if b.Ref? && b.x < o.x then Root(f, b) else None
      case _ => None
  }

  // The operands of a definition from which an address gets out of sight.
  function Leaks(d: Def): (s: seq<Operand>) {
    match d
    case Cast(_) => []
    case Load(_, _) => []
    case Store(_, v, _) => [v]
    case Gep(_, _, i, rest) => [i.o] + Indices(rest)
    case Phi(_) => []
    case _ => Operands(d)
  }

  // Definition y does not hand on an address of local x.
  predicate KeepsIn(f: Fn, x: nat, y: nat)
    requires y in f.defs
  {
    && (forall k :: 0 <= k < |Leaks(f.defs[y])| ==> Root(f, Leaks(f.defs[y])[k]) != Some(x))
    && (f.defs[y].Phi? ==> forall q :: q in f.defs[y].incoming ==> Root(f, f.defs[y].incoming[q]) != Some(x))
  }

  // Addresses of x are only read, written and computed with.
  predicate Confined(f: Fn, x: nat) {
    && (forall y :: y in f.defs ==> KeepsIn(f, x, y))
    && (forall n :: n in f.rets && f.rets[n].Some? ==> Root(f, f.rets[n].value) != Some(x))
  }

  // o is defined on every path to the end of node q.
  ghost predicate Avail(f: Fn, o: Operand, q: nat) {
    o.Ref? ==> o.x in f.defs && o.x in f.node && Dominates(f.succs, f.node[o.x], q)
  }

  // SSA form. Values are numbered so that, phis aside, operands come first. The
  // aggregates are strings, and parts of constants are constants.
  ghost predicate WfDef(f: Fn, x: nat)
    requires x in f.defs
  {
    && x in f.node && 0 < f.node[x] < |f.succs|
    && (forall k :: 0 <= k < |Operands(f.defs[x])| ==> WfUse(f, Operands(f.defs[x])[k], f.node[x]))
    && (forall k :: 0 <= k < |Operands(f.defs[x])| && Operands(f.defs[x])[k].Ref? ==> Operands(f.defs[x])[k].x < x)
    && (f.defs[x].Phi? ==>
          && (forall q :: q in f.defs[x].incoming ==> Avail(f, f.defs[x].incoming[q], q))
          && (forall q :: 0 <= q < |f.succs| && f.node[x] in f.succs[q] ==> q in f.defs[x].incoming))
    && (f.defs[x].Extract? ==> !f.defs[x].agg.C? && TypeOf(f, f.defs[x].agg) == TStr)
    && (f.defs[x].Alloca? || f.defs[x].Store? ==>
          forall y :: y in f.defs && y in f.node && f.node[y] == f.node[x] ==> y == x)
  }

  // A use at node n.
  ghost predicate WfUse(f: Fn, o: Operand, n: nat) {
    Avail(f, o, n) && (o.Ref? ==> f.node[o.x] != n)
  }

  ghost predicate WfFn(f: Fn) {
    && (forall x :: x in f.defs ==> WfDef(f, x))
    && (forall n :: n in f.rets ==> n > 0 && (f.rets[n].Some? ==> WfUse(f, f.rets[n].value, n)))
    && (forall d :: d in f.dom ==> Dominates(f.succs, d.above, d.below))
  }

  ghost predicate Wf(m: Module) {
    forall i {:trigger WfFn(m.fns[i])} :: 0 <= i < |m.fns| ==> WfFn(m.fns[i])
  }

  // ---- runs ----

  // A place in a global, or in a local of an activation.
  datatype Place = Elsewhere | Global(base: nat, off: int) | Local(act: nat, x: nat, off: int)

  // P(b, q): a pointer to place q, where the bytes b(t) can be read at time t. Poison: an
  // address computed with an index out of range.
  datatype V = P(bytes: nat -> string, at: Place) | I(n: int) | A(ptr: V, len: V) | Poison | Other

  // The pointer and length denote the string s at this time.
  ghost predicate Denotes(now: nat, p: V, l: V, s: string) {
    && l.I? && 0 <= l.n
    && (if l.n == 0 then s == "" else p.P? && l.n <= |p.bytes(now)| && s == p.bytes(now)[..l.n])
  }

  ghost predicate StrIs(now: nat, v: V, s: string) {
    v.A? && Denotes(now, v.ptr, v.len, s)
  }

  ghost predicate StrAt(now: nat, v: V) {
    exists s :: StrIs(now, v, s)
  }

  // v is a string all the time.
  ghost predicate IsStr(v: V) {
    forall now: nat :: StrAt(now, v)
  }

  // Where an activation was called: the caller, its step and its call.
  datatype Site = Site(act: nat, step: nat, call: nat)

  // val(e, x) is the value of x after step e, mem(e, x, off, what) a cell of local x, and
  // clock(e) the time.
  datatype Act = Act(
    fn: nat, args: seq<V>, path: seq<nat>, clock: nat -> nat,
    val: (nat, nat) -> V, mem: (nat, nat, int, Access) -> V, parent: Option<Site>)

  // held(b, t) is what byte array b holds at time t, cell(c, t) what another global does.
  datatype Run = Run(acts: seq<Act>, consts: Const -> V, held: (nat, nat) -> string, cell: (Cell, nat) -> V)

  ghost function Value(r: Run, a: Act, e: nat, o: Operand): (v: V) {
    match o
    case C(c) => r.consts(c)
    case Arg(i) => if i < |a.args| then a.args[i] else Other
    case Ref(x) => a.val(e, x)
  }

  // What is known of constants. Memory may go on after a byte array.
  ghost predicate ConstOk(m: Module, r: Run, c: Const) {
    var v := r.consts(c);
    match c
    case CAddr(b, o) => v.P? && v.at == Global(b, o) && (b in m.texts ==> TextAt(m, r, b, o, v.bytes))
    case CInt(n) => v == I(n)
    case CZero => v.A? && v.len == I(0)
    case CPair(p, l) => v == A(r.consts(p), r.consts(l))
    case CUnknown(t) => t == TStr ==> IsStr(v)
  }

  // The bytes from offset o on are those of byte array b, which keeps its size.
  ghost predicate TextAt(m: Module, r: Run, b: nat, o: int, bytes: nat -> string)
    requires b in m.texts
  {
    forall now: nat :: |r.held(b, now)| == |m.texts[b]|
      && (0 <= o <= |m.texts[b]| ==> r.held(b, now)[o..] <= bytes(now))
  }

  // ---- globals that keep their initial contents ----

  // In this run global b holds what it was initialized with, all the time.
  ghost predicate Kept(m: Module, r: Run, b: nat) {
    && (b in m.texts ==> forall now: nat :: r.held(b, now) == m.texts[b])
    && (forall c, now: nat :: c in m.init && c.base == b ==> r.cell(c, now) == r.consts(m.init[c]))
  }

  function Named(c: Const): (bs: set<nat>) {
    match c
    case CAddr(b, _) => {b}
    case CPair(p, l) => Named(p) + Named(l)
    case _ => {}
  }

  // The globals whose addresses global g holds.
  function Mentions(m: Module, g: nat): (bs: set<nat>) {
    set c, b | c in m.init && c.base == g && b in Named(m.init[c]) :: b
  }

  // The globals that an operand points into, by casts, address arithmetic and loads.
  function PointsInto(m: Module, f: Fn, o: Operand): (bs: set<nat>)
    decreases if o.Ref? then o.x + 1 else 0
  {
    match o
    case C(c) => Named(c)
    case Arg(_) => {}
    case Ref(x) =>
      if x !in f.defs then {}
      else
        match f.defs[x]
        case Cast(p) => if p.Ref? ==> p.x < x then PointsInto(m, f, p) else {}
        case Gep(b, _, _, _) => if b.Ref? ==> b.x < x then PointsInto(m, f, b) else {}
        case Load(a, _) =>
          if a.Ref? ==> a.x < x then set g, b | g in PointsInto(m, f, a) && b in Mentions(m, g) :: b else {}
        case _ => {}
  }

  // Definition y neither writes into the globals nor hands on their addresses.
  ghost predicate LeavesAlone(m: Module, f: Fn, gs: set<nat>, y: nat)
    requires y in f.defs
  {
    && (forall k :: 0 <= k < |Leaks(f.defs[y])| ==> PointsInto(m, f, Leaks(f.defs[y])[k]) !! gs)
    && (f.defs[y].Phi? ==> forall q :: q in f.defs[y].incoming ==> PointsInto(m, f, f.defs[y].incoming[q]) !! gs)
    && (f.defs[y].Store? ==> PointsInto(m, f, f.defs[y].addr) !! gs)
  }

  ghost predicate FnLeavesAlone(m: Module, f: Fn, gs: set<nat>) {
    && (forall y :: y in f.defs ==> LeavesAlone(m, f, gs, y))
    && (forall n :: n in f.rets && f.rets[n].Some? ==> PointsInto(m, f, f.rets[n].value) !! gs)
  }

  // Addresses of these globals, and of those that hold such addresses, are only loaded
  // from and computed with.
  ghost predicate OnlyLoaded(m: Module, gs: set<nat>) {
    && (forall g: nat, b :: b in gs && b in Mentions(m, g) ==> g in gs)
    && (forall i {:trigger FnLeavesAlone(m, m.fns[i], gs)} :: 0 <= i < |m.fns| ==> FnLeavesAlone(m, m.fns[i], gs))
  }

  // Nothing writes global b: it is constant, or no address of it is used but for loads.
  ghost predicate Untouched(m: Module, b: nat) {
    b in m.constants || exists gs: set<nat> :: b in gs && OnlyLoaded(m, gs)
  }

  ghost function Part(v: V, i: nat): (w: V) {
    if !v.A? then Other else if i == 0 then v.ptr else v.len
  }

  // The i-th argument on, taken as a string: its end and its text.
  function NextArg(f: Fn, args: seq<Operand>, i: nat): (n: nat) {
    if i < |args| && TypeOf(f, args[i]) == TStr then i + 1 else i + 2
  }

  ghost predicate ArgIs(r: Run, a: Act, e: nat, f: Fn, args: seq<Operand>, i: nat, now: nat, s: string) {
    && NextArg(f, args, i) <= |args|
    && (if TypeOf(f, args[i]) == TStr then StrIs(now, Value(r, a, e, args[i]), s)
        else Denotes(now, Value(r, a, e, args[i]), Value(r, a, e, args[i + 1]), s))
  }

  // At any time the result holds what its operands held at some time.
  ghost predicate CatOk(r: Run, a: Act, e: nat, f: Fn, args: seq<Operand>, v: V) {
    NextArg(f, args, NextArg(f, args, 0)) == |args| ==> forall now: nat :: Concatenates(r, a, e, f, args, v, now)
  }

  ghost predicate Concatenates(r: Run, a: Act, e: nat, f: Fn, args: seq<Operand>, v: V, now: nat) {
    exists before: nat, s, t ::
      && ArgIs(r, a, e, f, args, 0, before, s) && ArgIs(r, a, e, f, args, NextArg(f, args, 0), before, t)
      && StrIs(now, v, s + t)
  }

  // A slice that returns had its bounds in range. It shares the bytes of its operand.
  ghost predicate SliceOk(r: Run, a: Act, e: nat, f: Fn, args: seq<Operand>, bounds: nat, v: V) {
    bounds >= 2 && |args| == NextArg(f, args, 0) + bounds ==> forall now: nat :: IsSliceOf(r, a, e, f, args, v, now)
  }

  ghost predicate IsSliceOf(r: Run, a: Act, e: nat, f: Fn, args: seq<Operand>, v: V, now: nat)
    requires |args| >= NextArg(f, args, 0) + 2
  {
    var n := NextArg(f, args, 0);
    exists s, lo, hi ::
      && ArgIs(r, a, e, f, args, 0, now, s)
      && Value(r, a, e, args[n]) == I(lo) && Value(r, a, e, args[n + 1]) == I(hi)
      && 0 <= lo <= hi <= |s| && StrIs(now, v, s[lo..hi])
  }

  // Activation b was called at the site and returned v.
  ghost predicate Returned(m: Module, r: Run, site: Site, b: nat, v: V) {
    && b < |r.acts| && r.acts[b].parent == Some(site) && r.acts[b].fn < |m.fns| && |r.acts[b].path| >= 2
    && var f := m.fns[r.acts[b].fn];
       var n := r.acts[b].path[|r.acts[b].path| - 1];
       n in f.rets && (f.rets[n].Some? ==> v == Value(r, r.acts[b], |r.acts[b].path| - 2, f.rets[n].value))
  }

  // ---- addresses ----

  function Moved(q: Place, n: int): (p: Place) {
    match q
    case Global(b, o) => Global(b, o + n)
    case Local(i, x, o) => Local(i, x, o + n)
    case Elsewhere => Elsewhere
  }

  predicate Below(n: int, bound: Option<nat>) {
    bound.Some? ==> 0 <= n < bound.value
  }

  // The array that begins at a place.
  ghost function ArrayAt(m: Module, r: Run, q: Place): (t: Option<ArrayOf>) {
    match q
    case Global(b, 0) => if b in m.arrays then Some(m.arrays[b]) else None
    case Local(i, x, 0) =>
      if i < |r.acts| && r.acts[i].fn < |m.fns| && x in m.fns[r.acts[i].fn].defs && m.fns[r.acts[i].fn].defs[x].Alloca?
      then m.fns[r.acts[i].fn].defs[x].items else None
    case _ => None
  }

  // How far the first index may go.
  function BoundOf(t: Option<ArrayOf>, elem: Elem): (b: Option<nat>) {
    if t.Some? && t.value.elem == elem then Some(t.value.len) else None
  }

  // The distance that the steps go, if every index is in range.
  ghost function Distance(r: Run, a: Act, e: nat, steps: seq<Step>): (d: Option<int>) {
    if steps == [] then Some(0)
    else
      var front, step := Distance(r, a, e, steps[..|steps| - 1]), steps[|steps| - 1];
      if front.None? then None
      else match step
        case Field(k) => Some(front.value + k)
        case Item(index, stride, bound) =>
          var v := Value(r, a, e, index.o);
          if v.I? && Below(v.n, bound) then Some(front.value + v.n * stride) else None
  }

  // All steps of an address computation, with a bound for the first index.
  function Steps(d: Def, bound: Option<nat>): (s: seq<Step>)
    requires d.Gep?
  {
    [Item(d.first, d.source.size, bound)] + d.rest
  }

  // Address arithmetic from address w.
  ghost predicate GepOk(m: Module, r: Run, a: Act, e: nat, d: Def, w: V, v: V)
    requires d.Gep?
  {
    var n := Distance(r, a, e, Steps(d, if w.P? then BoundOf(ArrayAt(m, r, w.at), d.source) else None));
    if w.Poison? || n.None? then v == Poison
    else w.P? && w.at != Elsewhere ==> v.P? && v.at == Moved(w.at, n.value)
  }

  // A load from address w by activation i. Reading through a bad address does not go on.
  ghost predicate LoadOk(m: Module, r: Run, i: nat, e: nat, f: Fn, what: Access, w: V, v: V)
    requires i < |r.acts|
  {
    && w != Poison
    && (w.P? && w.at.Global? ==> exists now: nat :: v == r.cell(Cell(w.at.base, w.at.off, what), now))
    && (w.P? && w.at.Local? && w.at.act == i && Confined(f, w.at.x) ==> v == r.acts[i].mem(e, w.at.x, w.at.off, what))
  }

  // Step e of activation i gives x its value, from the values before it.
  ghost predicate Gives(m: Module, r: Run, i: nat, e: nat, f: Fn, x: nat, d: Def)
    requires i < |r.acts| && 1 <= e < |r.acts[i].path|
  {
    var a := r.acts[i];
    var v := a.val(e, x);
    match d
    case Phi(inc) => a.path[e - 1] in inc ==> v == Value(r, a, e - 1, inc[a.path[e - 1]])
    case Select(c, t, u) => v == Value(r, a, e - 1, if Value(r, a, e - 1, c) == I(1) then t else u)
    case Cast(p) => v == Value(r, a, e - 1, p)
    case ZExtBool => v == I(0) || v == I(1)
    case Insert(g, k, y) =>
      var w := Value(r, a, e - 1, g);
      (k == 0 ==> v == A(Value(r, a, e - 1, y), Part(w, 1))) && (k == 1 ==> v == A(Part(w, 0), Value(r, a, e - 1, y)))
      && (k > 1 ==> v == w)
    case Extract(g, k) => k <= 1 ==> v == Part(Value(r, a, e - 1, g), k)
    case Call(kind, callee, args) =>
      && (kind.Cat? ==> CatOk(r, a, e - 1, f, args, v))
      && (kind.Slice? ==> SliceOk(r, a, e - 1, f, args, kind.bounds, v))
      && (callee.Some? ==> exists b: nat :: Returned(m, r, Site(i, e, x), b, v))
    case Load(o, what) => LoadOk(m, r, i, e - 1, f, what, Value(r, a, e - 1, o), v)
    case Store(o, _, _) => Value(r, a, e - 1, o) != Poison
    case Alloca(_) => v.P? && v.at == Local(i, x, 0)
    case Gep(b, _, _, _) => GepOk(m, r, a, e - 1, d, Value(r, a, e - 1, b), v)
    case Unknown(_) => true
  }

  predicate Overlap(o: int, n: nat, o': int, n': nat) {
    o < o' + n' && o' < o + n
  }

  // The store y runs at this node, through an address derived from x.
  ghost predicate Writes(f: Fn, node: nat, x: nat, y: nat) {
    y in f.defs && f.defs[y].Store? && y in f.node && f.node[y] == node && Root(f, f.defs[y].addr) == Some(x)
  }

  // A cell of a confined local changes when the local is made anew, and by stores through
  // addresses derived from it. A store that overlaps a cell in part leaves anything there.
  ghost predicate CellOk(r: Run, i: nat, e: nat, f: Fn, x: nat, off: int, what: Access)
    requires i < |r.acts| && 1 <= e < |r.acts[i].path|
  {
    var a := r.acts[i];
    x in f.defs && x in f.node && f.defs[x].Alloca? && Confined(f, x) && f.node[x] != a.path[e] ==>
      && ((forall y :: !Writes(f, a.path[e], x, y)) ==> a.mem(e, x, off, what) == a.mem(e - 1, x, off, what))
      && (forall y :: Writes(f, a.path[e], x, y) ==>
            WriteOk(i, f.defs[y].what, Value(r, a, e - 1, f.defs[y].addr), Value(r, a, e - 1, f.defs[y].val),
                    x, off, what, a.mem(e - 1, x, off, what), a.mem(e, x, off, what)))
  }

  // Writing v at address w turns the cell's value from `was` to `now`.
  ghost predicate WriteOk(i: nat, how: Access, w: V, v: V, x: nat, off: int, what: Access, was: V, now: V) {
    w.P? && w.at.Local? && w.at.act == i && w.at.x == x ==>
      && (w.at.off == off && how == what ==> now == v)
      && (!Overlap(w.at.off, how.size, off, what.size) ==> now == was)
  }

  // Step e of activation i has been completed.
  ghost predicate StepOk(m: Module, r: Run, i: nat, e: nat, x: nat)
    requires i < |r.acts| && r.acts[i].fn < |m.fns| && 1 <= e < |r.acts[i].path|
  {
    var a := r.acts[i];
    var f := m.fns[a.fn];
    x in f.defs && x in f.node ==>
      if f.node[x] == a.path[e]
      then Gives(m, r, i, e, f, x, f.defs[x]) && (TypeOf(f, Ref(x)) == TStr ==> IsStr(a.val(e, x)))
      else a.val(e, x) == a.val(e - 1, x)
  }

  // The activation was called directly with the values of the call's operands, or else
  // it runs a function without parameters or one with other uses.
  ghost predicate CalledOk(m: Module, r: Run, i: nat)
    requires i < |r.acts| && r.acts[i].fn < |m.fns|
  {
    var a := r.acts[i];
    if a.parent.None? then a.fn in m.escaped || m.fns[a.fn].params == []
    else
      var site := a.parent.value;
      && site.act < |r.acts| && r.acts[site.act].fn < |m.fns|
      && 1 <= site.step < |r.acts[site.act].path|
      && var c := r.acts[site.act];
         var f := m.fns[c.fn];
         && site.call in f.defs && f.defs[site.call].Call? && f.defs[site.call].callee == Some(a.fn)
         && site.call in f.node && f.node[site.call] == c.path[site.step]
         && |a.args| == |f.defs[site.call].args|
         && forall k :: 0 <= k < |a.args| ==> a.args[k] == Value(r, c, site.step - 1, f.defs[site.call].args[k])
  }

  ghost predicate ActOk(m: Module, r: Run, i: nat)
    requires i < |r.acts|
  {
    var a := r.acts[i];
    && a.fn < |m.fns| && IsPath(m.fns[a.fn].succs, a.path) && CalledOk(m, r, i) && |m.fns[a.fn].params| <= |a.args|
    && (forall e: nat, x: nat :: 1 <= e < |a.path| - 1 ==> StepOk(m, r, i, e, x))
    && (forall e: nat, x: nat, off: int, what: Access :: 1 <= e < |a.path| - 1 ==>
          CellOk(r, i, e, m.fns[a.fn], x, off, what))
    && (forall k :: 0 <= k < |m.fns[a.fn].params| && m.fns[a.fn].params[k] == TStr ==> IsStr(a.args[k]))
  }

  ghost predicate IsRun(m: Module, r: Run) {
    && (forall c :: ConstOk(m, r, c)) && (forall b :: Untouched(m, b) ==> Kept(m, r, b))
    && forall i :: 0 <= i < |r.acts| ==> ActOk(m, r, i)
  }

  // After step e of activation i, which runs function f and goes on.
  ghost predicate At(m: Module, r: Run, i: nat, e: nat, f: nat) {
    && Wf(m) && IsRun(m, r) && i < |r.acts| && r.acts[i].fn == f < |m.fns| && e + 1 < |r.acts[i].path|
  }

  ghost predicate Here(m: Module, r: Run, i: nat, e: nat, f: nat, o: Operand) {
    At(m, r, i, e, f) && Avail(m.fns[f], o, r.acts[i].path[e])
  }

  // ---- SSA values stay in step ----

  lemma PathSoFar(m: Module, r: Run, i: nat, e: nat, f: nat)
    requires At(m, r, i, e, f)
    ensures var p := r.acts[i].path[..e + 1]; IsPath(m.fns[f].succs, p) && p[|p| - 1] == r.acts[i].path[e]
  {
    assert ActOk(m, r, i);
  }

  // The last run of an available value, whose result is the current value.
  lemma LastRun(m: Module, r: Run, i: nat, e: nat, f: nat, x: nat) returns (l: nat)
    requires Here(m, r, i, e, f, Ref(x))
    ensures 1 <= l <= e && r.acts[i].path[l] == m.fns[f].node[x] && StepOk(m, r, i, l, x)
    ensures forall t :: l < t <= e ==> r.acts[i].path[t] != m.fns[f].node[x]
    ensures r.acts[i].val(e, x) == r.acts[i].val(l, x)
  {
    var a, g := r.acts[i], m.fns[f];
    var p := a.path[..e + 1];
    PathSoFar(m, r, i, e, f);
    l := LastOf(g.succs, p, g.node[x]);
    assert WfFn(m.fns[f]) && WfDef(g, x);
    assert p[l] == a.path[l];
    assert forall t :: l < t <= e ==> p[t] == a.path[t];
    Frame(m, r, i, l, e, x);
    assert ActOk(m, r, i);
  }

  lemma {:induction false} Frame(m: Module, r: Run, i: nat, l: nat, e: nat, y: nat)
    requires IsRun(m, r) && i < |r.acts| && r.acts[i].fn < |m.fns| && l <= e && e + 1 < |r.acts[i].path|
    requires y in m.fns[r.acts[i].fn].defs && y in m.fns[r.acts[i].fn].node
    requires forall t :: l < t <= e ==> r.acts[i].path[t] != m.fns[r.acts[i].fn].node[y]
    ensures r.acts[i].val(e, y) == r.acts[i].val(l, y)
    decreases e
  {
    if e > l {
      Frame(m, r, i, l, e - 1, y);
      assert ActOk(m, r, i);
      assert StepOk(m, r, i, e, y);
    }
  }

  // Between the last run of x and now, the operands of x have kept their values: a new
  // value of an operand would need a new run of x.
  lemma OperandKept(m: Module, r: Run, i: nat, e: nat, f: nat, x: nat, l: nat, o: Operand)
    requires Here(m, r, i, e, f, Ref(x)) && WfUse(m.fns[f], o, m.fns[f].node[x])
    requires 1 <= l <= e && r.acts[i].path[l] == m.fns[f].node[x]
    requires forall t :: l < t <= e ==> r.acts[i].path[t] != m.fns[f].node[x]
    ensures Value(r, r.acts[i], l - 1, o) == Value(r, r.acts[i], e, o) && Here(m, r, i, e, f, o)
  {
    if o.Ref? {
      var a, g := r.acts[i], m.fns[f];
      var p := a.path[..e + 1];
      PathSoFar(m, r, i, e, f);
      DominatesTransitive(g.succs, g.node[o.x], g.node[x], a.path[e]);
      forall t: nat | l - 1 < t <= e ensures a.path[t] != g.node[o.x] {
        if t > l {
          NoReturn(g.succs, p, g.node[o.x], g.node[x], l, t);
        }
      }
      Frame(m, r, i, l - 1, e, o.x);
    }
  }
}
