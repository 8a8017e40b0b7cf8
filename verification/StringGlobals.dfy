// When the initializer of a writable global may be read: a walk over the uses of its
// address. It follows pointers that are loaded from a global which holds the address, but
// only where the load is from the very start of that global. If no such pointer is loaded
// from elsewhere, what the walk accepts is never written.
module StringGlobals {
  import opened CfgPaths
  import opened Common
  import opened StringCover
  import opened StringRuns

  // A use of an address: by a definition, by a return, or in the initializer of a global.
  datatype User = UDef(fn: nat, y: nat) | URet(fn: nat, n: nat) | UGlobal(g: nat)

  // A use to look at, and whether pointers loaded from globals are followed there.
  datatype Visit = Visit(u: User, follow: bool)

  // All operands of a definition.
  function Uses(d: Def): (s: set<Operand>) {
    if d.Phi? then d.incoming.Values else set o | o in Operands(d)
  }

  predicate NamesGlobal(os: set<Operand>, b: nat) {
    exists o :: o in os && o.C? && b in Named(o.c)
  }

  function GlobalUsers(m: Module, b: nat): (us: set<User>) {
    (set i: nat, y | i < |m.fns| && y in m.fns[i].defs && NamesGlobal(Uses(m.fns[i].defs[y]), b) :: UDef(i, y))
    + (set i: nat, n | i < |m.fns| && n in m.fns[i].rets && m.fns[i].rets[n].Some?
                       && NamesGlobal({m.fns[i].rets[n].value}, b) :: URet(i, n))
    + (set c | c in m.init && b in Mentions(m, c.base) :: UGlobal(c.base))
  }

  function ValueUsers(m: Module, i: nat, x: nat): (us: set<User>)
    requires i < |m.fns|
  {
    (set y | y in m.fns[i].defs && Ref(x) in Uses(m.fns[i].defs[y]) :: UDef(i, y))
    + (set n | n in m.fns[i].rets && m.fns[i].rets[n] == Some(Ref(x)) :: URet(i, n))
  }

  // Loads, address arithmetic and casts do no harm, nor does an initializer.
  predicate Harmless(m: Module, u: User) {
    match u
    case UDef(i, y) =>
      && i < |m.fns| && y in m.fns[i].defs
      && (m.fns[i].defs[y].Load? || m.fns[i].defs[y].Cast? || m.fns[i].defs[y].Gep?)
    case URet(_, _) => false
    case UGlobal(_) => true
  }

  // The load reads a pointer from the start of a global.
  predicate AtStart(f: Fn, d: Def)
    requires WfFn(f) && d.Load?
  {
    var a := StripCasts(f, d.addr);
    d.what.ty == TPtr && a.C? && a.c.CAddr? && a.c.off == 0
  }

  function Each(us: set<User>, follow: bool): (vs: set<Visit>) {
    set u | u in us :: Visit(u, follow)
  }

  // What has to be looked at next.
  function Next(m: Module, v: Visit): (vs: set<Visit>)
    requires Wf(m) && Harmless(m, v.u)
  {
    match v.u
    case UGlobal(g) => Each(GlobalUsers(m, g), true)
    case UDef(i, y) =>
      assert WfFn(m.fns[i]);
      if !m.fns[i].defs[y].Load? then Each(ValueUsers(m, i, y), v.follow)
      else if v.follow && AtStart(m.fns[i], m.fns[i].defs[y]) then Each(ValueUsers(m, i, y), false)
      else {}
    case URet(_, _) => {}
  }

  // Global g holds the address of b, or of a global that leads to b.
  least predicate LeadsTo(m: Module, g: nat, b: nat) {
    g == b || exists k :: k in Mentions(m, g) && LeadsTo(m, k, b)
  }

  // Visit v is where the walk comes from b, directly or from a use it has seen.
  ghost predicate Caused(m: Module, b: nat, seen: map<User, bool>, v: Visit)
    requires Wf(m)
  {
    v in Each(GlobalUsers(m, b), false) || exists w :: w in seen && Harmless(m, w) && v in Next(m, Visit(w, seen[w]))
  }

  // The uses seen are all harmless, and nothing is left to look at.
  ghost predicate Walked(m: Module, b: nat, seen: map<User, bool>)
    requires Wf(m)
  {
    && (forall u :: u in GlobalUsers(m, b) ==> u in seen)
    && (forall u :: u in seen ==> Harmless(m, u) && forall v :: v in Next(m, Visit(u, seen[u])) ==> v.u in seen)
    && (forall u :: u in seen ==> Caused(m, b, seen, Visit(u, seen[u])))
    && (forall g :: UGlobal(g) in seen ==> LeadsTo(m, g, b))
  }

  // Visits of harmless uses that lead only to each other.
  ghost predicate AllHarmless(m: Module, b: nat, all: set<Visit>)
    requires Wf(m)
  {
    && Each(GlobalUsers(m, b), false) <= all
    && forall v :: v in all ==> Harmless(m, v.u) && Next(m, v) <= all
  }

  function Universe(m: Module): (us: set<User>) {
    (set i: nat, y | i < |m.fns| && y in m.fns[i].defs :: UDef(i, y))
    + (set i: nat, n | i < |m.fns| && n in m.fns[i].rets :: URet(i, n))
    + (set c | c in m.init :: UGlobal(c.base))
  }

  lemma NextInside(m: Module, v: Visit)
    requires Wf(m) && Harmless(m, v.u)
    ensures forall w :: w in Next(m, v) ==> w.u in Universe(m)
  {
  }

  lemma NextLeads(m: Module, b: nat, v: Visit, w: Visit)
    requires Wf(m) && Harmless(m, v.u) && w in Next(m, v) && w.u.UGlobal? && (v.u.UGlobal? ==> LeadsTo(m, v.u.g, b))
    ensures LeadsTo(m, w.u.g, b)
  {
    assert v.u.g in Mentions(m, w.u.g);
  }

  ghost predicate Pending(met: map<User, bool>, todo: set<Visit>, u: User) {
    u in met || Visit(u, false) in todo || Visit(u, true) in todo
  }

  // What the walk keeps.
  ghost predicate Closing(m: Module, b: nat, met: map<User, bool>, todo: set<Visit>)
    requires Wf(m)
  {
    && (forall u :: u in GlobalUsers(m, b) ==> Pending(met, todo, u))
    && (forall u :: u in met ==>
          Harmless(m, u) && forall v :: v in Next(m, Visit(u, met[u])) ==> Pending(met, todo, v.u))
  }

  ghost predicate Tracked(m: Module, b: nat, met: map<User, bool>, todo: set<Visit>)
    requires Wf(m)
  {
    && (forall u :: u in met ==> Caused(m, b, met, Visit(u, met[u])))
    && (forall v :: v in todo ==> Caused(m, b, met, v))
    && (forall g :: UGlobal(g) in met ==> LeadsTo(m, g, b))
    && (forall v :: v in todo && v.u.UGlobal? ==> LeadsTo(m, v.u.g, b))
  }

  // Nothing outside the set has been met.
  ghost predicate Inside(met: map<User, bool>, todo: set<Visit>, all: set<User>) {
    met.Keys <= all && forall v :: v in todo ==> v.u in all
  }

  lemma WalkStarts(m: Module, b: nat)
    requires Wf(m)
    ensures var todo := Each(GlobalUsers(m, b), false);
            && Closing(m, b, map[], todo) && Tracked(m, b, map[], todo) && Inside(map[], todo, Universe(m))
            && forall all :: AllHarmless(m, b, all) ==> todo <= all
  {
    var todo := Each(GlobalUsers(m, b), false);
    forall v | v in todo && v.u.UGlobal? ensures LeadsTo(m, v.u.g, b) {
      assert b in Mentions(m, v.u.g) && LeadsTo(m, b, b);
    }
  }

  // A use met before is passed over.
  lemma WalkSkips(m: Module, b: nat, met: map<User, bool>, todo: set<Visit>, v: Visit)
    requires Wf(m) && Closing(m, b, met, todo) && v in todo && v.u in met
    ensures Closing(m, b, met, todo - {v})
  {
    hide Next, GlobalUsers, Harmless;
    forall u | Pending(met, todo, u) ensures Pending(met, todo - {v}, u) {
    }
  }

  lemma PendingOn(m: Module, met: map<User, bool>, todo: set<Visit>, v: Visit, u: User)
    requires Wf(m) && Harmless(m, v.u) && v in todo && Pending(met, todo, u)
    ensures Pending(met[v.u := v.follow], todo - {v} + Next(m, v), u)
  {
  }

  lemma WalkCloses(m: Module, b: nat, met: map<User, bool>, todo: set<Visit>, v: Visit)
    requires Wf(m) && Closing(m, b, met, todo) && v in todo && v.u !in met && Harmless(m, v.u)
    ensures Closing(m, b, met[v.u := v.follow], todo - {v} + Next(m, v))
  {
    hide Next, GlobalUsers, Harmless, Pending;
    var met', todo' := met[v.u := v.follow], todo - {v} + Next(m, v);
    forall u | u in GlobalUsers(m, b) ensures Pending(met', todo', u) {
      PendingOn(m, met, todo, v, u);
    }
    forall u, w | u in met' && w in Next(m, Visit(u, met'[u])) ensures Pending(met', todo', w.u) {
      if u == v.u {
        assert Visit(v.u, v.follow) == v;
        PendingNow(met', todo', w);
      } else {
        PendingOn(m, met, todo, v, w.u);
      }
    }
  }

  lemma PendingNow(met: map<User, bool>, todo: set<Visit>, w: Visit)
    requires w in todo
    ensures Pending(met, todo, w.u)
  {
    assert w == Visit(w.u, w.follow);
  }

  lemma CausedStays(m: Module, b: nat, met: map<User, bool>, u: User, follow: bool, v: Visit)
    requires Wf(m) && u !in met && Caused(m, b, met, v)
    ensures Caused(m, b, met[u := follow], v)
  {
    if w :| w in met && Harmless(m, w) && v in Next(m, Visit(w, met[w])) {
      assert w in met[u := follow];
    }
  }

  lemma WalkTracks(m: Module, b: nat, met: map<User, bool>, todo: set<Visit>, v: Visit)
    requires Wf(m) && Tracked(m, b, met, todo) && v in todo && v.u !in met && Harmless(m, v.u)
    ensures Tracked(m, b, met[v.u := v.follow], todo - {v} + Next(m, v))
  {
    hide Next, Harmless, Caused;
    var met', todo' := met[v.u := v.follow], todo - {v} + Next(m, v);
    forall u | u in met' ensures Caused(m, b, met', Visit(u, met'[u])) {
      assert u == v.u ==> Visit(u, met'[u]) == v;
      CausedStays(m, b, met, v.u, v.follow, Visit(u, met'[u]));
    }
    forall w | w in todo' ensures Caused(m, b, met', w) && (w.u.UGlobal? ==> LeadsTo(m, w.u.g, b)) {
      if w in todo {
        CausedStays(m, b, met, v.u, v.follow, w);
      } else {
        CausedBy(m, b, met', v, w);
        if w.u.UGlobal? {
          NextLeads(m, b, v, w);
        }
      }
    }
  }

  lemma CausedBy(m: Module, b: nat, met: map<User, bool>, v: Visit, w: Visit)
    requires Wf(m) && v.u in met && met[v.u] == v.follow && Harmless(m, v.u) && w in Next(m, v)
    ensures Caused(m, b, met, w)
  {
    assert v == Visit(v.u, met[v.u]);
  }

  lemma HarmlessStep(m: Module, b: nat, v: Visit, all: set<Visit>)
    requires Wf(m) && AllHarmless(m, b, all) && v in all
    ensures Harmless(m, v.u) && Next(m, v) <= all
  {
  }

  lemma WalkUniverse(m: Module, met: map<User, bool>, todo: set<Visit>, v: Visit)
    requires Wf(m) && Inside(met, todo, Universe(m)) && v in todo && Harmless(m, v.u)
    ensures Inside(met[v.u := v.follow], todo - {v} + Next(m, v), Universe(m))
  {
    hide Next, Universe, Harmless;
    NextInside(m, v);
  }

  // The walk. Each use is looked at once, as it is first met.
  method OnlyReadUses(m: Module, b: nat) returns (ok: bool, ghost seen: map<User, bool>)
    requires Wf(m)
    ensures ok ==> Walked(m, b, seen)
    ensures (exists all :: AllHarmless(m, b, all)) ==> ok
  {
    hide Next, GlobalUsers, Harmless, Universe, Caused, AllHarmless, Wf, Closing, Tracked;
    var met: map<User, bool> := map[];
    var todo := Each(GlobalUsers(m, b), false);
    WalkStarts(m, b);
    while todo != {}
      invariant Closing(m, b, met, todo) && Tracked(m, b, met, todo) && Inside(met, todo, Universe(m))
      invariant forall all :: AllHarmless(m, b, all) ==> todo <= all
      decreases |Universe(m) - met.Keys|, |todo|
    {
      var v :| v in todo;
      if v.u in met {
        WalkSkips(m, b, met, todo, v);
        Fewer(m, b, met, todo, v);
        todo := todo - {v};
      } else if !Harmless(m, v.u) {
        forall all | AllHarmless(m, b, all) ensures false {
          HarmlessStep(m, b, v, all);
        }
        return false, met;
      } else {
        WalkCloses(m, b, met, todo, v);
        WalkTracks(m, b, met, todo, v);
        WalkUniverse(m, met, todo, v);
        forall all | AllHarmless(m, b, all) ensures todo - {v} + Next(m, v) <= all {
          HarmlessStep(m, b, v, all);
        }
        assert Universe(m) - met[v.u := v.follow].Keys < Universe(m) - met.Keys by {
          assert v.u in Universe(m) - met.Keys;
        }
        Shrinks(Universe(m) - met[v.u := v.follow].Keys, Universe(m) - met.Keys);
        met, todo := met[v.u := v.follow], todo - {v} + Next(m, v);
      }
    }
    WalkEnds(m, b, met);
    return true, met;
  }

  lemma Shrinks<T>(a: set<T>, b: set<T>)
    requires a < b
    ensures |a| < |b|
  {
    var x :| x in b && x !in a;
    assert b == a + {x} + (b - a - {x});
  }

  lemma Fewer(m: Module, b: nat, met: map<User, bool>, todo: set<Visit>, v: Visit)
    requires Wf(m) && Tracked(m, b, met, todo)
    ensures Tracked(m, b, met, todo - {v})
  {
  }

  lemma WalkEnds(m: Module, b: nat, met: map<User, bool>)
    requires Wf(m) && Closing(m, b, met, {}) && Tracked(m, b, met, {})
    ensures Walked(m, b, met)
  {
  }

  // ---- what the walk's answer means ----

  // Indices are integers: none is derived from an address.
  ghost predicate PlainIndices(m: Module) {
    forall i: nat, y :: i < |m.fns| && y in m.fns[i].defs && m.fns[i].defs[y].Gep? ==>
      forall k :: 0 <= k < |Leaks(m.fns[i].defs[y])| ==> PointsInto(m, m.fns[i], Leaks(m.fns[i].defs[y])[k]) == {}
  }

  // If load y can give an address that leads to b, it is from the start of a global other
  // than b, so that the walk follows it.
  ghost predicate Followed(m: Module, f: Fn, y: nat, b: nat)
    requires WfFn(f) && y in f.defs && f.defs[y].Load?
  {
    (exists g, k :: g in PointsInto(m, f, f.defs[y].addr) && k in Mentions(m, g) && LeadsTo(m, k, b)) ==>
      AtStart(f, f.defs[y]) && StripCasts(f, f.defs[y].addr).c.base != b
  }

  ghost predicate AllFollowed(m: Module, b: nat)
    requires Wf(m)
  {
    forall i: nat, y :: i < |m.fns| && y in m.fns[i].defs && m.fns[i].defs[y].Load? ==>
      assert WfFn(m.fns[i]); Followed(m, m.fns[i], y, b)
  }

  // b and the globals that were met.
  function Holders(b: nat, seen: map<User, bool>): (gs: set<nat>) {
    {b} + set u | u in seen && u.UGlobal? :: u.g
  }

  lemma HolderUsers(m: Module, b: nat, seen: map<User, bool>, k: nat)
    requires Wf(m) && Walked(m, b, seen) && k in Holders(b, seen)
    ensures LeadsTo(m, k, b) && forall u :: u in GlobalUsers(m, k) ==> u in seen
  {
    hide GlobalUsers;
    if k != b {
      var u := UGlobal(k);
      assert u in seen;
      forall w | w in GlobalUsers(m, k) ensures w in seen {
        assert Visit(w, true) in Next(m, Visit(u, seen[u]));
      }
    }
  }

  lemma HoldersClosed(m: Module, b: nat, seen: map<User, bool>, g: nat, k: nat)
    requires Wf(m) && Walked(m, b, seen) && k in Holders(b, seen) && k in Mentions(m, g)
    ensures g in Holders(b, seen)
  {
    HolderUsers(m, b, seen, k);
    var c :| c in m.init && c.base == g && k in Named(m.init[c]);
    assert UGlobal(c.base) in GlobalUsers(m, k);
  }

  // What makes the walk meet a definition without following: a use of b, or a value it uses.
  lemma NextUnfollowed(m: Module, w: User, follow: bool, i: nat, y: nat)
    requires Wf(m) && Harmless(m, w) && Visit(UDef(i, y), false) in Next(m, Visit(w, follow))
    ensures w.UDef? && w.fn == i && y in m.fns[i].defs && Ref(w.y) in Uses(m.fns[i].defs[y])
    ensures !m.fns[i].defs[w.y].Load? ==> !follow
  {
    hide GlobalUsers, WfFn, StripCasts;
  }

  lemma UserOfGlobal(m: Module, b: nat, i: nat, y: nat)
    requires UDef(i, y) in GlobalUsers(m, b)
    ensures i < |m.fns| && y in m.fns[i].defs && NamesGlobal(Uses(m.fns[i].defs[y]), b)
  {
  }

  lemma SingleUse(d: Def, o: Operand)
    requires (d.Cast? && d.p == o) || (d.Load? && d.addr == o)
    ensures Uses(d) == {o} && Operands(d) == [o]
  {
    assert Operands(d)[0] == o;
  }

  // A cast or load that was met without following comes from b itself.
  lemma {:induction false} Unfollowed(m: Module, b: nat, seen: map<User, bool>, i: nat, y: nat, o: Operand)
    requires Wf(m) && i < |m.fns| && WfFn(m.fns[i]) && Walked(m, b, seen)
    requires UDef(i, y) in seen && !seen[UDef(i, y)] && y in m.fns[i].defs
    requires (m.fns[i].defs[y].Cast? && m.fns[i].defs[y].p == o)
             || (m.fns[i].defs[y].Load? && m.fns[i].defs[y].addr == o)
    requires StripCasts(m.fns[i], o).C? && StripCasts(m.fns[i], o).c.CAddr?
    ensures StripCasts(m.fns[i], o).c.base == b
    decreases y
  {
    hide Next, GlobalUsers, Uses, Operands;
    var d, v := m.fns[i].defs[y], Visit(UDef(i, y), false);
    SingleUse(d, o);
    assert WfDef(m.fns[i], y) && Operands(d)[0] == o;
    assert Caused(m, b, seen, v);
    if v in Each(GlobalUsers(m, b), false) {
      UserOfGlobal(m, b, i, y);
    } else {
      var w :| w in seen && Harmless(m, w) && v in Next(m, Visit(w, seen[w]));
      NextUnfollowed(m, w, seen[w], i, y);
      assert o == Ref(w.y) && w == UDef(i, w.y);
      Unfollowed(m, b, seen, i, w.y, m.fns[i].defs[w.y].p);
    }
  }

  // Every use of an operand that points into a holder has been met.
  ghost predicate UsesMet(m: Module, seen: map<User, bool>, i: nat, o: Operand)
    requires i < |m.fns|
  {
    && (forall y :: y in m.fns[i].defs && o in Uses(m.fns[i].defs[y]) ==> UDef(i, y) in seen)
    && (forall n :: n in m.fns[i].rets && m.fns[i].rets[n] == Some(o) ==> URet(i, n) in seen)
  }

  lemma ConstMet(m: Module, b: nat, seen: map<User, bool>, i: nat, c: Const, k: nat)
    requires Wf(m) && i < |m.fns| && Walked(m, b, seen) && k in Holders(b, seen) && k in Named(c)
    ensures UsesMet(m, seen, i, C(c))
  {
    HolderUsers(m, b, seen, k);
    forall y | y in m.fns[i].defs && C(c) in Uses(m.fns[i].defs[y]) ensures UDef(i, y) in seen {
      assert NamesGlobal(Uses(m.fns[i].defs[y]), k);
    }
    forall n | n in m.fns[i].rets && m.fns[i].rets[n] == Some(C(c)) ensures URet(i, n) in seen {
      assert C(c) in {m.fns[i].rets[n].value} && NamesGlobal({m.fns[i].rets[n].value}, k);
    }
  }

  // The uses of a value that the walk went on from.
  lemma ValueMet(m: Module, b: nat, seen: map<User, bool>, i: nat, x: nat, follow: bool)
    requires Wf(m) && i < |m.fns| && Walked(m, b, seen) && UDef(i, x) in seen && Harmless(m, UDef(i, x))
    requires Next(m, Visit(UDef(i, x), seen[UDef(i, x)])) == Each(ValueUsers(m, i, x), follow)
    ensures UsesMet(m, seen, i, Ref(x))
  {
    hide Next, Harmless, GlobalUsers, Caused;
    forall u | u in ValueUsers(m, i, x) ensures u in seen {
      assert Visit(u, follow) in Next(m, Visit(UDef(i, x), seen[UDef(i, x)]));
    }
  }

  lemma {:induction false} OperandMet(m: Module, b: nat, seen: map<User, bool>, i: nat, o: Operand, k: nat)
    requires Wf(m) && i < |m.fns| && Walked(m, b, seen) && AllFollowed(m, b)
    requires k in PointsInto(m, m.fns[i], o) && k in Holders(b, seen)
    ensures UsesMet(m, seen, i, o)
    decreases if o.Ref? then o.x + 1 else 0
  {
    if o.C? {
      ConstMet(m, b, seen, i, o.c, k);
    } else if o.Ref? {
      var f, d := m.fns[i], m.fns[i].defs[o.x];
      assert WfFn(f) && WfDef(f, o.x);
      match d
      case Cast(p) =>
        assert Operands(d)[0] == p;
        OperandMet(m, b, seen, i, p, k);
        ValueMet(m, b, seen, i, o.x, seen[UDef(i, o.x)]);
      case Gep(p, _, _, _) =>
        assert Operands(d)[0] == p;
        OperandMet(m, b, seen, i, p, k);
        ValueMet(m, b, seen, i, o.x, seen[UDef(i, o.x)]);
      case Load(a, _) =>
        assert Operands(d)[0] == a;
        var g :| g in PointsInto(m, f, a) && k in Mentions(m, g);
        HoldersClosed(m, b, seen, g, k);
        OperandMet(m, b, seen, i, a, g);
        LoadMet(m, b, seen, i, o.x, g, k);
    }
  }

  lemma LoadMet(m: Module, b: nat, seen: map<User, bool>, i: nat, x: nat, g: nat, k: nat)
    requires Wf(m) && i < |m.fns| && Walked(m, b, seen) && AllFollowed(m, b)
    requires x in m.fns[i].defs && m.fns[i].defs[x].Load? && UDef(i, x) in seen
    requires g in PointsInto(m, m.fns[i], m.fns[i].defs[x].addr) && k in Mentions(m, g) && k in Holders(b, seen)
    ensures UsesMet(m, seen, i, Ref(x))
  {
    var f := m.fns[i];
    assert WfFn(f);
    HolderUsers(m, b, seen, k);
    assert Followed(m, f, x, b);
    if !seen[UDef(i, x)] {
      Unfollowed(m, b, seen, i, x, f.defs[x].addr);
    }
    ValueMet(m, b, seen, i, x, false);
  }

  lemma DefLeavesAlone(m: Module, b: nat, seen: map<User, bool>, i: nat, y: nat)
    requires Wf(m) && i < |m.fns| && Walked(m, b, seen) && AllFollowed(m, b) && PlainIndices(m) && y in m.fns[i].defs
    ensures LeavesAlone(m, m.fns[i], Holders(b, seen), y)
  {
    hide Walked, AllFollowed, PointsInto, Holders, Wf;
    var f, gs := m.fns[i], Holders(b, seen);
    var d := f.defs[y];
    if d.Gep? || d.Cast? || d.Load? {
      PlainLeaks(m, i, y);
    } else {
      forall o | o in Uses(d) ensures PointsInto(m, f, o) !! gs {
        if k :| k in PointsInto(m, f, o) && k in gs {
          OperandMet(m, b, seen, i, o, k);
          SeenHarmless(m, b, seen, UDef(i, y));
        }
      }
      LeaksAreUses(d);
    }
  }

  lemma SeenHarmless(m: Module, b: nat, seen: map<User, bool>, u: User)
    requires Wf(m) && Walked(m, b, seen) && u in seen
    ensures Harmless(m, u)
  {
  }

  lemma PlainLeaks(m: Module, i: nat, y: nat)
    requires i < |m.fns| && PlainIndices(m) && y in m.fns[i].defs
    requires m.fns[i].defs[y].Gep? || m.fns[i].defs[y].Cast? || m.fns[i].defs[y].Load?
    ensures var l := Leaks(m.fns[i].defs[y]); forall k :: 0 <= k < |l| ==> PointsInto(m, m.fns[i], l[k]) == {}
  {
  }

  lemma LeaksAreUses(d: Def)
    requires !d.Gep? && !d.Cast? && !d.Load?
    ensures forall k :: 0 <= k < |Leaks(d)| ==> Leaks(d)[k] in Uses(d)
    ensures d.Store? ==> d.addr in Uses(d)
    ensures d.Phi? ==> forall q :: q in d.incoming ==> d.incoming[q] in Uses(d)
  {
    if d.Store? {
      assert Operands(d)[0] == d.addr && Operands(d)[1] == d.val;
    }
  }

  // The main result: a global that the walk accepts is never written, if all pointers that
  // lead to it are loaded where the walk follows them.
  lemma WalkSound(m: Module, b: nat, seen: map<User, bool>)
    requires Wf(m) && Walked(m, b, seen) && AllFollowed(m, b) && PlainIndices(m)
    ensures Untouched(m, b)
  {
    hide Walked, AllFollowed, PointsInto, LeavesAlone, Wf, PlainIndices, Mentions;
    var gs := Holders(b, seen);
    forall g: nat, k | k in gs && k in Mentions(m, g) ensures g in gs {
      HoldersClosed(m, b, seen, g, k);
    }
    forall i | 0 <= i < |m.fns| ensures FnLeavesAlone(m, m.fns[i], gs) {
      forall y | y in m.fns[i].defs ensures LeavesAlone(m, m.fns[i], gs, y) {
        DefLeavesAlone(m, b, seen, i, y);
      }
      forall n | n in m.fns[i].rets && m.fns[i].rets[n].Some?
        ensures PointsInto(m, m.fns[i], m.fns[i].rets[n].value) !! gs
      {
        if k :| k in PointsInto(m, m.fns[i], m.fns[i].rets[n].value) && k in gs {
          OperandMet(m, b, seen, i, m.fns[i].rets[n].value, k);
          SeenHarmless(m, b, seen, URet(i, n));
        }
      }
    }
    assert b in gs && OnlyLoaded(m, gs);
  }

  // The guard before an initializer is read.
  method CanReadGlobalInitializer(m: Module, b: nat) returns (ok: bool)
    requires Wf(m)
    ensures ok && AllFollowed(m, b) && PlainIndices(m) ==> Untouched(m, b)
    ensures b in m.constants || (exists all :: AllHarmless(m, b, all)) ==> ok
  {
    hide Walked, AllFollowed, AllHarmless, PlainIndices;
    if b in m.constants {
      return true;
    }
    ghost var seen;
    ok, seen := OnlyReadUses(m, b);
    if ok && AllFollowed(m, b) && PlainIndices(m) {
      WalkSound(m, b, seen);
    }
  }
}
