// The choice between exact and broad ids: an interface with implementers gets its exact
// ids on exactly their descriptors, any other falls back to broad ids.
module InterfacePass {
  import opened Common
  import opened InterfaceDescriptors
  import opened InterfaceIds

  // ---- what the pass must reach ----

  // Call c gives its exact id x to descriptor o, once its interface has been treated.
  ghost predicate Gives(o: Desc, c: Option<Call>, done: set<string>, x: string) {
    Uses(c, x) && c.value.decl.iface in done && Implements(o, c.value.decl)
  }

  // The offset of the slot that call c reaches on descriptor o.
  ghost function Target(o: Desc, c: Call): (r: nat)
    requires c.index < |c.decl.methods| && Implements(o, c.decl)
  {
    o.broad[c.decl.methods[c.index].broad]
  }

  // d is o with the exact ids of the interfaces in `done` added.
  ghost predicate Refined(o: Desc, d: Desc, calls: seq<Option<Call>>, done: set<string>) {
    && d.broad == o.broad
    && (forall x :: x in o.exact ==> x in d.exact && d.exact[x] == o.exact[x])
    && (forall s, x :: 0 <= s < |calls| ==> Given(o, d, calls[s], done, x))
    && (forall x :: x in d.exact ==> x in o.exact || Wanted(o, calls, done, x))
  }

  // d has the id x from call c, if c gives it.
  ghost predicate Given(o: Desc, d: Desc, c: Option<Call>, done: set<string>, x: string) {
    Gives(o, c, done, x) ==> x in d.exact && d.exact[x] == Target(o, c.value)
  }

  ghost predicate Wanted(o: Desc, calls: seq<Option<Call>>, done: set<string>, x: string) {
    exists s :: 0 <= s < |calls| && Gives(o, calls[s], done, x)
  }

  // The order of the interfaces does not matter: the outcome is determined.
  lemma RefinedUnique(o: Desc, d: Desc, e: Desc, calls: seq<Option<Call>>, done: set<string>)
    requires Refined(o, d, calls, done) && Refined(o, e, calls, done)
    ensures d == e
  {
    RefinedWithin(o, d, e, calls, done);
    RefinedWithin(o, e, d, calls, done);
    assert d.exact == e.exact;
  }

  lemma RefinedWithin(o: Desc, d: Desc, e: Desc, calls: seq<Option<Call>>, done: set<string>)
    requires Refined(o, d, calls, done) && Refined(o, e, calls, done)
    ensures forall x :: x in d.exact ==> x in e.exact && d.exact[x] == e.exact[x]
  {
    forall x | x in d.exact && x !in o.exact ensures x in e.exact && d.exact[x] == e.exact[x] {
      assert Wanted(o, calls, done, x);
      var s :| 0 <= s < |calls| && Gives(o, calls[s], done, x);
      assert Given(o, d, calls[s], done, x) && Given(o, e, calls[s], done, x);
    }
  }

  ghost predicate HasImplementer(descs: seq<Desc>, decl: Decl) {
    exists j :: 0 <= j < |descs| && Implements(descs[j], decl)
  }

  // The id of a check once the interfaces in `done` have been treated.
  ghost function FinalId(id: string, c: Option<Call>, descs: seq<Desc>, done: set<string>): (r: string)
    requires WfCall(c)
  {
    if c.Some? && c.value.decl.iface in done && !HasImplementer(descs, c.value.decl)
    then c.value.decl.methods[c.value.index].broad else id
  }

  // ---- granting the ids of one interface to one descriptor ----

  // d is was with the exact ids of the active methods among the first n added.
  ghost predicate Granted(was: Desc, d: Desc, decl: Decl, active: set<string>, n: nat)
    requires n <= |decl.methods| && Implements(was, decl)
  {
    && d.broad == was.broad
    && (forall x :: x in was.exact ==> x in d.exact && d.exact[x] == was.exact[x])
    && (forall i :: 0 <= i < n && decl.methods[i].exact in active ==>
          decl.methods[i].exact in d.exact && d.exact[decl.methods[i].exact] == was.broad[decl.methods[i].broad])
    && (forall x :: x in d.exact && x !in was.exact ==>
          x in active && exists i :: 0 <= i < n && decl.methods[i].exact == x)
  }

  ghost predicate Clash(d: Desc, m: Method) {
    m.broad in d.broad && m.exact in d.exact && d.exact[m.exact] != d.broad[m.broad]
  }

  // The methods of an interface have different exact ids.
  ghost predicate DistinctIds(decl: Decl) {
    forall i, j :: 0 <= i < j < |decl.methods| ==> decl.methods[i].exact != decl.methods[j].exact
  }

  method AddExact(d: Desc, m: Method) returns (ok: bool, d': Desc)
    ensures ok <==> !Clash(d, m)
    ensures ok ==>
              d' == if m.broad in d.broad && m.exact !in d.exact
                    then Desc(d.broad, d.exact[m.exact := d.broad[m.broad]]) else d
  {
    if m.broad !in d.broad {
      return true, d;
    }
    if m.exact in d.exact {
      return d.exact[m.exact] == d.broad[m.broad], d;
    }
    return true, d.(exact := d.exact[m.exact := d.broad[m.broad]]);
  }

  method GrantAll(was: Desc, decl: Decl, active: set<string>) returns (ok: bool, d: Desc)
    requires Implements(was, decl) && DistinctIds(decl)
    ensures ok <==> forall i :: 0 <= i < |decl.methods| && decl.methods[i].exact in active ==>
              !Clash(was, decl.methods[i])
    ensures ok ==> Granted(was, d, decl, active, |decl.methods|)
  {
    d := was;
    for n := 0 to |decl.methods|
      invariant Granted(was, d, decl, active, n)
      invariant forall i :: 0 <= i < n && decl.methods[i].exact in active ==> !Clash(was, decl.methods[i])
    {
      var m := decl.methods[n];
      if m.exact in active {
        FirstGrant(was, d, decl, active, n);
        ok, d := AddExact(d, m);
        if !ok {
          return;
        }
      }
    }
    ok := true;
  }

  // The earlier methods have not touched the next method's id.
  lemma FirstGrant(was: Desc, d: Desc, decl: Decl, active: set<string>, n: nat)
    requires n < |decl.methods| && Implements(was, decl) && DistinctIds(decl) && Granted(was, d, decl, active, n)
    ensures Clash(d, decl.methods[n]) <==> Clash(was, decl.methods[n])
    ensures decl.methods[n].exact in d.exact <==> decl.methods[n].exact in was.exact
  {
  }

  // ---- one interface ----

  // What has been collected about the calls, for the interface decl.
  ghost predicate Known(calls: seq<Option<Call>>, decl: Decl, sites: map<string, set<nat>>) {
    && Separate(calls) && SitesOf(calls, |calls|, sites)
    && (exists s :: 0 <= s < |calls| && Calls(calls[s], decl))
    && (forall s :: 0 <= s < |calls| && calls[s].Some? && calls[s].value.decl.iface == decl.iface ==>
          calls[s].value.decl == decl)
  }

  ghost predicate Calls(c: Option<Call>, decl: Decl) { c.Some? && c.value.decl == decl }

  // An exact id in use is used by calls of its own interface and method only.
  lemma UseOf(calls: seq<Option<Call>>, decl: Decl, sites: map<string, set<nat>>, i: nat, s: nat)
    requires Known(calls, decl, sites) && i < |decl.methods| && s < |calls|
    ensures Uses(calls[s], decl.methods[i].exact) <==> Calls(calls[s], decl) && calls[s].value.index == i
  {
    var t :| 0 <= t < |calls| && Calls(calls[t], decl);
    var x := decl.methods[i].exact;
    assert Belongs(calls[t], decl.iface, i, x);
    if Uses(calls[s], x) {
      assert Belongs(calls[s], calls[s].value.decl.iface, calls[s].value.index, x);
    }
  }

  lemma ActiveUse(calls: seq<Option<Call>>, decl: Decl, sites: map<string, set<nat>>, i: nat) returns (s: nat)
    requires Known(calls, decl, sites) && i < |decl.methods| && decl.methods[i].exact in sites
    ensures s < |calls| && Uses(calls[s], decl.methods[i].exact) && Calls(calls[s], decl) && calls[s].value.index == i
  {
    var x := decl.methods[i].exact;
    s :| s in sites[x];
    UseOf(calls, decl, sites, i, s);
  }

  lemma KnownDistinct(calls: seq<Option<Call>>, decl: Decl, sites: map<string, set<nat>>)
    requires Known(calls, decl, sites)
    ensures DistinctIds(decl)
  {
    var t :| 0 <= t < |calls| && Calls(calls[t], decl);
    forall i, j | 0 <= i < j < |decl.methods| ensures decl.methods[i].exact != decl.methods[j].exact {
      assert Belongs(calls[t], decl.iface, i, decl.methods[i].exact);
      assert Belongs(calls[t], decl.iface, j, decl.methods[j].exact);
    }
  }

  lemma GrantedRefines(
    o: Desc, d: Desc, d': Desc, calls: seq<Option<Call>>, done: set<string>, decl: Decl, sites: map<string, set<nat>>)
    requires Known(calls, decl, sites) && Refined(o, d, calls, done)
    requires Implements(d, decl) && Granted(d, d', decl, sites.Keys, |decl.methods|)
    ensures Refined(o, d', calls, done + {decl.iface})
  {
    hide Given, Wanted, Known;
    var more := done + {decl.iface};
    forall s: nat, x | s < |calls| ensures Given(o, d', calls[s], more, x) {
      GivenKept(o, d, d', calls, done, decl, sites, s, x);
    }
    forall x | x in d'.exact && x !in o.exact ensures Wanted(o, calls, more, x) {
      GrantedBy(o, d, d', calls, done, decl, sites, x);
    }
  }

  lemma GivenKept(
    o: Desc, d: Desc, d': Desc, calls: seq<Option<Call>>, done: set<string>, decl: Decl, sites: map<string, set<nat>>,
    s: nat, x: string)
    requires Known(calls, decl, sites) && Refined(o, d, calls, done)
    requires Implements(d, decl) && Granted(d, d', decl, sites.Keys, |decl.methods|)
    requires s < |calls|
    ensures Given(o, d', calls[s], done + {decl.iface}, x)
  {
    assert Given(o, d, calls[s], done, x);
  }

  // A granted id comes from a call.
  lemma GrantedBy(
    o: Desc, d: Desc, d': Desc, calls: seq<Option<Call>>, done: set<string>, decl: Decl, sites: map<string, set<nat>>,
    x: string)
    requires Known(calls, decl, sites) && Refined(o, d, calls, done)
    requires Implements(d, decl) && Granted(d, d', decl, sites.Keys, |decl.methods|) && x in d'.exact && x !in o.exact
    ensures Wanted(o, calls, done + {decl.iface}, x)
  {
    hide Known, Separate, SitesOf, Given;
    var more := done + {decl.iface};
    if x in d.exact {
      var s :| 0 <= s < |calls| && Gives(o, calls[s], done, x);
      assert Gives(o, calls[s], more, x);
    } else {
      var i: nat :| i < |decl.methods| && decl.methods[i].exact == x;
      var s := ActiveUse(calls, decl, sites, i);
      assert Gives(o, calls[s], more, x);
    }
  }

  lemma SkippedRefines(o: Desc, d: Desc, calls: seq<Option<Call>>, done: set<string>, decl: Decl,
                       sites: map<string, set<nat>>)
    requires Known(calls, decl, sites) && Refined(o, d, calls, done) && !Implements(d, decl)
    ensures Refined(o, d, calls, done + {decl.iface})
  {
    var more := done + {decl.iface};
    forall s, x | 0 <= s < |calls| ensures Given(o, d, calls[s], more, x) {
      assert Given(o, d, calls[s], done, x);
    }
    forall x | x in d.exact && x !in o.exact ensures Wanted(o, calls, more, x) {
      var s :| 0 <= s < |calls| && Gives(o, calls[s], done, x);
      assert Gives(o, calls[s], more, x);
    }
  }

  // Descriptor o already has the exact id of call c, at an offset that is not its target.
  ghost predicate Conflicts(o: Desc, c: Option<Call>) {
    && c.Some? && c.value.index < |c.value.decl.methods| && Implements(o, c.value.decl)
    && c.value.decl.methods[c.value.index].exact in o.exact
    && o.exact[c.value.decl.methods[c.value.index].exact] != Target(o, c.value)
  }

  // A clash met on the way was there from the start.
  lemma ClashConflicts(
    o: Desc, d: Desc, calls: seq<Option<Call>>, done: set<string>, decl: Decl, sites: map<string, set<nat>>, i: nat)
    returns (s: nat)
    requires Known(calls, decl, sites) && Refined(o, d, calls, done) && decl.iface !in done && Implements(d, decl)
    requires i < |decl.methods| && decl.methods[i].exact in sites && Clash(d, decl.methods[i])
    ensures s < |calls| && Conflicts(o, calls[s])
  {
    s := ActiveUse(calls, decl, sites, i);
    var x := decl.methods[i].exact;
    forall t | 0 <= t < |calls| ensures !Gives(o, calls[t], done, x) {
      UseOf(calls, decl, sites, i, t);
    }
  }

  // A refined descriptor has no conflict.
  lemma RefinedAgrees(o: Desc, d: Desc, calls: seq<Option<Call>>, done: set<string>, s: nat)
    requires Refined(o, d, calls, done) && s < |calls| && WfCall(calls[s])
    requires calls[s].Some? ==> calls[s].value.decl.iface in done
    ensures !Conflicts(o, calls[s])
  {
    if calls[s].Some? && Implements(o, calls[s].value.decl) {
      assert Given(o, d, calls[s], done, calls[s].value.decl.methods[calls[s].value.index].exact);
    }
  }

  // ---- the pass ----

  // Descriptor k of the module after the listed ones have been scanned.
  ghost predicate Scanned(was: Desc, d: Desc, decl: Decl, active: set<string>, listed: bool) {
    if listed && Implements(was, decl) then Granted(was, d, decl, active, |decl.methods|) else d == was
  }

  // The linked module: the type ids of its checks and its descriptors.
  class LinkedModule {
    var ids: seq<string>
    var descs: seq<Desc>

    constructor (ids: seq<string>, descs: seq<Desc>)
      ensures this.ids == ids && this.descs == descs
    {
      this.ids, this.descs := ids, descs;
    }

    // Grants the active ids of decl to the implementers listed in the seed.
    method Scan(seed: seq<nat>, decl: Decl, active: set<string>) returns (ok: bool, found: nat)
      requires DistinctIds(decl)
      requires forall k :: 0 <= k < |seed| ==> seed[k] < |descs|
      requires forall k, l :: 0 <= k < l < |seed| ==> seed[k] < seed[l]
      modifies this`descs
      ensures |descs| == |old(descs)|
      ensures ok ==> forall j :: 0 <= j < |descs| ==> Scanned(old(descs)[j], descs[j], decl, active, j in seed)
      ensures ok ==> (found > 0 <==> exists k :: 0 <= k < |seed| && Implements(old(descs)[seed[k]], decl))
      ensures !ok ==> exists k, i :: 0 <= k < |seed| && 0 <= i < |decl.methods| && Implements(old(descs)[seed[k]], decl)
                       && decl.methods[i].exact in active && Clash(old(descs)[seed[k]], decl.methods[i])
    {
      hide Granted, Implements, DistinctIds;
      found := 0;
      for k := 0 to |seed|
        invariant |descs| == |old(descs)|
        invariant forall j :: 0 <= j < |descs| ==> Scanned(old(descs)[j], descs[j], decl, active, j in seed[..k])
        invariant found > 0 <==> exists l :: 0 <= l < k && Implements(old(descs)[seed[l]], decl)
      {
        assert seed[..k + 1] == seed[..k] + [seed[k]];
        assert seed[k] !in seed[..k];
        var j := seed[k];
        assert descs[j] == old(descs)[j];
        if Implements(descs[j], decl) {
          found := found + 1;
          var d;
          ok, d := GrantAll(descs[j], decl, active);
          if !ok {
            return;
          }
          descs := descs[j := d];
        }
      }
      assert seed[..|seed|] == seed;
      ok := true;
    }

    // Gives the checks of every active method its broad id.
    method FallBack(decl: Decl, sites: map<string, set<nat>>, ghost calls: seq<Option<Call>>)
      requires Known(calls, decl, sites) && |ids| == |calls|
      modifies this`ids
      ensures |ids| == |calls|
      ensures forall s :: 0 <= s < |ids| ==>
                ids[s] == if Calls(calls[s], decl) && calls[s].value.index < |decl.methods|
                          then decl.methods[calls[s].value.index].broad else old(ids)[s]
    {
      for i := 0 to |decl.methods|
        invariant |ids| == |calls|
        invariant forall s :: 0 <= s < |ids| ==>
                    ids[s] == if Calls(calls[s], decl) && calls[s].value.index < i
                              then decl.methods[calls[s].value.index].broad else old(ids)[s]
      {
        forall s: nat | s < |calls|
          ensures Uses(calls[s], decl.methods[i].exact) <==> Calls(calls[s], decl) && calls[s].value.index == i
        {
          UseOf(calls, decl, sites, i, s);
        }
        if decl.methods[i].exact in sites {
          SetIds(sites[decl.methods[i].exact], decl.methods[i].broad);
        }
      }
    }

    method SetIds(at: set<nat>, id: string)
      requires forall s :: s in at ==> s < |ids|
      modifies this`ids
      ensures |ids| == |old(ids)|
      ensures forall s :: 0 <= s < |ids| ==> ids[s] == if s in at then id else old(ids)[s]
    {
      var todo := at;
      while todo != {}
        invariant todo <= at && |ids| == |old(ids)|
        invariant forall s :: 0 <= s < |ids| ==> ids[s] == if s in at - todo then id else old(ids)[s]
        decreases |todo|
      {
        var s :| s in todo;
        todo := todo - {s};
        ids := ids[s := id];
      }
    }

    // The interfaces in `done` have been treated, starting from orig and ids0.
    ghost predicate Treated(orig: seq<Desc>, ids0: seq<string>, calls: seq<Option<Call>>, done: set<string>)
      reads this
    {
      && |descs| == |orig| && |ids| == |calls| == |ids0|
      && (forall j :: 0 <= j < |orig| ==> Refined(orig[j], descs[j], calls, done))
      && (forall s :: 0 <= s < |calls| ==> WfCall(calls[s]) && ids[s] == FinalId(ids0[s], calls[s], orig, done))
    }

    // Gives the interface's ids to its implementers, and says whether there are any.
    method Grant(decl: Decl, buckets: map<string, seq<nat>>, sites: map<string, set<nat>>,
                 ghost orig: seq<Desc>, ghost calls: seq<Option<Call>>, ghost done: set<string>)
      returns (ok: bool, found: nat)
      requires |descs| == |orig| && forall j :: 0 <= j < |orig| ==> Refined(orig[j], descs[j], calls, done)
      requires Known(calls, decl, sites) && decl.iface !in done && decl.methods != []
               && BucketsOf(orig, |orig|, buckets)
      modifies this`descs
      ensures ok ==> |descs| == |orig| && forall j :: 0 <= j < |orig| ==>
                Refined(orig[j], descs[j], calls, done + {decl.iface})
      ensures ok ==> (found > 0 <==> HasImplementer(orig, decl))
      ensures !ok ==> AnyConflict(orig, calls)
    {
      hide Known, Refined, BucketsOf, AnyConflict, Granted, HasImplementer, Implements, DistinctIds, Clash;
      KnownDistinct(calls, decl, sites);
      var seed := Seed(decl, buckets);
      ghost var listed := if seed.Some? then seed.value else [];
      SeedFinds(orig, buckets, decl, listed, seed);
      FoundMeans(orig, descs, calls, done, decl, listed);
      found := 0;
      if seed.Some? {
        ok, found := Scan(seed.value, decl, sites.Keys);
        if !ok {
          ClashMeansConflict(old(descs), orig, calls, done, decl, sites, listed);
          return;
        }
      }
      ScanRefines(orig, old(descs), descs, calls, done, decl, sites, listed);
      ok := true;
    }

    // Treats one interface. Some method of it is active, since only calls declare interfaces.
    method Treat(decl: Decl, buckets: map<string, seq<nat>>, sites: map<string, set<nat>>,
                 ghost orig: seq<Desc>, ghost ids0: seq<string>, ghost calls: seq<Option<Call>>,
                 ghost done: set<string>)
      returns (ok: bool)
      requires Treated(orig, ids0, calls, done) && Known(calls, decl, sites) && decl.iface !in done
      requires BucketsOf(orig, |orig|, buckets)
      modifies this
      ensures ok ==> Treated(orig, ids0, calls, done + {decl.iface})
      ensures !ok ==> AnyConflict(orig, calls)
    {
      hide Known, Refined, BucketsOf, AnyConflict, HasImplementer, FinalId, WfCall;
      KnownMethods(calls, decl, sites);
      var found;
      ok, found := Grant(decl, buckets, sites, orig, calls, done);
      if !ok {
        return;
      }
      if found == 0 {
        FallBack(decl, sites, calls);
      }
      IdsAfter(orig, ids0, old(ids), ids, calls, done, decl, sites);
    }

    // Treats all interfaces, in any order.
    method TreatAll(decls: map<string, Decl>, ghost first: map<string, nat>, buckets: map<string, seq<nat>>,
                    sites: map<string, set<nat>>,
                    ghost orig: seq<Desc>, ghost calls: seq<Option<Call>>)
      returns (ok: bool)
      requires descs == orig && |ids| == |calls| && forall s :: 0 <= s < |calls| ==> WfCall(calls[s])
      requires Separate(calls) && Collected(calls, |calls|, decls, first, sites) && BucketsOf(orig, |orig|, buckets)
      modifies this
      ensures ok ==> Treated(orig, old(ids), calls, decls.Keys)
      ensures !ok ==> AnyConflict(orig, calls)
    {
      hide Known, Separate, SitesOf, DeclsOf, Collected, BucketsOf, AnyConflict, Refined;
      StartTreated(calls, orig);
      var todo := decls.Keys;
      assert decls.Keys - todo == {};
      while todo != {}
        invariant todo <= decls.Keys && Treated(orig, old(ids), calls, decls.Keys - todo)
        decreases |todo|
      {
        var t :| t in todo;
        DeclKnown(calls, decls, first, sites, t);
        ghost var done := decls.Keys - todo;
        ok := Treat(decls[t], buckets, sites, orig, old(ids), calls, done);
        if !ok {
          return;
        }
        todo := todo - {t};
        assert decls.Keys - todo == done + {t};
      }
      assert decls.Keys - todo == decls.Keys;
      ok := true;
    }
  }

  // Before any interface is treated, every descriptor is as it was.
  lemma StartTreated(calls: seq<Option<Call>>, orig: seq<Desc>)
    ensures forall j :: 0 <= j < |orig| ==> Refined(orig[j], orig[j], calls, {})
  {
  }

  ghost predicate AnyConflict(orig: seq<Desc>, calls: seq<Option<Call>>) {
    exists j, s :: 0 <= j < |orig| && 0 <= s < |calls| && Conflicts(orig[j], calls[s])
  }

  lemma KnownMethods(calls: seq<Option<Call>>, decl: Decl, sites: map<string, set<nat>>)
    requires Known(calls, decl, sites) && forall s :: 0 <= s < |calls| ==> WfCall(calls[s])
    ensures decl.methods != []
  {
    var t :| 0 <= t < |calls| && Calls(calls[t], decl);
    assert WfCall(calls[t]);
  }

  // The seed lists descriptors, and every implementer.
  lemma SeedFinds(orig: seq<Desc>, buckets: map<string, seq<nat>>, decl: Decl, listed: seq<nat>, seed: Option<seq<nat>>)
    requires BucketsOf(orig, |orig|, buckets) && decl.methods != []
    requires seed.Some? <==> forall i :: 0 <= i < |decl.methods| ==> decl.methods[i].broad in buckets
    requires seed.Some? ==> exists i :: 0 <= i < |decl.methods| && seed.value == At(buckets, decl.methods[i].broad)
    requires listed == if seed.Some? then seed.value else []
    ensures forall k :: 0 <= k < |listed| ==> listed[k] < |orig|
    ensures forall k, l :: 0 <= k < l < |listed| ==> listed[k] < listed[l]
    ensures forall j :: 0 <= j < |orig| && Implements(orig[j], decl) ==> j in listed
  {
    if seed.Some? {
      var i: nat :| i < |decl.methods| && seed.value == At(buckets, decl.methods[i].broad);
      assert Holders(orig, |orig|, decl.methods[i].broad, listed);
      forall j: nat | j < |orig| && Implements(orig[j], decl) ensures j in listed {
        SeedComplete(orig, buckets, decl, i, j);
      }
    } else {
      var i: nat :| i < |decl.methods| && decl.methods[i].broad !in buckets;
      assert forall j :: 0 <= j < |orig| ==> decl.methods[i].broad !in orig[j].broad;
    }
  }

  // Scanning the list finds an implementer exactly when there is one.
  lemma FoundMeans(orig: seq<Desc>, descs: seq<Desc>, calls: seq<Option<Call>>, done: set<string>, decl: Decl,
                   listed: seq<nat>)
    requires |descs| == |orig| && forall j :: 0 <= j < |orig| ==> Refined(orig[j], descs[j], calls, done)
    requires forall k :: 0 <= k < |listed| ==> listed[k] < |orig|
    requires forall j :: 0 <= j < |orig| && Implements(orig[j], decl) ==> j in listed
    ensures HasImplementer(orig, decl) <==> exists k :: 0 <= k < |listed| && Implements(descs[listed[k]], decl)
  {
    forall j | 0 <= j < |orig| ensures Implements(orig[j], decl) <==> Implements(descs[j], decl) {
      assert Refined(orig[j], descs[j], calls, done);
    }
    if HasImplementer(orig, decl) {
      var j :| 0 <= j < |orig| && Implements(orig[j], decl);
      var k :| 0 <= k < |listed| && listed[k] == j;
      assert Implements(descs[listed[k]], decl);
    }
  }

  lemma ClashMeansConflict(descs: seq<Desc>, orig: seq<Desc>, calls: seq<Option<Call>>, done: set<string>, decl: Decl,
                           sites: map<string, set<nat>>, listed: seq<nat>)
    requires |descs| == |orig| && Known(calls, decl, sites) && decl.iface !in done
    requires forall j :: 0 <= j < |orig| ==> Refined(orig[j], descs[j], calls, done)
    requires forall k :: 0 <= k < |listed| ==> listed[k] < |orig|
    requires exists k, i :: 0 <= k < |listed| && 0 <= i < |decl.methods| && Implements(descs[listed[k]], decl)
               && decl.methods[i].exact in sites.Keys && Clash(descs[listed[k]], decl.methods[i])
    ensures AnyConflict(orig, calls)
  {
    var k: nat, i: nat :| k < |listed| && i < |decl.methods| && Implements(descs[listed[k]], decl)
      && decl.methods[i].exact in sites.Keys && Clash(descs[listed[k]], decl.methods[i]);
    var s := ClashConflicts(orig[listed[k]], descs[listed[k]], calls, done, decl, sites, i);
  }

  lemma ScanRefines(orig: seq<Desc>, was: seq<Desc>, now: seq<Desc>, calls: seq<Option<Call>>, done: set<string>,
                    decl: Decl,
                    sites: map<string, set<nat>>, listed: seq<nat>)
    requires |was| == |now| == |orig| && Known(calls, decl, sites)
    requires forall j :: 0 <= j < |orig| ==> Refined(orig[j], was[j], calls, done)
    requires forall j :: 0 <= j < |orig| ==> Scanned(was[j], now[j], decl, sites.Keys, j in listed)
    requires forall j :: 0 <= j < |orig| && Implements(orig[j], decl) ==> j in listed
    ensures forall j :: 0 <= j < |orig| ==> Refined(orig[j], now[j], calls, done + {decl.iface})
  {
    forall j | 0 <= j < |orig| ensures Refined(orig[j], now[j], calls, done + {decl.iface}) {
      if Implements(was[j], decl) {
        assert Implements(orig[j], decl);
        GrantedRefines(orig[j], was[j], now[j], calls, done, decl, sites);
      } else {
        SkippedRefines(orig[j], was[j], calls, done, decl, sites);
      }
    }
  }

  lemma IdsAfter(orig: seq<Desc>, ids0: seq<string>, was: seq<string>, now: seq<string>, calls: seq<Option<Call>>,
                 done: set<string>,
                 decl: Decl, sites: map<string, set<nat>>)
    requires |was| == |now| == |ids0| == |calls| && Known(calls, decl, sites) && decl.iface !in done
    requires forall s :: 0 <= s < |calls| ==> WfCall(calls[s]) && was[s] == FinalId(ids0[s], calls[s], orig, done)
    requires forall s :: 0 <= s < |calls| ==>
               now[s] == if !HasImplementer(orig, decl) && Calls(calls[s], decl)
                 && calls[s].value.index < |decl.methods|
                         then decl.methods[calls[s].value.index].broad else was[s]
    ensures forall s :: 0 <= s < |calls| ==> now[s] == FinalId(ids0[s], calls[s], orig, done + {decl.iface})
  {
    forall s | 0 <= s < |calls| ensures now[s] == FinalId(ids0[s], calls[s], orig, done + {decl.iface}) {
      assert WfCall(calls[s]);
      assert Calls(calls[s], decl) <==> calls[s].Some? && calls[s].value.decl.iface == decl.iface;
    }
  }

  // ---- the whole run ----

  method ParseCalls(checks: seq<Check>) returns (ok: bool, calls: seq<Option<Call>>)
    ensures ok <==> forall s :: 0 <= s < |checks| ==> Parses(checks[s])
    ensures ok ==> |calls| == |checks| && forall s :: 0 <= s < |calls| ==> calls[s] == CallOf(checks[s])
  {
    calls := [];
    for n := 0 to |checks|
      invariant |calls| == n && forall s :: 0 <= s < n ==> Parses(checks[s]) && calls[s] == CallOf(checks[s])
    {
      if !Parses(checks[n]) {
        return false, calls;
      }
      calls := calls + [CallOf(checks[n])];
    }
    ok := true;
  }

  // Well-formed input: the calls parse and agree, no type id has two offsets.
  ghost predicate WellFormed(checks: seq<Check>, globals: seq<Global>, calls: seq<Option<Call>>) {
    && |calls| == |checks|
    && (forall s :: 0 <= s < |checks| ==> Parses(checks[s]) && calls[s] == CallOf(checks[s]))
    && Consistent(calls, |calls|)
    && (forall g :: 0 <= g < |globals| && globals[g].vcall ==> !Ambiguous(globals[g].meta))
  }

  function Ifaces(calls: seq<Option<Call>>): (s: set<string>) {
    set k | 0 <= k < |calls| && calls[k].Some? :: calls[k].value.decl.iface
  }

  // The state the pass leaves: every interface called has been treated.
  ghost predicate Outcome(checks: seq<Check>, calls: seq<Option<Call>>, orig: seq<Desc>, ids: seq<string>,
                          descs: seq<Desc>) {
    && |descs| == |orig| && |ids| == |calls| == |checks|
    && (forall j :: 0 <= j < |orig| ==> Refined(orig[j], descs[j], calls, Ifaces(calls)))
    && (forall s :: 0 <= s < |calls| ==>
          WfCall(calls[s]) && ids[s] == FinalId(checks[s].id, calls[s], orig, Ifaces(calls)))
    && (forall s :: 0 <= s < |calls| && calls[s].Some? ==> Uses(calls[s], checks[s].id))
  }

  // orig are the descriptors of the module.
  ghost predicate DescriptorsOf(globals: seq<Global>, orig: seq<Desc>) {
    exists src :: Described(globals, |globals|, orig, src)
  }

  // The pass succeeds exactly on well-formed input without conflicting exact slots,
  // whatever order the interfaces are taken in. calls and orig are what it collects.
  method Run(checks: seq<Check>, globals: seq<Global>)
    returns (ok: bool, ids: seq<string>, descs: seq<Desc>, calls: seq<Option<Call>>, orig: seq<Desc>)
    ensures ok ==> WellFormed(checks, globals, calls) && DescriptorsOf(globals, orig)
    ensures ok ==> Outcome(checks, calls, orig, ids, descs) && !AnyConflict(orig, calls)
    ensures !ok && WellFormed(checks, globals, calls) ==> DescriptorsOf(globals, orig) && AnyConflict(orig, calls)
    ensures !ok && !WellFormed(checks, globals, calls) ==> forall cs :: !WellFormed(checks, globals, cs)
  {
    ids, descs, orig := [], [], [];
    ok, calls := ParseCalls(checks);
    if !ok {
      return;
    }
    ParsedSeparate(checks, calls);
    var decls, sites;
    ghost var first;
    ok, decls, sites, first := CollectCalls(calls);
    OnlyCalls(checks, globals, calls);
    if !ok {
      return;
    }
    var buckets;
    ghost var src;
    ok, descs, buckets, src := CollectDescriptors(globals);
    orig := descs;
    if !ok {
      return;
    }
    assert DescriptorsOf(globals, orig);
    var linked := new LinkedModule(Ids(checks), descs);
    ok := linked.TreatAll(decls, first, buckets, sites, orig, calls);
    if !ok {
      return;
    }
    ids, descs := linked.ids, linked.descs;
    AllDeclared(calls, decls, first);
    NoConflict(orig, descs, calls, decls.Keys);
  }

  lemma AllDeclared(calls: seq<Option<Call>>, decls: map<string, Decl>, first: map<string, nat>)
    requires DeclsOf(calls, |calls|, decls, first)
    ensures decls.Keys == Ifaces(calls)
  {
    forall t | t in decls ensures t in Ifaces(calls) {
      assert calls[first[t]].Some?;
    }
  }

  function Ids(checks: seq<Check>): (ids: seq<string>) {
    seq(|checks|, s requires 0 <= s < |checks| => checks[s].id)
  }

  lemma NoConflict(orig: seq<Desc>, descs: seq<Desc>, calls: seq<Option<Call>>, ifaces: set<string>)
    requires |descs| == |orig| && forall j :: 0 <= j < |orig| ==> Refined(orig[j], descs[j], calls, ifaces)
    requires forall s :: 0 <= s < |calls| ==>
               WfCall(calls[s]) && (calls[s].Some? ==> calls[s].value.decl.iface in ifaces)
    ensures !AnyConflict(orig, calls)
  {
    forall j, s | 0 <= j < |orig| && 0 <= s < |calls| ensures !Conflicts(orig[j], calls[s]) {
      RefinedAgrees(orig[j], descs[j], calls, ifaces, s);
    }
  }

  lemma OnlyCalls(checks: seq<Check>, globals: seq<Global>, calls: seq<Option<Call>>)
    requires |calls| == |checks| && forall s :: 0 <= s < |checks| ==> calls[s] == CallOf(checks[s])
    ensures forall cs :: WellFormed(checks, globals, cs) ==> cs == calls
  {
  }

  lemma DeclKnown(calls: seq<Option<Call>>, decls: map<string, Decl>, first: map<string, nat>,
                  sites: map<string, set<nat>>, t: string)
    requires Separate(calls) && Collected(calls, |calls|, decls, first, sites) && t in decls
    ensures Known(calls, decls[t], sites) && decls[t].iface == t
  {
    assert Calls(calls[first[t]], decls[t]);
  }

  // ---- what the outcome means ----

  // The slot offset found on a descriptor under a type id.
  ghost function Lookup(d: Desc, id: string): (r: Option<nat>) {
    if Classify(id) == ExactSlot then (if id in d.exact then Some(d.exact[id]) else None)
    else (if id in d.broad then Some(d.broad[id]) else None)
  }

  // No implementing descriptor loses its target: every call still finds the slot of
  // its method on every descriptor that implements its interface.
  lemma TargetsKept(checks: seq<Check>, calls: seq<Option<Call>>, orig: seq<Desc>, ids: seq<string>, descs: seq<Desc>,
                    s: nat, j: nat)
    requires Outcome(checks, calls, orig, ids, descs)
    requires s < |calls| && Parses(checks[s]) && calls[s].Some? && calls[s] == CallOf(checks[s])
    requires j < |orig| && Implements(orig[j], calls[s].value.decl)
    ensures Lookup(descs[j], ids[s]) == Some(Target(orig[j], calls[s].value))
  {
    assert HasImplementer(orig, calls[s].value.decl);
    assert ids[s] == checks[s].id;
    assert Given(orig[j], descs[j], calls[s], Ifaces(calls), ids[s]);
  }

  // Where the interface has an implementer, the pass gives the call's id to no other
  // descriptor: what answers to it implements the interface or had the id before.
  lemma ExactOnly(checks: seq<Check>, calls: seq<Option<Call>>, orig: seq<Desc>, ids: seq<string>, descs: seq<Desc>,
                  s: nat, j: nat)
    requires Outcome(checks, calls, orig, ids, descs) && Separate(calls) && Consistent(calls, |calls|)
    requires s < |calls| && calls[s].Some? && HasImplementer(orig, calls[s].value.decl) && j < |orig|
    ensures ids[s] in descs[j].exact <==> ids[s] in orig[j].exact || Implements(orig[j], calls[s].value.decl)
  {
    var x := checks[s].id;
    assert ids[s] == x;
    assert Given(orig[j], descs[j], calls[s], Ifaces(calls), x);
    forall t: nat | t < |calls| && Gives(orig[j], calls[t], Ifaces(calls), x)
      ensures Implements(orig[j], calls[s].value.decl)
    {
      SameInterface(calls, s, t, x);
    }
  }

  lemma SameInterface(calls: seq<Option<Call>>, s: nat, t: nat, x: string)
    requires Separate(calls) && Consistent(calls, |calls|) && s < |calls| && t < |calls| && Uses(calls[s], x)
             && Uses(calls[t], x)
    ensures calls[s].value.decl == calls[t].value.decl
  {
    assert Belongs(calls[t], calls[t].value.decl.iface, calls[t].value.index, x);
    assert Belongs(calls[s], calls[s].value.decl.iface, calls[s].value.index, x);
    assert s < t ==> Agree(calls[s], calls[t]);
    assert t < s ==> Agree(calls[t], calls[s]);
  }

  // With no implementer the call finds what the broad id found before.
  lemma FallbackKeepsBroad(checks: seq<Check>, calls: seq<Option<Call>>, orig: seq<Desc>, ids: seq<string>,
                           descs: seq<Desc>,
                           s: nat, j: nat)
    requires Outcome(checks, calls, orig, ids, descs)
    requires s < |calls| && Parses(checks[s]) && calls[s].Some? && calls[s] == CallOf(checks[s])
    requires !HasImplementer(orig, calls[s].value.decl) && j < |orig|
    ensures Lookup(descs[j], ids[s]) == Lookup(orig[j], checks[s].attrs.value.broads[checks[s].attrs.value.index])
  {
    var a := checks[s].attrs.value;
    assert ids[s] == a.broads[a.index];
    assert a.broads[a.index] in a.broads;
  }
}
