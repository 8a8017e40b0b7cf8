// Exact interface-method type ids. A checked load of an interface method carries an id
// of its own; the pass gives that id to the type descriptors that implement the whole
// interface, or falls back to the id shared by all methods of that name and signature.
module InterfaceIds {
  import opened Common
  import opened Decimal

  const METHOD := "go.method."
  const IFACE := "go.method.i."
  const REFLECT_VALUE := "go.method.value.reflect"
  const REFLECT_TYPE := "go.method.type.reflect"

  predicate IsReflect(id: string) {
    id == REFLECT_VALUE || REFLECT_VALUE + "." <= id || id == REFLECT_TYPE || REFLECT_TYPE + "." <= id
  }

  // The id of one method name and signature, shared by all interfaces.
  predicate IsBroad(id: string) {
    METHOD <= id && !(IFACE <= id) && !IsReflect(id)
  }

  predicate IsInterfaceBase(id: string) {
    IFACE <= id && |id| > |IFACE| && '.' !in id[|IFACE|..]
  }

  // The exact id of method i of an interface.
  function Exact(iface: string, i: nat): (id: string) {
    iface + ".m" + Itoa(i)
  }

  // Different methods have different exact ids.
  lemma ExactInjective(t: string, i: nat, u: string, j: nat)
    requires IsInterfaceBase(t) && IsInterfaceBase(u) && Exact(t, i) == Exact(u, j)
    ensures t == u && i == j
  {
    DotAfter(t, i, u, j);
    DotAfter(u, j, t, i);
    assert t == Exact(t, i)[..|t|] == Exact(u, j)[..|u|] == u;
    assert Itoa(i) == Exact(t, i)[|t| + 2..] == Exact(u, j)[|u| + 2..] == Itoa(j);
    ItoaRoundTrip(i);
    ItoaRoundTrip(j);
  }

  lemma DotAfter(t: string, i: nat, u: string, j: nat)
    requires IsInterfaceBase(t) && IsInterfaceBase(u) && Exact(t, i) == Exact(u, j)
    ensures |t| >= |u|
  {
    assert Exact(t, i)[|t|] == '.';
    assert forall k :: |IFACE| <= k < |u| ==> u[|IFACE|..][k - |IFACE|] == u[k] == Exact(u, j)[k];
  }

  // ---- the checked loads ----

  datatype Attrs = Attrs(iface: string, index: nat, broads: seq<string>)

  // A checked load or type test: its type id and its interface call attributes.
  datatype Check = Check(id: string, attrs: Option<Attrs>)

  datatype Method = Method(exact: string, broad: string)

  datatype Decl = Decl(iface: string, methods: seq<Method>)

  // Method `index` of an interface is called.
  datatype Call = Call(index: nat, decl: Decl)

  predicate Parses(c: Check) {
    if IFACE <= c.id then
      && c.attrs.Some?
      && IsInterfaceBase(c.attrs.value.iface)
      && c.attrs.value.index < |c.attrs.value.broads|
      && (forall b :: b in c.attrs.value.broads ==> IsBroad(b))
      && c.id == Exact(c.attrs.value.iface, c.attrs.value.index)
    else c.attrs.None?
  }

  function Methods(iface: string, broads: seq<string>): (ms: seq<Method>) {
    seq(|broads|, i requires 0 <= i < |broads| => Method(Exact(iface, i), broads[i]))
  }

  function CallOf(c: Check): (r: Option<Call>) {
    if c.attrs.None? then None
    else Some(Call(c.attrs.value.index, Decl(c.attrs.value.iface, Methods(c.attrs.value.iface, c.attrs.value.broads))))
  }

  ghost predicate WfCall(c: Option<Call>) {
    c.Some? ==> c.value.index < |c.value.decl.methods|
  }

  ghost predicate Belongs(c: Option<Call>, iface: string, i: nat, x: string) {
    c.Some? && c.value.decl.iface == iface && i < |c.value.decl.methods| && c.value.decl.methods[i].exact == x
  }

  // An exact id belongs to one method of one interface.
  ghost predicate Separate(calls: seq<Option<Call>>) {
    forall s, t, f, g, i, j, x ::
      0 <= s < |calls| && 0 <= t < |calls| && Belongs(calls[s], f, i, x) && Belongs(calls[t], g, j, x) ==>
        f == g && i == j
  }

  // Parsing keeps exact ids apart, and each load's id is that of the method it calls.
  lemma ParsedSeparate(checks: seq<Check>, calls: seq<Option<Call>>)
    requires |calls| == |checks|
    requires forall s :: 0 <= s < |checks| ==> Parses(checks[s]) && calls[s] == CallOf(checks[s])
    ensures Separate(calls)
    ensures forall s :: 0 <= s < |calls| ==> WfCall(calls[s])
    ensures forall s :: 0 <= s < |calls| && calls[s].Some? ==> Uses(calls[s], checks[s].id)
  {
    forall s, t, f, g, i, j, x |
      0 <= s < |calls| && 0 <= t < |calls| && Belongs(calls[s], f, i, x) && Belongs(calls[t], g, j, x)
      ensures f == g && i == j
    {
      ExactInjective(f, i, g, j);
    }
  }

  // ---- the interfaces in use ----

  ghost predicate Agree(c: Option<Call>, d: Option<Call>) {
    c.Some? && d.Some? && c.value.decl.iface == d.value.decl.iface ==> c.value.decl == d.value.decl
  }

  // Among the first n calls, those of one interface declare the same methods.
  ghost predicate Consistent(calls: seq<Option<Call>>, n: nat)
    requires n <= |calls|
  {
    forall s, t :: 0 <= s < t < n ==> Agree(calls[s], calls[t])
  }

  // The interfaces declared by the first n calls, by name, and where each appears first.
  ghost predicate DeclsOf(calls: seq<Option<Call>>, n: nat, decls: map<string, Decl>, first: map<string, nat>)
    requires n <= |calls|
  {
    && (forall s :: 0 <= s < n && calls[s].Some? ==>
          calls[s].value.decl.iface in decls && decls[calls[s].value.decl.iface] == calls[s].value.decl)
    && (forall t :: t in decls ==>
          decls[t].iface == t && t in first && first[t] < n && calls[first[t]].Some?
            && calls[first[t]].value.decl == decls[t])
  }

  // Call c uses exact id x.
  ghost predicate Uses(c: Option<Call>, x: string) {
    c.Some? && c.value.index < |c.value.decl.methods| && c.value.decl.methods[c.value.index].exact == x
  }

  // The calls that use each exact id, among the first n.
  ghost predicate SitesOf(calls: seq<Option<Call>>, n: nat, sites: map<string, set<nat>>)
    requires n <= |calls|
  {
    && (forall s, x :: 0 <= s < n && Uses(calls[s], x) ==> x in sites && s in sites[x])
    && (forall x :: x in sites ==> sites[x] != {} && forall s :: s in sites[x] ==> s < n && Uses(calls[s], x))
  }

  ghost predicate Collected(
    calls: seq<Option<Call>>, n: nat, decls: map<string, Decl>, first: map<string, nat>, sites: map<string, set<nat>>)
    requires n <= |calls|
  {
    Consistent(calls, n) && DeclsOf(calls, n, decls, first) && SitesOf(calls, n, sites)
  }

  method CollectCalls(calls: seq<Option<Call>>)
    returns (ok: bool, decls: map<string, Decl>, sites: map<string, set<nat>>, ghost first: map<string, nat>)
    requires forall s :: 0 <= s < |calls| ==> WfCall(calls[s])
    ensures ok <==> Consistent(calls, |calls|)
    ensures ok ==> Collected(calls, |calls|, decls, first, sites)
  {
    decls, sites, first := map[], map[], map[];
    for n := 0 to |calls|
      invariant Collected(calls, n, decls, first, sites)
    {
      ok, decls, sites, first := CollectCall(calls, n, decls, first, sites);
      if !ok {
        return;
      }
    }
    ok := true;
  }

  method CollectCall(calls: seq<Option<Call>>, n: nat, decls: map<string, Decl>, ghost first: map<string, nat>,
                     sites: map<string, set<nat>>)
    returns (ok: bool, decls': map<string, Decl>, sites': map<string, set<nat>>, ghost first': map<string, nat>)
    requires n < |calls| && WfCall(calls[n]) && Collected(calls, n, decls, first, sites)
    ensures !ok ==> !Consistent(calls, |calls|)
    ensures ok ==> Collected(calls, n + 1, decls', first', sites')
  {
    if calls[n].None? {
      SkipCall(calls, n, decls, first, sites);
      return true, decls, sites, first;
    }
    ok, decls', first' := Declare(calls, n, decls, first);
    var x := calls[n].value.decl.methods[calls[n].value.index].exact;
    AddSite(calls, n, x, sites);
    sites' := sites[x := (if x in sites then sites[x] else {}) + {n}];
  }

  method Declare(calls: seq<Option<Call>>, n: nat, decls: map<string, Decl>, ghost first: map<string, nat>)
    returns (ok: bool, decls': map<string, Decl>, ghost first': map<string, nat>)
    requires n < |calls| && calls[n].Some? && Consistent(calls, n) && DeclsOf(calls, n, decls, first)
    ensures !ok ==> !Consistent(calls, |calls|)
    ensures ok ==> Consistent(calls, n + 1) && DeclsOf(calls, n + 1, decls', first')
  {
    var decl := calls[n].value.decl;
    if decl.iface !in decls {
      return true, decls[decl.iface := decl], first[decl.iface := n];
    }
    if decls[decl.iface] != decl {
      assert !Agree(calls[first[decl.iface]], calls[n]);
    }
    return decls[decl.iface] == decl, decls, first;
  }

  lemma SkipCall(calls: seq<Option<Call>>, n: nat, decls: map<string, Decl>, first: map<string, nat>,
                 sites: map<string, set<nat>>)
    requires n < |calls| && calls[n].None?
    requires Collected(calls, n, decls, first, sites)
    ensures Collected(calls, n + 1, decls, first, sites)
  {
    hide Consistent, SitesOf;
    SkipConsistent(calls, n);
    SkipSites(calls, n, sites);
  }

  lemma SkipConsistent(calls: seq<Option<Call>>, n: nat)
    requires n < |calls| && calls[n].None? && Consistent(calls, n)
    ensures Consistent(calls, n + 1)
  {
  }

  lemma SkipSites(calls: seq<Option<Call>>, n: nat, sites: map<string, set<nat>>)
    requires n < |calls| && calls[n].None? && SitesOf(calls, n, sites)
    ensures SitesOf(calls, n + 1, sites)
  {
  }

  lemma AddSite(calls: seq<Option<Call>>, n: nat, x: string, sites: map<string, set<nat>>)
    requires n < |calls| && SitesOf(calls, n, sites) && Uses(calls[n], x)
    ensures SitesOf(calls, n + 1, sites[x := (if x in sites then sites[x] else {}) + {n}])
  {
  }
}
