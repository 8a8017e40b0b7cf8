// Type descriptors of the linked module and the buckets that index them by broad id.
module InterfaceDescriptors {
  import opened Common
  import opened InterfaceIds

  // A type descriptor: the offset of the method slot under each type id.
  datatype Desc = Desc(broad: map<string, nat>, exact: map<string, nat>)

  // ---- collecting descriptors ----

  datatype Entry = Entry(offset: nat, id: string)

  datatype Kind = ExactSlot | BroadSlot | NoSlot

  function Classify(id: string): (k: Kind) {
    if IFACE <= id then ExactSlot else if METHOD <= id && !IsReflect(id) then BroadSlot else NoSlot
  }

  // Slots and declarations agree on which ids are shared by all methods of a name and signature.
  lemma ClassifyBroad(id: string)
    ensures Classify(id) == BroadSlot <==> IsBroad(id)
    ensures Classify(id) == ExactSlot <==> IFACE <= id
  {
  }

  // m holds the slots of one kind found in the first n metadata entries.
  ghost predicate SlotsOf(meta: seq<Entry>, n: nat, kind: Kind, m: map<string, nat>)
    requires n <= |meta|
  {
    && (forall k :: 0 <= k < n && Classify(meta[k].id) == kind ==> meta[k].id in m && m[meta[k].id] == meta[k].offset)
    && (forall x :: x in m ==> Classify(x) == kind && Entry(m[x], x) in meta)
  }

  ghost predicate Doubled(a: Entry, b: Entry) {
    a.id == b.id && Classify(a.id) != NoSlot && a.offset != b.offset
  }

  // Some type id is given with two offsets.
  ghost predicate Ambiguous(meta: seq<Entry>) {
    exists a, b :: a in meta && b in meta && Doubled(a, b)
  }

  method CollectTypeSlots(meta: seq<Entry>) returns (ok: bool, d: Desc)
    ensures ok <==> !Ambiguous(meta)
    ensures ok ==> SlotsOf(meta, |meta|, BroadSlot, d.broad) && SlotsOf(meta, |meta|, ExactSlot, d.exact)
  {
    d := Desc(map[], map[]);
    for n := 0 to |meta|
      invariant SlotsOf(meta, n, BroadSlot, d.broad) && SlotsOf(meta, n, ExactSlot, d.exact)
    {
      var e := meta[n];
      var kind := Classify(e.id);
      if kind != NoSlot {
        var slots := if kind == ExactSlot then d.exact else d.broad;
        if e.id in slots && slots[e.id] != e.offset {
          assert Doubled(Entry(slots[e.id], e.id), e);
          return false, d;
        }
        d := if kind == ExactSlot then d.(exact := d.exact[e.id := e.offset])
          else d.(broad := d.broad[e.id := e.offset]);
      }
    }
    Unambiguous(meta, d);
    ok := true;
  }

  lemma Unambiguous(meta: seq<Entry>, d: Desc)
    requires SlotsOf(meta, |meta|, BroadSlot, d.broad) && SlotsOf(meta, |meta|, ExactSlot, d.exact)
    ensures !Ambiguous(meta)
  {
    forall a, b | a in meta && b in meta ensures !Doubled(a, b) {
    }
  }

  // ---- buckets ----

  predicate Implements(d: Desc, decl: Decl) {
    forall i :: 0 <= i < |decl.methods| ==> decl.methods[i].broad in d.broad
  }

  // The descriptors with each broad id, among the first n.
  ghost predicate BucketsOf(descs: seq<Desc>, n: nat, buckets: map<string, seq<nat>>)
    requires n <= |descs|
  {
    && (forall j, x :: 0 <= j < n && x in descs[j].broad ==> x in buckets && j in buckets[x])
    && (forall x :: x in buckets ==> Holders(descs, n, x, buckets[x]))
  }

  ghost predicate Holders(descs: seq<Desc>, n: nat, x: string, at: seq<nat>)
    requires n <= |descs|
  {
    && (forall k :: 0 <= k < |at| ==> at[k] < n && x in descs[at[k]].broad)
    && (forall k, l :: 0 <= k < l < |at| ==> at[k] < at[l])
  }

  method FileUnder(ids: set<string>, n: nat, was: map<string, seq<nat>>) returns (buckets: map<string, seq<nat>>)
    ensures Filed(ids, n, was, buckets)
  {
    buckets := was;
    var keys := ids;
    while keys != {}
      invariant keys <= ids && Filed(ids - keys, n, was, buckets)
      decreases |keys|
    {
      var x :| x in keys;
      keys := keys - {x};
      buckets := buckets[x := (if x in buckets then buckets[x] else []) + [n]];
    }
    assert ids - keys == ids;
  }

  // n is appended to the buckets of ids and the others stay.
  ghost predicate Filed(ids: set<string>, n: nat, was: map<string, seq<nat>>, now: map<string, seq<nat>>) {
    && (forall x :: x in ids ==> x in now && now[x] == At(was, x) + [n])
    && (forall x :: x !in ids ==> (x in now <==> x in was) && At(now, x) == At(was, x))
  }

  ghost function At(buckets: map<string, seq<nat>>, x: string): (s: seq<nat>) {
    if x in buckets then buckets[x] else []
  }

  lemma BucketsGrow(descs: seq<Desc>, n: nat, was: map<string, seq<nat>>, now: map<string, seq<nat>>)
    requires n < |descs| && BucketsOf(descs, n, was)
    requires Filed(descs[n].broad.Keys, n, was, now)
    ensures BucketsOf(descs, n + 1, now)
  {
    forall x | x in now ensures Holders(descs, n + 1, x, now[x]) {
      assert Holders(descs, n, x, At(was, x));
    }
    forall j, x | 0 <= j < n + 1 && x in descs[j].broad ensures x in now && j in now[x] {
      assert j < n ==> j in At(was, x);
    }
  }

  datatype Global = Global(vcall: bool, meta: seq<Entry>)

  // d describes the global g, which has a broad slot.
  ghost predicate Describes(g: Global, d: Desc) {
    && g.vcall && d.broad != map[]
    && SlotsOf(g.meta, |g.meta|, BroadSlot, d.broad) && SlotsOf(g.meta, |g.meta|, ExactSlot, d.exact)
  }

  ghost predicate HasBroad(g: Global) {
    g.vcall && exists e :: e in g.meta && Classify(e.id) == BroadSlot
  }

  // The descriptors come from the globals listed in src, in order, of which none is missing.
  ghost predicate Described(globals: seq<Global>, n: nat, descs: seq<Desc>, src: seq<nat>)
    requires n <= |globals|
  {
    && |src| == |descs|
    && (forall k :: 0 <= k < |src| ==> src[k] < n && Describes(globals[src[k]], descs[k]))
    && (forall a, b :: 0 <= a < b < |src| ==> src[a] < src[b])
    && (forall g :: 0 <= g < n && HasBroad(globals[g]) ==> g in src)
  }

  // The descriptors and buckets of the first n globals.
  ghost predicate Indexed(globals: seq<Global>, n: nat, descs: seq<Desc>, buckets: map<string, seq<nat>>, src: seq<nat>)
    requires n <= |globals|
  {
    Described(globals, n, descs, src) && BucketsOf(descs, |descs|, buckets)
  }

  lemma IndexedNone(globals: seq<Global>)
    ensures Indexed(globals, 0, [], map[], [])
  {
  }

  method CollectDescriptors(globals: seq<Global>)
    returns (ok: bool, descs: seq<Desc>, buckets: map<string, seq<nat>>, ghost src: seq<nat>)
    ensures ok <==> forall g :: 0 <= g < |globals| && globals[g].vcall ==> !Ambiguous(globals[g].meta)
    ensures ok ==> Indexed(globals, |globals|, descs, buckets, src)
  {
    hide Ambiguous, Indexed;
    descs, buckets, src := [], map[], [];
    IndexedNone(globals);
    for n := 0 to |globals|
      invariant Indexed(globals, n, descs, buckets, src)
      invariant forall g :: 0 <= g < n && globals[g].vcall ==> !Ambiguous(globals[g].meta)
    {
      ok, descs, buckets, src := CollectDescriptor(globals, n, descs, buckets, src);
      if !ok {
        return;
      }
    }
    ok := true;
  }

  method CollectDescriptor(globals: seq<Global>, n: nat, descs: seq<Desc>, buckets: map<string, seq<nat>>,
                           ghost src: seq<nat>)
    returns (ok: bool, descs': seq<Desc>, buckets': map<string, seq<nat>>, ghost src': seq<nat>)
    requires n < |globals| && Indexed(globals, n, descs, buckets, src)
    ensures ok <==> globals[n].vcall ==> !Ambiguous(globals[n].meta)
    ensures ok ==> Indexed(globals, n + 1, descs', buckets', src')
  {
    descs', buckets', src' := descs, buckets, src;
    if !globals[n].vcall {
      assert !HasBroad(globals[n]);
      return true, descs, buckets, src;
    }
    var d;
    ok, d := CollectTypeSlots(globals[n].meta);
    if !ok {
      return;
    }
    if d.broad == map[] {
      SkipDescribed(globals, n, descs, src, d);
    } else {
      AddDescribed(globals, n, descs, src, d);
      buckets' := AddDescriptor(descs, d, buckets);
      descs', src' := descs + [d], src + [n];
    }
  }

  method AddDescriptor(descs: seq<Desc>, d: Desc, was: map<string, seq<nat>>) returns (buckets: map<string, seq<nat>>)
    requires BucketsOf(descs, |descs|, was)
    ensures BucketsOf(descs + [d], |descs| + 1, buckets)
  {
    buckets := FileUnder(d.broad.Keys, |descs|, was);
    BucketsOfMore(descs, d, was);
    BucketsGrow(descs + [d], |descs|, was, buckets);
  }

  lemma SkipDescribed(globals: seq<Global>, n: nat, descs: seq<Desc>, src: seq<nat>, d: Desc)
    requires n < |globals| && Described(globals, n, descs, src)
    requires SlotsOf(globals[n].meta, |globals[n].meta|, BroadSlot, d.broad) && d.broad == map[]
    ensures Described(globals, n + 1, descs, src)
  {
    assert !HasBroad(globals[n]);
  }

  lemma BucketsOfMore(descs: seq<Desc>, d: Desc, buckets: map<string, seq<nat>>)
    requires BucketsOf(descs, |descs|, buckets)
    ensures BucketsOf(descs + [d], |descs|, buckets)
  {
    forall x | x in buckets ensures Holders(descs + [d], |descs|, x, buckets[x]) {
      assert Holders(descs, |descs|, x, buckets[x]);
    }
  }

  lemma AddDescribed(globals: seq<Global>, n: nat, descs: seq<Desc>, src: seq<nat>, d: Desc)
    requires n < |globals| && Described(globals, n, descs, src) && Describes(globals[n], d)
    ensures Described(globals, n + 1, descs + [d], src + [n])
  {
    forall g | 0 <= g < n + 1 && HasBroad(globals[g]) ensures g in src + [n] {
      assert (src + [n])[|src|] == n;
    }
  }

  // The smallest bucket of the interface's methods; none if a method has no bucket.
  method Seed(decl: Decl, buckets: map<string, seq<nat>>) returns (seed: Option<seq<nat>>)
    ensures seed.Some? <==> decl.methods != [] && forall i :: 0 <= i < |decl.methods| ==>
              decl.methods[i].broad in buckets
    ensures seed.Some? ==> exists i :: 0 <= i < |decl.methods| && seed.value == At(buckets, decl.methods[i].broad)
    ensures seed.Some? ==> forall i :: 0 <= i < |decl.methods| ==> |seed.value| <= |buckets[decl.methods[i].broad]|
  {
    seed := None;
    for i := 0 to |decl.methods|
      invariant i > 0 ==> seed.Some?
      invariant forall k :: 0 <= k < i ==>
                  decl.methods[k].broad in buckets && seed.Some? && |seed.value| <= |buckets[decl.methods[k].broad]|
      invariant seed.Some? ==> exists k :: 0 <= k < i && seed.value == At(buckets, decl.methods[k].broad)
    {
      var x := decl.methods[i].broad;
      if x !in buckets {
        return None;
      }
      if seed.None? || |buckets[x]| < |seed.value| {
        assert buckets[x] == At(buckets, decl.methods[i].broad);
        seed := Some(buckets[x]);
      }
    }
  }

  // Whichever bucket seeds the scan, it holds every implementer.
  lemma SeedComplete(descs: seq<Desc>, buckets: map<string, seq<nat>>, decl: Decl, i: nat, j: nat)
    requires BucketsOf(descs, |descs|, buckets) && i < |decl.methods| && j < |descs| && Implements(descs[j], decl)
    ensures j in At(buckets, decl.methods[i].broad)
  {
    assert decl.methods[i].broad in descs[j].broad;
  }
}
