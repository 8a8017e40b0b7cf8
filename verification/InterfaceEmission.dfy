// What the compiler writes for the pass: a type id for every method of a type descriptor,
// and a self-describing check at every call of an interface method. On what it writes the
// pass succeeds, and every call then finds the slot of its method on exactly the types
// that can be behind the interface.
module InterfaceEmission {
  import opened Common
  import opened Decimal
  import opened InterfaceIds
  import opened InterfaceDescriptors
  import opened InterfacePass

  // A method: its name, the path of its package, whether the name is exported, and the
  // text of its signature.
  datatype Func = Func(name: string, pkg: string, exported: bool, sig: string)

  ghost predicate WfFunc(m: Func) {
    m.name != "" && '.' !in m.name && ':' !in m.name && ':' !in m.pkg
  }

  // Unexported names of different packages are different.
  function Name(m: Func): (s: string) {
    if m.exported then m.name else m.pkg + "." + m.name
  }

  function Key(m: Func): (id: string) {
    "go.method." + Name(m) + ":" + m.sig
  }

  // ---- which keys are ids of methods ----

  lemma PrefixDrop(a: string, b: string, c: string)
    ensures a + b <= a + c <==> b <= c
  {
    assert (a + c)[|a|..] == c && (a + b)[|a|..] == b;
    if a + b <= a + c {
      assert b == (a + b)[|a|..] == (a + c)[..|a + b|][|a|..];
      assert c[..|b|] == (a + c)[|a|..|a| + |b|];
    }
    if b <= c {
      forall i | 0 <= i < |a + b| ensures (a + b)[i] == (a + c)[i] {
        if i >= |a| {
          assert b[i - |a|] == c[i - |a|];
        }
      }
    }
  }

  lemma Differs(t: string, y: string, i: nat)
    requires i < |t| && (i < |y| ==> t[i] != y[i])
    ensures !(t <= y)
  {
  }

  lemma PrefixFront(t: string, a: string, b: string)
    requires |t| <= |a|
    ensures t <= a + b <==> t <= a
  {
    assert (a + b)[..|t|] == a[..|t|];
  }

  // A word and a dot do not begin a dotless name and a colon.
  lemma NoDot(w: string, x: string, s: string)
    requires ':' !in w && '.' !in x
    ensures !(w + "." <= x + ":" + s)
  {
    var t, y := w + ".", x + ":" + s;
    var i := if |w| <= |x| then |w| else |x|;
    assert t[|w|] == '.' && y[|x|] == ':';
    assert |w| < |x| ==> y[|w|] == x[|w|];
    assert |w| > |x| ==> t[|x|] == w[|x|];
    Differs(t, y, i);
  }

  // They begin a package path, a dot and a name only if they begin the path and its dot.
  lemma DotInPath(w: string, pkg: string, name: string, s: string)
    requires ':' !in w && '.' !in name && ':' !in name
    ensures w + "." <= pkg + "." + name + ":" + s <==> w + "." <= pkg + "."
  {
    var t, rest := w + ".", name + ":" + s;
    var all := (pkg + ".") + rest;
    assert pkg + "." + name + ":" + s == all;
    if |w| <= |pkg| {
      PrefixFront(t, pkg + ".", rest);
    } else {
      var colon := |pkg| + 1 + |name|;
      assert all[colon] == rest[|name|] == ':' && t[|w|] == '.';
      assert |w| < colon ==> all[|w|] == rest[|w| - |pkg| - 1] == name[|w| - |pkg| - 1];
      assert |w| > colon ==> t[colon] == w[colon];
      Differs(t, all, if |w| <= colon then |w| else colon);
    }
  }

  // The packages whose unexported methods get ids of another kind.
  predicate Unlucky(pkg: string) {
    "i" + "." <= pkg + "." || "value.reflect" + "." <= pkg + "." || "type.reflect" + "." <= pkg + "."
  }

  lemma WordInKey(w: string, m: Func)
    requires WfFunc(m) && ':' !in w
    ensures "go.method." + (w + ".") <= Key(m) <==> !m.exported && w + "." <= m.pkg + "."
  {
    var rest := Name(m) + ":" + m.sig;
    assert Key(m) == "go.method." + rest;
    PrefixDrop("go.method.", w + ".", rest);
    if m.exported {
      NoDot(w, m.name, m.sig);
    } else {
      DotInPath(w, m.pkg, m.name, m.sig);
    }
  }

  lemma KeyColon(m: Func)
    ensures ':' in Key(m)
  {
    assert Key(m)[|"go.method." + Name(m)|] == ':';
  }

  lemma IdWords()
    ensures "go.method." + ("i" + ".") == IFACE
    ensures "go.method." + ("value.reflect" + ".") == REFLECT_VALUE + "."
    ensures "go.method." + ("type.reflect" + ".") == REFLECT_TYPE + "."
  {
  }

  lemma WordInId(m: Func)
    requires WfFunc(m)
    ensures IFACE <= Key(m) <==> !m.exported && "i" + "." <= m.pkg + "."
    ensures REFLECT_VALUE + "." <= Key(m) <==> !m.exported && "value.reflect" + "." <= m.pkg + "."
    ensures REFLECT_TYPE + "." <= Key(m) <==> !m.exported && "type.reflect" + "." <= m.pkg + "."
  {
    hide Key;
    IdWords();
    WordInKey("i", m);
    WordInKey("value.reflect", m);
    WordInKey("type.reflect", m);
  }

  lemma NoColon()
    ensures ':' !in REFLECT_VALUE
    ensures ':' !in REFLECT_TYPE
  {
  }

  lemma NotReflectItself(m: Func)
    ensures Key(m) != REFLECT_VALUE && Key(m) != REFLECT_TYPE && METHOD <= Key(m)
  {
    KeyColon(m);
    NoColon();
    assert Key(m)[..|METHOD|] == METHOD;
  }

  // The key of a method is taken for a method's id exactly if the method is exported or
  // its package has no unlucky path.
  lemma KeyBroad(m: Func)
    requires WfFunc(m)
    ensures IsBroad(Key(m)) <==> m.exported || !Unlucky(m.pkg)
    ensures Classify(Key(m)) == BroadSlot <==> m.exported || !Unlucky(m.pkg)
  {
    hide Key;
    WordInId(m);
    NotReflectItself(m);
  }

  // An unexported method of package "i" is taken for an exact id.
  lemma UnluckyExample()
    ensures WfFunc(Func("f", "i", false, "func()")) && Classify(Key(Func("f", "i", false, "func()"))) == ExactSlot
  {
    var m := Func("f", "i", false, "func()");
    WordInKey("i", m);
    assert IFACE == "go.method." + ("i" + ".");
  }

  function ToColon(s: string): (p: string) {
    if s == "" || s[0] == ':' then "" else [s[0]] + ToColon(s[1..])
  }

  lemma {:induction false} ToColonIs(a: string, x: string)
    requires ':' !in a
    ensures ToColon(a + (":" + x)) == a
  {
    if a != "" {
      ToColonIs(a[1..], x);
      assert (a + (":" + x))[1..] == a[1..] + (":" + x);
    } else {
      assert a + (":" + x) == ":" + x;
    }
  }

  // Keys tell methods apart by name and signature.
  lemma KeyInjective(m: Func, n: Func)
    requires WfFunc(m) && WfFunc(n)
    ensures Key(m) == Key(n) <==> Name(m) == Name(n) && m.sig == n.sig
  {
    var a, b := Name(m), Name(n);
    var x, y := a + (":" + m.sig), b + (":" + n.sig);
    assert Key(m) == "go.method." + x && Key(n) == "go.method." + y;
    if Key(m) == Key(n) {
      assert x == ("go.method." + x)[|"go.method."|..] && y == ("go.method." + y)[|"go.method."|..];
      ToColonIs(a, m.sig);
      ToColonIs(b, n.sig);
      assert m.sig == x[|a| + 1..] && n.sig == y[|b| + 1..];
    }
  }

  // ---- type descriptors ----

  // Where a descriptor has its methods, how far apart they are, and where each of them has
  // its two code pointers.
  datatype Layout = Layout(methods: nat, stride: nat, ifn: nat, tfn: nat)

  function Slot(l: Layout, i: nat): (offset: nat) {
    l.methods + i * l.stride + l.ifn
  }

  // The entries of method i.
  function EntriesOf(l: Layout, i: nat, m: Func): (es: seq<Entry>) {
    var tfn := l.methods + i * l.stride + l.tfn;
    [Entry(Slot(l, i), Key(m))]
    + if !m.exported then []
      else [Entry(Slot(l, i), "go.method.value.reflect"), Entry(Slot(l, i), "go.method.value.reflect." + m.name),
            Entry(tfn, "go.method.type.reflect"), Entry(tfn, "go.method.type.reflect." + m.name)]
  }

  method AddMethodTypeMetadata(l: Layout, ms: seq<Func>) returns (meta: seq<Entry>)
    ensures Emitted(l, ms, |ms|, meta)
  {
    meta := [];
    for i := 0 to |ms|
      invariant Emitted(l, ms, i, meta)
    {
      meta := meta + EntriesOf(l, i, ms[i]);
    }
  }

  // The metadata of a type with these methods.
  ghost predicate Emitted(l: Layout, ms: seq<Func>, n: nat, meta: seq<Entry>)
    requires n <= |ms|
  {
    forall e :: e in meta <==> exists i :: 0 <= i < n && e in EntriesOf(l, i, ms[i])
  }

  // A method set as Go allows it, in packages with ordinary paths.
  ghost predicate MethodSet(ms: seq<Func>) {
    && (forall i :: 0 <= i < |ms| ==> WfFunc(ms[i]) && (ms[i].exported || !Unlucky(ms[i].pkg)))
    && (forall i, j :: 0 <= i < j < |ms| ==> Name(ms[i]) != Name(ms[j]))
  }

  // The slots are those of the methods.
  ghost predicate HasSlots(l: Layout, ms: seq<Func>, d: Desc) {
    && (forall i :: 0 <= i < |ms| ==> Key(ms[i]) in d.broad && d.broad[Key(ms[i])] == Slot(l, i))
    && (forall x :: x in d.broad ==> exists i :: 0 <= i < |ms| && Key(ms[i]) == x)
    && d.exact == map[]
  }

  // Entries other than keys are passed over.
  lemma EntryKind(l: Layout, i: nat, m: Func, e: Entry)
    requires WfFunc(m) && (m.exported || !Unlucky(m.pkg)) && e in EntriesOf(l, i, m)
    ensures if Classify(e.id) == BroadSlot then e == Entry(Slot(l, i), Key(m)) else Classify(e.id) == NoSlot
  {
    KeyBroad(m);
    if e != Entry(Slot(l, i), Key(m)) {
      ReflectIds(m.name);
    }
  }

  lemma ReflectIds(name: string)
    ensures Classify("go.method.value.reflect") == NoSlot && Classify("go.method.type.reflect") == NoSlot
    ensures Classify("go.method.value.reflect." + name) == NoSlot
    ensures Classify("go.method.type.reflect." + name) == NoSlot
  {
    assert IFACE[10] == 'i';
    assert ("go.method.value.reflect." + name)[10] == 'v' && ("go.method.type.reflect." + name)[10] == 't';
    assert REFLECT_VALUE + "." <= "go.method.value.reflect." + name;
    assert REFLECT_TYPE + "." <= "go.method.type.reflect." + name;
  }

  lemma EmittedKind(l: Layout, ms: seq<Func>, meta: seq<Entry>, e: Entry)
    requires MethodSet(ms) && Emitted(l, ms, |ms|, meta) && e in meta
    ensures Classify(e.id) == NoSlot
            || (Classify(e.id) == BroadSlot && exists i :: 0 <= i < |ms| && e == Entry(Slot(l, i), Key(ms[i])))
  {
    var i :| 0 <= i < |ms| && e in EntriesOf(l, i, ms[i]);
    EntryKind(l, i, ms[i], e);
  }

  lemma KeyOnce(ms: seq<Func>, i: nat, j: nat)
    requires MethodSet(ms) && i < |ms| && j < |ms| && Key(ms[i]) == Key(ms[j])
    ensures i == j
  {
    KeyInjective(ms[i], ms[j]);
  }

  // The metadata of a type is never ambiguous, and its slots are those of its methods.
  lemma EmittedUnambiguous(l: Layout, ms: seq<Func>, meta: seq<Entry>)
    requires MethodSet(ms) && Emitted(l, ms, |ms|, meta)
    ensures !Ambiguous(meta)
  {
    forall a, b | a in meta && b in meta ensures !Doubled(a, b) {
      EmittedKind(l, ms, meta, a);
      EmittedKind(l, ms, meta, b);
      if Doubled(a, b) {
        var i :| 0 <= i < |ms| && a == Entry(Slot(l, i), Key(ms[i]));
        var j :| 0 <= j < |ms| && b == Entry(Slot(l, j), Key(ms[j]));
        KeyOnce(ms, i, j);
      }
    }
  }

  lemma EmittedSlots(l: Layout, ms: seq<Func>, meta: seq<Entry>, d: Desc)
    requires MethodSet(ms) && Emitted(l, ms, |ms|, meta)
    requires SlotsOf(meta, |meta|, BroadSlot, d.broad) && SlotsOf(meta, |meta|, ExactSlot, d.exact)
    ensures HasSlots(l, ms, d)
  {
    hide Emitted, EntriesOf;
    forall i | 0 <= i < |ms| ensures Key(ms[i]) in d.broad && d.broad[Key(ms[i])] == Slot(l, i) {
      KeyEmitted(l, ms, meta, i);
      KeyBroad(ms[i]);
      var k :| 0 <= k < |meta| && meta[k] == Entry(Slot(l, i), Key(ms[i]));
    }
    forall x | x in d.broad ensures exists i :: 0 <= i < |ms| && Key(ms[i]) == x {
      EmittedKind(l, ms, meta, Entry(d.broad[x], x));
    }
    forall x | x in d.exact ensures false {
      EmittedKind(l, ms, meta, Entry(d.exact[x], x));
    }
    assert d.exact == map[];
  }

  lemma KeyEmitted(l: Layout, ms: seq<Func>, meta: seq<Entry>, i: nat)
    requires Emitted(l, ms, |ms|, meta) && i < |ms|
    ensures Entry(Slot(l, i), Key(ms[i])) in meta
  {
    assert EntriesOf(l, i, ms[i])[0] == Entry(Slot(l, i), Key(ms[i]));
  }

  // Collecting what was emitted for a type gives its methods' slots.
  method CollectEmitted(l: Layout, ms: seq<Func>) returns (ok: bool, d: Desc)
    requires MethodSet(ms)
    ensures ok && HasSlots(l, ms, d)
  {
    var meta := AddMethodTypeMetadata(l, ms);
    ok, d := CollectTypeSlots(meta);
    EmittedUnambiguous(l, ms, meta);
    EmittedSlots(l, ms, meta, d);
  }

  // ---- calls ----

  // A call of method `index` of an interface, whose full type has this digest.
  datatype Use = Use(digest: string, methods: seq<Func>, index: nat)

  ghost predicate WfUse(u: Use) {
    && u.index < |u.methods| && u.digest != "" && '.' !in u.digest
    && forall i :: 0 <= i < |u.methods| ==>
         WfFunc(u.methods[i]) && (u.methods[i].exported || !Unlucky(u.methods[i].pkg))
  }

  function Keys(ms: seq<Func>): (ks: seq<string>) {
    seq(|ms|, i requires 0 <= i < |ms| => Key(ms[i]))
  }

  function CheckedLoad(u: Use): (c: Check) {
    var id := "go.method.i." + u.digest;
    Check(id + ".m" + Itoa(u.index), Some(Attrs(id, u.index, Keys(u.methods))))
  }

  // The pass reads back what the compiler wrote.
  lemma LoadParses(u: Use)
    requires WfUse(u)
    ensures Parses(CheckedLoad(u)) && CallOf(CheckedLoad(u)).Some?
    ensures var c := CallOf(CheckedLoad(u)).value;
            && c.index == u.index && c.decl.iface == "go.method.i." + u.digest && |c.decl.methods| == |u.methods|
            && forall i :: 0 <= i < |u.methods| ==> c.decl.methods[i].broad == Key(u.methods[i])
  {
    var id := "go.method.i." + u.digest;
    assert id[|IFACE|..] == u.digest && IFACE <= id;
    forall b | b in Keys(u.methods) ensures IsBroad(b) {
      var i :| 0 <= i < |u.methods| && b == Keys(u.methods)[i];
      KeyBroad(u.methods[i]);
    }
    assert CheckedLoad(u).id == Exact(id, u.index);
    assert IFACE <= CheckedLoad(u).id;
  }

  // ---- the whole program ----

  // One method has another's place in a method set.
  predicate Same(m: Func, n: Func) {
    Name(m) == Name(n) && m.sig == n.sig
  }

  predicate HasMethod(ms: seq<Func>, m: Func) {
    exists i :: 0 <= i < |ms| && Same(ms[i], m)
  }

  // A type has all methods of the interface.
  predicate CanBeBehind(ms: seq<Func>, u: Use) {
    forall i :: 0 <= i < |u.methods| ==> HasMethod(ms, u.methods[i])
  }

  // A linked program: the method sets of its types, and its interface calls. Interfaces
  // with one digest are one interface.
  ghost predicate WfProgram(types: seq<seq<Func>>, uses: seq<Use>) {
    && (forall t :: 0 <= t < |types| ==> MethodSet(types[t]) && types[t] != [])
    && (forall s :: 0 <= s < |uses| ==> WfUse(uses[s]))
    && (forall s, t :: 0 <= s < t < |uses| && uses[s].digest == uses[t].digest ==> uses[s].methods == uses[t].methods)
  }

  // The slot that an id has on a descriptor.
  ghost function Found(d: Desc, id: string): (slot: Option<nat>) {
    if id in d.exact then Some(d.exact[id]) else if id in d.broad then Some(d.broad[id]) else None
  }

  // What a call should find on a type: the slot of its method if the type can be behind
  // the interface. If no type can be, the call is as before and finds its method wherever
  // it is.
  ghost predicate Finds(l: Layout, types: seq<seq<Func>>, u: Use, t: nat, slot: Option<nat>)
    requires t < |types| && u.index < |u.methods|
  {
    if CanBeBehind(types[t], u) || (forall j :: 0 <= j < |types| ==> !CanBeBehind(types[j], u))
    then
      && (slot.Some? <==> HasMethod(types[t], u.methods[u.index]))
      && forall i :: 0 <= i < |types[t]| && Same(types[t][i], u.methods[u.index]) ==> slot == Some(Slot(l, i))
    else slot.None?
  }

  function Loads(uses: seq<Use>): (checks: seq<Check>) {
    seq(|uses|, s requires 0 <= s < |uses| => CheckedLoad(uses[s]))
  }

  function CallsOf(uses: seq<Use>): (calls: seq<Option<Call>>) {
    seq(|uses|, s requires 0 <= s < |uses| => CallOf(CheckedLoad(uses[s])))
  }

  // The descriptors of the types, with the metadata emitted for each.
  ghost predicate GlobalsOf(l: Layout, types: seq<seq<Func>>, globals: seq<Global>) {
    && |globals| == |types|
    && forall t :: 0 <= t < |types| ==> globals[t].vcall && Emitted(l, types[t], |types[t]|, globals[t].meta)
  }

  lemma EmittedWellFormed(l: Layout, types: seq<seq<Func>>, uses: seq<Use>, globals: seq<Global>)
    requires WfProgram(types, uses) && GlobalsOf(l, types, globals)
    ensures InterfacePass.WellFormed(Loads(uses), globals, CallsOf(uses))
  {
    hide Parses, CallOf, CheckedLoad, Ambiguous, Emitted, MethodSet;
    forall s | 0 <= s < |uses| ensures Parses(Loads(uses)[s]) {
      LoadParses(uses[s]);
    }
    forall g | 0 <= g < |globals| ensures !Ambiguous(globals[g].meta) {
      EmittedUnambiguous(l, types[g], globals[g].meta);
    }
    forall s, t | 0 <= s < t < |uses| ensures Agree(CallsOf(uses)[s], CallsOf(uses)[t]) {
      UsesAgree(uses[s], uses[t]);
    }
  }

  lemma UsesAgree(u: Use, v: Use)
    requires WfUse(u) && WfUse(v) && (u.digest == v.digest ==> u.methods == v.methods)
    ensures Agree(CallOf(CheckedLoad(u)), CallOf(CheckedLoad(v)))
  {
    assert ("go.method.i." + u.digest)[|"go.method.i."|..] == u.digest;
    assert ("go.method.i." + v.digest)[|"go.method.i."|..] == v.digest;
  }

  // Every type is described, in order.
  lemma DescribedInOrder(globals: seq<Global>, descs: seq<Desc>, src: seq<nat>)
    requires Described(globals, |globals|, descs, src) && forall g :: 0 <= g < |globals| ==> HasBroad(globals[g])
    ensures |descs| == |globals| && forall g :: 0 <= g < |globals| ==> Describes(globals[g], descs[g])
  {
    hide Describes, HasBroad;
    SortedAll(src, |globals|);
  }

  lemma {:induction false} Spread(src: seq<nat>, a: nat, b: nat)
    requires a <= b < |src| && forall a, b :: 0 <= a < b < |src| ==> src[a] < src[b]
    ensures src[a] + (b - a) <= src[b]
  {
    if a < b {
      Spread(src, a, b - 1);
    }
  }

  lemma {:induction false} SortedAll(src: seq<nat>, n: nat)
    requires forall a, b :: 0 <= a < b < |src| ==> src[a] < src[b]
    requires (forall k :: 0 <= k < |src| ==> src[k] < n) && forall g: nat :: g < n ==> g in src
    ensures |src| == n && forall k :: 0 <= k < n ==> src[k] == k
  {
    if n == 0 {
    } else {
      assert n - 1 in src;
      var k: nat :| k < |src| && src[k] == n - 1;
      Spread(src, k, |src| - 1);
      var front := src[..k];
      forall g: nat | g < n - 1 ensures g in front {
        assert g in src;
        var j :| 0 <= j < |src| && src[j] == g;
        assert front[j] == g;
      }
      SortedAll(front, n - 1);
    }
  }

  lemma EmittedDescribed(l: Layout, types: seq<seq<Func>>, globals: seq<Global>, descs: seq<Desc>)
    requires GlobalsOf(l, types, globals) && DescriptorsOf(globals, descs)
    requires forall t :: 0 <= t < |types| ==> MethodSet(types[t]) && types[t] != []
    ensures |descs| == |types| && forall t :: 0 <= t < |types| ==> HasSlots(l, types[t], descs[t])
  {
    hide HasSlots, Emitted, HasBroad, Describes;
    var src :| Described(globals, |globals|, descs, src);
    forall g | 0 <= g < |globals| ensures HasBroad(globals[g]) {
      HasKey(l, types[g], globals[g]);
    }
    DescribedInOrder(globals, descs, src);
    forall t | 0 <= t < |types| ensures HasSlots(l, types[t], descs[t]) {
      DescribesSlots(l, types[t], globals[t], descs[t]);
    }
  }

  lemma DescribesSlots(l: Layout, ms: seq<Func>, g: Global, d: Desc)
    requires MethodSet(ms) && Emitted(l, ms, |ms|, g.meta) && Describes(g, d)
    ensures HasSlots(l, ms, d)
  {
    EmittedSlots(l, ms, g.meta, d);
  }

  lemma HasKey(l: Layout, ms: seq<Func>, g: Global)
    requires MethodSet(ms) && ms != [] && g.vcall && Emitted(l, ms, |ms|, g.meta)
    ensures HasBroad(g)
  {
    KeyEmitted(l, ms, g.meta, 0);
    KeyBroad(ms[0]);
  }

  // A descriptor implements an interface exactly if its type can be behind it.
  lemma ImplementsExactly(l: Layout, ms: seq<Func>, d: Desc, u: Use)
    requires MethodSet(ms) && HasSlots(l, ms, d) && WfUse(u)
    ensures CallOf(CheckedLoad(u)).Some?
    ensures Implements(d, CallOf(CheckedLoad(u)).value.decl) <==> CanBeBehind(ms, u)
  {
    LoadParses(u);
    forall i | 0 <= i < |u.methods| ensures Key(u.methods[i]) in d.broad <==> HasMethod(ms, u.methods[i]) {
      KeyFound(l, ms, d, u.methods[i]);
    }
  }

  lemma KeyFound(l: Layout, ms: seq<Func>, d: Desc, m: Func)
    requires MethodSet(ms) && HasSlots(l, ms, d) && WfFunc(m)
    ensures Key(m) in d.broad <==> HasMethod(ms, m)
    ensures forall i :: 0 <= i < |ms| && Same(ms[i], m) ==> Key(m) in d.broad && d.broad[Key(m)] == Slot(l, i)
  {
    forall i | 0 <= i < |ms| ensures Same(ms[i], m) <==> Key(ms[i]) == Key(m) {
      KeyInjective(ms[i], m);
    }
  }

  lemma NoEarlierExact(l: Layout, types: seq<seq<Func>>, orig: seq<Desc>, calls: seq<Option<Call>>)
    requires |orig| == |types| && forall t :: 0 <= t < |types| ==> HasSlots(l, types[t], orig[t])
    ensures !AnyConflict(orig, calls)
  {
    forall j, s | 0 <= j < |orig| && 0 <= s < |calls| ensures !Conflicts(orig[j], calls[s]) {
      assert HasSlots(l, types[j], orig[j]);
    }
  }

  // The outcome of the pass on an emitted program.
  ghost predicate Treated(l: Layout, types: seq<seq<Func>>, uses: seq<Use>, orig: seq<Desc>, ids: seq<string>,
                          descs: seq<Desc>) {
    && WfProgram(types, uses) && |orig| == |types| && (forall t :: 0 <= t < |types| ==> HasSlots(l, types[t], orig[t]))
    && Outcome(Loads(uses), CallsOf(uses), orig, ids, descs)
    && Separate(CallsOf(uses)) && Consistent(CallsOf(uses), |uses|)
  }

  // Exact ids are ids of interface methods, and broad ids are not.
  lemma KindsApart(l: Layout, types: seq<seq<Func>>, uses: seq<Use>, orig: seq<Desc>, ids: seq<string>,
                   descs: seq<Desc>,
                   t: nat, x: string)
    requires Treated(l, types, uses, orig, ids, descs) && t < |types|
    ensures x in descs[t].broad ==> Classify(x) == BroadSlot
    ensures x in descs[t].exact ==> Classify(x) == ExactSlot
  {
    hide HasSlots, MethodSet, Gives, CanBeBehind, Separate, Consistent, Classify, Key, CallOf, CheckedLoad;
    assert Refined(orig[t], descs[t], CallsOf(uses), Ifaces(CallsOf(uses)));
    if x in descs[t].broad {
      BroadKind(l, types[t], orig[t], x);
    }
    if x in descs[t].exact {
      assert HasSlots(l, types[t], orig[t]);
      NoExact(l, types[t], orig[t]);
      var s :| 0 <= s < |uses| && Gives(orig[t], CallsOf(uses)[s], Ifaces(CallsOf(uses)), x);
      GivesUses(orig[t], CallsOf(uses)[s], Ifaces(CallsOf(uses)), x);
      ExactKind(uses[s], x);
    }
  }

  lemma GivesUses(d: Desc, c: Option<Call>, ifaces: set<string>, x: string)
    requires Gives(d, c, ifaces, x)
    ensures InterfaceIds.Uses(c, x)
  {
  }

  lemma NoExact(l: Layout, ms: seq<Func>, d: Desc)
    requires HasSlots(l, ms, d)
    ensures d.exact == map[]
  {
  }

  lemma BroadKind(l: Layout, ms: seq<Func>, d: Desc, x: string)
    requires MethodSet(ms) && HasSlots(l, ms, d) && x in d.broad
    ensures Classify(x) == BroadSlot
  {
    var i :| 0 <= i < |ms| && Key(ms[i]) == x;
    KeyBroad(ms[i]);
  }

  lemma ExactKind(u: Use, x: string)
    requires WfUse(u) && InterfaceIds.Uses(CallOf(CheckedLoad(u)), x)
    ensures Classify(x) == ExactSlot
  {
    assert x == ("go.method.i." + u.digest) + ".m" + Itoa(u.index);
    assert x[..|IFACE|] == IFACE;
  }

  lemma LookupFound(l: Layout, types: seq<seq<Func>>, uses: seq<Use>, orig: seq<Desc>, ids: seq<string>,
                    descs: seq<Desc>, t: nat, x: string)
    requires Treated(l, types, uses, orig, ids, descs) && t < |types|
    ensures |descs| == |types| && Found(descs[t], x) == Lookup(descs[t], x)
  {
    KindsApart(l, types, uses, orig, ids, descs, t, x);
  }

  // Where some type can be behind the interface the call keeps its exact id.
  lemma KeepsId(l: Layout, types: seq<seq<Func>>, uses: seq<Use>, orig: seq<Desc>, ids: seq<string>, descs: seq<Desc>,
                s: nat)
    requires Treated(l, types, uses, orig, ids, descs) && s < |uses| && CallOf(CheckedLoad(uses[s])).Some?
    requires HasImplementer(orig, CallOf(CheckedLoad(uses[s])).value.decl)
    ensures |ids| == |uses| && Classify(ids[s]) == ExactSlot
  {
    assert ids[s] == Loads(uses)[s].id;
    assert InterfaceIds.Uses(CallsOf(uses)[s], Loads(uses)[s].id);
    ExactKind(uses[s], ids[s]);
  }

  // The slot that a call finds on a type, in terms of the descriptors.
  lemma CallSlot(l: Layout, types: seq<seq<Func>>, uses: seq<Use>, orig: seq<Desc>, ids: seq<string>, descs: seq<Desc>,
                 s: nat, t: nat)
    requires Treated(l, types, uses, orig, ids, descs) && s < |uses| && t < |types|
    ensures |ids| == |uses| && |descs| == |types| && WfUse(uses[s]) && CallOf(CheckedLoad(uses[s])).Some?
    ensures var decl, x := CallOf(CheckedLoad(uses[s])).value.decl, Key(uses[s].methods[uses[s].index]);
            Lookup(descs[t], ids[s])
            == if (Implements(orig[t], decl) || !HasImplementer(orig, decl)) && x in orig[t].broad
               then Some(orig[t].broad[x]) else None
  {
    var u, checks, calls := uses[s], Loads(uses), CallsOf(uses);
    LoadParses(u);
    var c := CallOf(CheckedLoad(u)).value;
    if Implements(orig[t], c.decl) {
      hide Outcome, HasSlots;
      TargetsKept(checks, calls, orig, ids, descs, s, t);
    } else if HasImplementer(orig, c.decl) {
      ExactOnly(checks, calls, orig, ids, descs, s, t);
      KeepsId(l, types, uses, orig, ids, descs, s);
      assert HasSlots(l, types[t], orig[t]);
    } else {
      hide Outcome, HasSlots;
      FallbackKeepsBroad(checks, calls, orig, ids, descs, s, t);
      KeyBroad(u.methods[u.index]);
    }
  }

  // A call finds what it should.
  lemma CallFinds(l: Layout, types: seq<seq<Func>>, uses: seq<Use>, orig: seq<Desc>, ids: seq<string>, descs: seq<Desc>,
                  s: nat, t: nat)
    requires Treated(l, types, uses, orig, ids, descs) && s < |uses| && t < |types|
    ensures |ids| == |uses| && |descs| == |types|
    ensures WfUse(uses[s]) && Finds(l, types, uses[s], t, Found(descs[t], ids[s]))
  {
    hide HasSlots, MethodSet, Outcome, Lookup, CallOf, CheckedLoad, Implements, CanBeBehind, Consistent, Separate;
    var u := uses[s];
    CallSlot(l, types, uses, orig, ids, descs, s, t);
    LookupFound(l, types, uses, orig, ids, descs, t, ids[s]);
    var decl := CallOf(CheckedLoad(u)).value.decl;
    forall j | 0 <= j < |types| ensures Implements(orig[j], decl) <==> CanBeBehind(types[j], u) {
      ImplementsExactly(l, types[j], orig[j], u);
    }
    KeyFound(l, types[t], orig[t], u.methods[u.index]);
  }

  // Emitting a program and running the pass on it: it succeeds, and every call finds on
  // every type what it should.
  method RunEmitted(l: Layout, types: seq<seq<Func>>, uses: seq<Use>)
    returns (ok: bool, ids: seq<string>, descs: seq<Desc>)
    requires WfProgram(types, uses)
    ensures ok && |ids| == |uses| && |descs| == |types|
    ensures forall s, t :: 0 <= s < |uses| && 0 <= t < |types| ==>
              WfUse(uses[s]) && Finds(l, types, uses[s], t, Found(descs[t], ids[s]))
  {
    var globals := EmitTypes(l, types);
    EmittedWellFormed(l, types, uses, globals);
    hide WfProgram, InterfacePass.WellFormed, Outcome, AnyConflict, DescriptorsOf, HasSlots, Finds;
    var calls, orig;
    ok, ids, descs, calls, orig := Run(Loads(uses), globals);
    Accepted(l, types, uses, globals, ok, calls, orig);
    assert Treated(l, types, uses, orig, ids, descs);
    forall s, t | 0 <= s < |uses| && 0 <= t < |types|
      ensures |ids| == |uses| && |descs| == |types|
      ensures WfUse(uses[s]) && Finds(l, types, uses[s], t, Found(descs[t], ids[s]))
    {
      CallFinds(l, types, uses, orig, ids, descs, s, t);
    }
  }

  method EmitTypes(l: Layout, types: seq<seq<Func>>) returns (globals: seq<Global>)
    ensures GlobalsOf(l, types, globals)
  {
    globals := [];
    for t := 0 to |types|
      invariant |globals| == t
      invariant forall k :: 0 <= k < t ==> globals[k].vcall && Emitted(l, types[k], |types[k]|, globals[k].meta)
    {
      var meta := AddMethodTypeMetadata(l, types[t]);
      globals := globals + [Global(true, meta)];
    }
  }

  // The pass accepts an emitted program.
  lemma Accepted(l: Layout, types: seq<seq<Func>>, uses: seq<Use>, globals: seq<Global>, ok: bool,
                 calls: seq<Option<Call>>, orig: seq<Desc>)
    requires WfProgram(types, uses) && GlobalsOf(l, types, globals)
    requires ok ==> InterfacePass.WellFormed(Loads(uses), globals, calls) && DescriptorsOf(globals, orig)
    requires !ok && InterfacePass.WellFormed(Loads(uses), globals, calls) ==>
               DescriptorsOf(globals, orig) && AnyConflict(orig, calls)
    requires !ok && !InterfacePass.WellFormed(Loads(uses), globals, calls) ==>
               forall cs :: !InterfacePass.WellFormed(Loads(uses), globals, cs)
    ensures ok && calls == CallsOf(uses) && Separate(calls) && Consistent(calls, |uses|)
    ensures |orig| == |types| && forall t :: 0 <= t < |types| ==> HasSlots(l, types[t], orig[t])
  {
    hide HasSlots, MethodSet, Emitted, AnyConflict;
    EmittedWellFormed(l, types, uses, globals);
    assert InterfacePass.WellFormed(Loads(uses), globals, calls);
    EmittedDescribed(l, types, globals, orig);
    NoEarlierExact(l, types, orig, calls);
    ParsedSeparate(Loads(uses), calls);
    assert calls == CallsOf(uses);
  }
}
