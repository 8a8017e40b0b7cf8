// Static initializer folding, from collected stores to a constant. Stores go into a
// trie keyed by field and index paths; the constant built from the trie is the value
// that running the stores, in any order, leaves in zeroed storage.
module StaticInitTrie {
  import opened Common

  datatype Kind = Bool | Int | Uint8 | Uint | Float | Str
  datatype Field = Field(blank: bool, ty: Ty)
  // Pointer and slice types refer to their element type by number.
  datatype Ty =
    | Basic(k: Kind)
    | Func
    | Ptr(elem: nat)
    | Slice(elem: nat)
    | Struct(fields: seq<Field>)
    | Array(len: nat, item: Ty)
    | OtherTy

  // An SSA constant; LNil stands for the zero value of any type.
  datatype Lit = LNil | LBool(b: bool) | LInt(n: int) | LFloat(r: real) | LStr(s: string)
  datatype Fn = Fn(id: nat, needsEnv: bool)
  datatype Prim = PBool(b: bool) | PInt(n: int) | PFloat(r: real) | PStr(s: string)

  // A constant. Slices and pointers name the allocation they refer to.
  datatype C =
    | CPrim(p: Prim)
    | CNil
    | CFn(f: nat)
    | CAgg(parts: seq<C>)
    | CSlice(alloc: nat, content: C)
    | CPtr(alloc: nat, content: C)

  // A collected store: where, and what. Slice and pointer leaves carry the stores
  // into their backing object, and the trie of those stores if it can be built.
  datatype LStore = LStore(path: seq<nat>, leaf: Leaf)
  datatype Leaf =
    | LConst(lit: Lit)
    | LFunc(fn: Fn)
    | LSlice(alloc: nat, len: nat, elem: nat, item: Ty, stores: seq<LStore>, root: Option<Node>)
    | LPointer(alloc: nat, elem: nat, ty: Ty, stores: seq<LStore>, root: Option<Node>)
  datatype Node = Node(leaf: Option<Leaf>, children: map<nat, Node>)

  const EMPTY: Node := Node(None, map[])
  const MAX_ELEMENTS: nat := 65536
  const TWO_64: int := 0x1_0000_0000_0000_0000
  const TWO_63: int := 0x8000_0000_0000_0000

  // ---- zero values, paths and single stores ----

  function ZeroPrim(k: Kind): (p: Prim) {
    match k
    case Bool => PBool(false)
    case Float => PFloat(0.0)
    case Str => PStr("")
    case _ => PInt(0)
  }

  function Zero(ty: Ty): (c: C) {
    match ty
    case Basic(k) => CPrim(ZeroPrim(k))
    case Struct(fs) => CAgg(seq(|fs|, i requires 0 <= i < |fs| => Zero(fs[i].ty)))
    case Array(n, e) => CAgg(seq(n, _ => Zero(e)))
    case _ => CNil
  }

  // The parts of an aggregate type that stores can reach: blank fields are never
  // written.
  predicate Reaches(ty: Ty, i: nat) {
    match ty
    case Struct(fs) => i < |fs| && !fs[i].blank
    case Array(n, _) => i < n
    case _ => false
  }

  function PartTy(ty: Ty, i: nat): (t: Ty)
    requires Reaches(ty, i)
    ensures t < ty
  {
    if ty.Struct? then ty.fields[i].ty else ty.item
  }

  // The type at a path; OtherTy off the type's shape or inside a blank field.
  function TypeAt(ty: Ty, path: seq<nat>): (t: Ty) {
    if path == [] then ty
    else if Reaches(ty, path[0]) then TypeAt(PartTy(ty, path[0]), path[1..])
    else OtherTy
  }

  // One executed store of x at a path.
  function Update(ty: Ty, v: C, path: seq<nat>, x: C): (v': C)
    decreases |path|
  {
    if path == [] then x
    else if Reaches(ty, path[0]) && v.CAgg? && path[0] < |v.parts| then
      CAgg(v.parts[path[0] := Update(PartTy(ty, path[0]), v.parts[path[0]], path[1..], x)])
    else v
  }

  // The value a constant has at a type, if it has one there.
  function Convert(l: Lit, ty: Ty): (c: Option<C>) {
    if l.LNil? then Some(Zero(ty))
    else if !ty.Basic? then None
    else match (ty.k, l)
      case (Bool, LBool(b)) => Some(CPrim(PBool(b)))
      case (Int, LInt(n)) => if -TWO_63 <= n < TWO_63 then Some(CPrim(PInt(n))) else None
      case (Uint8, LInt(n)) => if 0 <= n < TWO_64 then Some(CPrim(PInt(n % 256))) else None
      case (Uint, LInt(n)) => if 0 <= n < TWO_64 then Some(CPrim(PInt(n))) else None
      case (Float, LFloat(r)) => Some(CPrim(PFloat(r)))
      case (Float, LInt(n)) => Some(CPrim(PFloat(n as real)))
      case (Str, LStr(s)) => Some(CPrim(PStr(s)))
      case _ => None
  }

  // ---- the reference: running the stores ----

  // What a literal means at a basic type: the truth value, number or text it denotes. A
  // number outside the type's range denotes nothing, except that a byte is what is left
  // of an unsigned number modulo 256.
  ghost predicate Means(k: Kind, l: Lit, p: Prim) {
    match p
    case PBool(b) => k == Bool && (l == LBool(b) || (l == LNil && !b))
    case PStr(s) => k == Str && (l == LStr(s) || (l == LNil && s == ""))
    case PFloat(r) => k == Float && (l == LFloat(r) || (l.LInt? && r == l.n as real) || (l == LNil && r == 0.0))
    case PInt(n) =>
      if l == LNil then (k == Int || k == Uint || k == Uint8) && n == 0
      else
        && l.LInt?
        && ((k == Int && n == l.n && -TWO_63 <= n < TWO_63)
            || (k == Uint && n == l.n && 0 <= n < TWO_64)
            || (k == Uint8 && 0 <= l.n < TWO_64 && 0 <= n < 256 && exists q: int :: l.n == 256 * q + n))
  }

  lemma MeansOnce(k: Kind, l: Lit, p: Prim, q: Prim)
    requires Means(k, l, p) && Means(k, l, q)
    ensures p == q
  {
  }

  // The conversion of constants is right: it gives a literal's meaning, and fails exactly
  // where the literal has none.
  lemma ConvertMeans(k: Kind, l: Lit)
    ensures forall p :: Convert(l, Basic(k)) == Some(CPrim(p)) <==> Means(k, l, p)
    ensures Convert(l, Basic(k)).Some? ==> Convert(l, Basic(k)).value.CPrim?
  {
    if k == Uint8 && l.LInt? && 0 <= l.n < TWO_64 {
      assert l.n == 256 * (l.n / 256) + l.n % 256;
      forall p | Means(k, l, p) ensures Convert(l, Basic(k)) == Some(CPrim(p)) {
        var q: int :| l.n == 256 * q + p.n;
      }
    }
  }

  // The value that storing a literal puts into a place of type ty. Nothing but the zero
  // value is a literal of a type that is not basic.
  ghost function LitVal(ty: Ty, l: Lit): (c: C) {
    if ty.Basic? then
      if p :| Means(ty.k, l, p) then CPrim(p) else CNil
    else if l.LNil? then Zero(ty) else CNil
  }

  lemma ConvertIsLitVal(ty: Ty, l: Lit)
    ensures Convert(l, ty).Some? ==> Convert(l, ty).value == LitVal(ty, l)
    ensures Convert(l, ty).Some? <==> if ty.Basic? then exists p :: Means(ty.k, l, p) else l.LNil?
  {
    if ty.Basic? {
      ConvertMeans(ty.k, l);
    }
  }

  // The zero value: what no literal means, at every depth.
  lemma {:induction false} ZeroMeans(ty: Ty)
    ensures Zero(ty) == LitVal(ty, LNil)
    ensures ty.Basic? ==> Zero(ty).CPrim? && Means(ty.k, LNil, Zero(ty).p)
    ensures match ty
            case Struct(fs) => Zero(ty).CAgg? && |Zero(ty).parts| == |fs|
              && forall i :: 0 <= i < |fs| ==> Zero(ty).parts[i] == LitVal(fs[i].ty, LNil)
            case Array(n, item) => Zero(ty).CAgg? && |Zero(ty).parts| == n
              && forall i :: 0 <= i < n ==> Zero(ty).parts[i] == LitVal(item, LNil)
            case _ => !Zero(ty).CAgg?
  {
    match ty
    case Basic(k) =>
      assert Means(k, LNil, ZeroPrim(k));
      MeansOnce(k, LNil, ZeroPrim(k), LitVal(ty, LNil).p);
    case Struct(fs) =>
      forall i | 0 <= i < |fs| ensures Zero(fs[i].ty) == LitVal(fs[i].ty, LNil) {
        ZeroMeans(fs[i].ty);
      }
    case Array(_, item) => ZeroMeans(item);
    case _ =>
  }

  ghost function LeafVal(ty: Ty, leaf: Leaf): (c: C)
    decreases leaf, 0
  {
    match leaf
    case LConst(l) => LitVal(ty, l)
    case LFunc(f) => CFn(f.id)
    case LSlice(a, n, _, item, stores, _) => CSlice(a, Run(Array(n, item), stores))
    case LPointer(a, _, t, stores, _) => CPtr(a, Run(t, stores))
  }

  // Zeroed storage of type ty after the stores, in order.
  ghost function Run(ty: Ty, stores: seq<LStore>): (v: C)
    decreases stores, 1
  {
    if stores == [] then Zero(ty)
    else
      var last := stores[|stores| - 1];
      Update(ty, Run(ty, stores[..|stores| - 1]), last.path, LeafVal(TypeAt(ty, last.path), last.leaf))
  }

  // ---- the trie ----

  function AddLeaf(n: Node, path: seq<nat>, leaf: Leaf): (r: Option<Node>)
    decreases |path|
  {
    if path == [] then
      if n.leaf.Some? || n.children != map[] then None else Some(Node(Some(leaf), map[]))
    else if n.leaf.Some? then None
    else
      var child := if path[0] in n.children then n.children[path[0]] else EMPTY;
      var r := AddLeaf(child, path[1..], leaf);
      if r.None? then None else Some(Node(None, n.children[path[0] := r.value]))
  }

  function Trie(stores: seq<LStore>): (r: Option<Node>) {
    if stores == [] then Some(EMPTY)
    else
      var front := Trie(stores[..|stores| - 1]);
      if front.None? then None
      else AddLeaf(front.value, stores[|stores| - 1].path, stores[|stores| - 1].leaf)
  }

  // The trie as the source keeps it: one root, extended in place.
  class StoreTrie {
    var root: Node
    ghost var added: seq<LStore>

    ghost predicate Valid()
      reads this
    {
      Trie(added) == Some(root)
    }

    constructor ()
      ensures Valid() && added == []
    {
      root := EMPTY;
      added := [];
    }

    method AddStore(s: LStore) returns (ok: bool)
      requires Valid()
      modifies this
      ensures Valid()
      ensures ok <==> Trie(old(added) + [s]).Some?
      ensures added == if ok then old(added) + [s] else old(added)
    {
      assert (added + [s])[..|added|] == added;
      var r := AddLeaf(root, s.path, s.leaf);
      ok := r.Some?;
      if ok {
        root, added := r.value, added + [s];
      }
    }
  }

  // ---- building the constant ----

  predicate InRange(n: Node, len: nat) {
    forall i :: i in n.children ==> i < len
  }

  predicate SizeAllowed(n: nat, item: Ty) {
    item == Basic(Uint8) || n <= MAX_ELEMENTS
  }

  function Build(ty: Ty, n: Node): (r: Option<C>)
    decreases n, 1, 0
  {
    if n.leaf.Some? then BuildLeaf(ty, n.leaf.value)
    else match ty
      case Struct(fs) =>
        if !InRange(n, |fs|) then None
        else var parts := BuildParts(ty, n, |fs|); if parts.None? then None else Some(CAgg(parts.value))
      case Array(len, item) =>
        if !SizeAllowed(len, item) then None
        else if ByteArray(n, len, item).Some? then Some(CAgg(ByteArray(n, len, item).value))
        else if !InRange(n, len) then None
        else var parts := BuildParts(ty, n, len); if parts.None? then None else Some(CAgg(parts.value))
      case _ => if n.children == map[] then Some(Zero(ty)) else None
  }

  // The first k parts of an aggregate. A blank field stays zero.
  function BuildParts(ty: Ty, n: Node, k: nat): (r: Option<seq<C>>)
    requires n.leaf.None?
    requires (ty.Struct? && k <= |ty.fields|) || (ty.Array? && k <= ty.len)
    ensures r.Some? ==> |r.value| == k
    decreases n, 0, k
  {
    if k == 0 then Some([])
    else
      var front := BuildParts(ty, n, k - 1);
      var t := if ty.Struct? then ty.fields[k - 1].ty else ty.item;
      var last := if Reaches(ty, k - 1) && k - 1 in n.children then Build(t, n.children[k - 1]) else Some(Zero(t));
      if front.None? || last.None? then None else Some(front.value + [last.value])
  }

  function BuildLeaf(ty: Ty, leaf: Leaf): (r: Option<C>)
    decreases leaf, 1, 0
  {
    match leaf
    case LConst(l) => Convert(l, ty)
    case LFunc(f) => if ty == Func && !f.needsEnv then Some(CFn(f.id)) else None
    case LSlice(a, n, elem, item, _, root) =>
      if ty != Slice(elem) || root.None? || root.value.leaf.Some? || !InRange(root.value, n) then None
      else var parts := BuildItems(item, root.value, n);
           if parts.None? then None else Some(CSlice(a, CAgg(parts.value)))
    case LPointer(a, elem, t, _, root) =>
      if ty != Ptr(elem) || root.None? then None
      else var c := Build(t, root.value); if c.None? then None else Some(CPtr(a, c.value))
  }

  // The first k elements of a slice's backing array. Unlike a missing part of an
  // aggregate, a missing element is built from an empty node.
  function BuildItems(item: Ty, n: Node, k: nat): (r: Option<seq<C>>)
    requires n.leaf.None?
    ensures r.Some? ==> |r.value| == k
    decreases n, 0, k
  {
    if k == 0 then Some([])
    else
      var front := BuildItems(item, n, k - 1);
      var last := if k - 1 in n.children then Build(item, n.children[k - 1]) else BuildEmpty(item);
      if front.None? || last.None? then None else Some(front.value + [last.value])
  }

  // The constant built from an empty node: zero, unless an array is too long.
  function BuildEmpty(ty: Ty): (r: Option<C>)
    ensures r.Some? ==> r.value == Zero(ty)
  {
    if ty.Array? && !SizeAllowed(ty.len, ty.item) then None else Some(Zero(ty))
  }

  // A byte array whose elements are all integer constants, as bytes.
  function ByteArray(n: Node, len: nat, item: Ty): (r: Option<seq<C>>)
    ensures r.Some? ==> |r.value| == len
  {
    if item != Basic(Uint8) || !InRange(n, len) || !(forall i :: i in n.children ==> IsByte(n.children[i])) then None
    else Some(seq(len, i requires 0 <= i < len =>
      if i in n.children then CPrim(PInt(n.children[i].leaf.value.lit.n)) else CPrim(PInt(0))))
  }

  predicate IsByte(n: Node) {
    && n.leaf.Some? && n.leaf.value.LConst? && n.leaf.value.lit.LInt?
    && n.children == map[] && 0 <= n.leaf.value.lit.n <= 0xff
  }

  // ---- the trie denotes the run ----

  // What a trie stands for, whether or not a constant is built from it.
  ghost function Denote(ty: Ty, n: Node): (c: C)
    decreases n
  {
    if n.leaf.Some? then LeafVal(ty, n.leaf.value)
    else match ty
      case Struct(fs) => CAgg(seq(|fs|, i requires 0 <= i < |fs| =>
        if Reaches(ty, i) && i in n.children then Denote(fs[i].ty, n.children[i]) else Zero(fs[i].ty)))
      case Array(len, item) => CAgg(seq(len, i requires 0 <= i < len =>
        if i in n.children then Denote(item, n.children[i]) else Zero(item)))
      case _ => Zero(ty)
  }

  lemma DenoteEmpty(ty: Ty)
    ensures Denote(ty, EMPTY) == Zero(ty)
  {
  }

  // The part that a child stands for.
  lemma DenoteChild(ty: Ty, n: Node, i: nat)
    requires n.leaf.None? && Reaches(ty, i)
    ensures var v := Denote(ty, n);
            v.CAgg? && i < |v.parts|
              && v.parts[i] == Denote(PartTy(ty, i), if i in n.children then n.children[i] else EMPTY)
  {
    DenoteEmpty(PartTy(ty, i));
  }

  // Replacing a child replaces its part.
  lemma DenotePart(ty: Ty, n: Node, n': Node, i: nat, child: Node)
    requires n.leaf.None? && Reaches(ty, i) && n' == Node(None, n.children[i := child])
    ensures var v := Denote(ty, n);
            v.CAgg? && i < |v.parts| && Denote(ty, n') == CAgg(v.parts[i := Denote(PartTy(ty, i), child)])
  {
    var v := Denote(ty, n);
    assert Denote(ty, n').parts == v.parts[i := Denote(PartTy(ty, i), child)];
  }

  // Adding a leaf is executing its store.
  lemma {:induction false} DenoteAdd(ty: Ty, n: Node, path: seq<nat>, leaf: Leaf)
    requires AddLeaf(n, path, leaf).Some?
    ensures Denote(ty, AddLeaf(n, path, leaf).value) == Update(ty, Denote(ty, n), path, LeafVal(TypeAt(ty, path), leaf))
    decreases |path|
  {
    if path != [] {
      var i := path[0];
      var child := if i in n.children then n.children[i] else EMPTY;
      var n' := AddLeaf(n, path, leaf).value;
      if Reaches(ty, i) {
        var t := PartTy(ty, i);
        DenoteAdd(t, child, path[1..], leaf);
        DenoteChild(ty, n, i);
        DenotePart(ty, n, n', i, AddLeaf(child, path[1..], leaf).value);
      } else {
        assert Denote(ty, n') == Denote(ty, n);
      }
    }
  }

  lemma {:induction false} TrieDenotes(ty: Ty, stores: seq<LStore>)
    requires Trie(stores).Some?
    ensures Denote(ty, Trie(stores).value) == Run(ty, stores)
  {
    if stores == [] {
      DenoteEmpty(ty);
    } else {
      var front, last := stores[..|stores| - 1], stores[|stores| - 1];
      TrieDenotes(ty, front);
      DenoteAdd(ty, Trie(front).value, last.path, last.leaf);
    }
  }

  // ---- the built constant is what the trie denotes ----

  // Backing tries are the tries of their stores, at every depth.
  ghost predicate WfLeaf(leaf: Leaf)
    decreases leaf
  {
    match leaf
    case LConst(_) => true
    case LFunc(_) => true
    case LSlice(_, _, _, _, stores, root) =>
      root == Trie(stores) && (root.Some? ==> WfNode(root.value))
    case LPointer(_, _, _, stores, root) =>
      root == Trie(stores) && (root.Some? ==> WfNode(root.value))
  }

  ghost predicate WfNode(n: Node)
    decreases n
  {
    (n.leaf.Some? ==> WfLeaf(n.leaf.value)) && forall i :: i in n.children ==> WfNode(n.children[i])
  }

  lemma {:induction false} AddLeafWf(n: Node, path: seq<nat>, leaf: Leaf)
    requires WfNode(n) && WfLeaf(leaf) && AddLeaf(n, path, leaf).Some?
    ensures WfNode(AddLeaf(n, path, leaf).value)
    decreases |path|
  {
    if path != [] {
      AddLeafWf(if path[0] in n.children then n.children[path[0]] else EMPTY, path[1..], leaf);
    }
  }

  lemma {:induction false} TrieWf(stores: seq<LStore>)
    requires forall k :: 0 <= k < |stores| ==> WfLeaf(stores[k].leaf)
    ensures Trie(stores).Some? ==> WfNode(Trie(stores).value)
  {
    if stores != [] {
      var front, last := stores[..|stores| - 1], stores[|stores| - 1];
      TrieWf(front);
      if Trie(stores).Some? {
        AddLeafWf(Trie(front).value, last.path, last.leaf);
      }
    }
  }

  lemma BuildEmptyAgrees(ty: Ty)
    ensures Build(ty, EMPTY) == BuildEmpty(ty)
  {
    if ty.Struct? || ty.Array? {
      var k := if ty.Struct? then |ty.fields| else ty.len;
      PartsOfEmpty(ty, k);
      assert Zero(ty).parts[..k] == Zero(ty).parts;
    }
    if ty.Array? && ty.item == Basic(Uint8) {
      assert ByteArray(EMPTY, ty.len, ty.item).value == Zero(ty).parts;
    }
  }

  lemma {:induction false} PartsOfEmpty(ty: Ty, k: nat)
    requires (ty.Struct? && k <= |ty.fields|) || (ty.Array? && k <= ty.len)
    ensures BuildParts(ty, EMPTY, k).Some? && BuildParts(ty, EMPTY, k).value == Zero(ty).parts[..k]
  {
    if k > 0 {
      PartsOfEmpty(ty, k - 1);
      assert Zero(ty).parts[..k] == Zero(ty).parts[..k - 1] + [Zero(ty).parts[k - 1]];
    }
  }

  // The byte-array shortcut builds what element-by-element building builds.
  lemma {:induction false} ByteArrayAgrees(n: Node, len: nat, k: nat)
    requires n.leaf.None? && ByteArray(n, len, Basic(Uint8)).Some? && k <= len
    ensures BuildParts(Array(len, Basic(Uint8)), n, k) == Some(ByteArray(n, len, Basic(Uint8)).value[..k])
  {
    if k > 0 {
      ByteArrayAgrees(n, len, k - 1);
      var bytes := ByteArray(n, len, Basic(Uint8)).value;
      assert bytes[..k] == bytes[..k - 1] + [bytes[k - 1]];
      if k - 1 in n.children {
        var child := n.children[k - 1];
        assert IsByte(child) && child.leaf.value.lit.n % 256 == child.leaf.value.lit.n;
        assert Build(Basic(Uint8), child) == Some(bytes[k - 1]);
      } else {
        assert Zero(Basic(Uint8)) == bytes[k - 1];
      }
    }
  }

  lemma {:induction false} BuildDenotes(ty: Ty, n: Node)
    requires WfNode(n) && Build(ty, n).Some?
    ensures Build(ty, n).value == Denote(ty, n)
    decreases n, 1, 0
  {
    if n.leaf.Some? {
      BuildLeafDenotes(ty, n.leaf.value);
    } else if ty.Struct? {
      PartsDenote(ty, n, |ty.fields|);
      assert Denote(ty, n).parts[..|ty.fields|] == Denote(ty, n).parts;
    } else if ty.Array? {
      if ByteArray(n, ty.len, ty.item).Some? {
        ByteArrayAgrees(n, ty.len, ty.len);
        var bytes := ByteArray(n, ty.len, ty.item).value;
        assert bytes[..ty.len] == bytes;
      }
      PartsDenote(ty, n, ty.len);
      assert Denote(ty, n).parts[..ty.len] == Denote(ty, n).parts;
    }
  }

  lemma {:induction false} PartsDenote(ty: Ty, n: Node, k: nat)
    requires WfNode(n) && n.leaf.None?
    requires (ty.Struct? && k <= |ty.fields|) || (ty.Array? && k <= ty.len)
    requires BuildParts(ty, n, k).Some?
    ensures BuildParts(ty, n, k).value == Denote(ty, n).parts[..k]
    decreases n, 0, k
  {
    hide LeafVal, BuildLeaf, WfLeaf;
    if k > 0 {
      PartsDenote(ty, n, k - 1);
      var t := if ty.Struct? then ty.fields[k - 1].ty else ty.item;
      if Reaches(ty, k - 1) && k - 1 in n.children {
        BuildDenotes(t, n.children[k - 1]);
      }
      var all := Denote(ty, n).parts;
      assert all[..k] == all[..k - 1] + [all[k - 1]];
    }
  }

  lemma {:induction false} BuildLeafDenotes(ty: Ty, leaf: Leaf)
    requires WfLeaf(leaf) && BuildLeaf(ty, leaf).Some?
    ensures BuildLeaf(ty, leaf).value == LeafVal(ty, leaf)
    decreases leaf, 1, 0
  {
    match leaf
    case LConst(l) => ConvertIsLitVal(ty, l);
    case LFunc(_) =>
    case LSlice(a, n, elem, item, stores, root) =>
      ItemsDenote(item, n, root.value, n);
      TrieDenotes(Array(n, item), stores);
      var all := Denote(Array(n, item), root.value).parts;
      assert all[..n] == all;
    case LPointer(a, elem, t, stores, root) =>
      BuildDenotes(t, root.value);
      TrieDenotes(t, stores);
  }

  lemma {:induction false} ItemsDenote(item: Ty, len: nat, n: Node, k: nat)
    requires WfNode(n) && n.leaf.None? && k <= len && BuildItems(item, n, k).Some?
    ensures BuildItems(item, n, k).value == Denote(Array(len, item), n).parts[..k]
    decreases n, 0, k
  {
    if k > 0 {
      ItemsDenote(item, len, n, k - 1);
      if k - 1 in n.children {
        BuildDenotes(item, n.children[k - 1]);
      }
      var all := Denote(Array(len, item), n).parts;
      assert all[..k] == all[..k - 1] + [all[k - 1]];
    }
  }

  // Folding: the constant built from a list of stores is the value that running the
  // stores leaves in zeroed storage, blank fields left zero.
  lemma FoldIsRun(ty: Ty, stores: seq<LStore>)
    requires forall k :: 0 <= k < |stores| ==> WfLeaf(stores[k].leaf)
    requires Trie(stores).Some? && Build(ty, Trie(stores).value).Some?
    ensures Build(ty, Trie(stores).value).value == Run(ty, stores)
  {
    TrieWf(stores);
    BuildDenotes(ty, Trie(stores).value);
    TrieDenotes(ty, stores);
  }

  // ---- which store lists the trie accepts ----

  predicate Comparable(p: seq<nat>, q: seq<nat>) {
    p <= q || q <= p
  }

  ghost predicate Apart(stores: seq<LStore>) {
    forall i, j :: 0 <= i < j < |stores| ==> !Comparable(stores[i].path, stores[j].path)
  }

  // The trie has a leaf at, above or below the path.
  predicate Blocked(n: Node, path: seq<nat>)
    decreases |path|
  {
    if path == [] then n.leaf.Some? || n.children != map[]
    else n.leaf.Some? || (path[0] in n.children && Blocked(n.children[path[0]], path[1..]))
  }

  lemma {:induction false} AddAccepts(n: Node, path: seq<nat>, leaf: Leaf)
    ensures AddLeaf(n, path, leaf).Some? <==> !Blocked(n, path)
    decreases |path|
  {
    if path != [] {
      AddAccepts(if path[0] in n.children then n.children[path[0]] else EMPTY, path[1..], leaf);
      EmptyFree(path[1..]);
    }
  }

  lemma EmptyFree(path: seq<nat>)
    ensures !Blocked(EMPTY, path)
  {
  }

  // After an addition, a path is blocked iff it was, or it is comparable to the one
  // added.
  lemma {:induction false} BlockedAfter(n: Node, path: seq<nat>, leaf: Leaf, q: seq<nat>)
    requires AddLeaf(n, path, leaf).Some?
    ensures Blocked(AddLeaf(n, path, leaf).value, q) <==> Blocked(n, q) || Comparable(path, q)
    decreases |path|
  {
    var n' := AddLeaf(n, path, leaf).value;
    if path != [] && q == [] {
      assert path[0] in n'.children;
    } else if path != [] {
      var child := if path[0] in n.children then n.children[path[0]] else EMPTY;
      if path[0] == q[0] {
        BlockedAfter(child, path[1..], leaf, q[1..]);
        EmptyFree(q[1..]);
        assert Comparable(path, q) <==> Comparable(path[1..], q[1..]) by {
          assert path == [path[0]] + path[1..] && q == [q[0]] + q[1..];
        }
      }
    }
  }

  lemma {:induction false} TrieBlocks(stores: seq<LStore>, q: seq<nat>)
    requires Trie(stores).Some?
    ensures Blocked(Trie(stores).value, q) <==> exists k :: 0 <= k < |stores| && Comparable(stores[k].path, q)
  {
    if stores == [] {
      EmptyFree(q);
    } else {
      var front, last := stores[..|stores| - 1], stores[|stores| - 1];
      TrieBlocks(front, q);
      BlockedAfter(Trie(front).value, last.path, last.leaf, q);
      if k :| 0 <= k < |front| && Comparable(front[k].path, q) {
        assert Comparable(stores[k].path, q);
      }
    }
  }

  // The trie accepts exactly the lists whose paths are pairwise incomparable.
  lemma {:induction false} TrieAccepts(stores: seq<LStore>)
    ensures Trie(stores).Some? <==> Apart(stores)
  {
    if stores != [] {
      var front, last := stores[..|stores| - 1], stores[|stores| - 1];
      TrieAccepts(front);
      if Trie(front).Some? {
        AddAccepts(Trie(front).value, last.path, last.leaf);
        TrieBlocks(front, last.path);
        if k :| 0 <= k < |front| && Comparable(front[k].path, last.path) {
          assert Comparable(stores[k].path, stores[|stores| - 1].path);
        }
      } else {
        var i, j :| 0 <= i < j < |front| && Comparable(front[i].path, front[j].path);
        assert Comparable(stores[i].path, stores[j].path);
      }
    }
  }

  // ---- incomparable stores commute ----

  lemma {:induction false} UpdatesCommute(ty: Ty, v: C, p: seq<nat>, x: C, q: seq<nat>, y: C)
    requires !Comparable(p, q)
    ensures Update(ty, Update(ty, v, p, x), q, y) == Update(ty, Update(ty, v, q, y), p, x)
    decreases |p|
  {
    if Writes(ty, v, p[0]) && Writes(ty, v, q[0]) {
      if p[0] == q[0] {
        assert !Comparable(p[1..], q[1..]) by {
          assert p == [p[0]] + p[1..] && q == [q[0]] + q[1..];
        }
        UpdatesCommute(PartTy(ty, p[0]), v.parts[p[0]], p[1..], x, q[1..], y);
        SamePart(ty, v, p, x, q, y);
        SamePart(ty, v, q, y, p, x);
      } else {
        OtherPart(ty, v, p, x, q, y);
        OtherPart(ty, v, q, y, p, x);
        assert v.parts[p[0] := UpdatePart(ty, v, p, x)][q[0] := UpdatePart(ty, v, q, y)]
            == v.parts[q[0] := UpdatePart(ty, v, q, y)][p[0] := UpdatePart(ty, v, p, x)];
      }
    } else {
      UpdateMiss(ty, v, p, x, q, y);
    }
  }

  lemma SamePart(ty: Ty, v: C, p: seq<nat>, x: C, q: seq<nat>, y: C)
    requires p != [] && q != [] && p[0] == q[0] && Writes(ty, v, p[0])
    ensures Update(ty, Update(ty, v, p, x), q, y)
            == CAgg(v.parts[p[0] := Update(PartTy(ty, p[0]), UpdatePart(ty, v, p, x), q[1..], y)])
  {
    var u := Update(ty, v, p, x);
    assert u == CAgg(v.parts[p[0] := UpdatePart(ty, v, p, x)]);
    var z := Update(PartTy(ty, p[0]), u.parts[p[0]], q[1..], y);
    assert u.parts[p[0] := z] == v.parts[p[0] := z];
  }

  lemma OtherPart(ty: Ty, v: C, p: seq<nat>, x: C, q: seq<nat>, y: C)
    requires p != [] && q != [] && p[0] != q[0] && Writes(ty, v, p[0]) && Writes(ty, v, q[0])
    ensures Update(ty, Update(ty, v, p, x), q, y)
            == CAgg(v.parts[p[0] := UpdatePart(ty, v, p, x)][q[0] := UpdatePart(ty, v, q, y)])
  {
    assert Update(ty, v, p, x) == CAgg(v.parts[p[0] := UpdatePart(ty, v, p, x)]);
  }

  predicate Writes(ty: Ty, v: C, i: nat) {
    Reaches(ty, i) && v.CAgg? && i < |v.parts|
  }

  function UpdatePart(ty: Ty, v: C, p: seq<nat>, x: C): (c: C)
    requires p != [] && Writes(ty, v, p[0])
  {
    Update(PartTy(ty, p[0]), v.parts[p[0]], p[1..], x)
  }

  // A store off the type's shape changes nothing, before or after another.
  lemma UpdateMiss(ty: Ty, v: C, p: seq<nat>, x: C, q: seq<nat>, y: C)
    requires p != [] && q != [] && !(Writes(ty, v, p[0]) && Writes(ty, v, q[0]))
    ensures Update(ty, Update(ty, v, p, x), q, y) == Update(ty, Update(ty, v, q, y), p, x)
  {
    var u, w := Update(ty, v, p, x), Update(ty, v, q, y);
    assert !Writes(ty, v, p[0]) ==> u == v;
    assert !Writes(ty, v, q[0]) ==> w == v;
    assert Writes(ty, u, q[0]) <==> Writes(ty, v, q[0]);
    assert Writes(ty, w, p[0]) <==> Writes(ty, v, p[0]);
  }

  // A list without its k-th store.
  function Without(a: seq<LStore>, k: nat): (r: seq<LStore>)
    requires k < |a|
  {
    a[..k] + a[k + 1..]
  }

  lemma RunAppend(ty: Ty, stores: seq<LStore>, s: LStore)
    ensures Run(ty, stores + [s]) == Update(ty, Run(ty, stores), s.path, LeafVal(TypeAt(ty, s.path), s.leaf))
  {
    assert (stores + [s])[..|stores|] == stores;
  }

  // Two last stores that are apart can be exchanged.
  lemma SwapLast(ty: Ty, stores: seq<LStore>, s: LStore, t: LStore)
    requires !Comparable(s.path, t.path)
    ensures Run(ty, stores + [s] + [t]) == Run(ty, stores + [t] + [s])
  {
    hide Run, Update;
    var x, y := LeafVal(TypeAt(ty, s.path), s.leaf), LeafVal(TypeAt(ty, t.path), t.leaf);
    RunAppend(ty, stores, s);
    RunAppend(ty, stores + [s], t);
    RunAppend(ty, stores, t);
    RunAppend(ty, stores + [t], s);
    UpdatesCommute(ty, Run(ty, stores), s.path, x, t.path, y);
  }

  // Moving a store to the end of the list changes nothing.
  lemma {:induction false} MoveLast(ty: Ty, stores: seq<LStore>, k: nat)
    requires Apart(stores) && k < |stores|
    ensures Run(ty, stores) == Run(ty, Without(stores, k) + [stores[k]])
  {
    hide Run, Comparable;
    var n := |stores| - 1;
    if k == n {
      assert Without(stores, k) + [stores[k]] == stores;
    } else {
      var front, last, s := stores[..n], stores[n], stores[k];
      MoveLast(ty, front, k);
      var rest := Without(front, k);
      SwapLast(ty, rest, s, last);
      assert stores == front + [last] && Without(stores, k) == rest + [last];
      RunAppend(ty, front, last);
      RunAppend(ty, rest + [s], last);
    }
  }

  lemma WithoutApart(a: seq<LStore>, k: nat)
    requires k < |a| && Apart(a)
    ensures Apart(Without(a, k))
  {
    var rest := Without(a, k);
    forall i, j | 0 <= i < j < |rest| ensures !Comparable(rest[i].path, rest[j].path) {
      var i', j' := if i < k then i else i + 1, if j < k then j else j + 1;
      assert rest[i] == a[i'] && rest[j] == a[j'];
    }
  }

  lemma PickLast(a: seq<LStore>, b: seq<LStore>) returns (k: nat)
    requires multiset(a) == multiset(b) && b != []
    ensures k < |a| && a[k] == b[|b| - 1] && multiset(Without(a, k)) == multiset(b[..|b| - 1])
  {
    var last, front := b[|b| - 1], b[..|b| - 1];
    assert b == front + [last];
    assert last in multiset(a);
    k :| 0 <= k < |a| && a[k] == last;
    assert a == a[..k] + [a[k]] + a[k + 1..];
    assert multiset(a) == multiset(Without(a, k)) + multiset{last};
    assert multiset(b) == multiset(front) + multiset{last};
    var x, y := multiset(Without(a, k)), multiset(front);
    assert x == (x + multiset{last}) - multiset{last} && y == (y + multiset{last}) - multiset{last};
  }

  // Every order of an accepted list of stores leaves the same value.
  lemma {:induction false} AnyOrder(ty: Ty, a: seq<LStore>, b: seq<LStore>)
    requires Apart(a) && multiset(a) == multiset(b)
    ensures Run(ty, a) == Run(ty, b)
    decreases |b|
  {
    if b == [] {
      assert |multiset(a)| == |a|;
    } else {
      var k := PickLast(a, b);
      WithoutApart(a, k);
      AnyOrder(ty, Without(a, k), b[..|b| - 1]);
      MoveLast(ty, a, k);
      var moved := Without(a, k) + [a[k]];
      assert moved[..|moved| - 1] == Without(a, k);
    }
  }
}
