// Layout of GC root frames: how many roots a type contributes, which pointers of a
// value are published, and which slots of a frame each value gets.
module RootLayout {
  import opened Common

  // Types, as far as roots are concerned. Ref stands for the types that hold exactly
  // one heap pointer: pointers, unsafe pointers, strings, slices, maps, channels,
  // functions and interfaces.
  datatype Ty =
    | Scalar
    | Uintptr
    | Ref
    | Struct(fields: seq<Ty>)
    | Array(len: nat, elem: Ty)
    | Tuple(elems: seq<Ty>)

  // A value: a heap pointer, plain data, or parts.
  datatype Value = Word(data: int) | Pointer(p: nat) | Parts(parts: seq<Value>)

  ghost predicate HasType(v: Value, t: Ty)
    decreases t
  {
    match t
    case Scalar => v.Word?
    case Uintptr => v.Word?
    case Ref => v.Pointer?
    case Struct(fs) => v.Parts? && |v.parts| == |fs| && forall i :: 0 <= i < |fs| ==> HasType(v.parts[i], fs[i])
    case Array(n, e) => v.Parts? && |v.parts| == n && forall i :: 0 <= i < n ==> HasType(v.parts[i], e)
    case Tuple(es) => v.Parts? && |v.parts| == |es| && forall i :: 0 <= i < |es| ==> HasType(v.parts[i], es[i])
  }

  function Count(t: Ty): (n: nat)
    decreases t
  {
    match t
    case Scalar => 0
    case Uintptr => 0
    case Ref => 1
    case Struct(fs) => CountAll(fs)
    case Array(n, e) => n * Count(e)
    case Tuple(es) => CountAll(es)
  }

  function CountAll(ts: seq<Ty>): (n: nat)
    decreases ts
  {
    if ts == [] then 0 else CountAll(ts[..|ts| - 1]) + Count(ts[|ts| - 1])
  }

  // Whether a type may hold a heap pointer at all. Tuples are never rooted whole.
  predicate MayContain(t: Ty) {
    match t
    case Scalar => false
    case Uintptr => false
    case Ref => true
    case Struct(fs) => exists i :: 0 <= i < |fs| && MayContain(fs[i])
    case Array(_, e) => MayContain(e)
    case Tuple(_) => false
  }

  // ---- the reference: every pointer in a value, in order ----

  function AllPointers(v: Value): (ps: seq<nat>)
    decreases v
  {
    match v
    case Word(_) => []
    case Pointer(p) => [p]
    case Parts(vs) => AllOf(vs)
  }

  function AllOf(vs: seq<Value>): (ps: seq<nat>)
    decreases vs
  {
    if vs == [] then [] else AllOf(vs[..|vs| - 1]) + AllPointers(vs[|vs| - 1])
  }

  // ---- the extraction: append through a list, skipping parts without roots ----

  method AppendPointers(roots: seq<nat>, t: Ty, v: Value) returns (out: seq<nat>)
    requires HasType(v, t)
    ensures out == roots + AllPointers(v) && |out| == |roots| + Count(t)
    decreases t
  {
    out := roots;
    match t {
      case Scalar =>
      case Uintptr =>
      case Ref => out := out + [v.p];
      case Struct(fs) =>
        out := AppendParts(roots, fs, v.parts);
      case Tuple(es) =>
        out := AppendParts(roots, es, v.parts);
      case Array(n, e) =>
        if Count(e) == 0 {
          NoRoots(v, t);
          return;
        }
        var i := 0;
        while i < n
          invariant 0 <= i <= n
          invariant out == roots + AllOf(v.parts[..i]) && |out| == |roots| + i * Count(e)
        {
          out := AppendPointers(out, e, v.parts[i]);
          AllOfStep(v.parts, i);
          assert (i + 1) * Count(e) == i * Count(e) + Count(e);
          i := i + 1;
        }
        assert v.parts[..n] == v.parts;
    }
  }

  method AppendParts(roots: seq<nat>, ts: seq<Ty>, vs: seq<Value>) returns (out: seq<nat>)
    requires |ts| == |vs| && forall i :: 0 <= i < |ts| ==> HasType(vs[i], ts[i])
    ensures out == roots + AllOf(vs) && |out| == |roots| + CountAll(ts)
    decreases ts
  {
    out := roots;
    var i := 0;
    while i < |ts|
      invariant 0 <= i <= |ts|
      invariant out == roots + AllOf(vs[..i]) && |out| == |roots| + CountAll(ts[..i])
    {
      AllOfStep(vs, i);
      assert ts[..i + 1][..i] == ts[..i];
      if Count(ts[i]) != 0 {
        out := AppendPointers(out, ts[i], vs[i]);
      } else {
        NoRoots(vs[i], ts[i]);
      }
      i := i + 1;
    }
    assert vs[..|ts|] == vs && ts[..|ts|] == ts;
  }

  lemma AllOfStep(vs: seq<Value>, i: nat)
    requires i < |vs|
    ensures AllOf(vs[..i + 1]) == AllOf(vs[..i]) + AllPointers(vs[i])
  {
    assert vs[..i + 1][..i] == vs[..i];
  }

  // The count is the number of pointers.
  lemma {:induction false} CountIsPointers(v: Value, t: Ty)
    requires HasType(v, t)
    ensures |AllPointers(v)| == Count(t)
    decreases t, 1
  {
    match t
    case Scalar =>
    case Uintptr =>
    case Ref =>
    case Struct(fs) => CountAllIsPointers(v.parts, fs);
    case Tuple(es) => CountAllIsPointers(v.parts, es);
    case Array(n, e) => CountItemsIsPointers(v.parts, e);
  }

  lemma {:induction false} CountAllIsPointers(vs: seq<Value>, ts: seq<Ty>)
    requires |ts| == |vs| && forall i :: 0 <= i < |ts| ==> HasType(vs[i], ts[i])
    ensures |AllOf(vs)| == CountAll(ts)
    decreases ts, 0
  {
    if ts != [] {
      CountAllIsPointers(vs[..|vs| - 1], ts[..|ts| - 1]);
      CountIsPointers(vs[|vs| - 1], ts[|ts| - 1]);
    }
  }

  lemma {:induction false} CountItemsIsPointers(vs: seq<Value>, e: Ty)
    requires forall i :: 0 <= i < |vs| ==> HasType(vs[i], e)
    ensures |AllOf(vs)| == |vs| * Count(e)
    decreases e, 2, |vs|
  {
    if vs != [] {
      CountItemsIsPointers(vs[..|vs| - 1], e);
      CountIsPointers(vs[|vs| - 1], e);
      assert |vs| * Count(e) == (|vs| - 1) * Count(e) + Count(e);
    }
  }

  lemma NoRoots(v: Value, t: Ty)
    requires HasType(v, t) && Count(t) == 0
    ensures AllPointers(v) == []
  {
    CountIsPointers(v, t);
  }

  // A type that may not hold a pointer contributes none. Tuples do not nest.
  ghost predicate TupleFree(t: Ty) {
    match t
    case Struct(fs) => forall i :: 0 <= i < |fs| ==> TupleFree(fs[i])
    case Array(_, e) => TupleFree(e)
    case Tuple(_) => false
    case _ => true
  }

  lemma {:induction false} MayNotMeansZero(t: Ty)
    requires TupleFree(t) && !MayContain(t)
    ensures Count(t) == 0
    decreases t, 1
  {
    match t
    case Struct(fs) => AllZero(fs);
    case Array(n, e) => MayNotMeansZero(e);
    case _ =>
  }

  lemma {:induction false} AllZero(ts: seq<Ty>)
    requires forall i :: 0 <= i < |ts| ==> TupleFree(ts[i]) && !MayContain(ts[i])
    ensures CountAll(ts) == 0
    decreases ts, 0
  {
    if ts != [] {
      AllZero(ts[..|ts| - 1]);
      MayNotMeansZero(ts[|ts| - 1]);
    }
  }

  // ---- slots of a function's frame ----

  // An SSA value in frame order: its type, and whether it is planned as a root.
  datatype Val = Val(ty: Ty, planned: bool)

  // Slots a value gets. A planned uintptr has one, stored directly.
  function Slots(v: Val): (n: nat) {
    if !v.planned then 0 else if v.ty == Uintptr then 1 else Count(v.ty)
  }

  function Total(vs: seq<Val>): (n: nat) {
    if vs == [] then 0 else Total(vs[..|vs| - 1]) + Slots(vs[|vs| - 1])
  }

  datatype Range = Range(start: nat, len: nat)

  // The two passes: count, then hand out consecutive slices of the reserved slots.
  method PrepareRoots(vs: seq<Val>, closure: bool)
    returns (total: nat, roots: map<nat, Range>, closureSlot: Option<nat>)
    ensures total == Total(vs) + (if closure then 1 else 0)
    ensures forall k :: k in roots <==> 0 <= k < |vs| && Slots(vs[k]) != 0
    ensures forall k :: k in roots ==> roots[k] == Range(Total(vs[..k]), Slots(vs[k]))
    ensures closureSlot == if closure then Some(Total(vs)) else None
  {
    var counts;
    total, counts := CountRoots(vs);
    if closure {
      total := total + 1;
    }
    var next := 0;
    roots := map[];
    var i := 0;
    while i < |vs|
      invariant 0 <= i <= |vs| && next == Total(vs[..i])
      invariant forall k :: k in roots <==> 0 <= k < i && Slots(vs[k]) != 0
      invariant forall k :: k in roots ==> roots[k] == Range(Total(vs[..k]), Slots(vs[k]))
    {
      assert vs[..i + 1][..i] == vs[..i];
      if i in counts {
        roots := roots[i := Range(next, counts[i])];
        next := next + counts[i];
      }
      i := i + 1;
    }
    assert vs[..|vs|] == vs;
    closureSlot := if closure then Some(next) else None;
  }

  // The first pass: the slots of each value that needs any, and their sum.
  method CountRoots(vs: seq<Val>) returns (total: nat, counts: map<nat, nat>)
    ensures total == Total(vs)
    ensures forall k :: k in counts <==> 0 <= k < |vs| && Slots(vs[k]) != 0
    ensures forall k :: k in counts ==> counts[k] == Slots(vs[k])
  {
    counts := map[];
    total := 0;
    var i := 0;
    while i < |vs|
      invariant 0 <= i <= |vs| && total == Total(vs[..i])
      invariant forall k :: k in counts <==> 0 <= k < i && Slots(vs[k]) != 0
      invariant forall k :: k in counts ==> counts[k] == Slots(vs[k])
    {
      assert vs[..i + 1][..i] == vs[..i];
      if vs[i].planned {
        var n := if vs[i].ty == Uintptr then 1 else Count(vs[i].ty);
        if n != 0 {
          counts := counts[i := n];
          total := total + n;
        }
      }
      i := i + 1;
    }
    assert vs[..|vs|] == vs;
  }

  lemma {:induction false} TotalMonotone(vs: seq<Val>, i: nat, j: nat)
    requires i < j <= |vs|
    ensures Total(vs[..i]) + Slots(vs[i]) <= Total(vs[..j])
    decreases j
  {
    assert vs[..j][..j - 1] == vs[..j - 1];
    if i < j - 1 {
      TotalMonotone(vs, i, j - 1);
    }
  }

  // Ranges of different values are disjoint and inside the frame.
  lemma RangesDisjoint(vs: seq<Val>, i: nat, j: nat)
    requires i < j < |vs|
    ensures Total(vs[..i]) + Slots(vs[i]) <= Total(vs[..j])
    ensures Total(vs[..j]) + Slots(vs[j]) <= Total(vs)
  {
    TotalMonotone(vs, i, j);
    TotalMonotone(vs, j, |vs|);
    assert vs[..|vs|] == vs;
  }

  // Every slot below the total belongs to one value's range.
  lemma {:induction false} SlotOwner(vs: seq<Val>, s: nat) returns (k: nat)
    requires s < Total(vs)
    ensures k < |vs| && Total(vs[..k]) <= s < Total(vs[..k]) + Slots(vs[k])
  {
    var n := |vs| - 1;
    if s < Total(vs[..n]) {
      k := SlotOwner(vs[..n], s);
      assert vs[..n][..k] == vs[..k];
    } else {
      k := n;
    }
  }

  // Publishing a planned value stores one pointer in each of its slots; the check
  // that the two numbers agree never fails.
  method PublishRoot(v: Val, r: Range, value: Value, frame: seq<nat>) returns (out: seq<nat>)
    requires v.planned && HasType(value, v.ty) && r.len == Slots(v) && r.start + r.len <= |frame|
    ensures |out| == |frame|
    ensures forall s :: 0 <= s < |frame| && !(r.start <= s < r.start + r.len) ==> out[s] == frame[s]
    ensures v.ty != Uintptr ==> |AllPointers(value)| == r.len && out[r.start..r.start + r.len] == AllPointers(value)
    ensures v.ty == Uintptr ==> out[r.start] == if value.data >= 0 then value.data else 0
  {
    if v.ty == Uintptr {
      return frame[r.start := if value.data >= 0 then value.data else 0];
    }
    var pointers := AppendPointers([], v.ty, value);
    assert |pointers| == r.len;
    out := frame;
    var i := 0;
    while i < |pointers|
      invariant 0 <= i <= |pointers| && |out| == |frame|
      invariant forall s :: 0 <= s < |frame| && !(r.start <= s < r.start + i) ==> out[s] == frame[s]
      invariant forall k :: 0 <= k < i ==> out[r.start + k] == pointers[k]
    {
      out := out[r.start + i := pointers[i]];
      i := i + 1;
    }
    assert [] + AllPointers(value) == AllPointers(value);
    assert out[r.start..r.start + r.len] == pointers;
  }
}
