// The compiler-maintained chain of GC root frames, over every nesting of calls,
// returns, setjmps, longjmps and the replays by which wasm reaches a setjmp again:
// the chain lists exactly the rooted frames of the live activations, innermost first.
module RootChain {

  // Address 0 is nil. A frame header holds the next frame and the number of roots.
  datatype Header = Header(next: nat, count: nat)

  // What setjmp saves for its function: the chain, and the header of its first frame.
  datatype Saved = None | Some(chain: nat, header: Header)

  // An activation: its root frame, or 0 if it has no roots, its number of roots and
  // its setjmp.
  datatype Activation = Activation(frame: nat, count: nat, saved: Saved)

  // A root frame as the collector has to find it.
  datatype Root = Root(frame: nat, count: nat)

  // Root frames of the activations, innermost first.
  function Rooted(acts: seq<Activation>): (fs: seq<Root>) {
    if acts == [] then []
    else
      var rest := Rooted(acts[..|acts| - 1]);
      var a := acts[|acts| - 1];
      if a.frame == 0 then rest else [Root(a.frame, a.count)] + rest
  }

  function Head(fs: seq<Root>): (f: nat) {
    if fs == [] then 0 else fs[0].frame
  }

  ghost predicate In(f: nat, fs: seq<Root>) {
    exists i :: 0 <= i < |fs| && fs[i].frame == f
  }

  // Following next from head visits exactly these frames, and each header has the
  // frame's number of roots.
  ghost predicate Lists(headers: map<nat, Header>, head: nat, fs: seq<Root>)
    decreases |fs|
  {
    if fs == [] then head == 0
    else head == fs[0].frame && head != 0 && head in headers && headers[head].count == fs[0].count
         && Lists(headers, headers[head].next, fs[1..])
  }

  // ---- states and operations ----

  // One execution owner's chain. `acts` are the live activations, outermost first;
  // while replaying, `target` is the activation whose setjmp is being reached.
  datatype State = State(chain: nat, headers: map<nat, Header>, replaying: bool, acts: seq<Activation>, target: nat)

  // Runtime helpers called around setjmp have a root frame of their own, or 0.
  datatype Op =
    | Call(frame: nat, count: nat)
    | Return
    | Setjmp(own: nat, count: nat)       // the innermost activation saves the chain
    | FirstReturn(own: nat, count: nat)  // its setjmp returns for the first time
    | Longjmp(to: nat)                   // a panic leaves for the setjmp of a live activation
    | ReplayCall(frame: nat, count: nat)
    | ReplayReturn(frame: nat)
    | Overwrite(frame: nat, h: Header)   // stack memory of no live frame is reused
    | Land(own: nat, count: nat)         // the setjmp returns again

  const START := State(0, map[], false, [], 0)

  // Activations whose frames are intact.
  ghost function Live(s: State): (acts: seq<Activation>) {
    if s.replaying && s.target <= |s.acts| then s.acts[..s.target] else s.acts
  }

  // A new frame is at an address no live frame has.
  ghost predicate Free(acts: seq<Activation>, frame: nat) {
    frame == 0 || forall i :: 0 <= i < |acts| ==> acts[i].frame != frame
  }

  // What programs can do. During a replay only frames that are not the head return.
  ghost predicate Legal(s: State, op: Op) {
    match op
    case Call(f, _) => !s.replaying && Free(s.acts, f)
    case Return => !s.replaying && s.acts != []
    case Setjmp(own, _) => !s.replaying && s.acts != [] && Free(s.acts, own)
    case FirstReturn(own, _) =>
      !s.replaying && s.acts != [] && s.acts[|s.acts| - 1].saved.Some? && Free(s.acts, own)
    case Longjmp(to) => !s.replaying && to < |s.acts| && s.acts[to].saved.Some?
    case ReplayCall(_, _) => s.replaying
    case ReplayReturn(f) => s.replaying && f != s.chain
    case Overwrite(f, _) => !In(f, Rooted(Live(s)))
    case Land(own, _) => s.replaying && s.target < |s.acts| && Free(s.acts[..s.target + 1], own)
  }

  function HeaderAt(headers: map<nat, Header>, f: nat): (h: Header) {
    if f in headers then headers[f] else Header(0, 0)
  }

  function Capture(headers: map<nat, Header>, chain: nat): (saved: Saved) {
    Some(chain, if chain == 0 then Header(0, 0) else HeaderAt(headers, chain))
  }

  function WithSaved(acts: seq<Activation>, saved: Saved): (bcts: seq<Activation>)
    requires acts != []
  {
    acts[|acts| - 1 := acts[|acts| - 1].(saved := saved)]
  }

  // Headers after a frame was linked in front of the chain.
  function Linked(s: State, f: nat, count: nat): (hs: map<nat, Header>) {
    if f == 0 then s.headers else s.headers[f := Header(s.chain, count)]
  }

  function Repaired(headers: map<nat, Header>, saved: Saved): (hs: map<nat, Header>)
    requires saved.Some?
  {
    if saved.chain == 0 then headers else headers[saved.chain := saved.header]
  }

  // The effect of an operation.
  ghost function Step(s: State, op: Op): (t: State)
    requires Legal(s, op)
  {
    var n := |s.acts|;
    match op
    case Call(f, count) =>
      s.(chain := if f == 0 then s.chain else f, headers := Linked(s, f, count),
         acts := s.acts + [Activation(f, count, None)])
    case Return =>
      var f := s.acts[n - 1].frame;
      s.(chain := if f == 0 then s.chain else HeaderAt(s.headers, f).next, acts := s.acts[..n - 1])
    case Setjmp(own, count) =>
      var saved := Capture(s.headers, s.chain);
      s.(headers := Linked(s, own, count), acts := WithSaved(s.acts, saved))
    case FirstReturn(own, count) =>
      var saved := s.acts[n - 1].saved;
      s.(chain := saved.chain, headers := Repaired(Linked(s, own, count), saved))
    case Longjmp(to) => s.(chain := s.acts[to].saved.chain, replaying := true, target := to)
    case ReplayCall(_, _) => s
    case ReplayReturn(_) => s
    case Overwrite(f, h) => s.(headers := s.headers[f := h])
    case Land(_, _) =>
      var saved := s.acts[s.target].saved;
      if saved.None? then s
      else s.(chain := saved.chain, headers := Repaired(s.headers, saved), replaying := false,
              acts := s.acts[..s.target + 1])
  }

  ghost predicate LegalRun(ops: seq<Op>)
    decreases |ops|, 0
  {
    ops == [] || (LegalRun(ops[..|ops| - 1]) && Legal(After(ops[..|ops| - 1]), ops[|ops| - 1]))
  }

  // The state after a legal sequence of operations.
  ghost function After(ops: seq<Op>): (s: State)
    requires LegalRun(ops)
    decreases |ops|, 1
  {
    if ops == [] then START else Step(After(ops[..|ops| - 1]), ops[|ops| - 1])
  }

  // ---- invariant ----

  ghost predicate Distinct(acts: seq<Activation>) {
    forall i, j :: 0 <= i < j < |acts| && acts[i].frame != 0 ==> acts[i].frame != acts[j].frame
  }

  // The setjmp of activation i saved the chain as it was when i was innermost.
  ghost predicate SavedOk(acts: seq<Activation>, i: nat)
    requires i < |acts|
  {
    acts[i].saved.Some? ==>
      var fs := Rooted(acts[..i + 1]);
      acts[i].saved.chain == Head(fs) && (fs != [] ==> acts[i].saved.header == Header(Head(fs[1..]), fs[0].count))
  }

  ghost predicate AllSavedOk(acts: seq<Activation>) {
    forall i :: 0 <= i < |acts| ==> SavedOk(acts, i)
  }

  // Outside a replay the chain lists the rooted frames; during one it already is
  // the target's saved chain, and the frames below the target are intact.
  ghost predicate Inv(s: State) {
    && Distinct(s.acts)
    && AllSavedOk(s.acts)
    && (!s.replaying ==> Lists(s.headers, s.chain, Rooted(s.acts)))
    && (s.replaying ==>
          && s.target < |s.acts| && s.acts[s.target].saved.Some? && s.chain == s.acts[s.target].saved.chain
          && Lists(s.headers, Head(Rooted(s.acts[..s.target])), Rooted(s.acts[..s.target])))
  }

  // ---- lists ----

  lemma {:induction false} RootedFrames(acts: seq<Activation>, f: nat)
    requires f != 0
    ensures In(f, Rooted(acts)) <==> !Free(acts, f)
  {
    if acts != [] {
      hide In;
      var front, a := acts[..|acts| - 1], acts[|acts| - 1];
      RootedFrames(front, f);
      FreeLast(acts, f);
      if a.frame != 0 {
        InCons(f, Root(a.frame, a.count), Rooted(front));
      }
    }
  }

  lemma FreeLast(acts: seq<Activation>, f: nat)
    requires f != 0 && acts != []
    ensures Free(acts, f) <==> Free(acts[..|acts| - 1], f) && acts[|acts| - 1].frame != f
  {
    var front := acts[..|acts| - 1];
    if Free(front, f) && acts[|acts| - 1].frame != f {
      forall i | 0 <= i < |acts| ensures acts[i].frame != f {
        if i < |front| {
          assert front[i].frame != f;
        }
      }
    }
    if Free(acts, f) {
      forall i | 0 <= i < |front| ensures front[i].frame != f {
        assert front[i] == acts[i];
      }
    }
  }

  lemma InCons(f: nat, r: Root, fs: seq<Root>)
    ensures In(f, [r] + fs) <==> r.frame == f || In(f, fs)
  {
    if i :| 0 <= i < |fs| && fs[i].frame == f {
      assert ([r] + fs)[i + 1].frame == f;
    }
    assert ([r] + fs)[0] == r;
  }

  // Writing a header outside a list does not disturb the list.
  lemma {:induction false} ListsFrame(headers: map<nat, Header>, head: nat, fs: seq<Root>, f: nat, h: Header)
    requires Lists(headers, head, fs) && !In(f, fs)
    ensures Lists(headers[f := h], head, fs)
    decreases |fs|
  {
    if fs != [] {
      InCons(f, fs[0], fs[1..]);
      assert fs == [fs[0]] + fs[1..];
      ListsFrame(headers, headers[head].next, fs[1..], f, h);
    }
  }

  lemma ListsHead(headers: map<nat, Header>, head: nat, fs: seq<Root>)
    requires Lists(headers, head, fs)
    ensures head == Head(fs)
    ensures fs != [] ==> headers[head] == Header(Head(fs[1..]), fs[0].count)
  {
    if fs != [] {
      assert Lists(headers, headers[head].next, fs[1..]);
    }
  }

  // Older activations keep their place in the list.
  lemma RootedPush(acts: seq<Activation>, a: Activation)
    ensures Rooted(acts + [a]) == (if a.frame == 0 then [] else [Root(a.frame, a.count)]) + Rooted(acts)
  {
    assert (acts + [a])[..|acts|] == acts;
  }

  // The list of all frames contains the list of the frames below an activation.
  lemma {:induction false} ListsBelow(headers: map<nat, Header>, head: nat, acts: seq<Activation>, to: nat)
    requires to <= |acts| && Lists(headers, head, Rooted(acts))
    ensures Lists(headers, Head(Rooted(acts[..to])), Rooted(acts[..to]))
    decreases |acts|
  {
    if to == |acts| {
      assert acts[..to] == acts;
      ListsHead(headers, head, Rooted(acts));
    } else {
      var front, a := acts[..|acts| - 1], acts[|acts| - 1];
      assert acts[..to] == front[..to];
      if a.frame == 0 {
        ListsBelow(headers, head, front, to);
      } else {
        assert ([Root(a.frame, a.count)] + Rooted(front))[1..] == Rooted(front);
        ListsBelow(headers, headers[head].next, front, to);
      }
    }
  }

  lemma {:induction false} HeadOnce(acts: seq<Activation>)
    requires Distinct(acts) && Rooted(acts) != []
    ensures !In(Rooted(acts)[0].frame, Rooted(acts)[1..])
  {
    var n := |acts| - 1;
    if acts[n].frame == 0 {
      HeadOnce(acts[..n]);
    } else {
      RootedFrames(acts[..n], acts[n].frame);
      assert Rooted(acts)[1..] == Rooted(acts[..n]);
    }
  }

  // The repaired header and the saved chain list the frames up to the setjmp's
  // activation, in any memory that kept the frames below it.
  lemma Relisted(headers: map<nat, Header>, acts: seq<Activation>, i: nat)
    requires Distinct(acts) && i < |acts| && SavedOk(acts, i) && acts[i].saved.Some?
    requires Lists(headers, Head(Rooted(acts[..i])), Rooted(acts[..i]))
    ensures Lists(Repaired(headers, acts[i].saved), acts[i].saved.chain, Rooted(acts[..i + 1]))
  {
    var s, a, below := acts[i].saved, acts[i], acts[..i];
    var fs := Rooted(below);
    assert acts[..i + 1] == below + [a];
    RootedPush(below, a);
    if a.frame != 0 {
      RootedFrames(below, a.frame);
      assert ([Root(a.frame, a.count)] + fs)[1..] == fs;
      ListsFrame(headers, Head(fs), fs, a.frame, s.header);
    } else if fs != [] {
      HeadOnce(below);
      ListsHead(headers, headers[fs[0].frame].next, fs[1..]);
      ListsFrame(headers, headers[fs[0].frame].next, fs[1..], fs[0].frame, s.header);
    }
  }

  // ---- saved chains ----

  // What setjmp saved depends on the activations up to it alone.
  lemma SavedSame(acts: seq<Activation>, bcts: seq<Activation>, i: nat)
    requires i < |acts| && i < |bcts| && acts[..i + 1] == bcts[..i + 1] && SavedOk(acts, i)
    ensures SavedOk(bcts, i)
  {
    assert acts[i] == acts[..i + 1][i] && bcts[i] == bcts[..i + 1][i];
  }

  lemma SavedKept(acts: seq<Activation>, a: Activation)
    requires AllSavedOk(acts) && a.saved.None?
    ensures AllSavedOk(acts + [a])
  {
    forall i | 0 <= i < |acts + [a]| ensures SavedOk(acts + [a], i) {
      if i < |acts| {
        assert (acts + [a])[..i + 1] == acts[..i + 1];
        SavedSame(acts, acts + [a], i);
      }
    }
  }

  lemma SavedPrefix(acts: seq<Activation>, n: nat)
    requires n <= |acts| && AllSavedOk(acts)
    ensures AllSavedOk(acts[..n])
  {
    forall i | 0 <= i < n ensures SavedOk(acts[..n], i) {
      assert acts[..n][..i + 1] == acts[..i + 1];
      SavedSame(acts, acts[..n], i);
    }
  }

  lemma RootedSaved(acts: seq<Activation>, saved: Saved)
    requires acts != []
    ensures Rooted(WithSaved(acts, saved)) == Rooted(acts)
  {
    assert WithSaved(acts, saved)[..|acts| - 1] == acts[..|acts| - 1];
  }

  lemma SetSaved(acts: seq<Activation>, saved: Saved)
    requires acts != [] && AllSavedOk(acts)
    requires saved.Some? && saved.chain == Head(Rooted(acts))
    requires Rooted(acts) != [] ==> saved.header == Header(Head(Rooted(acts)[1..]), Rooted(acts)[0].count)
    ensures AllSavedOk(WithSaved(acts, saved))
  {
    hide Rooted;
    var n, bcts := |acts| - 1, WithSaved(acts, saved);
    forall i | 0 <= i < |bcts| ensures SavedOk(bcts, i) {
      if i < n {
        assert bcts[..i + 1] == acts[..i + 1];
        SavedSame(acts, bcts, i);
      } else {
        assert bcts[..n + 1] == bcts;
        RootedSaved(acts, saved);
      }
    }
  }

  // A helper's frame is not the one whose header it repairs.
  lemma OwnApart(acts: seq<Activation>, i: nat, own: nat)
    requires i < |acts| && AllSavedOk(acts) && acts[i].saved.Some? && Free(acts[..i + 1], own)
    ensures own == 0 || own != acts[i].saved.chain
  {
    assert SavedOk(acts, i);
    if own != 0 {
      RootedFrames(acts[..i + 1], own);
    }
  }

  // ---- every operation keeps the invariant ----

  // Linking a free frame leaves the list as it was, behind the frame.
  lemma LinkedLists(s: State, f: nat, count: nat)
    requires Inv(s) && !s.replaying && Free(s.acts, f)
    ensures Lists(Linked(s, f, count), s.chain, Rooted(s.acts))
  {
    if f != 0 {
      RootedFrames(s.acts, f);
      ListsFrame(s.headers, s.chain, Rooted(s.acts), f, Header(s.chain, count));
    }
  }

  lemma CallKeeps(s: State, f: nat, count: nat)
    requires Inv(s) && Legal(s, Call(f, count))
    ensures Inv(Step(s, Call(f, count)))
  {
    hide AllSavedOk;
    var a := Activation(f, count, None);
    LinkedLists(s, f, count);
    RootedPush(s.acts, a);
    assert ([Root(f, count)] + Rooted(s.acts))[1..] == Rooted(s.acts);
    SavedKept(s.acts, a);
  }

  lemma ReturnKeeps(s: State)
    requires Inv(s) && Legal(s, Return)
    ensures Inv(Step(s, Return))
  {
    hide AllSavedOk;
    var n := |s.acts| - 1;
    var a, front := s.acts[n], s.acts[..n];
    assert ([Root(a.frame, a.count)] + Rooted(front))[1..] == Rooted(front);
    SavedPrefix(s.acts, n);
  }

  lemma SetjmpKeeps(s: State, own: nat, count: nat)
    requires Inv(s) && Legal(s, Setjmp(own, count))
    ensures Inv(Step(s, Setjmp(own, count)))
  {
    hide AllSavedOk;
    LinkedLists(s, own, count);
    ListsHead(s.headers, s.chain, Rooted(s.acts));
    SetSaved(s.acts, Capture(s.headers, s.chain));
    RootedSaved(s.acts, Capture(s.headers, s.chain));
  }

  lemma FirstReturnKeeps(s: State, own: nat, count: nat)
    requires Inv(s) && Legal(s, FirstReturn(own, count))
    ensures Inv(Step(s, FirstReturn(own, count))) && Step(s, FirstReturn(own, count)).chain == s.chain
  {
    var n := |s.acts| - 1;
    var hs := Linked(s, own, count);
    LinkedLists(s, own, count);
    ListsBelow(hs, s.chain, s.acts, n);
    assert SavedOk(s.acts, n) && s.acts[..n + 1] == s.acts;
    Relisted(hs, s.acts, n);
    ListsHead(s.headers, s.chain, Rooted(s.acts));
  }

  lemma LandKeeps(s: State, own: nat, count: nat)
    requires Inv(s) && Legal(s, Land(own, count))
    ensures Inv(Step(s, Land(own, count)))
  {
    assert SavedOk(s.acts, s.target);
    Relisted(s.headers, s.acts, s.target);
    SavedPrefix(s.acts, s.target + 1);
  }

  lemma OverwriteKeeps(s: State, f: nat, h: Header)
    requires Inv(s) && Legal(s, Overwrite(f, h))
    ensures Inv(Step(s, Overwrite(f, h)))
  {
    hide AllSavedOk;
    var fs := Rooted(Live(s));
    ListsFrame(s.headers, if s.replaying then Head(fs) else s.chain, fs, f, h);
  }

  lemma StepKeeps(s: State, op: Op)
    requires Inv(s) && Legal(s, op)
    ensures Inv(Step(s, op))
  {
    match op
    case Call(f, count) => CallKeeps(s, f, count);
    case Return => ReturnKeeps(s);
    case Setjmp(own, count) => SetjmpKeeps(s, own, count);
    case FirstReturn(own, count) => FirstReturnKeeps(s, own, count);
    case Longjmp(to) => ListsBelow(s.headers, s.chain, s.acts, to);
    case ReplayCall(_, _) =>
    case ReplayReturn(_) =>
    case Overwrite(f, h) => OverwriteKeeps(s, f, h);
    case Land(own, count) => LandKeeps(s, own, count);
  }

  // After every legal sequence of operations the chain lists exactly the rooted frames
  // of the live activations, innermost first, each with its number of roots; during a
  // replay it is the chain that landing will make a list again.
  lemma {:induction false} ChainLists(ops: seq<Op>)
    requires LegalRun(ops)
    ensures var s := After(ops);
            && Inv(s)
            && (!s.replaying ==> Lists(s.headers, s.chain, Rooted(s.acts)))
            && (s.replaying ==>
                  && s.target < |s.acts| && s.acts[s.target].saved.Some?
                  && Lists(Repaired(s.headers, s.acts[s.target].saved), s.chain, Rooted(s.acts[..s.target + 1])))
    decreases |ops|
  {
    hide Step, Legal, Distinct, Rooted, Lists, SavedOk;
    if ops == [] {
      StartInv();
    } else {
      var front := ops[..|ops| - 1];
      ChainLists(front);
      StepKeeps(After(front), ops[|ops| - 1]);
    }
    var s := After(ops);
    if s.replaying {
      assert SavedOk(s.acts, s.target);
      Relisted(s.headers, s.acts, s.target);
    }
  }

  lemma StartInv()
    ensures Inv(START)
  {
  }

  function Zeros(n: nat): (bs: seq<nat>) {
    seq(n, _ => 0)
  }

  lemma ZerosAdd(i: nat, w: nat)
    ensures Zeros(i * w) + Zeros(w) == Zeros((i + 1) * w)
  {
    assert (i + 1) * w == i * w + w;
  }

  // ---- the emitted code and the runtime's helpers ----

  class Chain {
    const wordBytes: nat
    var chain: nat
    var headers: map<nat, Header>
    var slots: map<nat, seq<nat>>   // root slots of a frame, as bytes
    var replaying: bool
    ghost var acts: seq<Activation>
    ghost var target: nat

    constructor (wordBytes: nat)
      ensures Now() == START && this.wordBytes == wordBytes
    {
      this.wordBytes := wordBytes;
      chain, headers, slots, replaying := 0, map[], map[], false;
      acts, target := [], 0;
    }

    ghost function Now(): (s: State)
      reads this
    {
      State(chain, headers, replaying, acts, target)
    }

    // The prologue's stores: link and clear the frame, then publish it. Nothing is
    // stored when the frame is already the head or during a replay.
    method Push(frame: nat, count: nat)
      modifies this`chain, this`headers, this`slots
      ensures old(chain) == frame || replaying ==> chain == old(chain) && headers == old(headers) && slots == old(slots)
      ensures !(old(chain) == frame || replaying) ==>
                chain == frame && headers == old(headers)[frame := Header(old(chain), count)]
                && slots == old(slots)[frame := Zeros(count * wordBytes)]
    {
      var prev := chain;
      if prev == frame || replaying {
        return;
      }
      headers := headers[frame := Header(prev, count)];
      var cleared: seq<nat> := [];
      var i := 0;
      while i < count
        invariant 0 <= i <= count && cleared == Zeros(i * wordBytes)
        invariant headers == old(headers)[frame := Header(prev, count)] && slots == old(slots)
      {
        cleared := cleared + Zeros(wordBytes);
        ZerosAdd(i, wordBytes);
        i := i + 1;
      }
      slots := slots[frame := cleared];
      chain := frame;
    }

    // The outlined prologue: one byte-wise clear of the whole root array. It reaches
    // the state the inline stores reach.
    method PushOutlined(frame: nat, count: nat)
      modifies this`chain, this`headers, this`slots
      ensures old(chain) == frame || replaying ==> chain == old(chain) && headers == old(headers) && slots == old(slots)
      ensures !(old(chain) == frame || replaying) ==>
                chain == frame && headers == old(headers)[frame := Header(old(chain), count)]
                && slots == old(slots)[frame := Zeros(count * wordBytes)]
    {
      var current := chain;
      if current == frame || replaying {
        return;
      }
      headers := headers[frame := Header(current, count)];
      var bytes, total := [], count * wordBytes;
      for i := 0 to total
        invariant bytes == Zeros(i)
      {
        bytes := bytes + [0];
      }
      slots := slots[frame := bytes];
      chain := frame;
    }

    // The epilogue, inline and outlined: the head is read, the frame's link is read
    // whether or not it was ever written, and one of the two is stored.
    method Pop(frame: nat)
      modifies this`chain
      ensures chain == if old(chain) == frame then HeaderAt(headers, frame).next else old(chain)
    {
      var current := chain;
      var prev := HeaderAt(headers, frame).next;
      chain := if current == frame then prev else current;
    }

    method Enter(frame: nat, count: nat)
      requires Inv(Now()) && Legal(Now(), Call(frame, count))
      modifies this
      ensures Now() == Step(old(Now()), Call(frame, count)) && Inv(Now())
      ensures frame != 0 ==> frame in slots && slots[frame] == Zeros(count * wordBytes)
    {
      StepKeeps(Now(), Call(frame, count));
      ListsHead(headers, chain, Rooted(acts));
      if frame != 0 {
        RootedFrames(acts, frame);
        Push(frame, count);
      }
      acts := acts + [Activation(frame, count, None)];
    }

    // frame is the root frame of the innermost activation, or 0.
    method Leave(frame: nat)
      requires Inv(Now()) && Legal(Now(), Return) && acts[|acts| - 1].frame == frame
      modifies this`chain, this`acts
      ensures Now() == Step(old(Now()), Return) && Inv(Now())
    {
      StepKeeps(Now(), Return);
      ListsHead(headers, chain, Rooted(acts));
      if frame != 0 {
        Pop(frame);
      }
      acts := acts[..|acts| - 1];
    }

    // Before setjmp the head is read and handed to SetDeferGCRoot, which has a frame of
    // its own.
    method SetDeferGCRoot(own: nat, count: nat) returns (saved: Saved)
      requires Inv(Now()) && Legal(Now(), Setjmp(own, count))
      modifies this
      ensures Now() == Step(old(Now()), Setjmp(own, count)) && Inv(Now())
      ensures saved == acts[|acts| - 1].saved && saved.Some? && saved.chain == chain
    {
      StepKeeps(Now(), Setjmp(own, count));
      ListsHead(headers, chain, Rooted(acts));
      var root := chain;
      if own != 0 {
        RootedFrames(acts, own);
        Push(own, count);
      }
      saved := Capture(headers, root);
      if own != 0 {
        Pop(own);
      }
      acts := WithSaved(acts, saved);
    }

    // A panic leaves for the setjmp of a live activation.
    method Rethrow(ghost to: nat, saved: Saved)
      requires Inv(Now()) && Legal(Now(), Longjmp(to)) && acts[to].saved == saved
      modifies this`chain, this`replaying, this`target
      ensures Now() == Step(old(Now()), Longjmp(to)) && Inv(Now())
    {
      StepKeeps(Now(), Longjmp(to));
      replaying := true;
      chain := saved.chain;
      target := to;
    }

    // Entries and returns replayed on the way change nothing.
    method ReplayEnter(frame: nat, count: nat)
      requires Inv(Now()) && Legal(Now(), ReplayCall(frame, count))
      modifies this`chain, this`headers, this`slots
      ensures Now() == Step(old(Now()), ReplayCall(frame, count)) && Inv(Now()) && slots == old(slots)
    {
      Push(frame, count);
    }

    method ReplayLeave(frame: nat)
      requires Inv(Now()) && Legal(Now(), ReplayReturn(frame))
      modifies this`chain
      ensures Now() == Step(old(Now()), ReplayReturn(frame)) && Inv(Now())
    {
      Pop(frame);
    }

    // RestoreDeferGCRoot, called after both returns of setjmp: the header of the
    // function's first frame is repaired and the chain is usable.
    method RestoreDeferGCRoot(own: nat, count: nat, saved: Saved)
      requires saved.Some? && (own == 0 || own != saved.chain)
      modifies this`chain, this`headers, this`slots, this`replaying
      ensures chain == saved.chain && !replaying
      ensures headers == Repaired(if own == 0 || old(chain) == own || old(replaying) then old(headers)
                                  else old(headers)[own := Header(old(chain), count)], saved)
    {
      if own != 0 {
        Push(own, count);
      }
      if saved.chain != 0 {
        headers := headers[saved.chain := saved.header];
      }
      chain := saved.chain;
      replaying := false;
      if own != 0 {
        Pop(own);
      }
    }

    // The first return of the innermost activation's setjmp.
    method ReturnFirst(own: nat, count: nat, saved: Saved)
      requires Inv(Now()) && Legal(Now(), FirstReturn(own, count)) && acts[|acts| - 1].saved == saved
      modifies this
      ensures Now() == Step(old(Now()), FirstReturn(own, count)) && Inv(Now()) && chain == old(chain)
    {
      FirstReturnKeeps(Now(), own, count);
      OwnApart(acts, |acts| - 1, own);
      assert acts[..|acts|] == acts;
      RestoreDeferGCRoot(own, count, saved);
    }

    // A later return: the activations above the setjmp's are gone.
    method ReturnAgain(own: nat, count: nat, saved: Saved)
      requires Inv(Now()) && Legal(Now(), Land(own, count)) && acts[target].saved == saved
      modifies this
      ensures Now() == Step(old(Now()), Land(own, count)) && Inv(Now())
    {
      StepKeeps(Now(), Land(own, count));
      OwnApart(acts, target, own);
      RestoreDeferGCRoot(own, count, saved);
      acts := acts[..target + 1];
    }
  }
}
