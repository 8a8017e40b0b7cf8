// Names of the backing variables of folded slices and pointers. A variable is looked
// up by name before it is created, so two objects with one name would share storage.
module StaticInitNames {
  import opened Common
  import opened Decimal
  import opened StaticInitTrie

  // A step from a global to a backing object, as it is spelled in the name.
  datatype Token = Data | Entry(i: nat) | Idx(i: nat) | Value
  type Name = seq<Token>

  // Names of the backing variables made while a constant is built.
  function Names(ty: Ty, n: Node, name: Name): (ns: seq<Name>)
    decreases n, 1, 0
  {
    if n.leaf.Some? then LeafNames(n.leaf.value, name)
    else match ty
      case Struct(fs) => PartNames(ty, n, name, |fs|)
      case Array(len, _) => PartNames(ty, n, name, len)
      case _ => []
  }

  function PartNames(ty: Ty, n: Node, name: Name, k: nat): (ns: seq<Name>)
    requires (ty.Struct? && k <= |ty.fields|) || (ty.Array? && k <= ty.len)
    decreases n, 0, k
  {
    if k == 0 then []
    else PartNames(ty, n, name, k - 1)
         + if Reaches(ty, k - 1) && k - 1 in n.children
           then Names(PartTy(ty, k - 1), n.children[k - 1], name + [Idx(k - 1)]) else []
  }

  function LeafNames(leaf: Leaf, name: Name): (ns: seq<Name>)
    decreases leaf, 1, 0
  {
    match leaf
    case LConst(_) => []
    case LFunc(_) => []
    case LSlice(_, len, _, item, _, root) =>
      if root.None? then [] else ItemNames(item, root.value, name, len) + [name]
    case LPointer(_, _, t, _, root) =>
      if root.None? then [] else Names(t, root.value, name + [Value]) + [name]
  }

  function ItemNames(item: Ty, n: Node, name: Name, k: nat): (ns: seq<Name>)
    decreases n, 0, k
  {
    if k == 0 then []
    else ItemNames(item, n, name, k - 1)
         + if k - 1 in n.children then Names(item, n.children[k - 1], name + [Idx(k - 1)]) else []
  }

  ghost predicate Distinct(ns: seq<Name>) {
    forall i, j :: 0 <= i < j < |ns| ==> ns[i] != ns[j]
  }

  // Every name extends the given one by a step below k, if by any.
  ghost predicate Under(name: Name, ns: seq<Name>) {
    forall i :: 0 <= i < |ns| ==> name <= ns[i]
  }

  ghost predicate UnderIdx(name: Name, k: nat, ns: seq<Name>) {
    forall i :: 0 <= i < |ns| ==> name <= ns[i] && |ns[i]| > |name| && ns[i][|name|].Idx? && ns[i][|name|].i < k
  }

  lemma DistinctConcat(a: seq<Name>, b: seq<Name>)
    requires Distinct(a) && Distinct(b) && forall i, j :: 0 <= i < |a| && 0 <= j < |b| ==> a[i] != b[j]
    ensures Distinct(a + b)
  {
  }

  // Within one folded object no two backing variables get the same name.
  lemma {:induction false} NamesDistinct(ty: Ty, n: Node, name: Name)
    ensures Distinct(Names(ty, n, name)) && Under(name, Names(ty, n, name))
    decreases n, 1, 0
  {
    if n.leaf.Some? {
      LeafNamesDistinct(n.leaf.value, name);
    } else if ty.Struct? || ty.Array? {
      PartNamesDistinct(ty, n, name, if ty.Struct? then |ty.fields| else ty.len);
    }
  }

  lemma {:induction false} PartNamesDistinct(ty: Ty, n: Node, name: Name, k: nat)
    requires (ty.Struct? && k <= |ty.fields|) || (ty.Array? && k <= ty.len)
    ensures Distinct(PartNames(ty, n, name, k)) && UnderIdx(name, k, PartNames(ty, n, name, k))
    decreases n, 0, k
  {
    if k > 0 {
      PartNamesDistinct(ty, n, name, k - 1);
      if Reaches(ty, k - 1) && k - 1 in n.children {
        NamesDistinct(PartTy(ty, k - 1), n.children[k - 1], name + [Idx(k - 1)]);
        Append(name, k, PartNames(ty, n, name, k - 1),
               Names(PartTy(ty, k - 1), n.children[k - 1], name + [Idx(k - 1)]));
      }
    }
  }

  // Names of part k - 1 are new to the names of the parts before it.
  lemma Append(name: Name, k: nat, front: seq<Name>, last: seq<Name>)
    requires k > 0 && Distinct(front) && UnderIdx(name, k - 1, front)
    requires Distinct(last) && Under(name + [Idx(k - 1)], last)
    ensures Distinct(front + last) && UnderIdx(name, k, front + last)
  {
    forall j | 0 <= j < |last| ensures name <= last[j] && |last[j]| > |name| && last[j][|name|] == Idx(k - 1) {
      assert (name + [Idx(k - 1)])[|name|] == Idx(k - 1);
    }
    DistinctConcat(front, last);
  }

  lemma {:induction false} LeafNamesDistinct(leaf: Leaf, name: Name)
    ensures Distinct(LeafNames(leaf, name)) && Under(name, LeafNames(leaf, name))
    decreases leaf, 1, 0
  {
    match leaf
    case LConst(_) =>
    case LFunc(_) =>
    case LSlice(_, len, _, item, _, root) =>
      if root.Some? {
        ItemNamesDistinct(item, root.value, name, len);
      }
    case LPointer(_, _, t, _, root) =>
      if root.Some? {
        NamesDistinct(t, root.value, name + [Value]);
      }
  }

  lemma {:induction false} ItemNamesDistinct(item: Ty, n: Node, name: Name, k: nat)
    ensures Distinct(ItemNames(item, n, name, k)) && UnderIdx(name, k, ItemNames(item, n, name, k))
    decreases n, 0, k
  {
    if k > 0 {
      ItemNamesDistinct(item, n, name, k - 1);
      if k - 1 in n.children {
        NamesDistinct(item, n.children[k - 1], name + [Idx(k - 1)]);
        Append(name, k, ItemNames(item, n, name, k - 1), Names(item, n.children[k - 1], name + [Idx(k - 1)]));
      }
    }
  }

  // ---- spelling ----

  function Text(t: Token): (s: string) {
    match t
    case Data => "data"
    case Value => "value"
    case Entry(i) => "m" + Itoa(i)
    case Idx(i) => Itoa(i)
  }

  // The first character tells the kind of token.
  lemma TextShape(t: Token)
    ensures var s := Text(t);
            s != "" && match t
              case Data => s[0] == 'd'
              case Value => s[0] == 'v'
              case Entry(_) => s[0] == 'm'
              case Idx(_) => '0' <= s[0] <= '9'
  {
    if t.Idx? || t.Entry? {
      ItoaRoundTrip(t.i);
    }
  }

  lemma TextPlain(t: Token)
    ensures '$' !in Text(t)
  {
    if t.Idx? || t.Entry? {
      ItoaRoundTrip(t.i);
    }
  }

  lemma TextInjective(t: Token, u: Token)
    requires Text(t) == Text(u)
    ensures t == u
  {
    TextShape(t);
    TextShape(u);
    if t.Idx? || t.Entry? {
      ItoaRoundTrip(t.i);
      ItoaRoundTrip(u.i);
      assert t.Entry? ==> Text(t)[1..] == Itoa(t.i) && Text(u)[1..] == Itoa(u.i);
    }
  }

  // The symbol of a backing variable of a global.
  function Spell(name: Name): (s: string) {
    if name == [] then [] else ['$'] + (Text(name[0]) + Spell(name[1..]))
  }

  function Symbol(global: string, name: Name): (s: string) {
    global + Spell(name)
  }

  function BeforeDollar(s: string): (p: string) {
    if s == "" || s[0] == '$' then "" else [s[0]] + BeforeDollar(s[1..])
  }

  lemma {:induction false} BeforeDollarIs(a: string, x: string)
    requires '$' !in a && (x == "" || x[0] == '$')
    ensures BeforeDollar(a + x) == a
  {
    if a == "" {
      assert a + x == x;
    } else {
      BeforeDollarIs(a[1..], x);
      assert (a + x)[1..] == a[1..] + x;
    }
  }

  // The first '$' splits a symbol.
  lemma SplitUnique(a: string, x: string, b: string, y: string)
    requires '$' !in a && '$' !in b && a + x == b + y
    requires (x == "" || x[0] == '$') && (y == "" || y[0] == '$')
    ensures a == b && x == y
  {
    BeforeDollarIs(a, x);
    BeforeDollarIs(b, y);
    assert x == (a + x)[|a|..] && y == (b + y)[|b|..];
  }

  lemma {:induction false} SpellInjective(m: Name, n: Name)
    requires Spell(m) == Spell(n)
    ensures m == n
    decreases |m|
  {
    if m != [] && n != [] {
      SpellHead(m, n);
      SpellInjective(m[1..], n[1..]);
      assert m == [m[0]] + m[1..] && n == [n[0]] + n[1..];
    }
  }

  lemma SpellHead(m: Name, n: Name)
    requires m != [] && n != [] && Spell(m) == Spell(n)
    ensures m[0] == n[0] && Spell(m[1..]) == Spell(n[1..])
  {
    TextPlain(m[0]);
    TextPlain(n[0]);
    assert Spell(m)[1..] == Text(m[0]) + Spell(m[1..]);
    assert Spell(n)[1..] == Text(n[0]) + Spell(n[1..]);
    SplitUnique(Text(m[0]), Spell(m[1..]), Text(n[0]), Spell(n[1..]));
    TextInjective(m[0], n[0]);
  }

  // Symbols of different objects differ, across globals, map entries and positions.
  lemma SymbolInjective(g: string, m: Name, h: string, n: Name)
    requires '$' !in g && '$' !in h && Symbol(g, m) == Symbol(h, n)
    ensures g == h && m == n
  {
    SplitUnique(g, Spell(m), h, Spell(n));
    SpellInjective(m, n);
  }

  // What folding makes of one global: the constant of a variable or slice, whose
  // backing names extend "data", or entry i of a map, whose names extend "m<i>".
  datatype Folded = Folded(global: string, root: Token, ty: Ty, node: Node)

  function SymbolsOf(f: Folded): (ss: seq<string>) {
    var ns := Names(f.ty, f.node, [f.root]);
    seq(|ns|, i requires 0 <= i < |ns| => Symbol(f.global, ns[i]))
  }

  // Two backing variables of a program share a symbol only if they are one variable:
  // the same folded part of the same global, at the same position.
  lemma SymbolsDistinct(f: Folded, i: nat, g: Folded, j: nat)
    requires '$' !in f.global && '$' !in g.global && i < |SymbolsOf(f)| && j < |SymbolsOf(g)|
    requires f.global == g.global && f.root == g.root ==> f == g
    ensures SymbolsOf(f)[i] == SymbolsOf(g)[j] <==> f == g && i == j
  {
    var ms, ns := Names(f.ty, f.node, [f.root]), Names(g.ty, g.node, [g.root]);
    if SymbolsOf(f)[i] == SymbolsOf(g)[j] {
      SymbolInjective(f.global, ms[i], g.global, ns[j]);
      NamesDistinct(f.ty, f.node, [f.root]);
      NamesDistinct(g.ty, g.node, [g.root]);
      assert [f.root] <= ms[i] && [g.root] <= ns[j];
      assert ms[i][0] == f.root && ns[j][0] == g.root;
    }
  }
}
