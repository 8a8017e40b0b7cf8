// Float min and max computed on encodings with integer operations only, for every
// binary interchange format: the result is a NaN operand if there is one, else the
// smaller or larger number, with -0 below +0.
module FloatMinMax {

  // ---- machine words, least significant bit first ----

  type Word = seq<bool>

  function Pow2(n: nat): (p: nat)
    ensures p >= 1
  {
    if n == 0 then 1 else 2 * Pow2(n - 1)
  }

  function Val(w: Word): (v: nat) {
    if w == [] then 0 else (if w[0] then 1 else 0) + 2 * Val(w[1..])
  }

  function Xor(a: Word, b: Word): (r: Word)
    requires |a| == |b|
  {
    seq(|a|, i requires 0 <= i < |a| => a[i] != b[i])
  }

  function Or(a: Word, b: Word): (r: Word)
    requires |a| == |b|
  {
    seq(|a|, i requires 0 <= i < |a| => a[i] || b[i])
  }

  function And(a: Word, b: Word): (r: Word)
    requires |a| == |b|
  {
    seq(|a|, i requires 0 <= i < |a| => a[i] && b[i])
  }

  // Arithmetic shift right by width - 1: the sign bit everywhere.
  function AShrSign(a: Word): (r: Word)
    requires a != []
  {
    seq(|a|, _ => a[|a| - 1])
  }

  // The constants 1 << (width - 1) and (1 << (width - 1)) - 1.
  function SignBit(n: nat): (r: Word) {
    seq(n, i => i == n - 1)
  }

  function BelowSign(n: nat): (r: Word) {
    seq(n, i => i != n - 1)
  }

  // ---- the lowering ----

  // A binary format: exponent and fraction widths. float32 is (8, 23), float64 is
  // (11, 52).
  datatype Format = Format(expBits: nat, fracBits: nat) {
    ghost predicate Valid() {
      expBits >= 2 && fracBits >= 1
    }
    function Width(): (n: nat) {
      1 + expBits + fracBits
    }
    // Exponent all ones, fraction zero.
    function Infinity(): (w: Word) {
      seq(fracBits, _ => false) + seq(expBits, _ => true) + [false]
    }
  }

  ghost predicate Encoding(f: Format, u: Word) {
    f.Valid() && |u| == f.Width()
  }

  function Key(u: Word): (k: Word)
    requires u != []
  {
    Xor(u, Or(AShrSign(u), SignBit(|u|)))
  }

  predicate IsNaNBits(f: Format, u: Word)
    requires |u| == f.Width()
  {
    Val(And(u, BelowSign(|u|))) > Val(f.Infinity())
  }

  datatype Op = Min | Max

  function MinMaxBits(f: Format, op: Op, a: Word, c: Word): (r: Word)
    requires |a| == |c| == f.Width()
  {
    var picked := if (if op == Min then Val(Key(a)) < Val(Key(c)) else Val(Key(a)) > Val(Key(c))) then a else c;
    var result := if IsNaNBits(f, c) then c else picked;
    if IsNaNBits(f, a) then a else result
  }

  // ---- what an encoding means: section 3.4 of IEEE 754-2019 ----

  function Frac(f: Format, u: Word): (t: nat)
    requires |u| == f.Width()
  {
    Val(u[..f.fracBits])
  }

  function Exp(f: Format, u: Word): (e: nat)
    requires |u| == f.Width()
  {
    Val(u[f.fracBits..f.fracBits + f.expBits])
  }

  predicate Negative(u: Word)
    requires u != []
  {
    u[|u| - 1]
  }

  function Scale(k: int): (r: real)
    ensures r > 0.0
    decreases if k < 0 then -k else k
  {
    if k == 0 then 1.0 else if k > 0 then 2.0 * Scale(k - 1) else Scale(k + 1) / 2.0
  }

  function Bias(f: Format): (b: int)
    requires f.expBits >= 1
  {
    Pow2(f.expBits - 1) - 1
  }

  datatype Number = NaN | Inf(neg: bool) | Finite(neg: bool, mag: real)

  // The magnitude of a finite number from its biased exponent and fraction.
  function Magnitude(f: Format, e: nat, t: nat): (r: real)
    requires f.expBits >= 1
  {
    if e == 0 then Scale(1 - Bias(f)) * (Scale(-(f.fracBits as int)) * t as real)
    else Scale(e as int - Bias(f)) * (1.0 + Scale(-(f.fracBits as int)) * t as real)
  }

  ghost function Decode(f: Format, u: Word): (x: Number)
    requires Encoding(f, u)
  {
    var e, t := Exp(f, u), Frac(f, u);
    if e == Pow2(f.expBits) - 1 then (if t != 0 then NaN else Inf(Negative(u)))
    else Finite(Negative(u), Magnitude(f, e, t))
  }

  // The order Go's min and max use on numbers: by value, with -0 below +0.
  predicate Below(x: Number, y: Number)
    requires !x.NaN? && !y.NaN?
  {
    if x.Inf? then x.neg && !(y.Inf? && y.neg)
    else if y.Inf? then !y.neg
    else
      var a, b := if x.neg then -x.mag else x.mag, if y.neg then -y.mag else y.mag;
      a < b || (a == b && x.neg && !y.neg)
  }

  // ---- words as numbers ----

  lemma {:induction false} ValBound(w: Word)
    ensures Val(w) < Pow2(|w|)
  {
    if w != [] {
      ValBound(w[1..]);
    }
  }

  lemma {:induction false} ValConcat(a: Word, b: Word)
    ensures Val(a + b) == Val(a) + Pow2(|a|) * Val(b)
  {
    if a == [] {
      assert a + b == b;
    } else {
      ValConcat(a[1..], b);
      assert (a + b)[1..] == a[1..] + b;
      DoubleMul(Pow2(|a| - 1), Val(b));
    }
  }

  lemma DoubleMul(p: nat, v: nat)
    ensures (2 * p) * v == 2 * (p * v)
  {
  }

  // Complementing reverses the order of words.
  lemma {:induction false} ValNot(w: Word, c: Word)
    requires |c| == |w| && forall i :: 0 <= i < |w| ==> c[i] == !w[i]
    ensures Val(c) == Pow2(|w|) - 1 - Val(w)
  {
    if w != [] {
      ValNot(w[1..], c[1..]);
    }
  }

  lemma {:induction false} ValZero(w: Word)
    requires forall i :: 0 <= i < |w| ==> !w[i]
    ensures Val(w) == 0
  {
    if w != [] {
      ValZero(w[1..]);
    }
  }

  // The word without its sign bit.
  function Low(u: Word): (r: Word)
    requires u != []
  {
    u[..|u| - 1]
  }

  lemma ValSplit(u: Word)
    requires u != []
    ensures Val(u) == Val(Low(u)) + (if Negative(u) then Pow2(|u| - 1) else 0)
    ensures Val(Low(u)) < Pow2(|u| - 1)
  {
    var top := [u[|u| - 1]];
    assert u == Low(u) + top;
    ValConcat(Low(u), top);
    ValBound(Low(u));
    assert Val(top) == if top[0] then 1 else 0 by {
      assert top[1..] == [];
    }
    UnitMul(Pow2(|u| - 1), Val(top));
  }

  lemma UnitMul(p: nat, v: nat)
    requires v <= 1
    ensures p * v == if v == 1 then p else 0
  {
  }

  lemma MaskedVal(u: Word)
    requires u != []
    ensures Val(And(u, BelowSign(|u|))) == Val(Low(u))
  {
    var m := And(u, BelowSign(|u|));
    assert Low(m) == Low(u);
    ValSplit(m);
  }

  // A key has the other sign, and the low bits of a negative word complemented.
  lemma KeyBits(u: Word)
    requires u != []
    ensures |Key(u)| == |u| && Negative(Key(u)) == !Negative(u)
    ensures forall i :: 0 <= i < |u| - 1 ==> Low(Key(u))[i] == (Low(u)[i] != Negative(u))
  {
  }

  // The key of a non-negative word is the word with the sign bit set; the key of a
  // negative one its complement.
  lemma KeyVal(u: Word)
    requires u != []
    ensures Val(Key(u)) == if Negative(u) then Pow2(|u| - 1) - 1 - Val(Low(u)) else Pow2(|u| - 1) + Val(Low(u))
  {
    hide Val, Pow2, Key;
    KeyBits(u);
    ValSplit(Key(u));
    if Negative(u) {
      ValNot(Low(u), Low(Key(u)));
    } else {
      assert Low(Key(u)) == Low(u);
    }
  }

  // ---- fields ----

  lemma LowFields(f: Format, u: Word)
    requires Encoding(f, u)
    ensures Val(Low(u)) == Frac(f, u) + Pow2(f.fracBits) * Exp(f, u)
    ensures Frac(f, u) < Pow2(f.fracBits) && Exp(f, u) < Pow2(f.expBits)
  {
    var t, e := u[..f.fracBits], u[f.fracBits..f.fracBits + f.expBits];
    assert Low(u) == t + e;
    ValConcat(t, e);
    ValBound(t);
    ValBound(e);
  }

  lemma InfinityVal(f: Format)
    requires f.Valid()
    ensures Val(f.Infinity()) == Pow2(f.fracBits) * (Pow2(f.expBits) - 1)
  {
    var u := f.Infinity();
    LowFields(f, u);
    ValSplit(u);
    var t, e := u[..f.fracBits], u[f.fracBits..f.fracBits + f.expBits];
    ValZero(t);
    ValNot(seq(f.expBits, _ => false), e);
    ValZero(seq(f.expBits, _ => false));
  }

  // Fraction below exponent: words compare field by field.
  lemma Lexicographic(p: nat, t: nat, e: nat, t': nat, e': nat)
    requires t < p && t' < p
    ensures t + p * e < t' + p * e' <==> e < e' || (e == e' && t < t')
  {
    if e < e' {
      StepMul(p, e, e');
    } else if e' < e {
      StepMul(p, e', e);
    }
  }

  lemma StepMul(p: nat, x: nat, y: nat)
    requires x < y
    ensures p * x + p <= p * y
  {
    assert p * y == p * x + p * (y - x);
    assert p * (y - x) == p + p * (y - x - 1);
  }

  // The integer test finds exactly the NaNs.
  lemma NaNExact(f: Format, u: Word)
    requires Encoding(f, u)
    ensures IsNaNBits(f, u) <==> Decode(f, u).NaN?
  {
    MaskedVal(u);
    LowFields(f, u);
    InfinityVal(f);
    Lexicographic(Pow2(f.fracBits), 0, Pow2(f.expBits) - 1, Frac(f, u), Exp(f, u));
  }

  // ---- decoding is strictly monotone ----

  lemma ScaleSucc(k: int)
    ensures Scale(k + 1) == 2.0 * Scale(k)
  {
  }

  lemma {:induction false} ScaleMonotone(i: int, j: int)
    requires i <= j
    ensures Scale(i) <= Scale(j)
    decreases j - i
  {
    if i < j {
      ScaleMonotone(i, j - 1);
      ScaleSucc(j - 1);
    }
  }

  lemma {:induction false} ScaleInverse(m: nat)
    ensures Scale(-(m as int)) * Pow2(m) as real == 1.0
  {
    if m > 0 {
      ScaleInverse(m - 1);
      ScaleSucc(-(m as int));
      var x, p := Scale(-(m as int)), Pow2(m - 1) as real;
      assert Pow2(m) as real == 2.0 * p;
      assert x * (2.0 * p) == (2.0 * x) * p;
    }
  }

  // A fraction is below one.
  lemma FractionBelowOne(m: nat, t: nat, x: real)
    requires t < Pow2(m) && x == Scale(-(m as int)) * t as real
    ensures 0.0 <= x < 1.0
  {
    ScaleInverse(m);
    BelowOne(Scale(-(m as int)), Pow2(m) as real, t as real, x);
  }

  lemma BelowOne(s: real, p: real, t: real, x: real)
    requires s > 0.0 && s * p == 1.0 && 0.0 <= t < p && x == s * t
    ensures 0.0 <= x < 1.0
  {
    RealMulLess(s, t, p, x, 1.0);
  }

  lemma RealMulLess(s: real, x: real, y: real, sx: real, sy: real)
    requires s > 0.0 && 0.0 <= x < y && sx == s * x && sy == s * y
    ensures 0.0 <= sx < sy
  {
    assert s * (y - x) > 0.0;
    assert s * y == s * x + s * (y - x);
  }

  // A magnitude lies between its exponent's scale and the next.
  lemma MagnitudeRange(f: Format, e: nat, t: nat)
    requires f.Valid() && t < Pow2(f.fracBits)
    ensures e > 0 ==> Scale(e as int - Bias(f)) <= Magnitude(f, e, t)
    ensures Magnitude(f, e, t) < Scale((if e == 0 then 1 else e as int + 1) - Bias(f))
    ensures Magnitude(f, e, t) >= 0.0
  {
    hide Scale, Pow2;
    var x := Scale(-(f.fracBits as int)) * t as real;
    FractionBelowOne(f.fracBits, t, x);
    if e == 0 {
      SubnormalRange(Scale(1 - Bias(f)), x, Magnitude(f, e, t));
    } else {
      ScaleSucc(e as int - Bias(f));
      NormalRange(Scale(e as int - Bias(f)), x, Magnitude(f, e, t));
    }
  }

  lemma SubnormalRange(s: real, x: real, m: real)
    requires s > 0.0 && 0.0 <= x < 1.0 && m == s * x
    ensures 0.0 <= m < s
  {
    RealMulLess(s, x, 1.0, m, s);
  }

  lemma NormalRange(s: real, x: real, m: real)
    requires s > 0.0 && 0.0 <= x < 1.0 && m == s * (1.0 + x)
    ensures s <= m < 2.0 * s
  {
    RealMulLess(s, 1.0 + x, 2.0, m, 2.0 * s);
    ScaledOne(s, x, m);
  }

  lemma ScaledOne(s: real, x: real, m: real)
    requires s > 0.0 && x >= 0.0 && m == s * (1.0 + x)
    ensures s <= m
  {
    assert s * (1.0 + x) == s + s * x;
  }

  lemma MagnitudeMonotone(f: Format, e: nat, t: nat, e': nat, t': nat)
    requires f.Valid() && t < Pow2(f.fracBits) && t' < Pow2(f.fracBits)
    requires e < e' || (e == e' && t < t')
    ensures Magnitude(f, e, t) < Magnitude(f, e', t')
  {
    if e < e' {
      MagnitudeRange(f, e, t);
      MagnitudeRange(f, e', t');
      ScaleMonotone((if e == 0 then 1 else e as int + 1) - Bias(f), e' as int - Bias(f));
    } else {
      var u := Scale(-(f.fracBits as int));
      var x, x' := u * t as real, u * t' as real;
      RealMulLess(u, t as real, t' as real, x, x');
      var s := Scale((if e == 0 then 1 else e as int) - Bias(f));
      var o := if e == 0 then 0.0 else 1.0;
      RealMulLess(s, o + x, o + x', Magnitude(f, e, t), Magnitude(f, e, t'));
    }
  }

  // Among numbers of one sign, magnitudes order as the low words do.
  lemma LowOrder(f: Format, a: Word, c: Word)
    requires Encoding(f, a) && Encoding(f, c) && !Decode(f, a).NaN? && !Decode(f, c).NaN?
    ensures Val(Low(a)) < Val(Low(c)) ==> MagBelow(Decode(f, a), Decode(f, c))
    ensures Val(Low(a)) == Val(Low(c)) ==> Decode(f, a).(neg := false) == Decode(f, c).(neg := false)
  {
    LowFields(f, a);
    LowFields(f, c);
    var p := Pow2(f.fracBits);
    Lexicographic(p, Frac(f, a), Exp(f, a), Frac(f, c), Exp(f, c));
    Lexicographic(p, Frac(f, c), Exp(f, c), Frac(f, a), Exp(f, a));
    if Val(Low(a)) < Val(Low(c)) {
      MagnitudeMonotone(f, Exp(f, a), Frac(f, a), Exp(f, c), Frac(f, c));
    }
  }

  // |x| is smaller than |y|.
  predicate MagBelow(x: Number, y: Number) {
    x.Finite? && (y.Inf? || (y.Finite? && x.mag < y.mag))
  }

  // ---- the keys order encodings as min and max need ----

  lemma KeyOrder(f: Format, a: Word, c: Word)
    requires Encoding(f, a) && Encoding(f, c) && !Decode(f, a).NaN? && !Decode(f, c).NaN?
    ensures Val(Key(a)) < Val(Key(c)) <==> Below(Decode(f, a), Decode(f, c))
  {
    KeyVal(a);
    KeyVal(c);
    ValSplit(a);
    ValSplit(c);
    LowOrder(f, a, c);
    LowOrder(f, c, a);
    MagnitudeSign(f, a);
    MagnitudeSign(f, c);
  }

  lemma MagnitudeSign(f: Format, u: Word)
    requires Encoding(f, u)
    ensures Decode(f, u).Finite? ==> Decode(f, u).mag >= 0.0
  {
    LowFields(f, u);
    MagnitudeRange(f, Exp(f, u), Frac(f, u));
  }

  // The main result: the integer lowering computes Go's min and max, that is, minimum
  // and maximum of section 9.6 of IEEE 754-2019 up to the NaN that is delivered.
  lemma MinMaxCorrect(f: Format, op: Op, a: Word, c: Word)
    requires Encoding(f, a) && Encoding(f, c)
    ensures var r, x, y := MinMaxBits(f, op, a, c), Decode(f, a), Decode(f, c);
            && (x.NaN? ==> r == a)
            && (!x.NaN? && y.NaN? ==> r == c)
            && (!x.NaN? && !y.NaN? ==>
                  && (r == a || r == c) && !Decode(f, r).NaN?
                  && (op == Min ==> !Below(x, Decode(f, r)) && !Below(y, Decode(f, r)))
                  && (op == Max ==> !Below(Decode(f, r), x) && !Below(Decode(f, r), y)))
  {
    NaNExact(f, a);
    NaNExact(f, c);
    if !Decode(f, a).NaN? && !Decode(f, c).NaN? {
      KeyOrder(f, a, c);
      KeyOrder(f, c, a);
      KeyOrder(f, a, a);
      KeyOrder(f, c, c);
    }
  }

  // Below leaves no two different numbers unordered, so the result is determined.
  lemma BelowTotal(x: Number, y: Number)
    requires !x.NaN? && !y.NaN?
    requires x.Finite? ==> x.mag >= 0.0
    requires y.Finite? ==> y.mag >= 0.0
    ensures x == y || Below(x, y) || Below(y, x)
    ensures !(Below(x, y) && Below(y, x))
  {
  }
}
