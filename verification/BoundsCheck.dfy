// Bounds checks for every index width and signedness on 32- and 64-bit targets: one
// unsigned comparison, made before a wide index is narrowed.
module BoundsCheck {

  datatype Bits = B8 | B16 | B32 | B64

  function Size(b: Bits): (n: nat) {
    match b case B8 => 8 case B16 => 16 case B32 => 32 case B64 => 64
  }

  // Number of values of a word.
  function Span(b: Bits): (n: nat) {
    match b
    case B8 => 0x100
    case B16 => 0x1_0000
    case B32 => 0x1_0000_0000
    case B64 => 0x1_0000_0000_0000_0000
  }

  // An integer as the machine holds it: raw bits, width and signedness, and whether
  // it is a compile-time constant.
  datatype Int = Int(bits: Bits, signed: bool, raw: nat, constant: bool)

  ghost predicate Valid(x: Int) {
    x.raw < Span(x.bits)
  }

  function SExt(x: Int): (v: int) {
    if x.raw >= Span(x.bits) / 2 then x.raw - Span(x.bits) else x.raw
  }

  function ZExt(x: Int): (v: int) {
    x.raw
  }

  // The mathematical integer.
  function Math(x: Int): (v: int) {
    if x.signed then SExt(x) else ZExt(x)
  }

  // Conversion to another width: extension by the source's signedness, or
  // truncation.
  function Cast(x: Int, to: Bits, signed: bool): (y: Int)
    requires Valid(x)
    ensures Valid(y) && y.bits == to && y.signed == signed
    ensures Size(to) >= Size(x.bits) && signed == x.signed ==> Math(y) == Math(x)
  {
    var raw := if Size(to) < Size(x.bits) then x.raw % Span(to)
               else if x.signed && x.raw >= Span(x.bits) / 2 then x.raw + Span(to) - Span(x.bits)
               else x.raw;
    Int(to, signed, raw, x.constant)
  }

  // Whether a constant index is not known to be inside a constant limit.
  predicate IndexNeedsCheck(idx: Int, max: Int) {
    if idx.signed then !idx.constant || SExt(idx) < 0 || !max.constant || SExt(idx) >= SExt(max)
    else !idx.constant || !max.constant || ZExt(idx) >= ZExt(max)
  }

  datatype Outcome =
    | Index(value: Int)
    | Panic(idx: Int, max: Int)
    | PanicExtended(hi: Int, lo: Int, max: Int)

  function ToNative(idx: Int, word: Bits): (y: Int)
    requires Valid(idx)
    ensures Valid(y) && y.bits == word && y.signed == idx.signed
    ensures Size(word) >= Size(idx.bits) ==> Math(y) == Math(idx)
    ensures 0 <= Math(idx) < Span(word) / 2 ==> y.raw == Math(y) == Math(idx)
  {
    if idx.bits != word then Cast(idx, word, idx.signed) else idx
  }

  // A length or capacity: a non-negative native int.
  ghost predicate IsLength(max: Int, word: Bits) {
    Valid(max) && (word == B32 || word == B64) && max.bits == word && max.signed && Math(max) >= 0
  }

  // The words a wide index is split into when its check fails: they recombine to it.
  function Split(idx: Int): (r: (Int, Int))
    requires Valid(idx) && idx.bits == B64
    ensures r.0.signed == idx.signed && !r.1.signed && r.0.bits == r.1.bits == B32
    ensures Math(r.0) * 0x1_0000_0000 + Math(r.1) == Math(idx)
  {
    (Cast(Int(B64, false, idx.raw / 0x1_0000_0000, false), B32, idx.signed), Cast(idx, B32, false))
  }

  // The check of an index no wider than a word.
  function CheckNative(idx: Int, max: Int, word: Bits): (r: Outcome)
    requires Valid(idx) && Valid(max) && Size(idx.bits) <= Size(word)
    ensures IsLength(max, word) ==> (r.Index? <==> 0 <= Math(idx) < Math(max)) && !r.PanicExtended?
    ensures IsLength(max, word) && r.Index? ==> r.value.bits == word && r.value.raw == Math(r.value) == Math(idx)
    ensures r.Panic? ==> r.idx.bits == word && Math(r.idx) == Math(idx) && r.max == max
  {
    var native := ToNative(idx, word);
    if IndexNeedsCheck(idx, max) && native.raw >= max.raw then Panic(native, max) else Index(native)
  }

  // The check of a 64-bit index on a 32-bit target: compared whole, then narrowed.
  function CheckExtended(idx: Int, max: Int): (r: Outcome)
    requires Valid(idx) && Valid(max) && idx.bits == B64
    ensures IsLength(max, B32) ==> (r.Index? <==> 0 <= Math(idx) < Math(max)) && !r.Panic?
    ensures IsLength(max, B32) && r.Index? ==> r.value.bits == B32 && r.value.raw == Math(r.value) == Math(idx)
    ensures r.PanicExtended? ==>
              r.max == max && r.hi.signed == idx.signed && Math(r.hi) * 0x1_0000_0000 + Math(r.lo) == Math(idx)
  {
    var limit := Cast(max, B64, true);
    if IndexNeedsCheck(idx, max) && idx.raw >= limit.raw then
      var words := Split(idx);
      PanicExtended(words.0, words.1, max)
    else Index(ToNative(idx, B32))
  }

  // The emitted check and what it leaves for the address computation. Against a
  // length, it panics exactly when the mathematical index is outside [0, max);
  // otherwise the native index is the mathematical one.
  function CheckIndex(idx: Int, max: Int, word: Bits, disabled: bool): (r: Outcome)
    requires Valid(idx) && Valid(max) && (word == B32 || word == B64)
    ensures !disabled && IsLength(max, word) ==> (r.Index? <==> 0 <= Math(idx) < Math(max))
    ensures !disabled && IsLength(max, word) && r.Index? ==>
              r.value.bits == word && r.value.raw == Math(r.value) == Math(idx)
    ensures !disabled && IsLength(max, word) ==>
              (r.PanicExtended? <==> idx.bits == B64 && word == B32 && !(0 <= Math(idx) < Math(max)))
    ensures disabled ==> r == Index(ToNative(idx, word))
  {
    if disabled then Index(ToNative(idx, word))
    else if Size(idx.bits) > Size(word) then CheckExtended(idx, max)
    else CheckNative(idx, max, word)
  }

  // The constant shortcut agrees with the check it skips.
  lemma ShortcutAgrees(idx: Int, max: Int, word: Bits)
    requires Valid(idx) && IsLength(max, word) && !IndexNeedsCheck(idx, max)
    ensures var full, short := CheckIndex(idx.(constant := false), max, word, false), CheckIndex(idx, max, word, false);
            full.Index? && short.Index? && full.value.raw == short.value.raw
  {
  }
}
