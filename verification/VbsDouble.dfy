/** Splitting an IEEE 754 double into significand and exponent, and putting it together again. */
module VbsDouble {
  import opened VbsNumber

  const TWO_52 := 0x10_0000_0000_0000
  const TWO_63 := 0x8000_0000_0000_0000

  const INFINITY := 0x7ff0_0000_0000_0000
  const NOT_A_NUMBER := 0x7ff8_0000_0000_0000

  const FLT_ZERO_ZERO := 0
  const FLT_ZERO := 1
  const FLT_INF := 2
  const FLT_NAN := 3

  /** The patterns Double.doubleToLongBits gives: every NaN as the same one. */
  predicate IsDouble(bits: nat) {
    bits < TWO_64 && (bits % TWO_63 > INFINITY ==> bits == NOT_A_NUMBER)
  }

  /** The number of zero bits below the lowest set bit. */
  function FirstBit(v: nat): nat
    requires v > 0
  {
    if v % 2 == 1 then 0 else 1 + FirstBit(v / 2)
  }

  /** The position of the highest set bit, -1 for none. */
  function LastBit(v: nat): (r: int)
    ensures r >= 0 <==> v > 0
    ensures r >= -1
  {
    if v == 0 then -1 else 1 + LastBit(v / 2)
  }

  /** _find_first_bit_set */
  method FindFirstBitSet(v: nat) returns (r: int)
    ensures r == if v == 0 then -1 else FirstBit(v)
  {
    if v == 0 {
      return -1;
    }
    r := 0;
    var w := v;
    while w % 2 == 0
      invariant w > 0 && FirstBit(v) == r + FirstBit(w)
      decreases w
    {
      w := w / 2;
      r := r + 1;
    }
  }

  /** _find_last_bit_set */
  method FindLastBitSet(v: nat) returns (r: int)
    ensures r == LastBit(v)
  {
    r := -1;
    var w := v;
    while w != 0
      invariant LastBit(v) == r + 1 + LastBit(w)
      decreases w
    {
      w := w / 2;
      r := r + 1;
    }
  }

  datatype Parts = Parts(significant: int, expo: int)

  /** The significand with its hidden bit, and the exponent, a subnormal's raised to 1. */
  function Unhidden(bits: nat): (nat, nat) {
    var e, m := bits / TWO_52 % 0x800, bits % TWO_52;
    if e == 0 then (m, 1) else (m + TWO_52, e)
  }

  function Signed(negative: bool, n: nat): int {
    if negative then 0 - n else n
  }

  /** _break_double */
  function BreakDouble(bits: nat): Parts
    requires IsDouble(bits)
  {
    var e, m := bits / TWO_52 % 0x800, bits % TWO_52;
    if e == 0x7ff then Parts(0, if m != 0 then FLT_NAN else FLT_INF)
    else if e == 0 && m == 0 then Parts(0, FLT_ZERO_ZERO)
    else
      var (full, expo) := Unhidden(bits);
      var shift := FirstBit(full);
      Parts(Signed(bits >= TWO_63, Shr(full, shift)), expo - 52 + shift - 1023)
  }

  /** vbs_break_double_value: any bits, zero has an exponent of its own, and zero, infinity and NaN keep their sign in it. */
  function BreakNative(bits: nat): Parts
    requires bits < TWO_64
  {
    var e, m := bits / TWO_52 % 0x800, bits % TWO_52;
    if e == 0x7ff then Parts(0, Signed(bits >= TWO_63, if m != 0 then FLT_NAN else FLT_INF))
    else if e == 0 && m == 0 then Parts(0, Signed(bits >= TWO_63, FLT_ZERO))
    else
      var (full, expo) := Unhidden(bits);
      var shift := FirstBit(full);
      Parts(Signed(bits >= TWO_63, Shr(full, shift)), expo - 1023 - 52 + shift)
  }

  /** Java's shifts of a long use the low six bits of the distance. */
  function ShiftLong(u: nat, shift: int): nat {
    if shift >= 0 then Shl(u, shift % 64) % TWO_64 else Shr(u, (-shift) % 64)
  }

  function SignBit(negative: bool): nat {
    if negative then TWO_63 else 0
  }

  /** _make_double; NaN is the pattern of Double.NaN. */
  function MakeDouble(significant: int, expo: int): nat {
    if significant != 0 then
      var u: nat := if significant < 0 then 0 - significant else significant;
      var point := LastBit(u);
      var e := ToInt(expo + point + 1023);
      if e >= 0x7ff then INFINITY + SignBit(significant < 0)
      else
        var shift := if e <= 0 then ToInt(52 - (point + 1) + e) else 52 - point;
        ShiftLong(u, shift) % TWO_52 + (if e <= 0 then 0 else e * TWO_52) + SignBit(significant < 0)
    else
      var x := if expo < 0 then ToInt(-expo) else expo;
      if x <= FLT_ZERO then SignBit(expo < 0)
      else if x == FLT_INF then INFINITY + SignBit(expo < 0)
      else NOT_A_NUMBER
  }

  // ---- Facts about bits ----

  /** Below its lowest set bit a number has nothing to lose. */
  lemma {:induction false} FirstBitSplits(v: nat)
    requires v > 0
    ensures Shl(Shr(v, FirstBit(v)), FirstBit(v)) == v && Shr(v, FirstBit(v)) % 2 == 1
  {
    if v % 2 == 0 { FirstBitSplits(v / 2); }
  }

  lemma {:induction false} LastBitBelow(v: nat, k: nat)
    ensures LastBit(v) < k <==> v < Shl(1, k)
  {
    if k > 0 { LastBitBelow(v / 2, k - 1); }
  }

  /** Shifting left moves the highest bit. */
  lemma {:induction false} LastBitOfShl(v: nat, k: nat)
    requires v > 0
    ensures LastBit(Shl(v, k)) == LastBit(v) + k
  {
    if k > 0 { LastBitOfShl(v, k - 1); }
  }

  lemma OneShl52(k: nat)
    requires k == 52
    ensures Shl(1, k) == TWO_52 && Shl(1, k + 1) == 2 * TWO_52
  {
    var n, j := 1, 0;
    while j < 48
      invariant j <= 48 && j % 8 == 0
      invariant n == Shl(1, j)
      invariant n == [1, 0x100, 0x1_0000, 0x100_0000, 0x1_0000_0000, 0x100_0000_0000, 0x1_0000_0000_0000][j / 8]
    {
      ShlTwice(1, j, 8);
      Shl7(n);
      n, j := 256 * n, j + 8;
    }
    assert Shl(1, 49) == 2 * n;
    assert Shl(1, 50) == 4 * n;
    assert Shl(1, 51) == 8 * n;
  }

  // ---- Splitting and rebuilding ----

  /** A finite, non-zero pattern. */
  predicate Finite(bits: nat) {
    IsDouble(bits) && 0 < bits % TWO_63 < INFINITY
  }

  /** Putting a significand and an exponent back into their fields. */
  function Join(full: nat, expo: nat, negative: bool): nat {
    full % TWO_52 + (if full >= TWO_52 then expo * TWO_52 else 0) + SignBit(negative)
  }

  lemma FieldsOf(bits: nat)
    requires Finite(bits)
    ensures var (full, expo) := Unhidden(bits);
      && 0 < full < 2 * TWO_52 && 1 <= expo < 0x7ff && (full < TWO_52 ==> expo == 1)
      && bits == Join(full, expo, bits >= TWO_63)
      && BreakDouble(bits) == Parts(Signed(bits >= TWO_63, Shr(full, FirstBit(full))), expo - 52 + FirstBit(full) - 1023)
  {
    hide FirstBit, Shr;
  }

  /** The odd significand: shifted back it is the full one, whose highest bit is bit 52 unless subnormal. */
  lemma OddPart(full: nat)
    requires 0 < full < 2 * TWO_52
    ensures var shift := FirstBit(full); var odd := Shr(full, shift);
      && odd % 2 == 1 && ShiftLong(odd, shift) == full
      && LastBit(odd) + shift <= 52
      && (LastBit(odd) + shift == 52 <==> full >= TWO_52)
  {
    hide FirstBit, LastBit, Shl, Shr;
    var shift := FirstBit(full);
    var odd := Shr(full, shift);
    FirstBitSplits(full);
    LastBitOfShl(odd, shift);
    var k := 52;
    OneShl52(k);
    LastBitBelow(full, k);
    LastBitBelow(full, k + 1);
    assert shift % 64 == shift;
  }

  /** Rebuilding puts the highest bit back where the exponent says. */
  lemma Reassembled(full: nat, expo: nat, shift: nat, odd: nat, negative: bool)
    requires 0 < full && 1 <= expo < 0x7ff && (full < TWO_52 ==> expo == 1)
    requires odd > 0 && LastBit(odd) + shift <= 52 && (LastBit(odd) + shift == 52 <==> full >= TWO_52)
    requires ShiftLong(odd, shift) == full
    ensures MakeDouble(Signed(negative, odd), expo - 52 + shift - 1023) == Join(full, expo, negative)
  {
    hide LastBit, ShiftLong;
    var e := ToInt(expo - 52 + shift - 1023 + LastBit(odd) + 1023);
    assert e == expo - 52 + shift + LastBit(odd);
  }

  /** Rebuilding any finite non-zero double, normal or subnormal, gives the same bits. */
  lemma RebuildFinite(bits: nat)
    requires Finite(bits)
    ensures var p := BreakDouble(bits); MakeDouble(p.significant, p.expo) == bits && p.significant % 2 == 1
  {
    hide FirstBit, LastBit, BreakDouble, Shr, MakeDouble, Unhidden, Finite, Join, ShiftLong;
    FieldsOf(bits);
    var (full, expo) := Unhidden(bits);
    OddPart(full);
    Reassembled(full, expo, FirstBit(full), Shr(full, FirstBit(full)), bits >= TWO_63);
  }

  /** What rebuilding makes of any double: the sign of zero and of infinity is lost. */
  function Rebuilt(bits: nat): nat {
    if bits in {TWO_63, TWO_63 + INFINITY} then bits - TWO_63 else bits
  }

  lemma SpecialParts(bits: nat)
    requires IsDouble(bits) && !Finite(bits)
    ensures bits in {0, TWO_63, INFINITY, TWO_63 + INFINITY, NOT_A_NUMBER}
    ensures BreakDouble(bits) ==
      Parts(0, if bits % TWO_63 == 0 then FLT_ZERO_ZERO else if bits == NOT_A_NUMBER then FLT_NAN else FLT_INF)
  {
    hide FirstBit, Shr, Unhidden;
    assert bits in {0, TWO_63, INFINITY, TWO_63 + INFINITY, NOT_A_NUMBER};
  }

  /** Exactly the patterns that survive: all but negative zero and negative infinity. */
  lemma RebuildExactly(bits: nat)
    requires IsDouble(bits)
    ensures var p := BreakDouble(bits);
      && MakeDouble(p.significant, p.expo) == Rebuilt(bits)
      && (MakeDouble(p.significant, p.expo) == bits <==> bits != TWO_63 && bits != TWO_63 + INFINITY)
  {
    hide BreakDouble, LastBit, ShiftLong, ToInt;
    if Finite(bits) {
      RebuildFinite(bits);
    } else {
      SpecialParts(bits);
    }
  }

  /** The parts are in the range the encoding carries. */
  lemma PartsAreSmall(bits: nat)
    requires IsDouble(bits)
    ensures var p := BreakDouble(bits); -2 * TWO_52 < p.significant < 2 * TWO_52 && -2000 <= p.expo <= 2000
  {
    hide BreakDouble, FirstBit, Shr, Unhidden, Finite, LastBit, ShiftLong, Join;
    if Finite(bits) {
      FieldsOf(bits);
      OddPart(Unhidden(bits).0);
    } else {
      SpecialParts(bits);
    }
  }

  // ---- Significands of other encoders ----

  lemma {:induction false} ShrShl(v: nat, k: nat)
    ensures Shl(Shr(v, k), k) <= v < Shl(Shr(v, k) + 1, k)
  {
    if k > 0 { ShrShl(v / 2, k - 1); }
  }

  lemma {:induction false} LastBitOfShr(v: nat, k: nat)
    requires k <= LastBit(v)
    ensures LastBit(Shr(v, k)) == LastBit(v) - k
  {
    if k > 0 { LastBitOfShr(v / 2, k - 1); }
  }

  /** A significand of up to 63 bits that does not fit into 53 is cut: the double made is the nearest one towards zero. */
  lemma LongSignificandIsCut(significant: int, expo: int)
    requires IsLong(significant) && significant > LONG_MIN && significant != 0 && -0x4000_0000 <= expo < 0x4000_0000
    requires var u: nat := if significant < 0 then 0 - significant else significant;
      LastBit(u) >= 52 && 0 < expo + LastBit(u) + 1023 < 0x7ff
    ensures var u: nat, bits := if significant < 0 then 0 - significant else significant, MakeDouble(significant, expo);
      var shift := LastBit(u) - 52;
      var full := bits % 0x10_0000_0000_0000 + 0x10_0000_0000_0000;
      && Shl(full, shift) <= u < Shl(full + 1, shift)
      && bits / 0x10_0000_0000_0000 % 0x800 - 1075 == expo + shift
      && (bits >= 0x8000_0000_0000_0000 <==> significant < 0)
  {
    hide LastBit, Shl, Shr, ShiftLong;
    var u: nat := if significant < 0 then 0 - significant else significant;
    var shift := LastBit(u) - 52;
    var k := 52;
    OneShl64(64);
    LastBitBelow(u, 64);
    ShrShl(u, shift);
    LastBitOfShr(u, shift);
    OneShl52(k);
    LastBitBelow(Shr(u, shift), k);
    LastBitBelow(Shr(u, shift), k + 1);
    CutShift(u, shift);
    var e := expo + LastBit(u) + 1023;
    assert MakeDouble(significant, expo) == Shr(u, shift) % TWO_52 + e * TWO_52 + SignBit(significant < 0);
    hide MakeDouble;
    MadeFields(Shr(u, shift), e, significant < 0);
  }

  lemma CutShift(u: nat, shift: nat)
    requires u < TWO_64 && shift < 64
    ensures ShiftLong(u, 0 - shift) == Shr(u, shift)
  {
    hide Shl, Shr;
    if shift == 0 { NoShift(u); }
  }

  lemma NoShift(u: nat)
    ensures Shl(u, 0) == u == Shr(u, 0)
  {
  }

  lemma MadeFields(full: nat, e: nat, negative: bool)
    requires TWO_52 <= full < 2 * TWO_52 && e < 0x800
    ensures var bits := full % TWO_52 + e * TWO_52 + SignBit(negative);
      bits % TWO_52 + TWO_52 == full && bits / TWO_52 % 0x800 == e && (bits >= TWO_63 <==> negative)
  {
    assert full % TWO_52 == full - TWO_52;
  }

  // ---- What the C library splits ----

  /** Java rebuilds every double that the C library splits, with the sign of zero and of infinity; any NaN becomes the one of Java. */
  lemma RebuildNative(bits: nat)
    requires bits < TWO_64
    ensures var p := BreakNative(bits);
      && MakeDouble(p.significant, p.expo) == (if IsDouble(bits) then bits else NOT_A_NUMBER)
      && -2 * TWO_52 < p.significant < 2 * TWO_52 && -2000 <= p.expo <= 2000
  {
    hide LastBit, ShiftLong, FirstBit, Shr, Unhidden, Join;
    if 0 < bits % TWO_63 < INFINITY {
      FieldsOf(bits);
      assert BreakNative(bits) == BreakDouble(bits);
      RebuildFinite(bits);
      PartsAreSmall(bits);
    } else {
      hide Finite;
      NativeSpecial(bits);
    }
  }

  lemma NativeSpecial(bits: nat)
    requires bits < TWO_64 && !(0 < bits % TWO_63 < INFINITY)
    ensures BreakNative(bits) ==
      Parts(0, Signed(bits >= TWO_63, if bits % TWO_63 == 0 then FLT_ZERO else if bits % TWO_63 == INFINITY then FLT_INF else FLT_NAN))
  {
    hide FirstBit, Shr, Unhidden;
  }

  /** Both split alike but for zero and negative infinity. */
  lemma PartsAgree(bits: nat)
    requires IsDouble(bits)
    ensures BreakDouble(bits) == BreakNative(bits) <==> bits !in {0, TWO_63, TWO_63 + INFINITY}
    ensures BreakDouble(bits) != BreakNative(bits) ==>
      BreakDouble(bits).significant == BreakNative(bits).significant == 0 &&
      -2 <= BreakNative(bits).expo <= 2 && BreakDouble(bits).expo in {FLT_ZERO_ZERO, FLT_INF}
  {
    hide FirstBit, Shr, Unhidden;
    if Finite(bits) {
      FieldsOf(bits);
    } else {
      SpecialParts(bits);
      NativeSpecial(bits);
    }
  }

  lemma NativePartsAreSmall(bits: nat)
    requires bits < TWO_64
    ensures var p := BreakNative(bits); -2 * TWO_52 < p.significant < 2 * TWO_52 && -2000 <= p.expo <= 2000
  {
    RebuildNative(bits);
  }

  // ---- As Java computes it ----

  /** _break_double on the bits of a double. */
  method Break(bits: nat) returns (p: Parts)
    requires IsDouble(bits)
    ensures p == BreakDouble(bits)
  {
    var negative, expo, significant := bits >= TWO_63, bits / TWO_52 % 0x800, bits % TWO_52;
    if expo == 0x7ff {
      expo := if significant != 0 then FLT_NAN else FLT_INF;
      significant := 0;
    } else if expo == 0 {
      expo := if significant == 0 then FLT_ZERO_ZERO else 1;
    } else {
      significant := significant + TWO_52;
    }
    if significant != 0 {
      var shift := FindFirstBitSet(significant);
      significant := Shr(significant, shift);
      expo := expo - 52 + shift - 1023;
    }
    p := Parts(Signed(negative, significant), expo);
  }

  /** _make_double, to the bits of a double. */
  method Make(significant: int, expo: int) returns (bits: nat)
    ensures bits == MakeDouble(significant, expo)
  {
    hide LastBit, ShiftLong;
    var u: nat, e := if significant < 0 then 0 - significant else significant, expo;
    if u != 0 {
      var point := FindLastBitSet(u);
      e := ToInt(e + point + 1023);
      if e >= 0x7ff {
        return INFINITY + SignBit(significant < 0);
      }
      var shift;
      if e <= 0 {
        shift := ToInt(52 - (point + 1) + e);
        e := 0;
      } else {
        shift := 52 - point;
      }
      bits := ShiftLong(u, shift) % TWO_52 + e * TWO_52 + SignBit(significant < 0);
    } else {
      if e < 0 {
        e := ToInt(-e);
      }
      bits := if e <= FLT_ZERO then SignBit(expo < 0) else if e == FLT_INF then INFINITY + SignBit(expo < 0) else NOT_A_NUMBER;
    }
  }
}
