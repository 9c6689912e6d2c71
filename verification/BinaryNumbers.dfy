/** The binary helpers of rad_util.py: int2bin, bin2int, the odometer of
    binary_range, and gray_encode, against one notion of the bits of a number. */
module BinaryNumbers {
  import opened Options
  import opened Numbers

  // ----- Bits -------------------------------------------------------------------------------

  function Pow2(n: nat): (p: nat)
    ensures p >= 1
  {
    if n == 0 then 1 else 2 * Pow2(n - 1)
  }

  function Bit(k: nat, j: nat): (b: nat)
    ensures b < 2
  {
    if j == 0 then k % 2 else Bit(k / 2, j - 1)
  }

  function DigitOf(b: nat): char {
    if b == 0 then '0' else '1'
  }

  /** The n lowest bits of k, the lowest first. */
  function LowBits(k: nat, n: nat): (s: string)
    ensures |s| == n
  {
    if n == 0 then [] else [DigitOf(k % 2)] + LowBits(k / 2, n - 1)
  }

  /** The n lowest bits of k as they are written. */
  function Binary(k: nat, n: nat): (s: string)
    ensures |s| == n
  {
    if n == 0 then [] else Binary(k / 2, n - 1) + [DigitOf(k % 2)]
  }

  predicate IsBinary(s: string) {
    forall i :: 0 <= i < |s| ==> s[i] == '0' || s[i] == '1'
  }

  /** bin2int: the number that a string of binary digits writes. */
  function Bin2Int(s: string): nat {
    if s == [] then 0 else 2 * Bin2Int(s[..|s| - 1]) + if s[|s| - 1] == '1' then 1 else 0
  }

  lemma {:induction false} BitsAreBinary(k: nat, n: nat)
    ensures IsBinary(LowBits(k, n))
  {
    if n > 0 {
      BitsAreBinary(k / 2, n - 1);
    }
  }

  /** The digit written j places from the right end is bit j. */
  lemma {:induction false} BinaryAt(k: nat, n: nat, j: nat)
    requires j < n
    ensures Binary(k, n)[n - 1 - j] == DigitOf(Bit(k, j))
  {
    if j > 0 {
      BinaryAt(k / 2, n - 1, j - 1);
    }
  }

  lemma {:induction false} BinaryDecodes(k: nat, n: nat)
    requires k < Pow2(n)
    ensures IsBinary(Binary(k, n)) && Bin2Int(Binary(k, n)) == k
  {
    if n > 0 {
      BinaryDecodes(k / 2, n - 1);
      assert Binary(k, n)[..n - 1] == Binary(k / 2, n - 1);
    }
  }

  /** A string of n digits is the binary form of the number it writes. */
  lemma {:induction false} BinaryOfValue(s: string)
    requires IsBinary(s)
    ensures Bin2Int(s) < Pow2(|s|) && Binary(Bin2Int(s), |s|) == s
  {
    if s != [] {
      var init, last := s[..|s| - 1], s[|s| - 1];
      BinaryOfValue(init);
      assert s == init + [last];
      assert Bin2Int(s) / 2 == Bin2Int(init);
    }
  }

  lemma ValueOfMore(s: string, last: char)
    ensures Bin2Int(s + [last]) == 2 * Bin2Int(s) + if last == '1' then 1 else 0
  {
    assert (s + [last])[..|s|] == s;
  }

  lemma {:induction false} ValueConcat(a: string, b: string)
    ensures Bin2Int(a + b) == Bin2Int(a) * Pow2(|b|) + Bin2Int(b)
    decreases |b|
  {
    if b == [] {
      assert a + b == a;
    } else {
      var init, last := b[..|b| - 1], b[|b| - 1];
      assert b == init + [last] && a + b == (a + init) + [last];
      ValueConcat(a, init);
      ValueOfMore(a + init, last);
      ValueOfMore(init, last);
      TwiceProduct(Bin2Int(a), Pow2(|init|));
    }
  }

  // ----- int2bin --------------------------------------------------------------------------

  function HexDigits(i: nat): (d: seq<nat>)
    ensures d != [] && forall k :: 0 <= k < |d| ==> d[k] < 16
  {
    if i < 16 then [i] else HexDigits(i / 16) + [i % 16]
  }

  const HEX2BIN := [
    "0000", "0001", "0010", "0011", "0100", "0101", "0110", "0111",
    "1000", "1001", "1010", "1011", "1100", "1101", "1110", "1111"
  ]

  function Nibbles(d: seq<nat>): string
    requires forall k :: 0 <= k < |d| ==> d[k] < 16
  {
    if d == [] then [] else Nibbles(d[..|d| - 1]) + HEX2BIN[d[|d| - 1]]
  }

  function Zeros(n: nat): string {
    seq(n, _ => '0')
  }

  /** Shrink or pad to n digits. None stands for the ValueError about a value that is too large. */
  function Fit(result: string, n: nat): Option<string>
    requires n >= 1
  {
    var cut := if n < |result| then |result| - n else 0;
    if '1' in result[..cut] then None
    else
      var kept := result[cut..];
      Some(Zeros(n - |kept|) + kept)
  }

  function Int2Bin(i: nat, n: nat): Option<string>
    requires n >= 1
  {
    Fit(Nibbles(HexDigits(i)), n)
  }

  lemma NibbleValue(d: nat)
    requires d < 16
    ensures |HEX2BIN[d]| == 4 && IsBinary(HEX2BIN[d]) && Bin2Int(HEX2BIN[d]) == d
  {
    var s := HEX2BIN[d];
    assert s[..3][..2] == s[..2] && s[..2][..1] == s[..1] && s[..1][..0] == [];
    assert Bin2Int(s[..1]) == if s[0] == '1' then 1 else 0;
    assert Bin2Int(s[..2]) == 2 * Bin2Int(s[..1]) + if s[1] == '1' then 1 else 0;
    assert Bin2Int(s[..3]) == 2 * Bin2Int(s[..2]) + if s[2] == '1' then 1 else 0;
  }

  lemma FourMore(a: string, b: string)
    requires |b| == 4 && IsBinary(a) && IsBinary(b)
    ensures IsBinary(a + b) && Bin2Int(a + b) == 16 * Bin2Int(a) + Bin2Int(b)
  {
    ValueConcat(a, b);
    assert Pow2(4) == 16;
  }

  lemma {:induction false} NibblesValue(d: seq<nat>)
    requires forall k :: 0 <= k < |d| ==> d[k] < 16
    ensures IsBinary(Nibbles(d)) && Bin2Int(Nibbles(d)) == HexValue(d)
  {
    if d != [] {
      var init, last := d[..|d| - 1], d[|d| - 1];
      NibblesValue(init);
      NibbleValue(last);
      FourMore(Nibbles(init), HEX2BIN[last]);
    }
  }

  /** The number that a sequence of hexadecimal digits writes. */
  function HexValue(d: seq<nat>): nat {
    if d == [] then 0 else 16 * HexValue(d[..|d| - 1]) + d[|d| - 1]
  }

  lemma {:induction false} HexDigitsExact(i: nat)
    ensures HexValue(HexDigits(i)) == i
  {
    if i >= 16 {
      HexDigitsExact(i / 16);
      assert HexDigits(i)[..|HexDigits(i)| - 1] == HexDigits(i / 16);
    }
  }

  lemma {:induction false} NoOnes(s: string)
    requires IsBinary(s)
    ensures '1' !in s <==> Bin2Int(s) == 0
  {
    if s != [] {
      var init, last := s[..|s| - 1], s[|s| - 1];
      NoOnes(init);
      assert s == init + [last];
    }
  }

  lemma MultipleAtLeast(a: nat, m: nat)
    ensures a > 0 ==> a * m >= m
  {
    assert a > 0 ==> a * m == m + (a - 1) * m && (a - 1) * m >= 0;
  }

  /** Cutting off a 1 loses a number too large for the digits that are kept. */
  lemma CutTooLarge(dropped: string, kept: string)
    requires IsBinary(dropped) && IsBinary(kept)
    ensures '1' in dropped <==> Bin2Int(dropped + kept) >= Pow2(|kept|)
  {
    ValueConcat(dropped, kept);
    NoOnes(dropped);
    BinaryOfValue(kept);
    MultipleAtLeast(Bin2Int(dropped), Pow2(|kept|));
  }

  /** Cutting off zeros, then padding to n digits, keeps the number. */
  lemma CutExact(dropped: string, kept: string, n: nat)
    requires IsBinary(dropped) && IsBinary(kept) && |kept| <= n && '1' !in dropped
    ensures Bin2Int(dropped + kept) < Pow2(n)
    ensures Zeros(n - |kept|) + kept == Binary(Bin2Int(dropped + kept), n)
  {
    ValueConcat(dropped, kept);
    NoOnes(dropped);
    Padded(n - |kept|, kept);
    BinaryOfValue(Zeros(n - |kept|) + kept);
  }

  lemma BinaryPart(a: string, b: string)
    requires IsBinary(a + b)
    ensures IsBinary(a) && IsBinary(b)
  {
    assert forall i :: 0 <= i < |a| ==> a[i] == (a + b)[i];
    assert forall i :: 0 <= i < |b| ==> b[i] == (a + b)[|a| + i];
  }

  lemma FitExact(result: string, n: nat)
    requires n >= 1 && IsBinary(result)
    ensures Fit(result, n) == if Bin2Int(result) < Pow2(n) then Some(Binary(Bin2Int(result), n)) else None
  {
    var cut := if n < |result| then |result| - n else 0;
    var dropped, kept := result[..cut], result[cut..];
    assert result == dropped + kept;
    BinaryPart(dropped, kept);
    if '1' in dropped {
      CutTooLarge(dropped, kept);
    } else {
      CutExact(dropped, kept, n);
    }
  }

  /** int2bin gives the n-digit form of i, and fails exactly when i needs more digits. */
  lemma Int2BinExact(i: nat, n: nat)
    requires n >= 1
    ensures Int2Bin(i, n) == if i < Pow2(n) then Some(Binary(i, n)) else None
  {
    NibblesValue(HexDigits(i));
    HexDigitsExact(i);
    FitExact(Nibbles(HexDigits(i)), n);
  }

  lemma Padded(z: nat, s: string)
    requires IsBinary(s)
    ensures IsBinary(Zeros(z) + s) && Bin2Int(Zeros(z) + s) == Bin2Int(s)
  {
    NoOnes(Zeros(z));
    ValueConcat(Zeros(z), s);
  }

  // ----- Counting up by one -----------------------------------------------------------------

  function TrailingOnes(k: nat): nat {
    if k % 2 == 0 then 0 else 1 + TrailingOnes(k / 2)
  }

  /** Adding one flips the trailing ones and the zero before them, and nothing else. */
  lemma {:induction false} SuccessorFlips(k: nat, j: nat)
    ensures Bit(k + 1, j) != Bit(k, j) <==> j <= TrailingOnes(k)
  {
    if j > 0 {
      if k % 2 == 1 {
        assert (k + 1) / 2 == k / 2 + 1;
        SuccessorFlips(k / 2, j - 1);
      } else {
        assert (k + 1) / 2 == k / 2;
      }
    }
  }

  /** v' is v with its first t digits, all ones, and the zero after them flipped. */
  predicate Carried(v: string, v': string, t: nat) {
    && t < |v| && |v'| == |v|
    && (forall i :: 0 <= i < t ==> v[i] == '1' && v'[i] == '0')
    && v[t] == '0' && v'[t] == '1'
    && v'[t + 1..] == v[t + 1..]
  }

  lemma CarriedTail(v: string, v': string, t: nat)
    requires t > 0 && Carried(v, v', t)
    ensures Carried(v[1..], v'[1..], t - 1)
  {
    assert v'[1..][t..] == v'[t + 1..] && v[1..][t..] == v[t + 1..];
  }

  lemma Halves(k: nat)
    ensures k % 2 == 0 ==> (k + 1) / 2 == k / 2 && (k + 1) % 2 == 1
    ensures k % 2 == 1 ==> (k + 1) / 2 == k / 2 + 1 && (k + 1) % 2 == 0
  {
  }

  lemma FirstBit(k: nat, n: nat)
    requires n > 0
    ensures LowBits(k, n)[0] == DigitOf(k % 2) && LowBits(k, n)[1..] == LowBits(k / 2, n - 1)
    ensures k < Pow2(n) ==> k / 2 < Pow2(n - 1)
    ensures k / 2 + 1 < Pow2(n - 1) ==> k + 1 < Pow2(n)
    ensures k < Pow2(n) && k % 2 == 0 ==> k + 1 < Pow2(n)
  {
  }

  /** The first digit tells which way a carry goes, and the others carry on. */
  lemma FirstCarried(k: nat, n: nat, v': string, t: nat)
    requires Carried(LowBits(k, n), v', t)
    ensures n > 0 && k % 2 == (if t > 0 then 1 else 0) && v'[0] == DigitOf(1 - k % 2)
    ensures if t > 0 then Carried(LowBits(k / 2, n - 1), v'[1..], t - 1) else v'[1..] == LowBits(k / 2, n - 1)
  {
    FirstBit(k, n);
    if t > 0 {
      CarriedTail(LowBits(k, n), v', t);
    }
  }

  lemma {:induction false} CarryAddsOne(k: nat, n: nat, v': string, t: nat)
    requires k < Pow2(n) && Carried(LowBits(k, n), v', t)
    ensures v' == LowBits(k + 1, n) && t == TrailingOnes(k) && k + 1 < Pow2(n)
    decreases n
  {
    FirstCarried(k, n, v', t);
    FirstBit(k, n);
    if t == 0 {
      CarryStops(k, n, v');
    } else {
      CarryAddsOne(k / 2, n - 1, v'[1..], t - 1);
      CarryGoesOn(k, n, v');
      Halves(k);
    }
  }

  lemma CarryStops(k: nat, n: nat, v': string)
    requires n > 0 && k % 2 == 0 && |v'| == n && v'[0] == '1' && v'[1..] == LowBits(k / 2, n - 1)
    ensures v' == LowBits(k + 1, n)
  {
    Halves(k);
    FirstBit(k + 1, n);
  }

  lemma CarryGoesOn(k: nat, n: nat, v': string)
    requires n > 0 && k % 2 == 1 && |v'| == n && v'[0] == '0' && v'[1..] == LowBits(k / 2 + 1, n - 1)
    ensures v' == LowBits(k + 1, n)
  {
    Halves(k);
    FirstBit(k + 1, n);
  }

  lemma {:induction false} AllOnes(k: nat, n: nat)
    requires k < Pow2(n) && forall i :: 0 <= i < n ==> LowBits(k, n)[i] == '1'
    ensures k + 1 == Pow2(n)
  {
    if n > 0 {
      assert LowBits(k, n)[1..] == LowBits(k / 2, n - 1);
      assert LowBits(k, n)[0] == '1';
      AllOnes(k / 2, n - 1);
    }
  }

  /** The carry loop before position i: all positions below i were ones and are now zeros, or the
      carry stopped at i - 1. */
  predicate Rippling(v: string, v': string, toggle: seq<nat>, i: nat, last: nat) {
    && i <= |v| && |v'| == |v| && |toggle| == |v| + 1
    && v'[i..] == v[i..]
    && (i > 0 ==> last == i - 1)
    && (i == 0 ==> toggle[i] == 1)
    && (forall j :: i < j <= |v| ==> toggle[j] == 0)
    && (toggle[i] == 1 ==> forall j :: 0 <= j < i ==> v[j] == '1' && v'[j] == '0')
    && (toggle[i] != 1 ==> toggle[i] == 0 && Carried(v, v', i - 1))
  }

  lemma RippleStep(v: string, v': string, toggle: seq<nat>, i: nat, last: nat)
    requires IsBinary(v) && Rippling(v, v', toggle, i, last) && i < |v| && toggle[i] == 1
    ensures v'[i] == '0' ==> Rippling(v, v'[i := '1'], toggle[i + 1 := 0], i + 1, i)
    ensures v'[i] != '0' ==> Rippling(v, v'[i := '0'], toggle[i + 1 := 1], i + 1, i)
  {
    assert v'[i] == v'[i..][0] && v[i] == v[i..][0];
    assert v'[i + 1..] == v'[i..][1..] && v[i + 1..] == v[i..][1..];
    assert v'[i := '1'][i + 1..] == v'[i + 1..] && v'[i := '0'][i + 1..] == v'[i + 1..];
  }

  lemma RippleEnd(k: nat, v: string, v': string, toggle: seq<nat>, i: nat, last: nat)
    requires v == LowBits(k, |v|) && v != [] && k < Pow2(|v|)
    requires Rippling(v, v', toggle, i, last) && (i < |v| ==> toggle[i] != 1)
    ensures toggle[|v|] == 1 <==> k + 1 == Pow2(|v|)
    ensures toggle[|v|] != 1 ==> v' == LowBits(k + 1, |v|) && last == TrailingOnes(k)
    ensures forall j :: 0 <= j < |v| ==> (v'[j] != v[j] <==> j <= last)
  {
    if toggle[i] == 1 {
      AllOnes(k, |v|);
    } else {
      CarryAddsOne(k, |v|, v', i - 1);
      assert forall j :: i <= j < |v| ==> v[j] == v[i..][j - i] && v'[j] == v'[i..][j - i];
    }
  }

  /** The inner loop of binary_range: ripple a carry through the digits. last is the highest
      position it toggles. */
  method Ripple(ghost k: nat, v: string) returns (v': string, last: nat, overflow: bool)
    requires v == LowBits(k, |v|) && v != [] && k < Pow2(|v|)
    ensures |v'| == |v| && overflow == (k + 1 == Pow2(|v|))
    ensures !overflow ==> v' == LowBits(k + 1, |v|) && last == TrailingOnes(k)
    ensures forall j :: 0 <= j < |v| ==> (v'[j] != v[j] <==> j <= last)
  {
    var bits := |v|;
    v' := v;
    var toggle := [1] + seq(bits, _ => 0);
    var i := 0;
    last := 0;
    BitsAreBinary(k, bits);
    while i < bits && toggle[i] == 1
      invariant Rippling(v, v', toggle, i, last)
    {
      RippleStep(v, v', toggle, i, last);
      if v'[i] == '0' {
        v' := v'[i := '1'];
        toggle := toggle[i + 1 := 0];
      } else {
        v' := v'[i := '0'];
        toggle := toggle[i + 1 := 1];
      }
      last := i;
      i := i + 1;
    }
    overflow := toggle[bits] == 1;
    RippleEnd(k, v, v', toggle, i, last);
  }

  function Reverse(s: string): (r: string)
    ensures |r| == |s| && forall i :: 0 <= i < |s| ==> r[i] == s[|s| - 1 - i]
  {
    if s == [] then [] else Reverse(s[1..]) + [s[0]]
  }

  lemma {:induction false} ReversedBits(k: nat, n: nat)
    ensures Reverse(LowBits(k, n)) == Binary(k, n)
  {
    if n > 0 {
      ReversedBits(k / 2, n - 1);
      assert LowBits(k, n)[1..] == LowBits(k / 2, n - 1);
    }
  }

  lemma {:induction false} ZeroBits(n: nat)
    ensures LowBits(0, n) == Zeros(n)
  {
    if n > 0 {
      ZeroBits(n - 1);
    }
  }

  /** The numbers below |l| as they are written, in order. */
  predicate Counted(l: seq<string>, bits: nat) {
    forall k :: 0 <= k < |l| ==> l[k] == Binary(k, bits)
  }

  lemma CountedNext(l: seq<string>, bits: nat, v: string)
    requires Counted(l, bits) && v == LowBits(|l|, bits)
    ensures Counted(l + [Reverse(v)], bits)
  {
    ReversedBits(|l|, bits);
  }

  /** The odometer stands at |l|, or has run over. */
  predicate Counting(l: seq<string>, bits: nat, v: string, done: bool) {
    && Counted(l, bits)
    && if done then |l| == Pow2(bits) else bits > 0 && |l| < Pow2(bits) && v == LowBits(|l|, bits)
  }

  lemma CountingStarts(bits: nat)
    requires bits > 0
    ensures Counting([], bits, Zeros(bits), false)
  {
    ZeroBits(bits);
  }

  /** All binary numbers of the given width, in order. With no digits at all there are none. */
  method BinaryRange(bits: nat) returns (l: seq<string>)
    ensures bits == 0 ==> l == []
    ensures bits > 0 ==> |l| == Pow2(bits) && Counted(l, bits)
  {
    l := [];
    if bits == 0 {
      return;
    }
    var v, done := Zeros(bits), false;
    CountingStarts(bits);
    while !done
      invariant Counting(l, bits, v, done)
      decreases Pow2(bits) - |l|, !done
    {
      CountedNext(l, bits, v);
      ghost var k := |l|;
      l := l + [Reverse(v)];
      var last;
      v, last, done := Ripple(k, v);
    }
  }

  /** The odometer's entries are what int2bin writes and what bin2int reads back. */
  lemma RangeIsInt2Bin(k: nat, bits: nat)
    requires bits >= 1 && k < Pow2(bits)
    ensures Int2Bin(k, bits) == Some(Binary(k, bits)) && Bin2Int(Binary(k, bits)) == k
  {
    Int2BinExact(k, bits);
    BinaryDecodes(k, bits);
  }

  // ----- Gray code --------------------------------------------------------------------------

  function Xor(a: nat, b: nat): nat
    decreases a + b
  {
    if a == 0 && b == 0 then 0 else 2 * Xor(a / 2, b / 2) + if a % 2 != b % 2 then 1 else 0
  }

  function GrayEncode(i: nat): nat {
    Xor(i, i / 2)
  }

  lemma {:induction false} ZeroHasNoBits(j: nat)
    ensures Bit(0, j) == 0
  {
    if j > 0 {
      ZeroHasNoBits(j - 1);
    }
  }

  lemma {:induction false} XorBit(a: nat, b: nat, j: nat)
    ensures Bit(Xor(a, b), j) == 1 <==> Bit(a, j) != Bit(b, j)
    decreases j
  {
    if a == 0 && b == 0 {
      ZeroHasNoBits(j);
    } else if j > 0 {
      assert Xor(a, b) / 2 == Xor(a / 2, b / 2);
      XorBit(a / 2, b / 2, j - 1);
    }
  }

  /** Neighbouring Gray codes differ in one bit: the highest that the odometer toggles. */
  lemma GrayNeighbours(k: nat, j: nat)
    ensures Bit(GrayEncode(k), j) != Bit(GrayEncode(k + 1), j) <==> j == TrailingOnes(k)
  {
    XorBit(k, k / 2, j);
    XorBit(k + 1, (k + 1) / 2, j);
    assert Bit(k / 2, j) == Bit(k, j + 1) && Bit((k + 1) / 2, j) == Bit(k + 1, j + 1);
    SuccessorFlips(k, j);
    SuccessorFlips(k, j + 1);
  }

  /** As they are written in n digits: the Gray codes of k and k + 1 differ in one digit. */
  lemma GrayDigits(k: nat, n: nat, j: nat)
    requires j < n
    ensures Binary(GrayEncode(k), n)[n - 1 - j] != Binary(GrayEncode(k + 1), n)[n - 1 - j] <==> j == TrailingOnes(k)
  {
    GrayNeighbours(k, j);
    BinaryAt(GrayEncode(k), n, j);
    BinaryAt(GrayEncode(k + 1), n, j);
  }

  lemma {:induction false} BitIs(k: nat, j: nat)
    ensures Bit(k, j) == k / Pow2(j) % 2
  {
    if j > 0 {
      BitIs(k / 2, j - 1);
      HalfThenQuotient(k, Pow2(j - 1));
    }
  }

  /** Bit j of a Gray code is set when bits j and j + 1 of the number differ. */
  lemma GrayBits(k: nat, j: nat)
    ensures GrayEncode(k) / Pow2(j) % 2 == 1 <==> k / Pow2(j) % 2 != k / Pow2(j + 1) % 2
  {
    XorBit(k, k / 2, j);
    BitIs(GrayEncode(k), j);
    BitIs(k, j);
    BitIs(k, j + 1);
    assert Bit(k / 2, j) == Bit(k, j + 1);
  }

  // ----- Numbers written out --------------------------------------------------------------------------

  lemma BinaryNext(k: nat, n: nat, s: string)
    requires Binary(k / 2, n) == s
    ensures Binary(k, n + 1) == s + if k % 2 == 0 then "0" else "1"
  {
  }

  lemma BinaryFifteen()
    ensures Binary(7, 3) == "111" && Binary(15, 4) == "1111"
  {
    BinaryNext(1, 0, "");
    BinaryNext(3, 1, "1");
    BinaryNext(7, 2, "11");
    BinaryNext(15, 3, "111");
  }

  lemma BinaryFive()
    ensures Binary(5, 4) == "0101"
  {
    BinaryNext(0, 0, "");
    BinaryNext(1, 1, "0");
    BinaryNext(2, 2, "01");
    BinaryNext(5, 3, "010");
  }

  lemma Binary123()
    ensures Binary(123, 8) == "01111011"
  {
    BinaryFifteen();
    BinaryNext(0, 0, "");
    assert Binary(15, 5) == "01111" by {
      BinaryNext(1, 1, "0");
      BinaryNext(3, 2, "01");
      BinaryNext(7, 3, "011");
      BinaryNext(15, 4, "0111");
    }
    BinaryNext(30, 5, "01111");
    BinaryNext(61, 6, "011110");
    BinaryNext(123, 7, "0111101");
  }

  /** The examples of the documentation. */
  lemma DocumentedExamples()
    ensures Int2Bin(123, 8) == Some("01111011") && Int2Bin(15, 2) == None
    ensures Bin2Int("1111") == 15 && Bin2Int("0101") == 5
  {
    assert Pow2(2) == 4 && Pow2(4) == 16 && Pow2(8) == 16 * Pow2(4);
    Binary123();
    Int2BinExact(123, 8);
    Int2BinExact(15, 2);
    BinaryFifteen();
    BinaryDecodes(15, 4);
    BinaryFive();
    BinaryDecodes(5, 4);
  }
}
