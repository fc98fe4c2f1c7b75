/**
 Packed index words.  The encoder ors digits of 2 or 3 bits into a word and stores it a byte at a
 time; the decoder reassembles the bytes and shifts the digits out.  Words are natural numbers
 and digits are taken little-endian: or-ing disjoint bits is addition, a shift by one digit is
 a division by the radix.
 */
module Numerals {
  type Byte = x: int | 0 <= x < 256

  // 2-bit colour indices, 3-bit alpha indices, bytes.
  type Radix = b: nat | b == 4 || b == 8 || b == 256 witness 4

  function Times(x: nat, b: Radix): nat { if b == 4 then x * 4 else if b == 8 then x * 8 else x * 256 }
  function Shift(x: nat, b: Radix): nat { if b == 4 then x / 4 else if b == 8 then x / 8 else x / 256 }
  function Low(x: nat, b: Radix): nat { if b == 4 then x % 4 else if b == 8 then x % 8 else x % 256 }

  // Radix to the n-th power.
  function Pow(b: Radix, n: nat): nat {
    if n == 0 then 1 else Times(Pow(b, n - 1), b)
  }

  function FromDigits(ds: seq<nat>, b: Radix): nat {
    if ds == [] then 0 else ds[0] + Times(FromDigits(ds[1..], b), b)
  }

  // (w >> bits * i) & (radix - 1)
  function Digit(w: nat, b: Radix, i: nat): nat
    decreases i
  {
    if i == 0 then Low(w, b) else Digit(Shift(w, b), b, i - 1)
  }

  predicate DigitsBelow(ds: seq<nat>, b: Radix) {
    forall i :: 0 <= i < |ds| ==> ds[i] < b
  }

  lemma TopDigit(d: nat, rest: nat, b: Radix)
    requires d < b
    ensures Low(d + Times(rest, b), b) == d && Shift(d + Times(rest, b), b) == rest
  {
    if b == 4 { TopDigit4(d, rest); } else if b == 8 { TopDigit8(d, rest); } else { TopDigit256(d, rest); }
  }

  lemma TopDigit4(d: nat, rest: nat)
    requires d < 4
    ensures (d + rest * 4) / 4 == rest && (d + rest * 4) % 4 == d
  {
  }

  lemma TopDigit8(d: nat, rest: nat)
    requires d < 8
    ensures (d + rest * 8) / 8 == rest && (d + rest * 8) % 8 == d
  {
  }

  lemma TopDigit256(d: nat, rest: nat)
    requires d < 256
    ensures (d + rest * 256) / 256 == rest && (d + rest * 256) % 256 == d
  {
  }

  /** Shifting digit i out of a packed word gives the digit that was packed there. */
  lemma {:induction false} DigitOfPacked(ds: seq<nat>, b: Radix, i: nat)
    requires i < |ds| && DigitsBelow(ds, b)
    ensures Digit(FromDigits(ds, b), b, i) == ds[i]
  {
    TopDigit(ds[0], FromDigits(ds[1..], b), b);
    if i > 0 { DigitOfPacked(ds[1..], b, i - 1); }
  }

  lemma {:induction false} PackedBelow(ds: seq<nat>, b: Radix)
    requires DigitsBelow(ds, b)
    ensures FromDigits(ds, b) < Pow(b, |ds|)
  {
    if ds != [] { PackedBelow(ds[1..], b); }
  }

  lemma TimesDistributes(x: nat, d: nat, p: nat, b: Radix)
    ensures Times(x + d * p, b) == Times(x, b) + d * Times(p, b)
  {
  }

  /** Or-ing one more digit in above the others. */
  lemma {:induction false} AppendDigit(ds: seq<nat>, d: nat, b: Radix)
    ensures FromDigits(ds + [d], b) == FromDigits(ds, b) + d * Pow(b, |ds|)
  {
    if ds == [] {
      assert ([d] + [])[1..] == [];
    } else {
      assert (ds + [d])[1..] == ds[1..] + [d];
      AppendDigit(ds[1..], d, b);
      TimesDistributes(FromDigits(ds[1..], b), d, Pow(b, |ds| - 1), b);
    }
  }

  // The n bytes of a word, low byte first.
  function Bytes(w: nat, n: nat): (bs: seq<Byte>)
    ensures |bs| == n
  {
    if n == 0 then [] else [w % 256] + Bytes(w / 256, n - 1)
  }

  /** Byte i is the word shifted right by 8 * i. */
  lemma {:induction false} BytesAreDigits(w: nat, n: nat, i: nat)
    requires i < n
    ensures Bytes(w, n)[i] == Digit(w, 256, i)
  {
    if i > 0 { BytesAreDigits(w / 256, n - 1, i - 1); }
  }

  function FromBytes(bs: seq<Byte>): nat {
    if bs == [] then 0 else bs[0] + 256 * FromBytes(bs[1..])
  }

  /** A word that fits in n bytes survives being stored and reassembled. */
  lemma {:induction false} BytesRoundTrip(w: nat, n: nat)
    requires w < Pow(256, n)
    ensures FromBytes(Bytes(w, n)) == w
  {
    if n > 0 { BytesRoundTrip(w / 256, n - 1); }
  }

  lemma PowTwo(b: Radix, n: nat)
    ensures Pow(b, n + 2) == Times(Times(Pow(b, n), b), b)
  {
    assert Pow(b, n + 2) == Times(Pow(b, n + 1), b);
  }

  lemma PowFour(b: Radix, n: nat)
    ensures Pow(b, n + 4) == Times(Times(Times(Times(Pow(b, n), b), b), b), b)
  {
    PowTwo(b, n);
    PowTwo(b, n + 2);
  }

  // Four 2-bit digits fill a byte; eight 3-bit digits fill three bytes.
  lemma {:induction false} PowDoubles(n: nat)
    ensures Pow(4, 4 * n) == Pow(256, n)
    ensures Pow(8, 8 * n) == Pow(256, 3 * n)
  {
    if n > 0 {
      PowDoubles(n - 1);
      PowFour(4, 4 * (n - 1));
      PowFour(8, 8 * (n - 1));
      PowFour(8, 8 * (n - 1) + 4);
      PowTwo(256, 3 * (n - 1));
      assert Pow(256, 3 * n) == Times(Pow(256, 3 * (n - 1) + 2), 256);
    }
  }

  /** Sixteen indices packed by or-ing and split into bytes come back out of the bytes. */
  lemma PackedIndices(ds: seq<nat>, b: Radix, n: nat, i: nat)
    requires |ds| == 16 && i < 16 && DigitsBelow(ds, b) && (b == 4 ==> n == 4) && (b == 8 ==> n == 6) && b != 256
    ensures Digit(FromBytes(Bytes(FromDigits(ds, b), n)), b, i) == ds[i]
  {
    PackedBelow(ds, b);
    PowDoubles(4);
    PowDoubles(2);
    BytesRoundTrip(FromDigits(ds, b), n);
    DigitOfPacked(ds, b, i);
  }

  // ----- which bytes hold an index -----

  lemma TimesPow(d: nat, p: nat, b: Radix)
    ensures d * Times(p, b) == Times(d * p, b)
  {
    assert d * (p * 4) == d * p * 4 && d * (p * 8) == d * p * 8 && d * (p * 256) == d * p * 256;
  }

  lemma LowAndShift(x: nat, b: Radix)
    ensures x == Low(x, b) + Times(Shift(x, b), b) && Low(x, b) < b
  {
  }

  // The low n digits of a word do not depend on what is above them.
  lemma {:induction false} LowDigits(low: nat, high: nat, b: Radix, n: nat, i: nat)
    requires i < n
    ensures Digit(low + high * Pow(b, n), b, i) == Digit(low, b, i)
    decreases i
  {
    DropDigit(low, high, b, n);
    if i > 0 { LowDigits(Shift(low, b), high, b, n - 1, i - 1); }
  }

  // The digits above the low n are those of the high part.
  lemma {:induction false} HighDigits(low: nat, high: nat, b: Radix, n: nat, i: nat)
    requires low < Pow(b, n)
    ensures Digit(low + high * Pow(b, n), b, n + i) == Digit(high, b, i)
    decreases n
  {
    if n > 0 {
      DropDigit(low, high, b, n);
      HighDigits(Shift(low, b), high, b, n - 1, i);
    }
  }

  lemma DropDigit(low: nat, high: nat, b: Radix, n: nat)
    requires n > 0
    ensures Low(low + high * Pow(b, n), b) == Low(low, b)
    ensures Shift(low + high * Pow(b, n), b) == Shift(low, b) + high * Pow(b, n - 1)
    ensures low < Pow(b, n) ==> Shift(low, b) < Pow(b, n - 1)
  {
    LowAndShift(low, b);
    TimesPow(high, Pow(b, n - 1), b);
    var rest := Shift(low, b) + high * Pow(b, n - 1);
    TimesDistributes(Shift(low, b), 1, high * Pow(b, n - 1), b);
    TopDigit(Low(low, b), rest, b);
  }

  /** Four 2-bit indices to a byte: index 4 * y + x of a word is bits 2 * x and 2 * x + 1 of its byte y. */
  lemma {:induction false} IndexInByte(bs: seq<Byte>, y: nat, x: nat)
    requires y < |bs| && x < 4
    ensures Digit(FromBytes(bs), 4, 4 * y + x) == Digit(bs[y], 4, x)
  {
    var rest := FromBytes(bs[1..]);
    PowFour(4, 0);
    assert Pow(4, 0) == 1 && Pow(4, 4) == 256;
    assert FromBytes(bs) == bs[0] + rest * Pow(4, 4);
    if y == 0 {
      LowDigits(bs[0], rest, 4, 4, x);
    } else {
      HighDigits(bs[0], rest, 4, 4, 4 * (y - 1) + x);
      IndexInByte(bs[1..], y - 1, x);
    }
  }

  // Three bytes, low byte first.
  function Word24(b0: int, b1: int, b2: int): int { b0 + 256 * b1 + 65536 * b2 }

  lemma ThreeFirst(bs: seq<Byte>)
    requires |bs| >= 3
    ensures FromBytes(bs) == Word24(bs[0], bs[1], bs[2]) + 16777216 * FromBytes(bs[3..])
  {
    assert bs[1..][1..] == bs[2..] && bs[2..][1..] == bs[3..];
    assert FromBytes(bs) == bs[0] + 256 * FromBytes(bs[1..]);
    assert FromBytes(bs[1..]) == bs[1] + 256 * FromBytes(bs[2..]);
    assert FromBytes(bs[2..]) == bs[2] + 256 * FromBytes(bs[3..]);
  }

  /** Eight 3-bit indices to three bytes: index 8 * h + i of a word of six bytes is bits 3 * i to
      3 * i + 2 of its half h. */
  lemma IndexInHalf(bs: seq<Byte>, h: nat, i: nat)
    requires |bs| == 6 && h < 2 && i < 8
    ensures Word24(bs[3 * h], bs[3 * h + 1], bs[3 * h + 2]) >= 0
    ensures Digit(FromBytes(bs), 8, 8 * h + i) == Digit(Word24(bs[3 * h], bs[3 * h + 1], bs[3 * h + 2]), 8, i)
  {
    var low, high := Word24(bs[0], bs[1], bs[2]), Word24(bs[3], bs[4], bs[5]);
    EightPow();
    ThreeFirst(bs);
    ThreeFirst(bs[3..]);
    assert bs[3..][3..] == [];
    assert FromBytes(bs) == low + high * Pow(8, 8);
    if h == 0 {
      LowDigits(low, high, 8, 8, i);
    } else {
      HighDigits(low, high, 8, 8, i);
    }
  }

  lemma EightPow()
    ensures Pow(8, 8) == 16777216
  {
    PowFour(8, 0);
    PowFour(8, 4);
    assert Pow(8, 0) == 1;
  }
}
