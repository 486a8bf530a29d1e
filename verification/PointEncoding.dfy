/** Encodings the verifier trusts: negation of a G1 point and canonical public inputs. */
module PointEncoding {
  import opened Wrappers
  import opened Positional
  import opened ByteStrings
  import opened Notes

  type i16 = x: int | -0x8000 <= x < 0x8000

  /** BN254 base-field modulus q. */
  const FQ_MODULUS: nat := 0x30644e72e131a029b85045b68181585d97816a916871ca8d3c208c16d87cfd47

  const FQ_MODULUS_BE: seq<byte> := [
    0x30, 0x64, 0x4e, 0x72, 0xe1, 0x31, 0xa0, 0x29, 0xb8, 0x50, 0x45, 0xb6, 0x81, 0x81, 0x58, 0x5d,
    0x97, 0x81, 0x6a, 0x91, 0x68, 0x71, 0xca, 0x8d, 0x3c, 0x20, 0x8c, 0x16, 0xd8, 0x7c, 0xfd, 0x47]

  const FR_MODULUS_BE: seq<byte> := [
    0x30, 0x64, 0x4e, 0x72, 0xe1, 0x31, 0xa0, 0x29, 0xb8, 0x50, 0x45, 0xb6, 0x81, 0x81, 0x58, 0x5d,
    0x28, 0x33, 0xe8, 0x48, 0x79, 0xb9, 0x70, 0x91, 0x43, 0xe1, 0xf5, 0x93, 0xf0, 0x00, 0x00, 0x01]

  lemma ModuliBytes()
    ensures BigEndian(FQ_MODULUS_BE) == FQ_MODULUS
    ensures BigEndian(FR_MODULUS_BE) == FR_MODULUS
  {
    FqBytes();
    FrBytes();
  }

  lemma FqBytes()
    ensures BigEndian(FQ_MODULUS_BE) == FQ_MODULUS
  {
    WordsOf(FQ_MODULUS_BE);
  }

  lemma FrBytes()
    ensures BigEndian(FR_MODULUS_BE) == FR_MODULUS
  {
    WordsOf(FR_MODULUS_BE);
  }

  lemma WordsOf(s: seq<byte>)
    requires |s| == 32
    ensures BigEndian(s)
         == ((Word(s, 0) * 0x1_0000_0000_0000_0000 + Word(s, 8)) * 0x1_0000_0000_0000_0000
            + Word(s, 16)) * 0x1_0000_0000_0000_0000 + Word(s, 24)
  {
    BigEndianWords(s);
    BigEndianWord(s[..8]);
    BigEndianWord(s[8..16]);
    BigEndianWord(s[16..24]);
    BigEndianWord(s[24..]);
  }

  /** What negating an encoded point means: y becomes q - y, unless y is 0 or not reduced. */
  function Negated(point: seq<byte>): (out: seq<byte>)
    requires |point| == 64
    ensures |out| == 64
  {
    var y := BigEndian(point[32..]);
    if y == 0 || y >= FQ_MODULUS then point
    else
      FqFits();
      ReversedValue(DigitsOf(FQ_MODULUS - y, 32));
      point[..32] + Reversed(DigitsOf(FQ_MODULUS - y, 32))
  }

  lemma FqFits()
    ensures FQ_MODULUS < Pow(256, 32)
  {
    assert Pow(256, 2) == 256 * Pow(256, 1) == 65536;
    PowAdd(256, 2, 2);
    PowAdd(256, 4, 4);
    PowAdd(256, 8, 8);
    PowAdd(256, 16, 16);
  }

  lemma NegatedEncodes(point: seq<byte>)
    requires |point| == 64
    ensures Negated(point)[..32] == point[..32]
    ensures var y := BigEndian(point[32..]);
            BigEndian(Negated(point)[32..]) == if 0 < y < FQ_MODULUS then FQ_MODULUS - y else y
  {
    var y := BigEndian(point[32..]);
    if 0 < y < FQ_MODULUS {
      FqFits();
      ReversedValue(DigitsOf(FQ_MODULUS - y, 32));
      assert Negated(point)[32..] == Reversed(DigitsOf(FQ_MODULUS - y, 32));
    }
  }

  /** Negation is its own inverse on every 64-byte string. */
  lemma NegatedTwice(point: seq<byte>)
    requires |point| == 64
    ensures Negated(Negated(point)) == point
  {
    NegatedEncodes(point);
    NegatedEncodes(Negated(point));
    var twice := Negated(Negated(point));
    LexIsNumeric(twice[32..], point[32..]);
    assert twice == twice[..32] + twice[32..] && point == point[..32] + point[32..];
  }

  method NegateG1Bytes(point: seq<byte>) returns (out: seq<byte>)
    requires |point| == 64
    ensures out == Negated(point)
  {
    out := point;
    var y := point[32..];
    var zero := true;
    for k := 0 to 32
      invariant zero <==> forall j :: 0 <= j < k ==> y[j] == 0
    {
      zero := zero && y[k] == 0;
    }
    ZeroIffAllZero(y);
    LexIsNumeric(y, FQ_MODULUS_BE);
    ModuliBytes();
    if zero || !LexLess(y, FQ_MODULUS_BE) {
      return;
    }
    var digits, borrow := Borrowing(y);
    assert borrow == 0;
    out := out[..32] + digits;
    FqFits();
    ReversedValue(DigitsOf(FQ_MODULUS - BigEndian(y), 32));
    LexIsNumeric(digits, Reversed(DigitsOf(FQ_MODULUS - BigEndian(y), 32)));
  }

  /** The borrow loop: 32 bytes of q - y, least significant last, with no final borrow when y <= q. */
  method Borrowing(y: seq<byte>) returns (digits: seq<byte>, borrow: i16)
    requires |y| == 32
    ensures |digits| == 32 && 0 <= borrow <= 1
    ensures BigEndian(digits) + BigEndian(y) == FQ_MODULUS + Pow(256, 32) * borrow
    ensures BigEndian(y) <= FQ_MODULUS ==> borrow == 0
  {
    digits := y;
    borrow := 0;
    var i := 32;
    while i > 0
      invariant 0 <= i <= 32 && |digits| == 32 && 0 <= borrow <= 1
      invariant BigEndian(digits[i..]) + BigEndian(y[i..])
             == BigEndian(FQ_MODULUS_BE[i..]) + Pow(256, 32 - i) * borrow
    {
      i := i - 1;
      var d: i16 := FQ_MODULUS_BE[i] - y[i] - borrow;
      ghost var before, b := digits, borrow;
      if d < 0 {
        d := d + 256;
        borrow := 1;
      } else {
        borrow := 0;
      }
      digits := digits[i := d];
      assert digits[i + 1..] == before[i + 1..];
      BorrowByte(digits, y, i, b, borrow);
    }
    assert digits[0..] == digits && y[0..] == y && FQ_MODULUS_BE[0..] == FQ_MODULUS_BE;
    ModuliBytes();
    BigEndianBound(digits);
  }

  lemma BorrowByte(digits: seq<byte>, y: seq<byte>, i: nat, b: nat, borrow: nat)
    requires |digits| == |y| == 32 && i < 32
    requires digits[i] as int + y[i] as int + b == FQ_MODULUS_BE[i] as int + 256 * borrow
    requires BigEndian(digits[i + 1..]) + BigEndian(y[i + 1..])
          == BigEndian(FQ_MODULUS_BE[i + 1..]) + Pow(256, 32 - (i + 1)) * b
    ensures BigEndian(digits[i..]) + BigEndian(y[i..]) == BigEndian(FQ_MODULUS_BE[i..]) + Pow(256, 32 - i) * borrow
  {
    var q := FQ_MODULUS_BE;
    assert digits[i..][1..] == digits[i + 1..] && y[i..][1..] == y[i + 1..] && q[i..][1..] == q[i + 1..];
    BigEndianCons(digits[i..]);
    BigEndianCons(y[i..]);
    BigEndianCons(q[i..]);
    SubPlace(Pow(256, 31 - i), 256, BigEndian(digits[i + 1..]), BigEndian(q[i + 1..]), BigEndian(y[i + 1..]),
             b, digits[i], q[i], y[i], borrow);
  }

  lemma {:induction false} ZeroIffAllZero(bytes: seq<byte>)
    ensures BigEndian(bytes) == 0 <==> forall j :: 0 <= j < |bytes| ==> bytes[j] == 0
  {
    if bytes != [] {
      ZeroIffAllZero(bytes[..|bytes| - 1]);
    }
  }

  // ----- public inputs

  /** Decode a little-endian public input; anything not below r is refused. */
  method PublicInputToFr(input: seq<byte>) returns (r: Option<nat>)
    requires |input| == 32
    ensures r == FrOf(input)
  {
    var be := Reversed(input);
    ReversedValue(input);
    LexIsNumeric(be, FR_MODULUS_BE);
    ModuliBytes();
    if !LexLess(be, FR_MODULUS_BE) {
      return None;
    }
    r := Some(BigEndian(be));
  }

  function FrOf(input: seq<byte>): Option<nat> {
    if LittleEndian(input) < FR_MODULUS then Some(LittleEndian(input)) else None
  }

  /** Two accepted encodings denote the same field element only if they are the same bytes. */
  lemma AcceptedInputsAreUnique(x: seq<byte>, y: seq<byte>)
    requires |x| == |y| == 32 && FrOf(x).Some? && FrOf(y).Some?
    requires FrOf(x).value % FR_MODULUS == FrOf(y).value % FR_MODULUS
    ensures x == y
  {
    EvalInjective(x, y, 256);
  }
}
