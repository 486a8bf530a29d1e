/** Byte strings as numbers, in either byte order, and their lexicographic comparison. */
module ByteStrings {
  import opened Wrappers
  import opened Positional

  function BigEndian(bytes: seq<byte>): nat {
    if bytes == [] then 0 else BigEndian(bytes[..|bytes| - 1]) * 256 + bytes[|bytes| - 1]
  }

  function LittleEndian(bytes: seq<byte>): nat { Eval(bytes, 256) }

  function Reversed(bytes: seq<byte>): seq<byte> {
    if bytes == [] then [] else Reversed(bytes[1..]) + [bytes[0]]
  }

  lemma {:induction false} ReversedValue(bytes: seq<byte>)
    ensures |Reversed(bytes)| == |bytes|
    ensures BigEndian(Reversed(bytes)) == LittleEndian(bytes)
  {
    if bytes != [] {
      ReversedValue(bytes[1..]);
      var tail := Reversed(bytes[1..]);
      assert (tail + [bytes[0]])[..|tail|] == tail;
    }
  }

  /** The `n` little-endian bytes of a number. */
  function DigitsOf(x: nat, n: nat): (bytes: seq<byte>)
    requires x < Pow(256, n)
    ensures |bytes| == n && LittleEndian(bytes) == x
  {
    if n == 0 then []
    else
      assert Pow(256, n) == 256 * Pow(256, n - 1);
      var rest := DigitsOf(x / 256, n - 1);
      assert ([x % 256] + rest)[1..] == rest;
      [x % 256] + rest
  }

  /** The first byte is the most significant. */
  lemma {:induction false} BigEndianCons(bytes: seq<byte>)
    requires bytes != []
    ensures BigEndian(bytes) == Pow(256, |bytes| - 1) * bytes[0] + BigEndian(bytes[1..])
  {
    var last := |bytes| - 1;
    if last == 0 {
      assert bytes[..0] == [] && bytes[1..] == [];
    } else {
      BigEndianCons(bytes[..last]);
      assert bytes[1..][..last - 1] == bytes[..last][1..];
      ShiftUp(Pow(256, last - 1), bytes[0], BigEndian(bytes[..last][1..]));
    }
  }

  lemma ShiftUp(p: nat, x: nat, y: nat)
    ensures (p * x + y) * 256 == (256 * p) * x + y * 256
  {
  }

  lemma {:induction false} BigEndianBound(bytes: seq<byte>)
    ensures BigEndian(bytes) < Pow(256, |bytes|)
  {
    if bytes != [] {
      BigEndianBound(bytes[1..]);
      BigEndianCons(bytes);
      DigitBelowTop(bytes[0], BigEndian(bytes[1..]), Pow(256, |bytes| - 1));
    }
  }

  lemma DigitBelowTop(x: byte, rest: nat, p: nat)
    requires rest < p
    ensures p * x + rest < 256 * p
  {
    MulLe(x, 255, p);
  }

  /** Rust's comparison of byte arrays. */
  predicate LexLess(a: seq<byte>, b: seq<byte>)
    requires |a| == |b|
  {
    a != [] && (a[0] < b[0] || (a[0] == b[0] && LexLess(a[1..], b[1..])))
  }

  /** Byte-wise comparison of big-endian strings of equal length agrees with numeric order. */
  lemma {:induction false} LexIsNumeric(a: seq<byte>, b: seq<byte>)
    requires |a| == |b|
    ensures LexLess(a, b) <==> BigEndian(a) < BigEndian(b)
    ensures BigEndian(a) == BigEndian(b) <==> a == b
  {
    if a != [] {
      BigEndianCons(a);
      BigEndianCons(b);
      LexIsNumeric(a[1..], b[1..]);
      assert a == [a[0]] + a[1..] && b == [b[0]] + b[1..];
      BigEndianBound(a[1..]);
      BigEndianBound(b[1..]);
      FirstDecides(Pow(256, |a| - 1), a[0], b[0], BigEndian(a[1..]), BigEndian(b[1..]));
    }
  }

  lemma FirstDecides(p: nat, x: nat, y: nat, u: nat, v: nat)
    requires u < p && v < p
    ensures p * x + u < p * y + v <==> x < y || (x == y && u < v)
    ensures p * x + u == p * y + v <==> x == y && u == v
  {
    if x < y {
      MulLe(x + 1, y, p);
      assert p * (x + 1) == p * x + p;
    } else if y < x {
      MulLe(y + 1, x, p);
      assert p * (y + 1) == p * y + p;
    }
  }

  lemma {:induction false} BigEndianAppend(a: seq<byte>, b: seq<byte>)
    ensures BigEndian(a + b) == Pow(256, |b|) * BigEndian(a) + BigEndian(b)
  {
    if b == [] {
      assert a + b == a;
    } else {
      var last := |b| - 1;
      BigEndianAppend(a, b[..last]);
      assert (a + b)[..|a| + last] == a + b[..last];
      ShiftUp(Pow(256, last), BigEndian(a), BigEndian(b[..last]));
    }
  }

  /** The big-endian word at offset `i`. */
  function Word(s: seq<nat>, i: nat): nat
    requires i + 8 <= |s|
  {
    ((((((s[i] * 256 + s[i + 1]) * 256 + s[i + 2]) * 256 + s[i + 3]) * 256
       + s[i + 4]) * 256 + s[i + 5]) * 256 + s[i + 6]) * 256 + s[i + 7]
  }

  lemma BigEndianWord(s: seq<byte>)
    requires |s| == 8
    ensures BigEndian(s) == Word(s, 0)
  {
    var p1, p2, p3, p4, p5, p6, p7 := s[..1], s[..2], s[..3], s[..4], s[..5], s[..6], s[..7];
    assert p2[..1] == p1 && p3[..2] == p2 && p4[..3] == p3 && p5[..4] == p4 && p6[..5] == p5 && p7[..6] == p6;
    assert p1[..0] == [] && BigEndian(p1) == s[0];
    assert BigEndian(p2) == BigEndian(p1) * 256 + s[1];
    assert BigEndian(p3) == BigEndian(p2) * 256 + s[2];
    assert BigEndian(p4) == BigEndian(p3) * 256 + s[3];
    assert BigEndian(p5) == BigEndian(p4) * 256 + s[4];
    assert BigEndian(p6) == BigEndian(p5) * 256 + s[5];
    assert BigEndian(p7) == BigEndian(p6) * 256 + s[6];
  }

  /** The value of 32 bytes from those of its four 8-byte words. */
  lemma BigEndianWords(s: seq<byte>)
    requires |s| == 32
    ensures BigEndian(s)
         == ((BigEndian(s[..8]) * 0x1_0000_0000_0000_0000 + BigEndian(s[8..16])) * 0x1_0000_0000_0000_0000
            + BigEndian(s[16..24])) * 0x1_0000_0000_0000_0000 + BigEndian(s[24..])
  {
    assert Pow(256, 2) == 256 * Pow(256, 1) == 65536;
    PowAdd(256, 2, 2);
    PowAdd(256, 4, 4);
    assert s[..16] == s[..8] + s[8..16] && s[..24] == s[..16] + s[16..24] && s == s[..24] + s[24..];
    BigEndianAppend(s[..8], s[8..16]);
    BigEndianAppend(s[..16], s[16..24]);
    BigEndianAppend(s[..24], s[24..]);
  }
}
