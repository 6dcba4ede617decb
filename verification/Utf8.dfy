/** UTF-8 (RFC 3629, section 3), the form in which Rust compares strings,
    measures their length and hands them to a byte-wise decoder. */
module Utf8 {
  import opened MachineInts
  import opened Lexicographic

  function EncodeChar(c: char): (bytes: seq<byte>)
    ensures 1 <= |bytes| <= 4
  {
    var n := c as int;
    if n < 0x80 then [n]
    else if n < 0x800 then [0xC0 + n / 0x40, 0x80 + n % 0x40]
    else if n < 0x10000 then [0xE0 + n / 0x1000, 0x80 + n / 0x40 % 0x40, 0x80 + n % 0x40]
    else [0xF0 + n / 0x4_0000, 0x80 + n / 0x1000 % 0x40, 0x80 + n / 0x40 % 0x40, 0x80 + n % 0x40]
  }

  /** The bytes of a string; their number is `str::len`. */
  function Encode(s: string): seq<byte> {
    if s == "" then [] else EncodeChar(s[0]) + Encode(s[1..])
  }

  // ---------------------------------------------------------------- reading back

  /** How many bytes a lead byte announces. */
  function Announced(lead: byte): nat {
    if lead < 0x80 then 1 else if lead < 0xE0 then 2 else if lead < 0xF0 then 3 else 4
  }

  predicate Continues(b: byte) {
    0x80 <= b < 0xC0
  }

  /** The number that the payload bits of one to four bytes spell. */
  function CodePoint(bytes: seq<byte>): int
    requires 1 <= |bytes| <= 4
  {
    var payload := seq(|bytes|, i requires 0 <= i < |bytes| => bytes[i] as int - 0x80);
    match |bytes|
    case 1 => bytes[0]
    case 2 => 0x40 * (payload[0] - 0x40) + payload[1]
    case 3 => 0x1000 * (payload[0] - 0x60) + 0x40 * payload[1] + payload[2]
    case _ => 0x4_0000 * (payload[0] - 0x70) + 0x1000 * payload[1] + 0x40 * payload[2] + payload[3]
  }

  /** The smallest code point that needs this many bytes. */
  function FirstOfWidth(width: nat): nat {
    match width
    case 2 => 0x80
    case 3 => 0x800
    case 4 => 0x10000
    case _ => 0
  }

  /** A character's bytes read back as its code point: the lead byte announces
      their number, the rest are continuation bytes, and no shorter form exists. */
  lemma EncodeCharExact(c: char)
    ensures
      var bytes := EncodeChar(c);
      && |bytes| == Announced(bytes[0])
      && CodePoint(bytes) == c as int
      && FirstOfWidth(|bytes|) <= c as int
      && forall i :: 0 <= i < |bytes| ==> (Continues(bytes[i]) <==> i > 0)
  {
    SixBitDigits(c as int);
  }

  lemma SixBitDigits(n: nat)
    ensures n == 0x40 * (n / 0x40) + n % 0x40
    ensures n / 0x40 == 0x40 * (n / 0x1000) + n / 0x40 % 0x40
    ensures n / 0x1000 == 0x40 * (n / 0x4_0000) + n / 0x1000 % 0x40
  {
  }

  // ----------------------------------------------------------------------- order

  lemma {:induction false} CommonBytes(p: seq<byte>, a: seq<byte>, b: seq<byte>)
    ensures BytesLess(p + a, p + b) <==> BytesLess(a, b)
  {
    if p == [] {
      assert p + a == a && p + b == b;
    } else {
      assert (p + a)[1..] == p[1..] + a && (p + b)[1..] == p[1..] + b;
      CommonBytes(p[1..], a, b);
    }
  }

  lemma {:induction false} BytesAsymmetric(a: seq<byte>, b: seq<byte>)
    requires BytesLess(a, b)
    ensures !BytesLess(b, a)
  {
    if a != [] && a[0] == b[0] {
      BytesAsymmetric(a[1..], b[1..]);
    }
  }

  /** The first byte in which two sequences differ decides. */
  lemma {:induction false} FirstDifference(a: seq<byte>, b: seq<byte>, i: nat)
    requires i < |a| && i < |b| && a[..i] == b[..i] && a[i] < b[i]
    ensures BytesLess(a, b)
  {
    if i > 0 {
      assert a[0] == a[..i][0] && b[0] == b[..i][0];
      assert a[1..][..i - 1] == a[..i][1..] && b[1..][..i - 1] == b[..i][1..];
      FirstDifference(a[1..], b[1..], i - 1);
    }
  }

  lemma SameWidthOrder(a: seq<byte>, b: seq<byte>) returns (i: nat)
    requires 1 <= |a| == |b| <= 4 && CodePoint(a) < CodePoint(b)
    requires forall j :: 0 < j < |a| ==> Continues(a[j]) && Continues(b[j])
    ensures i < |a| && a[..i] == b[..i] && a[i] < b[i]
  {
    i := if a[0] != b[0] then 0 else if a[1] != b[1] then 1 else if a[2] != b[2] then 2 else 3;
  }

  /** Where the encodings of two characters first differ. */
  lemma CharOrder(c: char, d: char) returns (i: nat)
    requires c < d
    ensures i < |EncodeChar(c)| && i < |EncodeChar(d)|
    ensures EncodeChar(c)[..i] == EncodeChar(d)[..i] && EncodeChar(c)[i] < EncodeChar(d)[i]
  {
    EncodeCharExact(c);
    EncodeCharExact(d);
    WiderLater(c, d);
    if |EncodeChar(c)| == |EncodeChar(d)| {
      hide EncodeChar;
      i := SameWidthOrder(EncodeChar(c), EncodeChar(d));
    } else {
      i := 0;
    }
  }

  lemma WiderLater(c: char, d: char)
    requires c < d
    ensures |EncodeChar(c)| <= |EncodeChar(d)|
  {
  }

  lemma SmallerFirst(c: char, s: string, d: char, t: string)
    requires c < d
    ensures BytesLess(EncodeChar(c) + Encode(s), EncodeChar(d) + Encode(t))
  {
    var i := CharOrder(c, d);
    var a, b := EncodeChar(c) + Encode(s), EncodeChar(d) + Encode(t);
    assert a[..i] == EncodeChar(c)[..i] && b[..i] == EncodeChar(d)[..i];
    FirstDifference(a, b, i);
  }

  /** Comparing strings by code point is comparing their bytes. */
  lemma {:induction false} OrderIsByteOrder(a: string, b: string)
    ensures Less(a, b) <==> BytesLess(Encode(a), Encode(b))
  {
    if a != "" && b != "" {
      if a[0] < b[0] {
        SmallerFirst(a[0], a[1..], b[0], b[1..]);
      } else if b[0] < a[0] {
        SmallerFirst(b[0], b[1..], a[0], a[1..]);
        BytesAsymmetric(Encode(b), Encode(a));
      } else {
        CommonBytes(EncodeChar(a[0]), Encode(a[1..]), Encode(b[1..]));
        OrderIsByteOrder(a[1..], b[1..]);
      }
    }
  }
}
