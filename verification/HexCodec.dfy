/** src/x0x_identity.rs: 32-byte identifiers as lowercase base16 strings
    (RFC 4648, section 8), parsed back in either case. */
module HexCodec {
  import opened Wrappers
  import opened MachineInts
  import opened Lexicographic
  import Utf8

  const ID_BYTES: nat := 32

  type Id = s: seq<byte> | |s| == ID_BYTES witness seq(ID_BYTES, _ => 0)

  /** Why a string is not an identifier; the source keeps it rendered as text. */
  datatype Details = OddLength | InvalidHexCharacter(c: char, index: nat) | WrongLength(got: nat)
  datatype InvalidIdentityEncoding = InvalidIdentityEncoding(field: string, details: Details)

  function HexDigit(n: nat): char
    requires n < 16
  {
    if n < 10 then ('0' as int + n) as char else ('a' as int + (n - 10)) as char
  }

  function HexValue(c: char): (r: Option<nat>)
    ensures r.Some? <==> IsHexDigit(c)
    ensures r.Some? ==> r.value < 16
  {
    if '0' <= c <= '9' then Some(c as int - '0' as int)
    else if 'a' <= c <= 'f' then Some(c as int - 'a' as int + 10)
    else if 'A' <= c <= 'F' then Some(c as int - 'A' as int + 10)
    else None
  }

  /** A digit of base 16, in either case. */
  predicate IsHexDigit(c: char) {
    '0' <= c <= '9' || 'a' <= c <= 'f' || 'A' <= c <= 'F'
  }

  predicate IsHex(s: string) {
    forall i :: 0 <= i < |s| ==> IsHexDigit(s[i])
  }

  predicate IsLowerHex(s: string) {
    forall i :: 0 <= i < |s| ==> '0' <= s[i] <= '9' || 'a' <= s[i] <= 'f'
  }

  function Lower(s: string): string {
    seq(|s|, i requires 0 <= i < |s| =>
      LowerChar(s[i]))
  }

  function LowerChar(c: char): char {
    if 'A' <= c <= 'Z' then (c as int - 'A' as int + 'a' as int) as char else c
  }

  /** `hex::encode`. */
  function Encode(bytes: seq<byte>): string {
    if bytes == [] then ""
    else [HexDigit(bytes[0] / 16), HexDigit(bytes[0] % 16)] + Encode(bytes[1..])
  }

  /** `hex::decode` on the bytes of a string: an odd number of them is refused
      before any is looked at. */
  function Decode(bytes: seq<byte>): Result<seq<byte>, Details> {
    if |bytes| % 2 != 0 then Failure(OddLength) else DecodePairs(bytes, 0)
  }

  /** Decode pair by pair up to the first bad digit; `at` is the index of bytes. */
  function DecodePairs(bytes: seq<byte>, at: nat): Result<seq<byte>, Details>
    requires |bytes| % 2 == 0
  {
    if bytes == [] then Success([])
    else
      var (high, low) := (bytes[0] as char, bytes[1] as char);
      if HexValue(high).None? then Failure(InvalidHexCharacter(high, at))
      else if HexValue(low).None? then Failure(InvalidHexCharacter(low, at + 1))
      else
        match DecodePairs(bytes[2..], at + 2)
        case Success(rest) => Success([16 * HexValue(high).value + HexValue(low).value] + rest)
        case Failure(details) => Failure(details)
  }

  function ParseHex32(value: string, field: string): Result<Id, InvalidIdentityEncoding> {
    match Decode(Utf8.Encode(value))
    case Failure(details) => Failure(InvalidIdentityEncoding(field, details))
    case Success(bytes) =>
      if |bytes| == ID_BYTES then Success(bytes)
      else Failure(InvalidIdentityEncoding(field, WrongLength(|bytes|)))
  }

  function EncodeAgentId(id: Id): string { Encode(id) }

  function EncodeMachineId(id: Id): string { Encode(id) }

  function ParseAgentIdHex(value: string): Result<Id, InvalidIdentityEncoding> {
    ParseHex32(value, "agent_id")
  }

  function ParseMachineIdHex(value: string): Result<Id, InvalidIdentityEncoding> {
    ParseHex32(value, "machine_id")
  }

  // ---------------------------------------------------------------- the code

  lemma {:induction false} EncodeShape(bytes: seq<byte>)
    ensures |Encode(bytes)| == 2 * |bytes| && IsLowerHex(Encode(bytes))
  {
    if bytes != [] {
      EncodeShape(bytes[1..]);
    }
  }

  predicate FirstNonHex(s: string, i: nat) {
    i < |s| && !IsHexDigit(s[i]) && forall j :: 0 <= j < i ==> IsHexDigit(s[j])
  }

  /** Up to its first character that is no digit, a string is its own bytes. */
  lemma {:induction false} BytesOfHex(s: string, i: nat)
    requires i <= |s| && IsHex(s[..i])
    ensures Utf8.Encode(s) == Ascii(s[..i]) + Utf8.Encode(s[i..])
  {
    if i > 0 {
      assert s[..i][1..] == s[1..][..i - 1] && s[..i][0] == s[0];
      BytesOfHex(s[1..], i - 1);
      assert Ascii(s[..i]) == [s[0] as int] + Ascii(s[1..][..i - 1]);
    }
  }

  /** Hex digits as bytes. */
  function Ascii(s: string): (bytes: seq<byte>)
    requires IsHex(s)
  {
    seq(|s|, i requires 0 <= i < |s| =>
      assert IsHexDigit(s[i]); s[i] as int)
  }

  lemma AllBytesOfHex(s: string)
    requires IsHex(s)
    ensures Utf8.Encode(s) == Ascii(s)
  {
    assert s[..|s|] == s && s[|s|..] == "";
    BytesOfHex(s, |s|);
  }

  lemma DigitHasItsValue(n: nat)
    requires n < 16
    ensures HexDigit(n) < 128 as char && HexValue(HexDigit(n)) == Some(n)
  {
  }

  lemma {:induction false} DecodePairsEncode(bytes: seq<byte>, at: nat)
    requires IsHex(Encode(bytes)) && |Encode(bytes)| % 2 == 0
    ensures DecodePairs(Ascii(Encode(bytes)), at) == Success(bytes)
  {
    hide HexDigit, HexValue;
    if bytes != [] {
      assert Encode(bytes)[2..] == Encode(bytes[1..]);
      DigitHasItsValue(bytes[0] / 16);
      DigitHasItsValue(bytes[0] % 16);
      DecodePairsEncode(bytes[1..], at + 2);
      assert Ascii(Encode(bytes))[2..] == Ascii(Encode(bytes[1..]));
      assert bytes == [bytes[0]] + bytes[1..];
    }
  }

  lemma DecodeEncode(bytes: seq<byte>)
    ensures Decode(Utf8.Encode(Encode(bytes))) == Success(bytes)
  {
    hide Encode, DecodePairs, Utf8.Encode;
    EncodeShape(bytes);
    AllBytesOfHex(Encode(bytes));
    DecodePairsEncode(bytes, 0);
  }

  lemma EncodePair(x: char, y: char, rest: seq<byte>)
    requires HexValue(x).Some? && HexValue(y).Some?
    ensures Encode([16 * HexValue(x).value + HexValue(y).value] + rest)
            == [LowerChar(x), LowerChar(y)] + Encode(rest)
  {
    var bytes: seq<byte> := [16 * HexValue(x).value + HexValue(y).value] + rest;
    assert bytes[1..] == rest;
    assert bytes[0] / 16 == HexValue(x).value && bytes[0] % 16 == HexValue(y).value;
  }

  predicate FirstBadByte(bytes: seq<byte>, i: nat) {
    && i < |bytes| && !IsHexDigit(bytes[i] as char)
    && forall j :: 0 <= j < i ==> IsHexDigit(bytes[j] as char)
  }

  /** The scan stops at the first byte that is no hex digit. */
  lemma {:induction false} DecodeFails(bytes: seq<byte>, at: nat, i: nat)
    requires |bytes| % 2 == 0 && FirstBadByte(bytes, i)
    ensures DecodePairs(bytes, at) == Failure(InvalidHexCharacter(bytes[i] as char, at + i))
  {
    if i > 1 {
      DecodeFails(bytes[2..], at + 2, i - 2);
    }
  }

  /** That byte is the first one of the first character that is no hex digit. */
  lemma BadCharacter(s: string, i: nat)
    requires FirstNonHex(s, i)
    ensures FirstBadByte(Utf8.Encode(s), i) && Utf8.Encode(s)[i] == Utf8.EncodeChar(s[i])[0]
  {
    BytesOfHex(s, i);
    assert s[i..][0] == s[i];
  }

  /** Where there is none it succeeds, and re-encoding lowercases the text. */
  lemma {:induction false} DecodeSucceeds(s: string, at: nat)
    requires IsHex(s) && |s| % 2 == 0
    ensures DecodePairs(Ascii(s), at).Success?
    ensures 2 * |DecodePairs(Ascii(s), at).value| == |s|
    ensures Encode(DecodePairs(Ascii(s), at).value) == Lower(s)
  {
    hide HexDigit;
    if s != "" {
      assert Ascii(s)[2..] == Ascii(s[2..]);
      DecodeSucceeds(s[2..], at + 2);
      EncodePair(s[0], s[1], DecodePairs(Ascii(s[2..]), at + 2).value);
      assert Lower(s) == [LowerChar(s[0]), LowerChar(s[1])] + Lower(s[2..]);
    }
  }

  lemma {:induction false} HexOrNot(s: string) returns (i: nat)
    ensures IsHex(s) || FirstNonHex(s, i)
  {
    i := 0;
    if s != "" && IsHexDigit(s[0]) {
      var rest := HexOrNot(s[1..]);
      i := rest + 1;
    }
  }

  /** A 32-byte identifier prints as 64 lowercase digits, whichever kind it is,
      and survives printing and parsing. */
  lemma ParseOfEncode(id: Id)
    ensures EncodeAgentId(id) == EncodeMachineId(id)
    ensures |EncodeAgentId(id)| == 64 && IsLowerHex(EncodeAgentId(id))
    ensures ParseAgentIdHex(EncodeAgentId(id)) == Success(id)
    ensures ParseMachineIdHex(EncodeMachineId(id)) == Success(id)
  {
    EncodeShape(id);
    DecodeEncode(id);
  }

  lemma EncodeInjective(a: Id, b: Id)
    requires EncodeAgentId(a) == EncodeAgentId(b)
    ensures a == b
  {
    DecodeEncode(a);
    DecodeEncode(b);
  }

  /** Exactly which strings parse, what they mean, and which error each of the
      rest gets: odd byte length first, then the first bad character, reported
      by its first byte, then the number of bytes. */
  lemma ParseExact(s: string, field: string)
    ensures ParseHex32(s, field).Success? <==> |s| == 64 && IsHex(s)
    ensures ParseHex32(s, field).Success? ==> Encode(ParseHex32(s, field).value) == Lower(s)
    ensures ParseHex32(s, field) == Failure(InvalidIdentityEncoding(field, OddLength))
            <==> |Utf8.Encode(s)| % 2 == 1
    ensures forall i: nat :: FirstNonHex(s, i) && |Utf8.Encode(s)| % 2 == 0 ==>
              ParseHex32(s, field) == Failure(InvalidIdentityEncoding(
                field, InvalidHexCharacter(Utf8.EncodeChar(s[i])[0] as char, i)))
    ensures IsHex(s) && |s| % 2 == 0 && |s| != 64 ==>
              ParseHex32(s, field) == Failure(InvalidIdentityEncoding(field, WrongLength(|s| / 2)))
  {
    hide Encode, Lower, DecodePairs, HexValue, IsHex, Utf8.Encode, Utf8.EncodeChar;
    var first := HexOrNot(s);
    if IsHex(s) {
      AllBytesOfHex(s);
      if |s| % 2 == 0 {
        DecodeSucceeds(s, 0);
      }
    }
    forall i: nat | FirstNonHex(s, i) && |Utf8.Encode(s)| % 2 == 0
      ensures DecodePairs(Utf8.Encode(s), 0) == Failure(InvalidHexCharacter(Utf8.EncodeChar(s[i])[0] as char, i))
    {
      BadCharacter(s, i);
      DecodeFails(Utf8.Encode(s), 0, i);
    }
  }

  /** The public parsers name the field in their errors. */
  lemma ParsersNameTheField(s: string)
    ensures ParseAgentIdHex(s).Failure? ==> ParseAgentIdHex(s).error.field == "agent_id"
    ensures ParseMachineIdHex(s).Failure? ==> ParseMachineIdHex(s).error.field == "machine_id"
    ensures ParseAgentIdHex(s).Success? <==> |s| == 64 && IsHex(s)
    ensures ParseMachineIdHex(s).Success? <==> |s| == 64 && IsHex(s)
    ensures ParseAgentIdHex(s).Success? ==> ParseAgentIdHex(s) == ParseMachineIdHex(s)
  {
    ParseExact(s, "agent_id");
    ParseExact(s, "machine_id");
  }

  /** Two parseable strings denote one identifier iff they agree up to case. */
  lemma SameIdIffSameUpToCase(s: string, t: string)
    requires ParseMachineIdHex(s).Success? && ParseMachineIdHex(t).Success?
    ensures ParseMachineIdHex(s) == ParseMachineIdHex(t) <==> Lower(s) == Lower(t)
  {
    ParseExact(s, "machine_id");
    ParseExact(t, "machine_id");
    if Lower(s) == Lower(t) {
      EncodeInjective(ParseMachineIdHex(s).value, ParseMachineIdHex(t).value);
    }
  }

  lemma HexDigitOrder(x: nat, y: nat)
    requires x < 16 && y < 16
    ensures HexDigit(x) < HexDigit(y) <==> x < y
    ensures HexDigit(x) == HexDigit(y) <==> x == y
  {
  }

  /** Lowercase hex preserves and reflects the byte order. */
  lemma {:induction false} EncodeOrder(a: seq<byte>, b: seq<byte>)
    ensures Less(Encode(a), Encode(b)) <==> BytesLess(a, b)
  {
    if a != [] && b != [] {
      HexDigitOrder(a[0] / 16, b[0] / 16);
      HexDigitOrder(a[0] % 16, b[0] % 16);
      var s, t := Encode(a), Encode(b);
      assert s[1..][1..] == Encode(a[1..]) && t[1..][1..] == Encode(b[1..]);
      EncodeOrder(a[1..], b[1..]);
    }
  }
}
