/** UUID text: generation, parsing (app/src/shared/constants/uuid.go).
    A Go string is a sequence of bytes; here each byte is a char with code below 256. */
module Uuid {
  import opened Domain

  type byte = x: int | 0 <= x < 256 witness 0

  // ---------------------------------------------------------------- generation

  function HexDigit(n: int): (c: char)
    requires 0 <= n < 16
  {
    if n < 10 then ('0' as int + n) as char else ('a' as int + n - 10) as char
  }

  function High(b: byte): char { HexDigit(b / 16) }

  function Low(b: byte): char { HexDigit(b % 16) }

  /** b & 0x0f | 0x40 on byte 6 and b & 0x3f | 0x80 on byte 8. */
  function Stamp(b: seq<byte>): (s: seq<byte>)
    requires |b| == 16
    ensures |s| == 16
  {
    b[6 := b[6] % 16 + 64][8 := b[8] % 64 + 128]
  }

  /** The masks of the source, on real 8-bit words, are the arithmetic of Stamp. */
  lemma StampMasks(b: bv8)
    ensures ((b & 0x0f) | 0x40) as int == (b as int) % 16 + 64
    ensures ((b & 0x3f) | 0x80) as int == (b as int) % 64 + 128
  {
    assert (b & 0x0f) | 0x40 == b % 16 + 64;
    assert (b & 0x3f) | 0x80 == b % 64 + 128;
  }

  /** The k-th of the 32 hexadecimal digits of 16 bytes. */
  function Digit(b: seq<byte>, k: int): char
    requires |b| == 16 && 0 <= k < 32
  {
    if k % 2 == 0 then High(b[k / 2]) else Low(b[k / 2])
  }

  /** Bytes lo..hi, each printed with %02x. */
  function HexPairs(b: seq<byte>, lo: int, hi: int): (s: string)
    requires |b| == 16 && 0 <= lo <= hi <= 16
    ensures |s| == 2 * (hi - lo)
  {
    seq(2 * (hi - lo), k requires 0 <= k < 2 * (hi - lo) => Digit(b, 2 * lo + k))
  }

  /** The 8-4-4-4-12 text of 16 bytes. */
  function Format(b: seq<byte>): (s: string)
    requires |b| == 16
    ensures |s| == 36
  {
    HexPairs(b, 0, 4) + "-" + HexPairs(b, 4, 6) + "-" + HexPairs(b, 6, 8) + "-" + HexPairs(b, 8, 10) + "-"
    + HexPairs(b, 10, 16)
  }

  /** The text GenerateUUID returns when the random source filled the buffer with raw. */
  function Generated(raw: seq<byte>): (s: string)
    requires |raw| == 16
    ensures |s| == 36
  {
    Format(Stamp(raw))
  }

  /** GenerateUUID, after the random source has filled the buffer: bytes 6 and 8 are
      overwritten in place, then the buffer is printed. */
  method GenerateUuid(b: array<byte>) returns (text: string)
    requires b.Length == 16
    modifies b
    ensures b[..] == Stamp(old(b[..]))
    ensures text == Generated(old(b[..]))
  {
    ghost var raw := b[..];
    b[6] := b[6] % 16 + 64;
    b[8] := b[8] % 64 + 128;
    assert b[..] == Stamp(raw);
    text := Format(b[..]);
  }

  // ---------------------------------------------------------------- parsing

  const RUNE_ERROR := 0xFFFD

  predicate Continuation(s: string, i: int) {
    0 <= i < |s| && 0x80 <= s[i] as int <= 0xBF
  }

  /** The rune a Go range loop reads at byte offset i, and its width. An invalid sequence
      reads as U+FFFD of width 1 (section 3 of RFC 3629 fixes the valid sequences). */
  function DecodeRune(s: string, i: nat): (r: (int, nat))
    requires i < |s|
    ensures 1 <= r.1 && i + r.1 <= |s|
    ensures if s[i] as int < 0x80 then r == (s[i] as int, 1) else r.0 >= 0x80
  {
    var b0 := s[i] as int;
    if b0 < 0x80 then (b0, 1)
    else if 0xC2 <= b0 <= 0xDF && Continuation(s, i + 1) then
      ((b0 - 0xC0) * 0x40 + (s[i + 1] as int - 0x80), 2)
    else if 0xE0 <= b0 <= 0xEF && Continuation(s, i + 1) && Continuation(s, i + 2)
            && (b0 == 0xE0 ==> s[i + 1] as int >= 0xA0) && (b0 == 0xED ==> s[i + 1] as int <= 0x9F) then
      ((b0 - 0xE0) * 0x1000 + (s[i + 1] as int - 0x80) * 0x40 + (s[i + 2] as int - 0x80), 3)
    else if 0xF0 <= b0 <= 0xF4 && Continuation(s, i + 1) && Continuation(s, i + 2) && Continuation(s, i + 3)
            && (b0 == 0xF0 ==> s[i + 1] as int >= 0x90) && (b0 == 0xF4 ==> s[i + 1] as int <= 0x8F) then
      ((b0 - 0xF0) * 0x40000 + (s[i + 1] as int - 0x80) * 0x1000
       + (s[i + 2] as int - 0x80) * 0x40 + (s[i + 3] as int - 0x80), 4)
    else (RUNE_ERROR, 1)
  }

  predicate IsHyphenPosition(i: int) { i == 8 || i == 13 || i == 18 || i == 23 }

  predicate IsHex(r: int) {
    '0' as int <= r <= '9' as int || 'a' as int <= r <= 'f' as int || 'A' as int <= r <= 'F' as int
  }

  /** The range loop from byte offset i: offsets advance by rune width. */
  predicate ScanFrom(s: string, i: nat)
    requires i <= |s|
    decreases |s| - i
  {
    if i == |s| then true
    else
      var (r, width) := DecodeRune(s, i);
      (if IsHyphenPosition(i) then r == '-' as int else IsHex(r)) && ScanFrom(s, i + width)
  }

  function LowerChar(c: char): char {
    if 'A' <= c <= 'Z' then (c as int + 32) as char else c
  }

  function ToLower(s: string): (t: string)
    ensures |t| == |s|
  {
    seq(|s|, i requires 0 <= i < |s| => LowerChar(s[i]))
  }

  function ParseUuid(s: string): Result<string, string> {
    if |s| != 36 then Err("invalid uuid: length")
    else if !ScanFrom(s, 0) then Err("invalid uuid: character")
    else Ok(ToLower(s))
  }

  // ---------------------------------------------------------------- properties

  lemma EmptyIsNoUuid()
    ensures ParseUuid("").Err?
  { }

  const HEX_DIGITS := "0123456789abcdef"

  /** One byte position of the 8-4-4-4-12 form. */
  predicate FormAt(s: string, i: int)
    requires 0 <= i < |s|
  {
    if i == 8 || i == 13 || i == 18 || i == 23 then s[i] == '-'
    else s[i] in HEX_DIGITS || s[i] in "ABCDEF"
  }

  lemma HexDigitShown(n: int)
    requires 0 <= n < 16
    ensures HexDigit(n) == HEX_DIGITS[n]
  { }

  /** isHex accepts exactly the hexadecimal digits in either case. */
  lemma HexCharacters(c: char)
    ensures IsHex(c as int) <==> c in HEX_DIGITS || c in "ABCDEF"
  {
    if IsHex(c as int) {
      assert c == (if c <= '9' then HEX_DIGITS[c as int - '0' as int]
                   else if c >= 'a' then HEX_DIGITS[c as int - 'a' as int + 10] else "ABCDEF"[c as int - 'A' as int]);
    }
  }

  predicate HexForm(s: string) {
    |s| == 36 && forall i :: 0 <= i < 36 ==> FormAt(s, i)
  }

  lemma {:induction false} ScanIsForm(s: string, i: nat)
    requires i <= |s|
    ensures ScanFrom(s, i) <==> forall j :: i <= j < |s| ==> FormAt(s, j)
    decreases |s| - i
  {
    if i < |s| {
      var (r, width) := DecodeRune(s, i);
      HexCharacters(s[i]);
      if s[i] as int < 0x80 {
        ScanIsForm(s, i + 1);
        assert ScanFrom(s, i) <==> FormAt(s, i) && ScanFrom(s, i + 1);
        assert (forall j :: i <= j < |s| ==> FormAt(s, j))
            <==> FormAt(s, i) && forall j :: i + 1 <= j < |s| ==> FormAt(s, j);
      } else {
        assert !FormAt(s, i);
      }
    }
  }

  /** Although the loop steps by rune, exactly the 36-byte 8-4-4-4-12 hexadecimal forms are
      accepted; the result is the input with its capital letters, and nothing else, in lower case. */
  lemma ParseAcceptsHexFormOnly(s: string)
    ensures ParseUuid(s).Ok? <==> HexForm(s)
    ensures ParseUuid(s).Ok? ==> ParseUuid(s).value == ToLower(s)
    ensures |ToLower(s)| == |s|
    ensures forall i :: 0 <= i < |s| ==>
      ToLower(s)[i] as int == s[i] as int + if 'A' <= s[i] <= 'Z' then 32 else 0
  {
    if |s| == 36 {
      ScanIsForm(s, 0);
    }
  }

  /** A parsed identifier parses again, to itself; and letter case never decides acceptance. */
  lemma ParseIsIdempotent(s: string)
    ensures ParseUuid(s).Ok? <==> ParseUuid(ToLower(s)).Ok?
    ensures ParseUuid(s).Ok? ==> ParseUuid(ParseUuid(s).value) == ParseUuid(s)
  {
    ParseAcceptsHexFormOnly(s);
    ParseAcceptsHexFormOnly(ToLower(s));
    var t := ToLower(s);
    forall i | 0 <= i < |s| ensures FormAt(s, i) <==> FormAt(t, i) {
      HexCharacters(s[i]);
      HexCharacters(t[i]);
    }
    assert ToLower(t) == t;
  }

  lemma HexDigitIsLowerHex(n: int)
    requires 0 <= n < 16
    ensures IsHex(HexDigit(n) as int) && LowerChar(HexDigit(n)) == HexDigit(n)
  { }

  /** Every generated identifier is accepted by ParseUUID, unchanged. */
  lemma GeneratedIsAccepted(raw: seq<byte>)
    requires |raw| == 16
    ensures ParseUuid(Generated(raw)) == Ok(Generated(raw))
    ensures ToLower(Generated(raw)) == Generated(raw)
  {
    var s := Generated(raw);
    FormatIsLowerHexForm(Stamp(raw));
    assert HexForm(s);
    assert ToLower(s) == s;
    ParseAcceptsHexFormOnly(s);
  }

  /** The number of hexadecimal digits before text offset i. */
  function HexIndex(i: int): (k: int)
    requires 0 <= i < 36
    ensures !IsHyphenPosition(i) ==> 0 <= k < 32
  {
    i - (if i > 8 then 1 else 0) - (if i > 13 then 1 else 0) - (if i > 18 then 1 else 0) - (if i > 23 then 1 else 0)
  }

  lemma FormatAt(b: seq<byte>, i: int)
    requires |b| == 16 && 0 <= i < 36
    ensures Format(b)[i] == if IsHyphenPosition(i) then '-' else Digit(b, HexIndex(i))
  { }

  lemma FormatIsLowerHexForm(b: seq<byte>)
    requires |b| == 16
    ensures forall i :: 0 <= i < 36 ==> FormAt(Format(b), i) && LowerChar(Format(b)[i]) == Format(b)[i]
  {
    forall i | 0 <= i < 36 ensures FormAt(Format(b), i) && LowerChar(Format(b)[i]) == Format(b)[i] {
      FormatAt(b, i);
      if !IsHyphenPosition(i) {
        var k := HexIndex(i);
        HexCharacters(Format(b)[i]);
        HexDigitIsLowerHex(if k % 2 == 0 then b[k / 2] / 16 else b[k / 2] % 16);
      }
    }
  }

  /** Generated text carries version 4 and the variant of section 5.4 of RFC 9562. */
  lemma GeneratedVersionAndVariant(raw: seq<byte>)
    requires |raw| == 16
    ensures Generated(raw)[14] == '4'
    ensures Generated(raw)[19] in "89ab"
  {
    var b := Stamp(raw);
    FormatAt(b, 14);
    FormatAt(b, 19);
    assert b[6] / 16 == 4;
    assert 8 <= b[8] / 16 < 12;
  }

  /** Generated text shows the random bytes: all but the version digit and the two top bits of byte 8. */
  lemma GeneratedDenotesBytes(raw: seq<byte>)
    requires |raw| == 16
    ensures forall i :: 0 <= i < 16 && i != 6 && i != 8 ==>
      && Generated(raw)[TextOffset(i)] == HEX_DIGITS[raw[i] / 16]
      && Generated(raw)[TextOffset(i) + 1] == HEX_DIGITS[raw[i] % 16]
    ensures Generated(raw)[14] == '4' && Generated(raw)[15] == HEX_DIGITS[raw[6] % 16]
    ensures Generated(raw)[19] == HEX_DIGITS[8 + raw[8] / 16 % 4] && Generated(raw)[20] == HEX_DIGITS[raw[8] % 16]
  {
    FormatDenotesBytes(Stamp(raw));
    assert TextOffset(6) == 14 && TextOffset(8) == 19;
    StampedNibbles(raw);
    hide Format, HexDigit, TextOffset, Stamp;
  }

  lemma StampedNibbles(raw: seq<byte>)
    requires |raw| == 16
    ensures forall i :: 0 <= i < 16 && i != 6 && i != 8 ==> Stamp(raw)[i] == raw[i]
    ensures Stamp(raw)[6] / 16 == 4 && Stamp(raw)[6] % 16 == raw[6] % 16
    ensures Stamp(raw)[8] / 16 == 8 + raw[8] / 16 % 4 && Stamp(raw)[8] % 16 == raw[8] % 16
  { }

  /** Two buffers agree on the 122 bits that the version and variant leave free. */
  predicate SameFreeBits(a: seq<byte>, b: seq<byte>)
    requires |a| == |b| == 16
  {
    && (forall i :: 0 <= i < 16 && i != 6 && i != 8 ==> a[i] == b[i])
    && a[6] % 16 == b[6] % 16
    && a[8] % 64 == b[8] % 64
  }

  lemma NibblesDetermineByte(a: byte, b: byte)
    requires High(a) == High(b) && Low(a) == Low(b)
    ensures a == b
  { }

  /** Where the two digits of byte i stand in the text. */
  function TextOffset(i: int): int
    requires 0 <= i < 16
  {
    2 * i + (if i >= 4 then 1 else 0) + (if i >= 6 then 1 else 0) + (if i >= 8 then 1 else 0)
    + (if i >= 10 then 1 else 0)
  }

  /** The text of 16 bytes: hyphens after 4, 6, 8 and 10 bytes, and the two hexadecimal digits of each
      byte, in order, the higher one first. */
  lemma FormatDenotesBytes(b: seq<byte>)
    requires |b| == 16
    ensures Format(b)[8] == Format(b)[13] == Format(b)[18] == Format(b)[23] == '-'
    ensures forall i :: 0 <= i < 16 ==>
      Format(b)[TextOffset(i)] == HEX_DIGITS[b[i] / 16] && Format(b)[TextOffset(i) + 1] == HEX_DIGITS[b[i] % 16]
  {
    FormatAt(b, 8);
    FormatAt(b, 13);
    FormatAt(b, 18);
    FormatAt(b, 23);
    forall i | 0 <= i < 16
      ensures Format(b)[TextOffset(i)] == HEX_DIGITS[b[i] / 16]
      ensures Format(b)[TextOffset(i) + 1] == HEX_DIGITS[b[i] % 16]
    {
      FormatDenotesByte(b, i);
    }
  }

  lemma FormatDenotesByte(b: seq<byte>, i: int)
    requires |b| == 16 && 0 <= i < 16
    ensures Format(b)[TextOffset(i)] == HEX_DIGITS[b[i] / 16]
    ensures Format(b)[TextOffset(i) + 1] == HEX_DIGITS[b[i] % 16]
  {
    OffsetIndex(i);
    hide Format, HexDigit, TextOffset, HexIndex, IsHyphenPosition;
    HexDigitShown(b[i] / 16);
    HexDigitShown(b[i] % 16);
    FormatAt(b, TextOffset(i));
    FormatAt(b, TextOffset(i) + 1);
  }

  lemma OffsetIndex(i: int)
    requires 0 <= i < 16
    ensures 0 <= TextOffset(i) < 35
    ensures !IsHyphenPosition(TextOffset(i)) && HexIndex(TextOffset(i)) == 2 * i
    ensures !IsHyphenPosition(TextOffset(i) + 1) && HexIndex(TextOffset(i) + 1) == 2 * i + 1
  { }

  lemma FormatInjective(a: seq<byte>, b: seq<byte>)
    requires |a| == |b| == 16
    requires Format(a) == Format(b)
    ensures a == b
  {
    hide Format;
    forall i | 0 <= i < 16 ensures a[i] == b[i] {
      FormatDenotesByte(a, i);
      FormatDenotesByte(b, i);
      HexDigitShown(a[i] / 16);
      HexDigitShown(a[i] % 16);
      HexDigitShown(b[i] / 16);
      HexDigitShown(b[i] % 16);
      NibblesDetermineByte(a[i], b[i]);
    }
  }

  /** The generated text determines exactly the 122 free random bits. */
  lemma GeneratedInjectiveOnFreeBits(a: seq<byte>, b: seq<byte>)
    requires |a| == |b| == 16
    ensures Generated(a) == Generated(b) <==> SameFreeBits(a, b)
  {
    if Generated(a) == Generated(b) {
      FormatInjective(Stamp(a), Stamp(b));
      assert Stamp(a)[6] == Stamp(b)[6] && Stamp(a)[8] == Stamp(b)[8];
      forall i | 0 <= i < 16 && i != 6 && i != 8 ensures a[i] == b[i] {
        assert Stamp(a)[i] == a[i] && Stamp(b)[i] == b[i];
      }
    }
    if SameFreeBits(a, b) {
      assert Stamp(a) == Stamp(b);
    }
  }
}
