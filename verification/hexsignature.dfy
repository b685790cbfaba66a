/**
 * The signature adapter of the wallet's `signMessage` callback: when the
 * wallet service returns the signature as a string it is read as hex with
 *
 *     new Uint8Array(signature.match(/.{1,2}/g)?.map(b => parseInt(b, 16)) || [])
 *
 * and any other signature value is handed back unchanged.
 *
 * The regex has no `u` flag, so it works on UTF-16 code units, and `.` skips
 * line terminators. `parseInt(_, 16)` skips leading whitespace, takes a sign,
 * drops a `0x`/`0X` prefix and reads the longest run of hex digits, giving
 * NaN when there is none. `Uint8Array` stores NaN as 0 and every other
 * integer modulo 256.
 */
module HexSignature {
  import opened Basics
  import opened JsText

  /** One UTF-16 code unit. */
  type CodeUnit = x: int | 0 <= x < 0x10000

  /** The UTF-16 code units of one scalar value: one unit, or a surrogate pair above U+FFFF. */
  function UnitsOf(c: char): (r: seq<CodeUnit>)
    ensures |r| == 1 <==> (c as int) < 0x10000
    ensures |r| == 1 ==> r[0] == c as int
    ensures |r| == 2 ==> 0xD800 <= r[0] < 0xDC00 && 0xDC00 <= r[1] < 0xE000
  {
    var cp := c as int;
    if cp < 0x10000 then [cp]
    else [0xD800 + (cp - 0x10000) / 1024, 0xDC00 + (cp - 0x10000) % 1024]
  }

  /** A string as JavaScript stores it. */
  function Utf16(s: string): (r: seq<CodeUnit>)
    ensures |r| >= |s|
  {
    if s == [] then [] else UnitsOf(s[0]) + Utf16(s[1..])
  }

  predicate IsLineTerminatorUnit(u: CodeUnit) {
    u == 0x0A || u == 0x0D || u == 0x2028 || u == 0x2029
  }

  predicate IsWhitespaceUnit(u: CodeUnit) {
    (u < 0xD800 || 0xE000 <= u) && IsWhitespace(u as char)
  }

  predicate IsHexUnit(u: CodeUnit) {
    u < 0x80 && IsHexDigit(u as char)
  }

  function HexUnitValue(u: CodeUnit): (v: nat)
    requires IsHexUnit(u)
    ensures v < 16
  {
    HexValue(u as char)
  }

  /**
   * The matches of `/.{1,2}/g`: from the left, each match takes two code units
   * when neither is a line terminator, one when only the first is not, and a
   * line terminator is skipped over.
   */
  function Chunks(us: seq<CodeUnit>): (r: seq<seq<CodeUnit>>)
    ensures forall i :: 0 <= i < |r| ==> 1 <= |r[i]| <= 2
    decreases |us|
  {
    if us == [] then []
    else if IsLineTerminatorUnit(us[0]) then Chunks(us[1..])
    else if |us| >= 2 && !IsLineTerminatorUnit(us[1]) then [us[..2]] + Chunks(us[2..])
    else [us[..1]] + Chunks(us[1..])
  }

  /** `String.prototype.match` with a global regex: `null` when there is no match at all. */
  function MatchChunks(us: seq<CodeUnit>): (r: Option<seq<seq<CodeUnit>>>)
    ensures r.Some? ==> r.value != []
    ensures r.None? <==> Chunks(us) == []
  {
    var c := Chunks(us);
    if c == [] then None else Some(c)
  }

  /** A JavaScript number as `parseInt` can return it. */
  datatype Number = NaN | Int(v: int)

  function LeadingWhitespaceUnits(us: seq<CodeUnit>): (k: nat)
    ensures k <= |us|
    ensures k < |us| ==> !IsWhitespaceUnit(us[k])
  {
    if us == [] || !IsWhitespaceUnit(us[0]) then 0 else 1 + LeadingWhitespaceUnits(us[1..])
  }

  /** Length of the run of hex digits at the front of `us`. */
  function HexPrefixLength(us: seq<CodeUnit>): (k: nat)
    ensures k <= |us|
    ensures forall i :: 0 <= i < k ==> IsHexUnit(us[i])
    ensures k < |us| ==> !IsHexUnit(us[k])
  {
    if us == [] || !IsHexUnit(us[0]) then 0 else 1 + HexPrefixLength(us[1..])
  }

  /** The value of a run of hex digits, most significant first. */
  function HexDigitsValue(us: seq<CodeUnit>): nat
    requires forall i :: 0 <= i < |us| ==> IsHexUnit(us[i])
  {
    if us == [] then 0 else 16 * HexDigitsValue(us[..|us| - 1]) + HexUnitValue(us[|us| - 1])
  }

  /** `parseInt(us, 16)`. */
  function ParseHex(us: seq<CodeUnit>): Number {
    var t := us[LeadingWhitespaceUnits(us)..];
    var negative := |t| > 0 && t[0] == '-' as int;
    var unsigned := if |t| > 0 && (t[0] == '-' as int || t[0] == '+' as int) then t[1..] else t;
    var digits :=
      if |unsigned| >= 2 && unsigned[0] == '0' as int && (unsigned[1] == 'x' as int || unsigned[1] == 'X' as int)
      then unsigned[2..] else unsigned;
    var k := HexPrefixLength(digits);
    if k == 0 then NaN
    else
      var magnitude: int := HexDigitsValue(digits[..k]);
      Int(if negative then -magnitude else magnitude)
  }

  /** The `Uint8Array` element conversion: NaN is 0, an integer is taken modulo 256. */
  function ToUint8(n: Number): (b: Byte)
    ensures n.NaN? ==> b == 0
    ensures n.Int? && 0 <= n.v < 256 ==> b == n.v
  {
    match n
    case NaN => 0
    case Int(v) => v % 256
  }

  function ChunkBytes(chunks: seq<seq<CodeUnit>>): (r: seq<Byte>)
    ensures |r| == |chunks|
  {
    seq(|chunks|, i requires 0 <= i < |chunks| => ToUint8(ParseHex(chunks[i])))
  }

  /** The hex-string branch of the adapter; the `|| []` fallback covers the `null` match. */
  function HexToBytes(s: string): (r: seq<Byte>)
    ensures s == [] ==> r == []
  {
    ChunkBytes(MatchChunks(Utf16(s)).GetOr([]))
  }

  /** A signature as the wallet service may return it: a hex string or bytes already. */
  datatype Signature = TextSignature(hex: string) | ByteSignature(bytes: seq<Byte>)

  predicate IsHexString(s: string) {
    forall i :: 0 <= i < |s| ==> IsHexDigit(s[i])
  }

  /** What `signMessage` returns for the wallet service's signature. */
  function SignatureBytes(sig: Signature): (r: seq<Byte>)
    ensures sig.ByteSignature? ==> r == sig.bytes
    ensures sig.TextSignature? && IsHexString(sig.hex) ==> |r| == (|sig.hex| + 1) / 2
  {
    match sig
    case ByteSignature(b) => b
    case TextSignature(h) =>
      HexStringLength(h);
      HexToBytes(h)
  }

  lemma HexStringLength(s: string)
    ensures IsHexString(s) ==> |HexToBytes(s)| == (|s| + 1) / 2
  {
    if IsHexString(s) {
      HexDigitsDecode(s);
    }
  }

  /** Byte `i` of a decoded hex-digit string: the value of characters `2i` and `2i+1`, or of the lone last digit. */
  function ChunkValue(s: string, i: nat): nat
    requires IsHexString(s) && 2 * i < |s|
  {
    if 2 * i + 1 < |s| then 16 * HexValue(s[2 * i]) + HexValue(s[2 * i + 1]) else HexValue(s[2 * i])
  }

  /** On hex digits the decoder yields ceil(|s|/2) bytes, byte `i` read from characters `2i..2i+1`. */
  lemma HexDigitsDecode(s: string)
    requires IsHexString(s)
    ensures |HexToBytes(s)| == (|s| + 1) / 2
    ensures forall i :: 0 <= i < |HexToBytes(s)| ==> HexToBytes(s)[i] == ChunkValue(s, i)
  {
    var us := Utf16(s);
    AsciiUnits(s);
    ChunksOfPlainUnits(us);
    var chunks := Chunks(us);
    assert MatchChunks(us).GetOr([]) == chunks;
    forall i | 0 <= i < |chunks|
      ensures ToUint8(ParseHex(chunks[i])) == ChunkValue(s, i)
    {
      if 2 * i + 1 < |s| {
        assert chunks[i] == [s[2 * i] as int, s[2 * i + 1] as int];
        ParseTwoDigits(s[2 * i], s[2 * i + 1]);
      } else {
        assert chunks[i] == [s[2 * i] as int];
        ParseOneDigit(s[2 * i]);
      }
    }
  }

  /** Characters of the Basic Multilingual Plane are stored as one code unit each. */
  lemma {:induction false} NarrowUnits(s: string)
    requires forall i :: 0 <= i < |s| ==> (s[i] as int) < 0x10000
    ensures |Utf16(s)| == |s|
    ensures forall i :: 0 <= i < |s| ==> Utf16(s)[i] == s[i] as int
  {
    if s != [] {
      NarrowUnits(s[1..]);
      assert Utf16(s) == [s[0] as int] + Utf16(s[1..]);
    }
  }

  /** A hex-digit string is stored as one code unit per character, none of them a line terminator. */
  lemma AsciiUnits(s: string)
    requires IsHexString(s)
    ensures |Utf16(s)| == |s|
    ensures forall i :: 0 <= i < |s| ==> Utf16(s)[i] == s[i] as int
    ensures forall i :: 0 <= i < |s| ==> IsHexUnit(Utf16(s)[i]) && !IsLineTerminatorUnit(Utf16(s)[i])
  {
    NarrowUnits(s);
  }

  /** Without line terminators the matches are consecutive pairs, with a single unit last when the length is odd. */
  lemma {:induction false} ChunksOfPlainUnits(us: seq<CodeUnit>)
    requires forall i :: 0 <= i < |us| ==> !IsLineTerminatorUnit(us[i])
    ensures |Chunks(us)| == (|us| + 1) / 2
    ensures forall i :: 0 <= i < |Chunks(us)| ==>
      Chunks(us)[i] == if 2 * i + 1 < |us| then us[2 * i..2 * i + 2] else us[2 * i..2 * i + 1]
    decreases |us|
  {
    if |us| == 1 {
      assert Chunks(us) == [us[..1]] + Chunks(us[1..]);
    } else if |us| >= 2 {
      var rest := us[2..];
      assert forall i :: 0 <= i < |rest| ==> rest[i] == us[i + 2];
      ChunksOfPlainUnits(rest);
      assert Chunks(us) == [us[..2]] + Chunks(rest);
      forall i | 1 <= i < |Chunks(us)|
        ensures Chunks(us)[i] == if 2 * i + 1 < |us| then us[2 * i..2 * i + 2] else us[2 * i..2 * i + 1]
      {
        assert Chunks(us)[i] == Chunks(rest)[i - 1];
        PairShift(us, i);
      }
    }
  }

  /** The chunk at index `i` of `us` is the chunk at index `i - 1` once the first pair is dropped. */
  lemma PairShift(us: seq<CodeUnit>, i: nat)
    requires 1 <= i && 2 * i < |us|
    ensures var rest := us[2..];
      (if 2 * i + 1 < |us| then us[2 * i..2 * i + 2] else us[2 * i..2 * i + 1])
      == (if 2 * (i - 1) + 1 < |rest| then rest[2 * (i - 1)..2 * (i - 1) + 2] else rest[2 * (i - 1)..2 * (i - 1) + 1])
  {
    var rest := us[2..];
    if 2 * i + 1 < |us| {
      assert rest[2 * (i - 1)..2 * (i - 1) + 2] == us[2 * i..2 * i + 2];
    } else {
      assert rest[2 * i - 2..2 * i - 1] == us[2 * i..2 * i + 1];
    }
  }

  lemma ParseTwoDigits(h: char, l: char)
    requires IsHexDigit(h) && IsHexDigit(l)
    ensures ToUint8(ParseHex([h as int, l as int])) == 16 * HexValue(h) + HexValue(l)
  {
    var us: seq<CodeUnit> := [h as int, l as int];
    assert LeadingWhitespaceUnits(us) == 0;
    assert us[0..] == us;
    assert HexPrefixLength(us[1..][1..]) == 0;
    assert HexPrefixLength(us[1..]) == 1;
    assert HexPrefixLength(us) == 2;
    assert us[..2] == us;
    assert us[..1] == [h as int];
    assert [h as int][..0] == [];
    assert HexDigitsValue([h as int]) == HexValue(h);
    assert HexDigitsValue(us) == 16 * HexValue(h) + HexValue(l);
  }

  lemma ParseOneDigit(h: char)
    requires IsHexDigit(h)
    ensures ToUint8(ParseHex([h as int])) == HexValue(h)
  {
    var us: seq<CodeUnit> := [h as int];
    assert LeadingWhitespaceUnits(us) == 0;
    assert us[0..] == us;
    assert HexPrefixLength(us[1..]) == 0;
    assert HexPrefixLength(us) == 1;
    assert us[..1] == us;
    assert us[..0] == [];
    assert HexDigitsValue(us) == HexValue(h);
  }

  /** Two lower-case hex digits per byte, most significant first. */
  function HexEncode(bs: seq<Byte>): (s: string)
    ensures |s| == 2 * |bs|
    ensures IsHexString(s)
  {
    seq(2 * |bs|, i requires 0 <= i < 2 * |bs| =>
      if i % 2 == 0 then HexDigitLower(bs[i / 2] / 16) else HexDigitLower(bs[i / 2] % 16))
  }

  /** Decoding the two-digit hex encoding of any byte sequence gives the bytes back. */
  lemma HexRoundTrip(bs: seq<Byte>)
    ensures HexToBytes(HexEncode(bs)) == bs
    ensures SignatureBytes(TextSignature(HexEncode(bs))) == bs
  {
    var s := HexEncode(bs);
    HexDigitsDecode(s);
    var r := HexToBytes(s);
    forall i | 0 <= i < |bs| ensures r[i] == bs[i] {
      assert s[2 * i] == HexDigitLower(bs[i] / 16);
      assert s[2 * i + 1] == HexDigitLower(bs[i] % 16);
    }
  }

  /** The empty string has no match, so the `|| []` fallback yields no bytes. */
  lemma EmptySignatureFallback()
    ensures MatchChunks(Utf16("")) == None
    ensures SignatureBytes(TextSignature("")) == []
  {
  }

  lemma TwoUnitChunk(us: seq<CodeUnit>)
    requires |us| == 2 && !IsLineTerminatorUnit(us[0]) && !IsLineTerminatorUnit(us[1])
    ensures Chunks(us) == [us]
  {
    assert us[..2] == us;
    assert us[2..] == [];
    assert Chunks(us) == [us[..2]] + Chunks(us[2..]);
  }

  /** A leading minus sign is read by `parseInt`, and `Uint8Array` wraps -1 to 255. */
  lemma NegativeChunkWraps()
    ensures HexToBytes("-1") == [255]
  {
    var minus: seq<CodeUnit> := ['-' as int, '1' as int];
    assert Utf16("-1") == minus;
    TwoUnitChunk(minus);
    assert LeadingWhitespaceUnits(minus) == 0;
    assert minus[0..] == minus;
    var one: seq<CodeUnit> := ['1' as int];
    assert minus[1..] == one;
    assert HexPrefixLength(one[1..]) == 0;
    assert HexPrefixLength(one) == 1;
    assert one[..1] == one && one[..0] == [];
    assert HexDigitsValue(one) == 1;
    assert ParseHex(minus) == Int(-1);
  }

  /** `parseInt` stops at the first non-digit, so `"1z"` reads as 1. */
  lemma TrailingNonDigitIgnored()
    ensures HexToBytes("1z") == [1]
  {
    var trailing: seq<CodeUnit> := ['1' as int, 'z' as int];
    assert Utf16("1z") == trailing;
    TwoUnitChunk(trailing);
    assert LeadingWhitespaceUnits(trailing) == 0;
    assert trailing[0..] == trailing;
    assert HexPrefixLength(trailing[1..]) == 0;
    assert HexPrefixLength(trailing) == 1;
    assert trailing[..1] == ['1' as int];
    assert ['1' as int][..0] == [];
    assert HexDigitsValue(['1' as int]) == 1;
    assert ParseHex(trailing) == Int(1);
  }

  /** A chunk with no hex digit is NaN, which `Uint8Array` stores as 0. */
  lemma NoDigitIsZero()
    ensures HexToBytes("zz") == [0]
  {
    var none: seq<CodeUnit> := ['z' as int, 'z' as int];
    assert Utf16("zz") == none;
    TwoUnitChunk(none);
    assert LeadingWhitespaceUnits(none) == 0;
    assert none[0..] == none;
    assert HexPrefixLength(none) == 0;
    assert ParseHex(none) == NaN;
  }

  /** The chunks of `"abc\nde"`: the line feed ends the odd chunk `c` and is skipped. */
  lemma LineTerminatorChunks(us: seq<CodeUnit>)
    requires us == ['a' as int, 'b' as int, 'c' as int, 0x0A, 'd' as int, 'e' as int]
    ensures Chunks(us) == [['a' as int, 'b' as int], ['c' as int], ['d' as int, 'e' as int]]
  {
    TwoUnitChunk(us[4..]);
    assert us[3..][1..] == us[4..];
    assert IsLineTerminatorUnit(us[3..][0]);
    assert us[4..] == us[4..6];
    assert Chunks(us[3..]) == [us[4..6]];
    assert us[2..][1..] == us[3..];
    assert us[2..][..1] == us[2..3];
    assert Chunks(us[2..]) == [us[2..3]] + Chunks(us[3..]);
    assert Chunks(us) == [us[..2]] + Chunks(us[2..]);
    assert us[..2] == ['a' as int, 'b' as int];
    assert us[2..3] == ['c' as int];
    assert us[4..6] == ['d' as int, 'e' as int];
  }

  lemma LineTerminatorChunkBytes(chunks: seq<seq<CodeUnit>>)
    requires chunks == [['a' as int, 'b' as int], ['c' as int], ['d' as int, 'e' as int]]
    ensures ChunkBytes(chunks) == [0xAB, 0x0C, 0xDE]
  {
    var r := ChunkBytes(chunks);
    ParseTwoDigits('a', 'b');
    ParseOneDigit('c');
    ParseTwoDigits('d', 'e');
    assert r[0] == 0xAB;
    assert r[1] == 0x0C;
    assert r[2] == 0xDE;
  }

  /** A line terminator splits the chunking: `"abc\nde"` reads as the chunks `ab`, `c`, `de`. */
  lemma LineTerminatorRestartsChunks()
    ensures HexToBytes("abc\nde") == [0xAB, 0x0C, 0xDE]
  {
    var s := "abc\nde";
    var us: seq<CodeUnit> := ['a' as int, 'b' as int, 'c' as int, 0x0A, 'd' as int, 'e' as int];
    NarrowUnits(s);
    assert Utf16(s) == us;
    LineTerminatorChunks(us);
    LineTerminatorChunkBytes(Chunks(us));
  }
}
