/**
 * `encodeURIComponent` and `decodeURIComponent`, which carry a `/gen` prompt
 * through the `genstandard:`/`gentransparent:` callback payloads.
 *
 * Strings are sequences of Unicode scalar values, so the lone surrogates for
 * which `encodeURIComponent` throws cannot arise here. Decoding follows the
 * ECMAScript Decode operation with an empty reserved set: every `%XY` escape
 * is decoded, and a malformed escape or an ill-formed UTF-8 sequence is a
 * `URIError`, modelled as `None`.
 */
module UriComponent {
  import opened Basics
  import opened JsText

  /** The characters `encodeURIComponent` leaves as they are: letters, digits and `-_.!~*'()`. */
  predicate IsUnreserved(c: char) {
    || ('A' <= c <= 'Z') || ('a' <= c <= 'z') || ('0' <= c <= '9')
    || c == '-' || c == '_' || c == '.' || c == '!' || c == '~' || c == '*' || c == '\'' || c == '(' || c == ')'
  }

  /** What an encoded payload can contain: unreserved characters, `%` and upper-case hex digits. */
  predicate IsEncodedChar(c: char) {
    IsUnreserved(c) || c == '%' || (IsHexDigit(c) && !('a' <= c <= 'z'))
  }

  /** UTF-8 octets of a scalar value, with the code point split into 6-bit groups. */
  function Utf8(c: char): (r: seq<Byte>)
    ensures 1 <= |r| <= 4
    ensures |r| == 1 <==> (c as int) < 0x80
  {
    var cp := c as int;
    if cp < 0x80 then [cp]
    else if cp < 0x800 then [0xC0 + cp / 64, 0x80 + cp % 64]
    else if cp < 0x10000 then [0xE0 + cp / 64 / 64, 0x80 + cp / 64 % 64, 0x80 + cp % 64]
    else [0xF0 + cp / 64 / 64 / 64, 0x80 + cp / 64 / 64 % 64, 0x80 + cp / 64 % 64, 0x80 + cp % 64]
  }

  /** One octet as a `%XY` escape. */
  function PercentOctet(b: Byte): (r: string)
    ensures |r| == 3
  {
    ['%', HexDigitUpper(b / 16), HexDigitUpper(b % 16)]
  }

  function PercentOctets(bs: seq<Byte>): (r: string)
    ensures |r| == 3 * |bs|
    ensures forall i :: 0 <= i < |r| ==> IsEncodedChar(r[i])
  {
    if bs == [] then [] else PercentOctet(bs[0]) + PercentOctets(bs[1..])
  }

  function EncodeChar(c: char): (r: string)
    ensures IsUnreserved(c) ==> r == [c]
    ensures !IsUnreserved(c) ==> |r| >= 3 && r[0] == '%'
    ensures forall i :: 0 <= i < |r| ==> IsEncodedChar(r[i])
  {
    if IsUnreserved(c) then [c] else PercentOctets(Utf8(c))
  }

  /** `encodeURIComponent(s)`. */
  function Encode(s: string): (r: string)
    ensures |r| >= |s|
    ensures |r| == |s| <==> forall i :: 0 <= i < |s| ==> IsUnreserved(s[i])
    ensures (forall i :: 0 <= i < |s| ==> IsUnreserved(s[i])) ==> r == s
    ensures forall i :: 0 <= i < |r| ==> IsEncodedChar(r[i])
    ensures s != [] ==> r != []
  {
    if s == [] then []
    else
      var r := EncodeChar(s[0]) + Encode(s[1..]);
      assert forall i :: 1 <= i < |s| ==> s[1..][i - 1] == s[i];
      r
  }

  /** Number of octets in the UTF-8 form of `s`. */
  function Utf8Size(s: string): (n: nat)
    ensures n >= |s|
    ensures (forall i :: 0 <= i < |s| ==> (s[i] as int) < 0x80) ==> n == |s|
  {
    if s == [] then 0
    else
      assert forall i :: 1 <= i < |s| ==> s[1..][i - 1] == s[i];
      |Utf8(s[0])| + Utf8Size(s[1..])
  }

  /** The octet written as a `%XY` escape at index `i` of `s`, if one is there. */
  function OctetAt(s: string, i: nat): Option<Byte> {
    if i + 3 <= |s| && s[i] == '%' && IsHexDigit(s[i + 1]) && IsHexDigit(s[i + 2])
    then Some(16 * HexValue(s[i + 1]) + HexValue(s[i + 2]))
    else None
  }

  /** Octets in the UTF-8 sequence a lead octet announces; 0 for a continuation octet or 0xF8 and above. */
  function SequenceLength(b: Byte): (n: nat)
    ensures n <= 4
  {
    if b < 0x80 then 1
    else if 0xC0 <= b < 0xE0 then 2
    else if 0xE0 <= b < 0xF0 then 3
    else if 0xF0 <= b < 0xF8 then 4
    else 0
  }

  predicate IsContinuation(b: Byte) {
    0x80 <= b < 0xC0
  }

  /** The continuation octets `j .. n-1` of a sequence, escaped at indices `3j, 3(j+1), ...`. */
  function ContinuationOctets(s: string, j: nat, n: nat): (r: Option<seq<Byte>>)
    ensures r.Some? ==> |r.value| == if j <= n then n - j else 0
    ensures r.Some? ==> forall i :: 0 <= i < |r.value| ==> IsContinuation(r.value[i])
    decreases n - j
  {
    if j >= n then Some([])
    else match OctetAt(s, 3 * j)
      case None => None
      case Some(b) =>
        if !IsContinuation(b) then None
        else match ContinuationOctets(s, j + 1, n)
          case None => None
          case Some(bs) => Some([b] + bs)
  }

  /** The scalar value a multi-octet sequence encodes; `None` for overlong forms, surrogates and values past U+10FFFF. */
  function Utf8Scalar(bs: seq<Byte>): (r: Option<char>)
    requires 2 <= |bs| <= 4
  {
    var b: seq<int> := bs;
    var cp :=
      if |b| == 2 then (b[0] - 0xC0) * 64 + (b[1] - 0x80)
      else if |b| == 3 then ((b[0] - 0xE0) * 64 + (b[1] - 0x80)) * 64 + (b[2] - 0x80)
      else (((b[0] - 0xF0) * 64 + (b[1] - 0x80)) * 64 + (b[2] - 0x80)) * 64 + (b[3] - 0x80);
    var least := if |bs| == 2 then 0x80 else if |bs| == 3 then 0x800 else 0x10000;
    if least <= cp <= 0x10FFFF && !(0xD800 <= cp <= 0xDFFF) then Some(cp as char) else None
  }

  /** Decodes the run of escapes starting at index 0 of `s` into one character and the number of characters consumed. */
  function DecodeEscape(s: string): (r: Option<(char, nat)>)
    ensures r.Some? ==> 3 <= r.value.1 <= |s|
  {
    match OctetAt(s, 0)
    case None => None
    case Some(b0) =>
      var n := SequenceLength(b0);
      if n == 0 then None
      else if n == 1 then Some((b0 as char, 3))
      else match ContinuationOctets(s, 1, n)
        case None => None
        case Some(tail) =>
          match Utf8Scalar([b0] + tail)
          case None => None
          case Some(c) => assert OctetAt(s, 3 * (n - 1)).Some?; Some((c, 3 * n))
  }

  /** `decodeURIComponent(s)`; `None` where it throws `URIError`. */
  function Decode(s: string): (r: Option<string>)
    ensures (forall i :: 0 <= i < |s| ==> s[i] != '%') ==> r == Some(s)
    ensures r.Some? ==> |r.value| <= |s|
    decreases |s|
  {
    if s == [] then Some([])
    else if s[0] != '%' then
      assert forall i :: 1 <= i < |s| ==> s[1..][i - 1] == s[i];
      match Decode(s[1..])
      case None => None
      case Some(t) => assert [s[0]] + s[1..] == s; Some([s[0]] + t)
    else match DecodeEscape(s)
      case None => None
      case Some((c, k)) =>
        match Decode(s[k..])
        case None => None
        case Some(t) => Some([c] + t)
  }

  /** The escape written for `b` reads back as `b`, wherever it sits. */
  lemma OctetRoundTrip(pre: string, b: Byte, post: string)
    ensures OctetAt(pre + PercentOctet(b) + post, |pre|) == Some(b)
  {
    var s := pre + PercentOctet(b) + post;
    assert s[|pre|] == '%' && s[|pre| + 1] == HexDigitUpper(b / 16) && s[|pre| + 2] == HexDigitUpper(b % 16);
  }

  /** Reading an escape is unaffected by what precedes it. */
  lemma OctetAtShift(p: string, t: string, i: nat)
    ensures OctetAt(p + t, |p| + i) == OctetAt(t, i)
  {
    if i + 3 <= |t| {
      assert (p + t)[|p| + i] == t[i] && (p + t)[|p| + i + 1] == t[i + 1] && (p + t)[|p| + i + 2] == t[i + 2];
    }
  }

  /** The `k`-th escape of a run reads back as the `k`-th octet, whatever follows the run. */
  lemma {:induction false} OctetsRoundTrip(bs: seq<Byte>, rest: string, k: nat)
    requires k < |bs|
    ensures OctetAt(PercentOctets(bs) + rest, 3 * k) == Some(bs[k])
    decreases k
  {
    var p := PercentOctet(bs[0]);
    var t := PercentOctets(bs[1..]) + rest;
    assert PercentOctets(bs) + rest == p + t;
    if k == 0 {
      OctetRoundTrip([], bs[0], t);
      assert [] + p + t == p + t;
    } else {
      OctetsRoundTrip(bs[1..], rest, k - 1);
      OctetAtShift(p, t, 3 * (k - 1));
    }
  }

  /** An escaped run of continuation octets reads back as those octets. */
  lemma {:induction false} ContinuationsRoundTrip(bs: seq<Byte>, rest: string, j: nat)
    requires j <= |bs|
    requires forall i :: j <= i < |bs| ==> IsContinuation(bs[i])
    ensures ContinuationOctets(PercentOctets(bs) + rest, j, |bs|) == Some(bs[j..])
    decreases |bs| - j
  {
    if j < |bs| {
      ContinuationsRoundTrip(bs, rest, j + 1);
      OctetsRoundTrip(bs, rest, j);
      assert [bs[j]] + bs[j + 1..] == bs[j..];
    }
  }

  /**
   * The octets of a character beyond ASCII: a lead announcing their number,
   * continuations after it, and a scalar value that is the character again.
   */
  lemma Utf8Octets(c: char)
    requires 0x80 <= c as int
    ensures var bs := Utf8(c);
      && SequenceLength(bs[0]) == |bs|
      && (forall i :: 1 <= i < |bs| ==> IsContinuation(bs[i]))
      && Utf8Scalar(bs) == Some(c)
  {
    var cp := c as int;
    var q := cp / 64;
    var q2 := q / 64;
    assert cp == q * 64 + cp % 64;
    assert q == q2 * 64 + q % 64;
    assert q2 == (q2 / 64) * 64 + q2 % 64;
  }

  /** A character outside the unreserved set is escaped into octets that decode back to it. */
  lemma EscapeDecodes(c: char, rest: string)
    requires !IsUnreserved(c)
    ensures DecodeEscape(EncodeChar(c) + rest) == Some((c, |EncodeChar(c)|))
  {
    var bs := Utf8(c);
    OctetsRoundTrip(bs, rest, 0);
    if 0x80 <= c as int {
      Utf8Octets(c);
      ContinuationsRoundTrip(bs, rest, 1);
      assert [bs[0]] + bs[1..] == bs;
    } else {
      assert (bs[0] as char) == c;
    }
  }

  /** `decodeURIComponent(encodeURIComponent(s)) == s` for every string. */
  lemma {:induction false} DecodeEncode(s: string)
    ensures Decode(Encode(s)) == Some(s)
  {
    if s != [] {
      var e := EncodeChar(s[0]);
      var rest := Encode(s[1..]);
      assert Encode(s) == e + rest;
      DecodeEncode(s[1..]);
      if IsUnreserved(s[0]) {
        assert (e + rest)[1..] == rest;
      } else {
        EscapeDecodes(s[0], rest);
        assert (e + rest)[|e|..] == rest;
      }
      assert [s[0]] + s[1..] == s;
    }
  }

  /** A `%` that does not start a well-formed escape makes the decoder throw. */
  lemma TruncatedEscapeFails(s: string)
    requires |s| >= 1 && s[0] == '%'
    requires |s| < 3 || !IsHexDigit(s[1]) || !IsHexDigit(s[2])
    ensures Decode(s) == None
  {
  }

  /** A lone continuation octet is no UTF-8 sequence: `decodeURIComponent("%80")` throws. */
  lemma StrayContinuationFails()
    ensures Decode("%80") == None
  {
    assert OctetAt("%80", 0) == Some(0x80);
  }

  /** An overlong two-octet form of `/` is rejected: `decodeURIComponent("%C0%AF")` throws. */
  lemma OverlongFails()
    ensures Decode("%C0%AF") == None
  {
    var s := "%C0%AF";
    assert OctetAt(s, 0) == Some(0xC0);
    assert OctetAt(s, 3) == Some(0xAF);
    assert ContinuationOctets(s, 2, 2) == Some([]);
    var tail := ContinuationOctets(s, 1, 2);
    assert tail.Some? && tail.value == [0xAF];
    assert Utf8Scalar([0xC0, 0xAF]) == None;
  }
}
