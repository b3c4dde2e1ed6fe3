/** `encodeURIComponent` and `decodeURIComponent` of section 19.2.6 of ECMA-262, over strings of UTF-16 code units.
    Both throw on some strings; then the result is None.
  */
module PercentEncoding {
  import opened Text
  import opened Utf8

  type Unit = u: nat | u < 0x1_0000

  type Units = seq<Unit>

  const PERCENT: Unit := 0x25

  predicate IsAscii(s: string) {
    forall i :: 0 <= i < |s| ==> s[i] < '\U{80}'
  }

  function FromAscii(s: string): (units: Units)
    requires IsAscii(s)
    ensures |units| == |s| && forall i :: 0 <= i < |s| ==> units[i] == s[i] as int
  {
    seq(|s|, i requires 0 <= i < |s| => s[i] as int)
  }

  // ---------------------------------------------------------------- code points

  predicate IsHigh(u: Unit) { 0xD800 <= u < 0xDC00 }

  predicate IsLow(u: Unit) { 0xDC00 <= u < 0xE000 }

  function Utf16(c: CodePoint): Units {
    if c < 0x1_0000 then [c] else [0xD800 + (c - 0x1_0000) / 0x400, 0xDC00 + (c - 0x1_0000) % 0x400]
  }

  // ---------------------------------------------------------------- encoding

  predicate IsUnreserved(c: nat) {
    || 0x41 <= c <= 0x5A || 0x61 <= c <= 0x7A || 0x30 <= c <= 0x39
    || c in {0x2D, 0x5F, 0x2E, 0x21, 0x7E, 0x2A, 0x27, 0x28, 0x29}
  }

  function HexDigit(v: nat): Unit
    requires v < 16
  {
    if v < 10 then 0x30 + v else 0x41 + v - 10
  }

  function Escape(b: Byte): Units {
    [PERCENT, HexDigit(b / 16), HexDigit(b % 16)]
  }

  function EscapeAll(bytes: seq<Byte>): Units {
    if bytes == [] then [] else Escape(bytes[0]) + EscapeAll(bytes[1..])
  }

  function EncodePoint(c: CodePoint): Units {
    if IsUnreserved(c) then [c] else EscapeAll(Utf8Of(c))
  }

  /** The code point at the start of a string and the rest; none at a lone surrogate. */
  function FirstPoint(s: Units): Option<CodePoint>
    requires s != []
  {
    if IsLow(s[0]) then None
    else if !IsHigh(s[0]) then Some(s[0])
    else if |s| == 1 || !IsLow(s[1]) then None
    else Some((s[0] as int - 0xD800) * 0x400 + (s[1] as int - 0xDC00) + 0x1_0000)
  }

  function PointLength(c: CodePoint): nat {
    if c < 0x1_0000 then 1 else 2
  }

  function Encode(s: Units): Option<Units> {
    if s == [] then Some([])
    else match FirstPoint(s)
      case None => None
      case Some(c) =>
        match Encode(s[PointLength(c)..])
        case None => None
        case Some(rest) => Some(EncodePoint(c) + rest)
  }

  // ---------------------------------------------------------------- decoding

  function HexValue(u: Unit): Option<nat> {
    if 0x30 <= u <= 0x39 then Some(u - 0x30)
    else if 0x41 <= u <= 0x46 then Some(u - 0x41 + 10)
    else if 0x61 <= u <= 0x66 then Some(u - 0x61 + 10)
    else None
  }

  /** The byte escaped at position `i`. */
  function ByteAt(s: Units, i: nat): Option<Byte> {
    if |s| < i + 3 || s[i] != PERCENT || HexValue(s[i + 1]).None? || HexValue(s[i + 2]).None? then None
    else
      var b := HexValue(s[i + 1]).value * 16 + HexValue(s[i + 2]).value;
      if b < 0x100 then Some(b) else None
  }

  /** The `n` bytes escaped from position `i` on. */
  function BytesAt(s: Units, i: nat, n: nat): (bytes: Option<seq<Byte>>)
    ensures bytes.Some? ==> |bytes.value| == n && |s| >= i + 3 * n
    decreases n
  {
    if n == 0 then (if |s| < i then None else Some([]))
    else match ByteAt(s, i)
      case None => None
      case Some(b) =>
        match BytesAt(s, i + 3, n - 1)
        case None => None
        case Some(rest) => Some([b] + rest)
  }

  /** How many bytes a sequence that starts with `b` has. */
  function SequenceLength(b: Byte): Option<nat> {
    if b < 0x80 then Some(1)
    else if 0xC0 <= b < 0xE0 then Some(2)
    else if 0xE0 <= b < 0xF0 then Some(3)
    else if 0xF0 <= b < 0xF8 then Some(4)
    else None
  }

  predicate AreContinuations(bytes: seq<Byte>) {
    forall i :: 0 < i < |bytes| ==> 0x80 <= bytes[i] < 0xC0
  }

  /** The six bits of a continuation byte. */
  function Low(b: Byte): int {
    b as int - 0x80
  }

  /** The code point of a valid UTF-8 sequence. */
  function PointOf(bytes: seq<Byte>): Option<CodePoint> {
    if bytes == [] || !AreContinuations(bytes) then None
    else if |bytes| == 1 then (if bytes[0] < 0x80 then Some(bytes[0]) else None)
    else if |bytes| == 2 then
      var c: int := (bytes[0] as int - 0xC0) * 0x40 + Low(bytes[1]);
      if 0x80 <= c < 0x800 then Some(c) else None
    else if |bytes| == 3 then
      var c: int := (bytes[0] as int - 0xE0) * 0x1000 + Low(bytes[1]) * 0x40 + Low(bytes[2]);
      if 0x800 <= c < 0xD800 || 0xE000 <= c < 0x1_0000 then Some(c) else None
    else if |bytes| == 4 then
      var c: int := (bytes[0] as int - 0xF0) * 0x4_0000 + Low(bytes[1]) * 0x1000 + Low(bytes[2]) * 0x40 + Low(bytes[3]);
      if 0x1_0000 <= c <= 0x10_FFFF then Some(c) else None
    else None
  }

  /** The code point escaped at the start and the number of bytes it takes. */
  function FirstEscaped(s: Units): Option<(CodePoint, nat)> {
    match ByteAt(s, 0)
    case None => None
    case Some(b) =>
      match SequenceLength(b)
      case None => None
      case Some(n) =>
        match BytesAt(s, 0, n)
        case None => None
        case Some(bytes) =>
          match PointOf(bytes)
          case None => None
          case Some(c) => Some((c, n))
  }

  lemma FirstEscapedLength(s: Units)
    requires FirstEscaped(s).Some?
    ensures 0 < FirstEscaped(s).value.1 && 3 * FirstEscaped(s).value.1 <= |s|
  {
  }

  function Decode(s: Units): Option<Units> {
    if s == [] then Some([])
    else if s[0] != PERCENT then
      match Decode(s[1..])
      case None => None
      case Some(rest) => Some([s[0]] + rest)
    else match FirstEscaped(s)
      case None => None
      case Some((c, n)) =>
        FirstEscapedLength(s);
        match Decode(s[3 * n..])
        case None => None
        case Some(rest) => Some(Utf16(c) + rest)
  }

  // ---------------------------------------------------------------- the round trip

  lemma EscapeRoundTrip(b: Byte, before: Units, rest: Units)
    ensures ByteAt(before + Escape(b) + rest, |before|) == Some(b)
  {
    var s := before + Escape(b) + rest;
    assert s[|before|] == PERCENT && s[|before| + 1] == HexDigit(b / 16) && s[|before| + 2] == HexDigit(b % 16);
  }

  lemma {:induction false} EscapeAllRoundTrip(bytes: seq<Byte>, before: Units, rest: Units)
    ensures BytesAt(before + EscapeAll(bytes) + rest, |before|, |bytes|) == Some(bytes)
  {
    var s := before + EscapeAll(bytes) + rest;
    if bytes != [] {
      var b, more := Escape(bytes[0]), EscapeAll(bytes[1..]);
      assert s == before + b + (more + rest);
      EscapeRoundTrip(bytes[0], before, more + rest);
      assert s == (before + b) + more + rest;
      EscapeAllRoundTrip(bytes[1..], before + b, rest);
      assert [bytes[0]] + bytes[1..] == bytes;
    }
  }

  lemma {:induction false} EscapeAllLength(bytes: seq<Byte>)
    ensures |EscapeAll(bytes)| == 3 * |bytes|
  {
    if bytes != [] {
      EscapeAllLength(bytes[1..]);
    }
  }

  lemma Utf8RoundTrip(c: CodePoint)
    ensures PointOf(Utf8Of(c)) == Some(c) && SequenceLength(Utf8Of(c)[0]) == Some(|Utf8Of(c)|)
  {
    SixBits(c);
    var bytes := Utf8Of(c);
    assert AreContinuations(bytes);
    if |bytes| == 3 {
      assert (bytes[0] as int - 0xE0) * 0x1000 + Low(bytes[1]) * 0x40 + Low(bytes[2]) == c;
    } else if |bytes| == 4 {
      assert (bytes[0] as int - 0xF0) * 0x4_0000 + Low(bytes[1]) * 0x1000 + Low(bytes[2]) * 0x40 + Low(bytes[3]) == c;
    }
  }

  lemma EscapedBytes(bytes: seq<Byte>, rest: Units)
    requires bytes != []
    ensures ByteAt(EscapeAll(bytes) + rest, 0) == Some(bytes[0])
    ensures BytesAt(EscapeAll(bytes) + rest, 0, |bytes|) == Some(bytes)
  {
    var s := EscapeAll(bytes) + rest;
    EscapeAllRoundTrip(bytes, [], rest);
    assert [] + EscapeAll(bytes) + rest == s;
    assert s == [] + Escape(bytes[0]) + (EscapeAll(bytes[1..]) + rest);
    EscapeRoundTrip(bytes[0], [], EscapeAll(bytes[1..]) + rest);
  }

  lemma EscapedSequence(s: Units, bytes: seq<Byte>, c: CodePoint)
    requires bytes != [] && ByteAt(s, 0) == Some(bytes[0]) && BytesAt(s, 0, |bytes|) == Some(bytes)
    requires PointOf(bytes) == Some(c) && SequenceLength(bytes[0]) == Some(|bytes|)
    ensures FirstEscaped(s) == Some((c, |bytes|))
  {
  }

  lemma EscapedPointRoundTrip(c: CodePoint, rest: Units)
    ensures FirstEscaped(EscapeAll(Utf8Of(c)) + rest) == Some((c, |Utf8Of(c)|))
    ensures |EscapeAll(Utf8Of(c))| == 3 * |Utf8Of(c)|
  {
    Utf8RoundTrip(c);
    EscapeAllLength(Utf8Of(c));
    EscapedBytes(Utf8Of(c), rest);
    EscapedSequence(EscapeAll(Utf8Of(c)) + rest, Utf8Of(c), c);
  }

  lemma PointRoundTrip(c: CodePoint, rest: Units)
    ensures Decode(EncodePoint(c) + rest)
         == if Decode(rest).None? then None else Some(Utf16(c) + Decode(rest).value)
  {
    var s := EncodePoint(c) + rest;
    if IsUnreserved(c) {
      assert s[0] == c != PERCENT && s[1..] == rest;
    } else {
      EscapedPointRoundTrip(c, rest);
      assert s[0] == PERCENT;
      assert s[3 * |Utf8Of(c)|..] == rest;
    }
  }

  /** The first code point's units are the start of the string. */
  lemma FirstPointUnits(s: Units)
    requires s != [] && FirstPoint(s).Some?
    ensures PointLength(FirstPoint(s).value) <= |s|
    ensures Utf16(FirstPoint(s).value) == s[..PointLength(FirstPoint(s).value)]
  {
  }

  /** Decoding undoes encoding, on every string that can be encoded. */
  lemma {:induction false} DecodeEncode(s: Units)
    requires Encode(s).Some?
    ensures Decode(Encode(s).value) == Some(s)
    decreases |s|
  {
    if s != [] {
      var c := FirstPoint(s).value;
      FirstPointUnits(s);
      DecodeEncode(s[PointLength(c)..]);
      PointRoundTrip(c, Encode(s[PointLength(c)..]).value);
      assert s == Utf16(c) + s[PointLength(c)..];
    }
  }

  // ---------------------------------------------------------------- what encoded strings look like

  /** Letters, digits, percent signs and the marks that are not escaped. */
  predicate IsEncoded(s: Units) {
    forall i :: 0 <= i < |s| ==> s[i] == PERCENT || IsUnreserved(s[i])
  }

  lemma {:induction false} EscapeAllIsEncoded(bytes: seq<Byte>)
    ensures IsEncoded(EscapeAll(bytes))
  {
    if bytes != [] {
      EscapeAllIsEncoded(bytes[1..]);
    }
  }

  /** An encoded string has only unreserved characters and escapes; it is empty only if the string was, and at
      most nine times as long, or three times if the string is ASCII. */
  lemma {:induction false} EncodedLooks(s: Units)
    requires Encode(s).Some?
    ensures IsEncoded(Encode(s).value) && |s| <= |Encode(s).value| <= 9 * |s|
    ensures (forall i :: 0 <= i < |s| ==> s[i] < 0x80) ==> |Encode(s).value| <= 3 * |s|
    decreases |s|
  {
    if s != [] {
      var c := FirstPoint(s).value;
      FirstPointUnits(s);
      EscapeAllIsEncoded(Utf8Of(c));
      EscapeAllLength(Utf8Of(c));
      EncodedLooks(s[PointLength(c)..]);
      assert Utf16(c)[0] == s[0];
    }
  }

  lemma EncodeIsInjective(s: Units, t: Units)
    requires Encode(s).Some? && Encode(s) == Encode(t)
    ensures s == t
  {
    DecodeEncode(s);
    DecodeEncode(t);
  }
}
