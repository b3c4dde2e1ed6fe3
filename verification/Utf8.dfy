/** Decoding bytes as text, the way `Buffer.toString('utf-8')` does it: UTF-8 of section 3 of RFC 3629,
    with U+FFFD in place of every maximal ill-formed part.

    The decoder works byte by byte. The module proves what it computes in terms of the encoding: well-formed
    sequences give their characters, and each maximal ill-formed part one U+FFFD. And decoding commutes with
    splitting at the byte 0x0A, whatever garbage the bytes are: a reader may cut a file at newline bytes before it
    decodes.
  */
module Utf8 {
  import opened Text

  type Byte = b: nat | b < 0x100

  const NEWLINE_BYTE: Byte := 0x0A
  const REPLACEMENT: char := '\U{FFFD}'

  type CodePoint = c: nat | c <= 0x10_FFFF && !(0xD800 <= c < 0xE000)

  /** The table of section 3 of RFC 3629. */
  function Utf8Of(c: CodePoint): seq<Byte> {
    if c < 0x80 then [c]
    else if c < 0x800 then [0xC0 + c / 0x40, 0x80 + c % 0x40]
    else if c < 0x1_0000 then [0xE0 + c / 0x1000, 0x80 + c / 0x40 % 0x40, 0x80 + c % 0x40]
    else [0xF0 + c / 0x4_0000, 0x80 + c / 0x1000 % 0x40, 0x80 + c / 0x40 % 0x40, 0x80 + c % 0x40]
  }

  /** A text as it is written to a file. */
  function Encoded(text: string): seq<Byte> {
    if text == "" then [] else Utf8Of(text[0] as int) + Encoded(text[1..])
  }

  /** A sequence in progress: `needed` more bytes follow, the next one between `lower` and `upper`. */
  datatype Progress = Idle | Partial(codePoint: nat, needed: nat, lower: nat, upper: nat)

  function Weight(needed: nat): nat {
    if needed <= 1 then 1 else if needed == 2 then 0x40 else 0x1000
  }

  function Lowest(p: Progress): int
    requires p.Partial?
  {
    (p.codePoint * 0x40 + p.lower - 0x80) * Weight(p.needed)
  }

  function Highest(p: Progress): int
    requires p.Partial?
  {
    (p.codePoint * 0x40 + p.upper - 0x80 + 1) * Weight(p.needed) - 1
  }

  /** Every code point the sequence can still become lies beyond ASCII and is not a surrogate. */
  predicate Valid(p: Progress) {
    p.Partial? ==>
      && 1 <= p.needed <= 3 && 0x80 <= p.lower <= p.upper <= 0xBF
      && 0x80 <= Lowest(p) && Highest(p) <= 0x10FFFF && (Highest(p) < 0xD800 || 0xE000 <= Lowest(p))
  }

  type Decoder = p: Progress | Valid(p) witness Idle

  datatype Fed = Fed(decoder: Decoder, output: string)

  function Begin(b: Byte): Fed {
    if b < 0x80 then Fed(Idle, [b as char])
    else if 0xC2 <= b <= 0xDF then Fed(Partial(b - 0xC0, 1, 0x80, 0xBF), [])
    else if b == 0xE0 then Fed(Partial(0, 2, 0xA0, 0xBF), [])
    else if b == 0xED then Fed(Partial(0xD, 2, 0x80, 0x9F), [])
    else if 0xE1 <= b <= 0xEF then Fed(Partial(b - 0xE0, 2, 0x80, 0xBF), [])
    else if b == 0xF0 then Fed(Partial(0, 3, 0x90, 0xBF), [])
    else if b == 0xF4 then Fed(Partial(4, 3, 0x80, 0x8F), [])
    else if 0xF1 <= b <= 0xF3 then Fed(Partial(b - 0xF0, 3, 0x80, 0xBF), [])
    else Fed(Idle, [REPLACEMENT])
  }

  function Feed(p: Decoder, b: Byte): Fed {
    if p.Idle? then Begin(b)
    else if b < p.lower || p.upper < b then
      Fed(Begin(b).decoder, [REPLACEMENT] + Begin(b).output)
    else
      var codePoint := p.codePoint * 0x40 + b - 0x80;
      if p.needed == 1 then Fed(Idle, [codePoint as char])
      else Fed(Partial(codePoint, p.needed - 1, 0x80, 0xBF), [])
  }

  function DecodeFrom(p: Decoder, bytes: seq<Byte>): string
    decreases |bytes|
  {
    if bytes == [] then (if p.Idle? then "" else [REPLACEMENT])
    else
      var fed := Feed(p, bytes[0]);
      fed.output + DecodeFrom(fed.decoder, bytes[1..])
  }

  function Decode(bytes: seq<Byte>): string {
    DecodeFrom(Idle, bytes)
  }

  // ---------------------------------------------------------------- what it decodes

  lemma SixBits(c: nat)
    ensures c == c / 0x40 * 0x40 + c % 0x40
    ensures c / 0x40 == c / 0x1000 * 0x40 + c / 0x40 % 0x40
    ensures c / 0x1000 == c / 0x4_0000 * 0x40 + c / 0x1000 % 0x40
  {
    assert c / 0x40 / 0x40 == c / 0x1000;
    assert c / 0x1000 / 0x40 == c / 0x4_0000;
  }

  /** The decoder after bytes that give no output; none if they do. */
  function Progressed(p: Decoder, bytes: seq<Byte>): Option<Decoder>
    decreases |bytes|
  {
    if bytes == [] then Some(p)
    else if Feed(p, bytes[0]).output != "" then None
    else Progressed(Feed(p, bytes[0]).decoder, bytes[1..])
  }

  lemma {:induction false} ProgressedMore(p: Decoder, bytes: seq<Byte>, b: Byte)
    ensures Progressed(p, bytes + [b]) ==
              match Progressed(p, bytes)
              case None => None
              case Some(q) => if Feed(q, b).output == "" then Some(Feed(q, b).decoder) else None
    decreases |bytes|
  {
    if bytes == [] {
      assert bytes + [b] == [b];
    } else {
      assert (bytes + [b])[1..] == bytes[1..] + [b];
      ProgressedMore(Feed(p, bytes[0]).decoder, bytes[1..], b);
    }
  }

  lemma DecodeStep(p: Decoder, b: Byte, rest: seq<Byte>)
    ensures DecodeFrom(p, [b] + rest) == Feed(p, b).output + DecodeFrom(Feed(p, b).decoder, rest)
  {
    assert ([b] + rest)[1..] == rest;
  }

  lemma Uncons(bytes: seq<Byte>, rest: seq<Byte>)
    requires bytes != []
    ensures bytes + rest == [bytes[0]] + (bytes[1..] + rest)
  {
  }

  /** While it is in progress nothing is put out. */
  lemma {:induction false} DecodeProgressed(p: Decoder, bytes: seq<Byte>, rest: seq<Byte>)
    requires Progressed(p, bytes).Some?
    ensures DecodeFrom(p, bytes + rest) == DecodeFrom(Progressed(p, bytes).value, rest)
    decreases |bytes|
  {
    if bytes == [] {
      assert bytes + rest == rest;
    } else {
      var more := bytes[1..] + rest;
      DecodeProgressed(Feed(p, bytes[0]).decoder, bytes[1..], rest);
      SilentStep(p, bytes[0], more);
      Uncons(bytes, rest);
    }
  }

  lemma SilentStep(p: Decoder, b: Byte, rest: seq<Byte>)
    requires Feed(p, b).output == ""
    ensures DecodeFrom(p, [b] + rest) == DecodeFrom(Feed(p, b).decoder, rest)
  {
    DecodeStep(p, b, rest);
    assert "" + DecodeFrom(Feed(p, b).decoder, rest) == DecodeFrom(Feed(p, b).decoder, rest);
  }

  lemma SilentIsPartial(p: Decoder, b: Byte)
    ensures Feed(p, b).output == "" ==> Feed(p, b).decoder.Partial?
  {
  }

  lemma {:induction false} ProgressedIsPartial(p: Decoder, bytes: seq<Byte>)
    requires bytes != [] && Progressed(p, bytes).Some?
    ensures Progressed(p, bytes).value.Partial?
    decreases |bytes|
  {
    SilentIsPartial(p, bytes[0]);
    if |bytes| > 1 {
      ProgressedIsPartial(Feed(p, bytes[0]).decoder, bytes[1..]);
    }
  }

  /** The decoder in progress after the first `k` bytes of the encoding of `c`. */
  function Halfway(c: CodePoint, k: nat): Decoder
    requires 0 < k < |Utf8Of(c)|
  {
    var n := |Utf8Of(c)|;
    if k > 1 then Partial(if n - k == 1 then c / 0x40 else c / 0x1000, n - k, 0x80, 0xBF)
    else Begin(Utf8Of(c)[0]).decoder
  }

  lemma FirstProgresses(c: CodePoint)
    requires |Utf8Of(c)| > 1
    ensures Feed(Idle, Utf8Of(c)[0]) == Fed(Halfway(c, 1), "")
  {
  }

  lemma HalfwayGoesOn(c: CodePoint, k: nat)
    requires 1 < k < |Utf8Of(c)|
    ensures Feed(Halfway(c, k - 1), Utf8Of(c)[k - 1]) == Fed(Halfway(c, k), "")
  {
    SixBits(c);
    if |Utf8Of(c)| == 3 {
      assert Halfway(c, 1).codePoint == c / 0x1000;
    } else if k == 2 {
      assert Halfway(c, 1).codePoint == c / 0x4_0000;
    } else {
      assert Halfway(c, 2).codePoint == c / 0x1000;
    }
  }

  lemma EncodingProgresses(c: CodePoint, k: nat)
    requires 0 < k < |Utf8Of(c)|
    ensures Progressed(Idle, Utf8Of(c)[..k]) == Some(Halfway(c, k))
  {
    var bytes := Utf8Of(c);
    assert bytes[..k] == bytes[..k - 1] + [bytes[k - 1]];
    ProgressedMore(Idle, bytes[..k - 1], bytes[k - 1]);
    if k > 1 {
      EncodingProgresses(c, k - 1);
      HalfwayGoesOn(c, k);
    } else {
      FirstProgresses(c);
    }
  }

  lemma EncodingDecodes(c: CodePoint, rest: seq<Byte>)
    ensures Decode(Utf8Of(c) + rest) == [c as char] + Decode(rest)
  {
    var bytes, n := Utf8Of(c), |Utf8Of(c)| - 1;
    if n == 0 {
      DecodeStep(Idle, c, rest);
    } else {
      EncodingProgresses(c, n);
      DecodeProgressed(Idle, bytes[..n], [bytes[n]] + rest);
      assert bytes + rest == bytes[..n] + ([bytes[n]] + rest);
      DecodeStep(Halfway(c, n), bytes[n], rest);
      HalfwayEnds(c);
    }
  }

  lemma HalfwayEnds(c: CodePoint)
    requires |Utf8Of(c)| > 1
    ensures Feed(Halfway(c, |Utf8Of(c)| - 1), Utf8Of(c)[|Utf8Of(c)| - 1]) == Fed(Idle, [c as char])
  {
    SixBits(c);
  }

  /** Decoding gives back every text that was encoded. */
  lemma {:induction false} DecodeEncoded(text: string)
    ensures Decode(Encoded(text)) == text
  {
    if text != "" {
      EncodingDecodes(text[0] as int, Encoded(text[1..]));
      DecodeEncoded(text[1..]);
    }
  }

  // ---------------------------------------------------------------- ill-formed parts

  ghost predicate IsWellFormed(bytes: seq<Byte>) {
    exists c: CodePoint :: bytes == Utf8Of(c)
  }

  ghost predicate Begins(bytes: seq<Byte>) {
    exists c: CodePoint :: bytes <= Utf8Of(c)
  }

  /** A maximal ill-formed part: as much of one sequence as there is, or else one byte that begins none. */
  ghost predicate IsIllFormedPart(bytes: seq<Byte>, rest: seq<Byte>) {
    && bytes != [] && !IsWellFormed(bytes) && (|bytes| == 1 || Begins(bytes))
    && (rest == [] || !Begins(bytes) || !Begins(bytes + [rest[0]]))
  }

  lemma Quotients(c: nat, q: int)
    ensures q * 0x40 <= c < (q + 1) * 0x40 ==> c / 0x40 == q
    ensures q * 0x1000 <= c < (q + 1) * 0x1000 ==> c / 0x1000 == q
    ensures q * 0x4_0000 <= c < (q + 1) * 0x4_0000 ==> c / 0x4_0000 == q
  {
  }

  /** The code points that begin with these bits. */
  predicate IsUnder(c: nat, codePoint: nat, needed: nat) {
    codePoint * 0x40 * Weight(needed) <= c < (codePoint + 1) * 0x40 * Weight(needed)
  }

  lemma FirstByteRange(b: Byte, c: CodePoint)
    requires Begin(b).decoder.Partial? && Lowest(Begin(b).decoder) <= c <= Highest(Begin(b).decoder)
    ensures var p := Begin(b).decoder;
            && IsUnder(c, p.codePoint, p.needed)
            && 0x80 <= c && (p.needed >= 2 ==> 0x800 <= c) && (p.needed >= 3 ==> 0x1_0000 <= c)
            && (p.needed == 1 ==> c < 0x800) && (p.needed == 2 ==> c < 0x1_0000)
  {
  }

  lemma FirstByteBegins(b: Byte, c: CodePoint)
    requires Begin(b).decoder.Partial? && Lowest(Begin(b).decoder) <= c <= Highest(Begin(b).decoder)
    ensures Utf8Of(c)[0] == b && |Utf8Of(c)| == 1 + Begin(b).decoder.needed
  {
    FirstByteRange(b, c);
    Quotients(c, Begin(b).decoder.codePoint);
  }

  lemma LowBits(q: nat, codePoint: nat, b: Byte)
    requires q == codePoint * 0x40 + b - 0x80 && 0x80 <= b <= 0xBF
    ensures q % 0x40 == b - 0x80
  {
  }

  lemma NextRange(p: Decoder, b: Byte, c: CodePoint)
    requires p.Partial? && Feed(p, b).output == ""
    requires Lowest(Feed(p, b).decoder) <= c <= Highest(Feed(p, b).decoder)
    ensures p.needed == Feed(p, b).decoder.needed + 1
    ensures IsUnder(c, p.codePoint * 0x40 + b - 0x80, p.needed - 1) && p.lower <= b <= p.upper
  {
  }

  lemma RangeNarrows(p: Decoder, b: Byte, c: nat)
    requires p.Partial? && p.needed > 1 && p.lower <= b <= p.upper
    requires IsUnder(c, p.codePoint * 0x40 + b - 0x80, p.needed - 1)
    ensures Lowest(p) <= c <= Highest(p)
  {
  }

  lemma NextByteBegins(p: Decoder, b: Byte, c: CodePoint)
    requires p.Partial? && Feed(p, b).output == ""
    requires Lowest(Feed(p, b).decoder) <= c <= Highest(Feed(p, b).decoder)
    ensures Lowest(p) <= c <= Highest(p) && p.needed == Feed(p, b).decoder.needed + 1
    ensures b == 0x80 + (if p.needed == 2 then c / 0x40 else c / 0x1000) % 0x40
  {
    NextRange(p, b, c);
    RangeNarrows(p, b, c);
    var q := p.codePoint * 0x40 + b - 0x80;
    Quotients(c, q);
    LowBits(q, p.codePoint, b);
    assert (if p.needed == 2 then c / 0x40 else c / 0x1000) == q;
  }

  /** The decoder is in progress only over bytes that begin every sequence it can still become. */
  lemma {:induction false} ProgressedBegins(bytes: seq<Byte>, p: Decoder, c: CodePoint)
    requires bytes != [] && Progressed(Idle, bytes) == Some(p) && p.Partial? && Lowest(p) <= c <= Highest(p)
    ensures bytes <= Utf8Of(c) && |Utf8Of(c)| == |bytes| + p.needed
    decreases |bytes|
  {
    var n := |bytes| - 1;
    assert bytes == bytes[..n] + [bytes[n]];
    ProgressedMore(Idle, bytes[..n], bytes[n]);
    if n == 0 {
      FirstByteBegins(bytes[0], c);
    } else {
      var q := Progressed(Idle, bytes[..n]).value;
      ProgressedIsPartial(Idle, bytes[..n]);
      NextByteBegins(q, bytes[n], c);
      ProgressedBegins(bytes[..n], q, c);
      assert Utf8Of(c)[n] == bytes[n];
    }
  }

  lemma PartProgresses(bytes: seq<Byte>)
    requires bytes != [] && Begins(bytes) && !IsWellFormed(bytes)
    ensures Progressed(Idle, bytes).Some?
  {
    var c: CodePoint :| bytes <= Utf8Of(c);
    assert |bytes| < |Utf8Of(c)|;
    EncodingProgresses(c, |bytes|);
    assert Utf8Of(c)[..|bytes|] == bytes;
  }

  lemma LowestIsPoint(p: Decoder)
    requires p.Partial?
    ensures 0 <= Lowest(p) <= Highest(p) <= 0x10_FFFF && !(0xD800 <= Lowest(p) < 0xE000)
  {
  }

  lemma ProgressedIsPart(bytes: seq<Byte>, p: Decoder)
    requires bytes != [] && Progressed(Idle, bytes) == Some(p)
    ensures p.Partial? && Begins(bytes)
  {
    ProgressedIsPartial(Idle, bytes);
    LowestIsPoint(p);
    ProgressedBegins(bytes, p, Lowest(p));
  }

  lemma LastPoint(p: Decoder, b: Byte)
    requires p.Partial? && p.needed == 1 && p.lower <= b <= p.upper
    ensures var c := p.codePoint * 0x40 + b - 0x80;
            Lowest(p) <= c <= Highest(p) && c <= 0x10_FFFF && !(0xD800 <= c < 0xE000) && c % 0x40 == b - 0x80
  {
    LowBits(p.codePoint * 0x40 + b - 0x80, p.codePoint, b);
  }

  lemma LastByte(bytes: seq<Byte>, p: Decoder, b: Byte)
    requires bytes != [] && Progressed(Idle, bytes) == Some(p) && p.Partial?
    requires p.needed == 1 && p.lower <= b <= p.upper
    ensures Begins(bytes + [b])
  {
    LastPoint(p, b);
    var c: CodePoint := p.codePoint * 0x40 + b - 0x80;
    ProgressedBegins(bytes, p, c);
    LastByteIs(c);
    assert bytes + [b] == Utf8Of(c);
  }

  lemma LastByteIs(c: CodePoint)
    ensures |Utf8Of(c)| > 1 ==> Utf8Of(c)[|Utf8Of(c)| - 1] == 0x80 + c % 0x40
  {
  }

  /** In a part that cannot go on the next byte is out of its range. */
  lemma EndsHere(bytes: seq<Byte>, p: Decoder, b: Byte)
    requires bytes != [] && Progressed(Idle, bytes) == Some(p) && !Begins(bytes + [b])
    ensures p.Partial? && (b < p.lower || p.upper < b)
  {
    ProgressedIsPartial(Idle, bytes);
    if p.lower <= b <= p.upper {
      if p.needed == 1 {
        LastByte(bytes, p, b);
      } else {
        ProgressedMore(Idle, bytes, b);
        ProgressedIsPart(bytes + [b], Feed(p, b).decoder);
      }
    }
  }

  /** Every maximal ill-formed part yields one U+FFFD, and decoding goes on behind it. */
  lemma IllFormedPartIsReplaced(bytes: seq<Byte>, rest: seq<Byte>)
    requires IsIllFormedPart(bytes, rest)
    ensures Decode(bytes + rest) == [REPLACEMENT] + Decode(rest)
  {
    if Begins(bytes) {
      PartProgresses(bytes);
      DecodeProgressed(Idle, bytes, rest);
      PartEnds(bytes, Progressed(Idle, bytes).value, rest);
    } else {
      SingleByte(bytes[0], rest);
      assert bytes == [bytes[0]];
    }
  }

  lemma PartEnds(bytes: seq<Byte>, p: Decoder, rest: seq<Byte>)
    requires bytes != [] && Progressed(Idle, bytes) == Some(p) && (rest == [] || !Begins(bytes + [rest[0]]))
    ensures DecodeFrom(p, rest) == [REPLACEMENT] + Decode(rest)
  {
    if rest == [] {
      ProgressedIsPartial(Idle, bytes);
    } else {
      OutOfRange(bytes, p, rest[0], rest[1..]);
      assert rest == [rest[0]] + rest[1..];
    }
  }

  lemma OutOfRange(bytes: seq<Byte>, p: Decoder, b: Byte, rest: seq<Byte>)
    requires bytes != [] && Progressed(Idle, bytes) == Some(p) && !Begins(bytes + [b])
    ensures DecodeFrom(p, [b] + rest) == [REPLACEMENT] + Decode([b] + rest)
  {
    EndsHere(bytes, p, b);
    DecodeStep(p, b, rest);
    DecodeStep(Idle, b, rest);
    var begun := Begin(b);
    assert [REPLACEMENT] + begun.output + DecodeFrom(begun.decoder, rest)
        == [REPLACEMENT] + (begun.output + DecodeFrom(begun.decoder, rest));
  }

  lemma SingleByte(b: Byte, rest: seq<Byte>)
    requires !Begins([b])
    ensures Decode([b] + rest) == [REPLACEMENT] + Decode(rest)
  {
    assert b < 0x80 ==> [b] == Utf8Of(b);
    if Feed(Idle, b).output == "" {
      ProgressedMore(Idle, [], b);
      ProgressedIsPart([b], Feed(Idle, b).decoder);
    }
    DecodeStep(Idle, b, rest);
  }

  /** Whatever the bytes are, they start with a well-formed sequence or a maximal ill-formed part; so the two laws
      together determine what is decoded. */
  lemma FirstPart(bytes: seq<Byte>) returns (n: nat)
    requires bytes != []
    ensures 0 < n <= |bytes| && (IsWellFormed(bytes[..n]) || IsIllFormedPart(bytes[..n], bytes[n..]))
  {
    n := 1;
    while n < |bytes| && !IsWellFormed(bytes[..n]) && Begins(bytes[..n + 1])
      invariant 0 < n <= |bytes| && (n == 1 || Begins(bytes[..n]))
    {
      n := n + 1;
    }
    if n < |bytes| {
      assert bytes[..n + 1] == bytes[..n] + [bytes[n..][0]];
    }
  }

  lemma FeedNewline(p: Decoder, b: Byte)
    ensures '\n' in Feed(p, b).output <==> b == NEWLINE_BYTE
    ensures Feed(p, NEWLINE_BYTE).decoder == Idle
    ensures Feed(p, NEWLINE_BYTE).output == (if p.Idle? then "" else [REPLACEMENT]) + "\n"
  {
  }

  lemma {:induction false} DecodeAcrossNewline(p: Decoder, a: seq<Byte>, b: seq<Byte>)
    ensures DecodeFrom(p, a + [NEWLINE_BYTE] + b) == DecodeFrom(p, a) + ['\n'] + Decode(b)
    decreases |a|
  {
    if a == [] {
      FeedNewline(p, NEWLINE_BYTE);
      assert a + [NEWLINE_BYTE] + b == [NEWLINE_BYTE] + b && ([NEWLINE_BYTE] + b)[1..] == b;
    } else {
      var fed, rest := Feed(p, a[0]), a[1..] + [NEWLINE_BYTE] + b;
      DecodeAcrossNewline(fed.decoder, a[1..], b);
      assert a + [NEWLINE_BYTE] + b == [a[0]] + rest && ([a[0]] + rest)[1..] == rest;
      assert fed.output + (DecodeFrom(fed.decoder, a[1..]) + ['\n'] + Decode(b))
          == (fed.output + DecodeFrom(fed.decoder, a[1..])) + ['\n'] + Decode(b);
    }
  }

  lemma {:induction false} NewlineSurvives(p: Decoder, bytes: seq<Byte>)
    ensures '\n' in DecodeFrom(p, bytes) <==> NEWLINE_BYTE in bytes
    decreases |bytes|
  {
    if bytes != [] {
      FeedNewline(p, bytes[0]);
      NewlineSurvives(Feed(p, bytes[0]).decoder, bytes[1..]);
    }
  }

  function DecodeEach(lines: seq<seq<Byte>>): (texts: seq<string>)
    ensures |texts| == |lines|
  {
    if lines == [] then [] else [Decode(lines[0])] + DecodeEach(lines[1..])
  }

  function FirstNewline(bytes: seq<Byte>): (k: nat)
    ensures k <= |bytes|
    ensures forall i :: 0 <= i < k ==> bytes[i] != NEWLINE_BYTE
    ensures k < |bytes| ==> bytes[k] == NEWLINE_BYTE
  {
    if bytes == [] || bytes[0] == NEWLINE_BYTE then 0 else 1 + FirstNewline(bytes[1..])
  }

  /** Lines cut at newline bytes and decoded one by one are the lines of the decoded whole. */
  lemma {:induction false} SplitCommutesWithDecode(bytes: seq<Byte>)
    ensures Split(Decode(bytes), '\n') == DecodeEach(Split(bytes, NEWLINE_BYTE))
    decreases |bytes|
  {
    var k := FirstNewline(bytes);
    if k == |bytes| {
      NewlineSurvives(Idle, bytes);
      SplitWhole(bytes, NEWLINE_BYTE);
      SplitWhole(Decode(bytes), '\n');
    } else {
      var a, b := bytes[..k], bytes[k + 1..];
      assert bytes == a + [NEWLINE_BYTE] + b;
      DecodeAcrossNewline(Idle, a, b);
      NewlineSurvives(Idle, a);
      SplitConcat(a, NEWLINE_BYTE, b);
      SplitConcat(Decode(a), '\n', Decode(b));
      SplitWhole(a, NEWLINE_BYTE);
      SplitWhole(Decode(a), '\n');
      SplitCommutesWithDecode(b);
      assert ([a] + Split(b, NEWLINE_BYTE))[1..] == Split(b, NEWLINE_BYTE);
    }
  }
}
