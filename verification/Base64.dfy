/** Base64 as section 4 of RFC 4648 defines it, and the strict decoding of one chunk
    (server/file-content-assembly.js). */
module Base64 {
  import opened Text
  import opened Utf8

  type Sextet = v: nat | v < 64

  const MAX_CHUNK_BYTES := 1_048_576
  const MAX_CHUNK_TEXT := 1_398_104

  function Symbol(v: Sextet): char {
    if v < 26 then ('A' as int + v) as char
    else if v < 52 then ('a' as int + v - 26) as char
    else if v < 62 then ('0' as int + v - 52) as char
    else if v == 62 then '+' else '/'
  }

  predicate IsSymbol(c: char) {
    'A' <= c <= 'Z' || 'a' <= c <= 'z' || '0' <= c <= '9' || c == '+' || c == '/'
  }

  function ValueOf(c: char): Sextet {
    if 'A' <= c <= 'Z' then c as int - 'A' as int
    else if 'a' <= c <= 'z' then c as int - 'a' as int + 26
    else if '0' <= c <= '9' then c as int - '0' as int + 52
    else if c == '+' then 62 else if c == '/' then 63 else 0
  }

  function EncodeFull(a: Byte, b: Byte, c: Byte): string {
    [Symbol(a / 4), Symbol(a % 4 * 16 + b / 16), Symbol(b % 16 * 4 + c / 64), Symbol(c % 64)]
  }

  function Encode(bytes: seq<Byte>): string {
    if |bytes| >= 3 then EncodeFull(bytes[0], bytes[1], bytes[2]) + Encode(bytes[3..])
    else if |bytes| == 2 then
      [Symbol(bytes[0] / 4), Symbol(bytes[0] % 4 * 16 + bytes[1] / 16), Symbol(bytes[1] % 16 * 4), '=']
    else if |bytes| == 1 then [Symbol(bytes[0] / 4), Symbol(bytes[0] % 4 * 16), '=', '=']
    else ""
  }

  /** The bytes of one group of four characters. */
  function DecodeGroup(w: char, x: char, y: char, z: char): seq<Byte> {
    var a := ValueOf(w) * 4 + ValueOf(x) / 16;
    var b := ValueOf(x) % 16 * 16 + ValueOf(y) / 4;
    var c := ValueOf(y) % 4 * 64 + ValueOf(z);
    if y == '=' then [a] else if z == '=' then [a, b] else [a, b, c]
  }

  /** `Buffer.from(text, 'base64')` on text of whole groups; left-over bits are dropped. */
  function Decode64(text: string): seq<Byte> {
    if |text| < 4 then [] else DecodeGroup(text[0], text[1], text[2], text[3]) + Decode64(text[4..])
  }

  /** `^[A-Za-z0-9+/]*={0,2}$`. */
  predicate IsBase64Text(text: string) {
    exists n: nat :: n <= |text| && |text| - n <= 2 && PaddedFrom(text, n)
  }

  predicate PaddedFrom(text: string, n: nat)
    requires n <= |text|
  {
    (forall i :: 0 <= i < n ==> IsSymbol(text[i])) && (forall i :: n <= i < |text| ==> text[i] == '=')
  }

  function DecodeChunk(content: string): Option<seq<Byte>> {
    if content == "" || |content| > MAX_CHUNK_TEXT then None
    else if |content| % 4 != 0 || !IsBase64Text(content) then None
    else
      var buffer := Decode64(content);
      if buffer == [] || |buffer| > MAX_CHUNK_BYTES then None
      else if Encode(buffer) != content then None
      else Some(buffer)
  }

  lemma SymbolValue(v: Sextet)
    ensures IsSymbol(Symbol(v)) && Symbol(v) != '=' && ValueOf(Symbol(v)) == v
  {
  }

  lemma SextetsRejoin(a: Byte, b: Byte, c: Byte)
    ensures (a % 4 * 16 + b / 16) / 16 == a % 4 && (a % 4 * 16 + b / 16) % 16 == b / 16
    ensures (b % 16 * 4 + c / 64) / 4 == b % 16 && (b % 16 * 4 + c / 64) % 4 == c / 64
    ensures a / 4 * 4 + a % 4 == a && b / 16 * 16 + b % 16 == b && c / 64 * 64 + c % 64 == c
  {
  }

  lemma GroupOfSymbols(p: Sextet, q: Sextet, r: Sextet, s: Sextet)
    ensures DecodeGroup(Symbol(p), Symbol(q), Symbol(r), Symbol(s)) == [p * 4 + q / 16, q % 16 * 16 + r / 4, r % 4 * 64 + s]
    ensures PaddedFrom([Symbol(p), Symbol(q), Symbol(r), Symbol(s)], 4)
  {
    SymbolValue(p);
    SymbolValue(q);
    SymbolValue(r);
    SymbolValue(s);
  }

  lemma FullGroupRoundTrip(a: Byte, b: Byte, c: Byte)
    ensures var g := EncodeFull(a, b, c); DecodeGroup(g[0], g[1], g[2], g[3]) == [a, b, c]
    ensures PaddedFrom(EncodeFull(a, b, c), 4)
  {
    GroupOfSymbols(a / 4, a % 4 * 16 + b / 16, b % 16 * 4 + c / 64, c % 64);
    SextetsRejoin(a, b, c);
  }

  lemma ShortRoundTrip(bytes: seq<Byte>)
    requires |bytes| < 3
    ensures Decode64(Encode(bytes)) == bytes && IsBase64Text(Encode(bytes))
    ensures |Encode(bytes)| == if bytes == [] then 0 else 4
  {
    if |bytes| == 2 {
      SymbolValue(bytes[0] / 4);
      SymbolValue(bytes[0] % 4 * 16 + bytes[1] / 16);
      SymbolValue(bytes[1] % 16 * 4);
      SextetsRejoin(bytes[0], bytes[1], 0);
      assert Encode(bytes)[4..] == "";
      assert PaddedFrom(Encode(bytes), 3);
    } else if |bytes| == 1 {
      SymbolValue(bytes[0] / 4);
      SymbolValue(bytes[0] % 4 * 16);
      SextetsRejoin(bytes[0], 0, 0);
      assert Encode(bytes)[4..] == "";
      assert PaddedFrom(Encode(bytes), 2);
    } else {
      assert PaddedFrom(Encode(bytes), 0);
    }
  }

  lemma DecodeCons(g: string, rest: string)
    requires |g| == 4
    ensures Decode64(g + rest) == DecodeGroup(g[0], g[1], g[2], g[3]) + Decode64(rest)
  {
    assert (g + rest)[4..] == rest;
  }

  lemma FullRoundTrip(a: Byte, b: Byte, c: Byte, rest: seq<Byte>, text: string)
    requires Decode64(text) == rest && IsBase64Text(text)
    ensures Decode64(EncodeFull(a, b, c) + text) == [a, b, c] + rest && IsBase64Text(EncodeFull(a, b, c) + text)
  {
    FullGroupRoundTrip(a, b, c);
    DecodeCons(EncodeFull(a, b, c), text);
    PrependGroup(EncodeFull(a, b, c), text);
  }

  lemma {:induction false} EncodeRoundTrip(bytes: seq<Byte>)
    ensures Decode64(Encode(bytes)) == bytes && IsBase64Text(Encode(bytes))
  {
    if |bytes| >= 3 {
      EncodeRoundTrip(bytes[3..]);
      FullRoundTrip(bytes[0], bytes[1], bytes[2], bytes[3..], Encode(bytes[3..]));
      assert [bytes[0], bytes[1], bytes[2]] + bytes[3..] == bytes;
    } else {
      ShortRoundTrip(bytes);
    }
  }

  lemma {:induction false} EncodeLength(bytes: seq<Byte>)
    ensures |Encode(bytes)| == (|bytes| + 2) / 3 * 4
  {
    if |bytes| >= 3 {
      EncodeLength(bytes[3..]);
      Thirds(|bytes|);
    }
  }

  lemma Thirds(n: nat)
    requires n >= 3
    ensures (n + 2) / 3 * 4 == 4 + (n - 3 + 2) / 3 * 4
  {
  }

  lemma PrependGroup(g: string, rest: string)
    requires |g| == 4 && PaddedFrom(g, 4) && IsBase64Text(rest)
    ensures IsBase64Text(g + rest)
  {
    var n: nat :| n <= |rest| && |rest| - n <= 2 && PaddedFrom(rest, n);
    assert PaddedFrom(g + rest, 4 + n);
  }

  lemma AdmissibleLength(n: nat)
    requires 0 < n <= MAX_CHUNK_BYTES
    ensures var length := (n + 2) / 3 * 4; 0 < length <= MAX_CHUNK_TEXT && length % 4 == 0
  {
  }

  /** A chunk decodes exactly if it is the canonical encoding of one to `MAX_CHUNK_BYTES` bytes; so the
      limit on the text never turns an admissible chunk away. */
  lemma DecodesExactlyCanonical(content: string, buffer: seq<Byte>)
    ensures DecodeChunk(content) == Some(buffer)
            <==> content == Encode(buffer) && 0 < |buffer| <= MAX_CHUNK_BYTES
  {
    if content == Encode(buffer) && 0 < |buffer| <= MAX_CHUNK_BYTES {
      EncodeRoundTrip(buffer);
      EncodeLength(buffer);
      AdmissibleLength(|buffer|);
    }
  }

  // ---------------------------------------------------------------- the encoding of section 4 of RFC 4648

  /** Table 1: the letters, the digits and two signs, in order. */
  lemma SymbolsInOrder(v: Sextet)
    ensures Symbol(0) == 'A' && Symbol(25) == 'Z' && Symbol(26) == 'a' && Symbol(51) == 'z'
    ensures Symbol(52) == '0' && Symbol(61) == '9' && Symbol(62) == '+' && Symbol(63) == '/'
    ensures v < 61 && v !in {25, 51} ==> Symbol(v + 1) as int == Symbol(v) as int + 1
  {
  }

  function BitsOf(bytes: seq<Byte>, i: nat): int {
    if i < |bytes| then bytes[i] else 0
  }

  /** Four characters stand for 24 bits, the first for the highest six; bits that are missing are zero, and a
      character for which there are none is padding. */
  ghost predicate StandsFor(text: string, bytes: seq<Byte>)
    requires |text| == 4 && 1 <= |bytes| <= 3
  {
    exists p: Sextet, q: Sextet, r: Sextet, s: Sextet ::
      && AreSymbols(text, |bytes|, p, q, r, s)
      && p * 0x4_0000 + q * 0x1000 + r * 0x40 + s
         == BitsOf(bytes, 0) * 0x1_0000 + BitsOf(bytes, 1) * 0x100 + BitsOf(bytes, 2)
  }

  predicate AreSymbols(text: string, count: nat, p: Sextet, q: Sextet, r: Sextet, s: Sextet)
    requires |text| == 4
  {
    && text[0] == Symbol(p) && text[1] == Symbol(q)
    && text[2] == (if count > 1 then Symbol(r) else '=')
    && text[3] == (if count > 2 then Symbol(s) else '=')
  }

  lemma GroupStandsFor(bytes: seq<Byte>)
    requires 1 <= |bytes| <= 3
    ensures |Encode(bytes)| == 4 && StandsFor(Encode(bytes), bytes)
  {
    EncodeLength(bytes);
    var a, b, c := bytes[0], if |bytes| > 1 then bytes[1] else 0, if |bytes| > 2 then bytes[2] else 0;
    assert AreSymbols(Encode(bytes), |bytes|, a / 4, a % 4 * 16 + b / 16, b % 16 * 4 + c / 64, c % 64);
  }

  function Group(bytes: seq<Byte>, g: nat): seq<Byte>
    requires 3 * g < |bytes|
  {
    if |bytes| < 3 * g + 3 then bytes[3 * g..] else bytes[3 * g..3 * g + 3]
  }

  lemma HeadStandsFor(bytes: seq<Byte>)
    requires |bytes| > 3 && |Encode(bytes)| >= 4
    ensures StandsFor(Encode(bytes)[0..4], Group(bytes, 0))
  {
    GroupStandsFor(bytes[..3]);
    assert Encode(bytes[..3]) == EncodeFull(bytes[0], bytes[1], bytes[2]) by {
      assert Encode(bytes[..3][3..]) == "";
    }
    assert Encode(bytes)[0..4] == EncodeFull(bytes[0], bytes[1], bytes[2]);
    assert Group(bytes, 0) == bytes[..3];
  }

  /** Every group of three bytes is encoded so, and a short one at the end. */
  lemma {:induction false} EncodesGroups(bytes: seq<Byte>, g: nat)
    requires 3 * g < |bytes|
    ensures |Encode(bytes)| == (|bytes| + 2) / 3 * 4 >= 4 * g + 4
    ensures StandsFor(Encode(bytes)[4 * g..4 * g + 4], Group(bytes, g))
  {
    EncodeLength(bytes);
    var text := Encode(bytes);
    if |bytes| <= 3 {
      GroupStandsFor(bytes);
      assert text[0..4] == text && Group(bytes, 0) == bytes;
    } else if g == 0 {
      HeadStandsFor(bytes);
    } else {
      EncodesGroups(bytes[3..], g - 1);
      assert text[4 * g..4 * g + 4] == Encode(bytes[3..])[4 * (g - 1)..4 * (g - 1) + 4];
      assert Group(bytes, g) == Group(bytes[3..], g - 1);
    }
  }
}
