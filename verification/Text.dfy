/** The string operations of JavaScript that several of the modelled files share. */
module Text {

  datatype Option<+T> = None | Some(value: T)

  /** `s.split(separator)` for a separator of one element. */
  function Split<T(==)>(s: seq<T>, separator: T): (parts: seq<seq<T>>)
    ensures |parts| > 0
  {
    if s == [] then [[]]
    else
      var parts := Split(s[1..], separator);
      if s[0] == separator then [[]] + parts else [[s[0]] + parts[0]] + parts[1..]
  }

  /** `parts.join(separator)`. */
  function Join<T>(parts: seq<seq<T>>, separator: T): seq<T> {
    if parts == [] then []
    else if |parts| == 1 then parts[0]
    else parts[0] + [separator] + Join(parts[1..], separator)
  }

  lemma {:induction false} SplitConcat<T>(a: seq<T>, separator: T, b: seq<T>)
    ensures Split(a + [separator] + b, separator) == Split(a, separator) + Split(b, separator)
  {
    var s := a + [separator] + b;
    var end := Split(b, separator);
    if a == [] {
      assert s[1..] == b;
    } else {
      var parts := Split(a[1..], separator);
      assert s[1..] == a[1..] + [separator] + b;
      SplitConcat(a[1..], separator, b);
      assert s[0] == a[0];
      if a[0] == separator {
        assert [[]] + (parts + end) == ([[]] + parts) + end;
      } else {
        assert [[a[0]] + parts[0]] + (parts + end)[1..] == ([[a[0]] + parts[0]] + parts[1..]) + end;
      }
    }
  }

  lemma {:induction false} SplitWhole<T>(s: seq<T>, separator: T)
    requires separator !in s
    ensures Split(s, separator) == [s]
  {
    if s != [] {
      SplitWhole(s[1..], separator);
      assert s[0] in s && [s[0]] + s[1..] == s;
    }
  }

  lemma {:induction false} SplitJoin<T>(parts: seq<seq<T>>, separator: T)
    requires parts != [] && forall p :: p in parts ==> separator !in p
    ensures Split(Join(parts, separator), separator) == parts
  {
    SplitWhole(parts[0], separator);
    if |parts| > 1 {
      SplitConcat(parts[0], separator, Join(parts[1..], separator));
      SplitJoin(parts[1..], separator);
    }
  }

  lemma JoinCons<T>(head: seq<T>, tail: seq<seq<T>>, separator: T)
    requires tail != []
    ensures Join([head] + tail, separator) == head + [separator] + Join(tail, separator)
  {
    assert ([head] + tail)[1..] == tail;
  }

  lemma JoinPush<T>(x: T, parts: seq<seq<T>>, separator: T)
    requires parts != []
    ensures Join([[x] + parts[0]] + parts[1..], separator) == [x] + Join(parts, separator)
  {
    if |parts| > 1 {
      JoinCons([x] + parts[0], parts[1..], separator);
    }
  }

  lemma {:induction false} JoinSplit<T>(s: seq<T>, separator: T)
    ensures Join(Split(s, separator), separator) == s
    ensures forall p :: p in Split(s, separator) ==> separator !in p
  {
    if s != [] {
      var parts := Split(s[1..], separator);
      JoinSplit(s[1..], separator);
      JoinPush(s[0], parts, separator);
      JoinCons([], parts, separator);
      assert s == [s[0]] + s[1..] && [] + [separator] + s[1..] == [separator] + s[1..];
    }
  }

  // ------------------------------------------------------------ trim

  /** White space and line terminators, as `String.prototype.trim` removes them. */
  predicate IsWhitespace(c: char) {
    || '\t' <= c <= '\r' || c == ' ' || c == '\U{A0}' || c == '\U{1680}' || '\U{2000}' <= c <= '\U{200A}'
    || c == '\U{2028}' || c == '\U{2029}' || c == '\U{202F}' || c == '\U{205F}' || c == '\U{3000}' || c == '\U{FEFF}'
  }

  function TrimStart(s: string): string {
    if s != "" && IsWhitespace(s[0]) then TrimStart(s[1..]) else s
  }

  function TrimEnd(s: string): string {
    if s != "" && IsWhitespace(s[|s| - 1]) then TrimEnd(s[..|s| - 1]) else s
  }

  function Trim(s: string): string {
    TrimEnd(TrimStart(s))
  }

  predicate IsBlank(s: string) {
    forall i :: 0 <= i < |s| ==> IsWhitespace(s[i])
  }

  lemma {:induction false} TrimStartIs(s: string)
    ensures |TrimStart(s)| <= |s| && s[|s| - |TrimStart(s)|..] == TrimStart(s)
    ensures forall i :: 0 <= i < |s| - |TrimStart(s)| ==> IsWhitespace(s[i])
    ensures TrimStart(s) != "" ==> !IsWhitespace(TrimStart(s)[0])
  {
    if s != "" && IsWhitespace(s[0]) {
      TrimStartIs(s[1..]);
    }
  }

  lemma {:induction false} TrimEndIs(s: string)
    ensures TrimEnd(s) <= s && forall i :: |TrimEnd(s)| <= i < |s| ==> IsWhitespace(s[i])
    ensures TrimEnd(s) != "" ==> !IsWhitespace(TrimEnd(s)[|TrimEnd(s)| - 1])
  {
    if s != "" && IsWhitespace(s[|s| - 1]) {
      TrimEndIs(s[..|s| - 1]);
    }
  }

  /** Trimming takes away all white space at both ends and nothing else. */
  lemma TrimIs(s: string) returns (before: string, after: string)
    ensures s == before + Trim(s) + after && IsBlank(before) && IsBlank(after)
    ensures Trim(s) != "" ==> !IsWhitespace(Trim(s)[0]) && !IsWhitespace(Trim(s)[|Trim(s)| - 1])
  {
    TrimStartIs(s);
    TrimEndIs(TrimStart(s));
    before, after := s[..|s| - |TrimStart(s)|], TrimStart(s)[|Trim(s)|..];
  }
}
