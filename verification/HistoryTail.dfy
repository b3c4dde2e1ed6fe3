/** Loading the last rows of a session file (agent/history.js).

    The fast path reads the file backwards in chunks, cuts at newline bytes, and carries the bytes of
    a line that is not complete yet into the next chunk. The module proves what it returns: the last
    rows of the full line-by-line parse, except that one extra row leads the result when fewer rows
    than asked for exist and the last carry parses by itself.
  */
module HistoryTail {
  import opened Text
  import opened Utf8

  /** `JSON.parse` and `normalizeClaudeMessage` on one line: a row if they do not throw and the type
      is user or assistant. */
  type Parser<!Row> = string -> Option<Row>

  // ---------------------------------------------------------------- the full parse

  /** The row a line yields; blank lines are skipped before they are parsed. */
  function RowsOfLine<Row>(parse: Parser<Row>, line: string): seq<Row> {
    if Trim(line) == "" || parse(line).None? then [] else [parse(line).value]
  }

  function RowsOfLines<Row>(parse: Parser<Row>, lines: seq<string>): seq<Row> {
    if lines == [] then [] else RowsOfLine(parse, lines[0]) + RowsOfLines(parse, lines[1..])
  }

  /** Decode the whole file, split it into lines, keep every row. */
  function Rows<Row>(parse: Parser<Row>, file: seq<Byte>): seq<Row> {
    RowsOfLines(parse, Split(Decode(file), '\n'))
  }

  function Last<Row>(rows: seq<Row>, n: nat): seq<Row> {
    if |rows| <= n then rows else rows[|rows| - n..]
  }

  // ---------------------------------------------------------------- what the backward reader returns

  /** The length of the chunk at the head of the file, counting chunks from the end. */
  function HeadLength(size: nat, chunkSize: nat): (head: nat)
    requires chunkSize > 0
    ensures head <= size && head <= chunkSize && (size > 0 ==> head > 0)
  {
    if size <= chunkSize then size else HeadLength(size - chunkSize, chunkSize)
  }

  /** The carry that is left when the reader reaches the head: what follows the head chunk up to the
      next newline. Empty if the file fits one chunk. */
  function LeftoverCarry(file: seq<Byte>, chunkSize: nat): seq<Byte>
    requires chunkSize > 0
  {
    var rest := file[HeadLength(|file|, chunkSize)..];
    rest[..FirstNewline(rest)]
  }

  /** The row the leftover carry yields; unlike a line it is trimmed before it is parsed. */
  function LeftoverRow<Row>(parse: Parser<Row>, file: seq<Byte>, chunkSize: nat): seq<Row>
    requires chunkSize > 0
  {
    RowOfCarry(parse, LeftoverCarry(file, chunkSize))
  }

  function RowOfCarry<Row>(parse: Parser<Row>, carry: seq<Byte>): seq<Row> {
    var line := Trim(Decode(carry));
    if carry == [] || line == "" || parse(line).None? then [] else [parse(line).value]
  }

  function TailRows<Row>(parse: Parser<Row>, file: seq<Byte>, limit: nat, chunkSize: nat): seq<Row>
    requires chunkSize > 0
  {
    var rows := Rows(parse, file);
    if |rows| >= limit then Last(rows, limit) else LeftoverRow(parse, file, chunkSize) + rows
  }

  // ---------------------------------------------------------------- rows of parts of a file

  lemma {:induction false} RowsOfLinesConcat<Row>(parse: Parser<Row>, a: seq<string>, b: seq<string>)
    ensures RowsOfLines(parse, a + b) == RowsOfLines(parse, a) + RowsOfLines(parse, b)
  {
    if a == [] {
      assert a + b == b;
    } else {
      assert (a + b)[1..] == a[1..] + b;
      RowsOfLinesConcat(parse, a[1..], b);
    }
  }

  lemma RowsAcrossNewline<Row>(parse: Parser<Row>, a: seq<Byte>, b: seq<Byte>)
    ensures Rows(parse, a + [NEWLINE_BYTE] + b) == Rows(parse, a) + Rows(parse, b)
  {
    DecodeAcrossNewline(Idle, a, b);
    SplitConcat(Decode(a), '\n', Decode(b));
    RowsOfLinesConcat(parse, Split(Decode(a), '\n'), Split(Decode(b), '\n'));
  }

  /** The rows behind position `q`, where the file ends or a newline stands at `q`. */
  function RowsBehind<Row>(parse: Parser<Row>, file: seq<Byte>, q: nat): seq<Row>
    requires q <= |file|
  {
    if q == |file| then [] else Rows(parse, file[q + 1..])
  }

  lemma RowsBehindExtended<Row>(parse: Parser<Row>, file: seq<Byte>, start: nat, q: nat)
    requires start <= q <= |file| && (q < |file| ==> file[q] == NEWLINE_BYTE)
    ensures Rows(parse, file[start..q]) + RowsBehind(parse, file, q) == Rows(parse, file[start..])
  {
    if q == |file| {
      assert file[start..q] == file[start..];
    } else {
      assert file[start..] == file[start..q] + [NEWLINE_BYTE] + file[q + 1..];
      RowsAcrossNewline(parse, file[start..q], file[q + 1..]);
    }
  }

  // ---------------------------------------------------------------- newest first

  /** The last `limit` rows, newest first: what `collected` holds. */
  function Newest<Row>(rows: seq<Row>, limit: nat): (r: seq<Row>)
    ensures |r| == if |rows| < limit then |rows| else limit
  {
    if rows == [] then [] else
    var newer := Newest(rows[1..], limit);
    if |newer| < limit then newer + [rows[0]] else newer
  }

  function Reversed<T>(s: seq<T>): (r: seq<T>)
    ensures |r| == |s| && forall i :: 0 <= i < |s| ==> r[i] == s[|s| - 1 - i]
  {
    if s == [] then [] else Reversed(s[1..]) + [s[0]]
  }

  lemma {:induction false} NewestReversed<Row>(rows: seq<Row>, limit: nat)
    ensures Reversed(Newest(rows, limit)) == Last(rows, limit)
  {
    if rows != [] {
      NewestReversed(rows[1..], limit);
      var newer := Newest(rows[1..], limit);
      if |newer| < limit {
        assert Reversed(newer + [rows[0]]) == [rows[0]] + Reversed(newer);
        assert rows == [rows[0]] + rows[1..];
      }
    }
  }

  lemma {:induction false} NewestFull<Row>(older: seq<Row>, rows: seq<Row>, limit: nat)
    requires |rows| >= limit
    ensures Newest(older + rows, limit) == Newest(rows, limit)
  {
    if older == [] {
      assert older + rows == rows;
    } else {
      assert (older + rows)[1..] == older[1..] + rows;
      NewestFull(older[1..], rows, limit);
    }
  }

  // ---------------------------------------------------------------- the reader

  ghost predicate FreeOfNewlines(file: seq<Byte>, start: nat, end: nat) {
    start <= end <= |file| && forall k :: start <= k < end ==> file[k] != NEWLINE_BYTE
  }

  ghost predicate HasLongLine(file: seq<Byte>, length: nat) {
    exists start: nat, end: nat :: FreeOfNewlines(file, start, end) && end - start > length
  }

  /** `carry` is what stands in the file from `position` to `q`: a line without its newline. */
  ghost predicate Carried(file: seq<Byte>, position: nat, q: nat, carry: seq<Byte>) {
    && FreeOfNewlines(file, position, q) && carry == file[position..q]
    && (q < |file| ==> file[q] == NEWLINE_BYTE)
  }

  lemma {:induction false} FirstNewlineIs(bytes: seq<Byte>, k: nat)
    requires k <= |bytes| && (forall i :: 0 <= i < k ==> bytes[i] != NEWLINE_BYTE)
    requires k < |bytes| ==> bytes[k] == NEWLINE_BYTE
    ensures FirstNewline(bytes) == k
  {
  }

  lemma CarryAtHeadIsLeftover(file: seq<Byte>, position: nat, q: nat, carry: seq<Byte>, chunkSize: nat)
    requires 0 < position <= chunkSize && Carried(file, position, q, carry)
    requires HeadLength(|file|, chunkSize) == position
    ensures carry == LeftoverCarry(file, chunkSize)
  {
    var rest, k := file[position..], q - position;
    forall i | 0 <= i < k ensures rest[i] != NEWLINE_BYTE {
      assert rest[i] == file[position + i];
    }
    FirstNewlineIs(rest, k);
    assert rest[..k] == carry;
  }

  /** Cutting a chunk at its first newline, if there is one, leaves a carry. */
  lemma CarryShrinks(file: seq<Byte>, offset: nat, q: nat, buf: seq<Byte>, k: nat)
    requires offset + k <= q <= |file| && (q < |file| ==> file[q] == NEWLINE_BYTE)
    requires buf == file[offset..q] && FirstNewline(buf) == k
    ensures k == |buf| ==> Carried(file, offset, q, buf)
    ensures k < |buf| ==> Carried(file, offset, offset + k, buf[..k]) && offset + k < q
    ensures k < |buf| ==> buf[k + 1..] == file[offset + k + 1..q]
  {
    forall i | offset <= i < offset + k ensures file[i] != NEWLINE_BYTE {
      assert file[i] == buf[i - offset];
    }
    if offset + k < q {
      assert file[offset + k] == buf[k];
    }
    assert buf[..k] == file[offset..offset + k];
  }

  lemma LineJoins<Row>(parse: Parser<Row>, lines: seq<string>, i: nat, newer: seq<Row>)
    requires i < |lines|
    ensures RowsOfLines(parse, lines[i..]) + newer
         == RowsOfLine(parse, lines[i]) + (RowsOfLines(parse, lines[i + 1..]) + newer)
  {
    assert lines[i..][1..] == lines[i + 1..];
  }

  lemma FullEarly<Row>(parse: Parser<Row>, lines: seq<string>, i: nat, newer: seq<Row>, limit: nat)
    requires i <= |lines| && |Newest(RowsOfLines(parse, lines[i..]) + newer, limit)| == limit
    ensures Newest(RowsOfLines(parse, lines) + newer, limit)
         == Newest(RowsOfLines(parse, lines[i..]) + newer, limit)
  {
    var older, rows := RowsOfLines(parse, lines[..i]), RowsOfLines(parse, lines[i..]) + newer;
    RowsOfLinesConcat(parse, lines[..i], lines[i..]);
    assert lines[..i] + lines[i..] == lines;
    var here := RowsOfLines(parse, lines[i..]);
    assert (older + here) + newer == older + (here + newer);
    NewestFull(older, rows, limit);
  }

  lemma NewestCons<Row>(row: Row, rows: seq<Row>, limit: nat)
    requires |Newest(rows, limit)| < limit
    ensures Newest([row] + rows, limit) == Newest(rows, limit) + [row]
  {
    assert ([row] + rows)[1..] == rows;
  }

  /** The walk over the lines of one chunk, newest first. */
  method PushRows<Row>(parse: Parser<Row>, lines: seq<string>, before: seq<Row>, ghost newer: seq<Row>, limit: nat)
      returns (collected: seq<Row>)
    requires before == Newest(newer, limit) && |before| < limit
    ensures collected == Newest(RowsOfLines(parse, lines) + newer, limit)
  {
    collected := before;
    var i := |lines|;
    assert RowsOfLines(parse, lines[i..]) + newer == newer;
    while i > 0
      invariant 0 <= i <= |lines| && |collected| < limit
      invariant collected == Newest(RowsOfLines(parse, lines[i..]) + newer, limit)
    {
      i := i - 1;
      var line := lines[i];
      ghost var rows := RowsOfLines(parse, lines[i + 1..]) + newer;
      LineJoins(parse, lines, i, newer);
      assert [] + rows == rows;
      if Trim(line) == "" {
        continue;
      }
      var data := parse(line);
      if data.Some? {
        NewestCons(data.value, rows, limit);
        collected := collected + [data.value];
        if |collected| >= limit {
          FullEarly(parse, lines, i, newer, limit);
          return;
        }
      }
    }
    assert lines[0..] == lines;
  }

  /** The chunk from `offset` to `position`, joined with the carry. */
  method ReadBuffer(file: seq<Byte>, offset: nat, position: nat, ghost q: nat, carry: seq<Byte>) returns (buf: seq<Byte>)
    requires offset <= position && Carried(file, position, q, carry)
    ensures buf == file[offset..q]
  {
    buf := file[offset..position] + carry;
  }

  /** Decodes complete lines as one block and walks over them. The block stands between the newline at
      `cut`, or the head of the file if `cut` is -1, and `q`. */
  method PushLines<Row>(parse: Parser<Row>, ghost file: seq<Byte>, bytes: seq<Byte>, ghost cut: int, ghost q: nat,
                        collected: seq<Row>, limit: nat)
      returns (pushed: seq<Row>)
    requires -1 <= cut < q <= |file| && (q < |file| ==> file[q] == NEWLINE_BYTE) && bytes == file[cut + 1..q]
    requires collected == Newest(RowsBehind(parse, file, q), limit) && |collected| < limit
    ensures cut == -1 ==> pushed == Newest(Rows(parse, file), limit)
    ensures cut >= 0 ==> pushed == Newest(RowsBehind(parse, file, cut), limit)
  {
    assert file[0..] == file;
    var lines := Split(Decode(bytes), '\n');
    pushed := PushRows(parse, lines, collected, RowsBehind(parse, file, q), limit);
    RowsBehindExtended(parse, file, cut + 1, q);
  }

  method CutAt(buf: seq<Byte>, firstNl: nat, ghost file: seq<Byte>, ghost offset: nat, ghost q: nat)
      returns (carry: seq<Byte>, complete: seq<Byte>)
    requires offset <= q <= |file| && (q < |file| ==> file[q] == NEWLINE_BYTE)
    requires buf == file[offset..q] && FirstNewline(buf) == firstNl < |buf|
    ensures Carried(file, offset, offset + firstNl, carry)
    ensures complete == file[offset + firstNl + 1..q]
  {
    CarryShrinks(file, offset, q, buf, firstNl);
    carry, complete := buf[..firstNl], buf[firstNl + 1..];
  }

  /** A chunk that does not reach the head: the new carry and rows, or no value if the carry grew too
      long. The old carry ends at `q`, the new one at `cut`. */
  method ReadChunk<Row>(parse: Parser<Row>, file: seq<Byte>, limit: nat, maxCarry: nat, offset: nat, position: nat,
                        ghost q: nat, carry: seq<Byte>, collected: seq<Row>)
      returns (next: Option<(seq<Byte>, seq<Row>)>, ghost cut: nat)
    requires offset <= position && Carried(file, position, q, carry)
    requires collected == Newest(RowsBehind(parse, file, q), limit) && |collected| < limit
    ensures next.Some? ==> Carried(file, offset, cut, next.value.0)
                           && next.value.1 == Newest(RowsBehind(parse, file, cut), limit)
    ensures next.None? ==> HasLongLine(file, maxCarry)
  {
    var buf := ReadBuffer(file, offset, position, q, carry);
    var firstNl := FirstNewline(buf);
    if firstNl == |buf| {
      CarryShrinks(file, offset, q, buf, firstNl);
      if |buf| > maxCarry {
        return None, q;
      }
      return Some((buf, collected)), q;
    }
    cut := offset + firstNl;
    var nextCarry, complete := CutAt(buf, firstNl, file, offset, q);
    var rows := PushLines(parse, file, complete, cut, q, collected, limit);
    next := Some((nextCarry, rows));
  }

  /** `readTailMessages`; no value means that it throws. At the head of the file the carry is stale: its
      bytes were joined with the head chunk already. */
  method ReadTailMessages<Row>(parse: Parser<Row>, file: seq<Byte>, limit: nat, chunkSize: nat, maxCarry: nat)
      returns (result: Option<seq<Row>>)
    requires limit > 0 && chunkSize > 0
    ensures result.Some? ==> result.value == TailRows(parse, file, limit, chunkSize)
    ensures result.None? ==> HasLongLine(file, maxCarry)
  {
    if |file| == 0 {
      return Some([]);
    }
    var collected: seq<Row> := [];
    var carry: seq<Byte> := [];
    var position: nat := |file|;
    ghost var q: nat := |file|;
    while position > 0 && |collected| < limit
      invariant position > 0 ==> position <= q <= |file|
      invariant position > 0 ==> HeadLength(|file|, chunkSize) == HeadLength(position, chunkSize)
      invariant position > 0 ==> Carried(file, position, q, carry)
      invariant position > 0 ==> collected == Newest(RowsBehind(parse, file, q), limit)
      invariant position == 0 ==> collected == Newest(Rows(parse, file), limit)
      invariant position == 0 ==> carry == LeftoverCarry(file, chunkSize)
    {
      var readSize := if chunkSize < position then chunkSize else position;
      var offset := position - readSize;
      if offset > 0 {
        var next, cut := ReadChunk(parse, file, limit, maxCarry, offset, position, q, carry, collected);
        if next.None? {
          return None;
        }
        carry, collected, position, q := next.value.0, next.value.1, offset, cut;
      } else {
        var buf := ReadBuffer(file, offset, position, q, carry);
        CarryAtHeadIsLeftover(file, position, q, carry, chunkSize);
        collected := PushLines(parse, file, buf, -1, q, collected, limit);
        position := 0;
      }
    }
    if position > 0 {
      StoppedEarly(parse, file, q, limit);
    }
    collected := TryCarry(parse, collected, carry, limit);
    ReversedIsTail(parse, file, limit, chunkSize, carry, collected);
    return Some(Reversed(collected));
  }

  lemma StoppedEarly<Row>(parse: Parser<Row>, file: seq<Byte>, q: nat, limit: nat)
    requires q <= |file| && (q < |file| ==> file[q] == NEWLINE_BYTE)
    requires |Newest(RowsBehind(parse, file, q), limit)| == limit
    ensures Newest(RowsBehind(parse, file, q), limit) == Newest(Rows(parse, file), limit)
  {
    RowsBehindExtended(parse, file, 0, q);
    assert file[0..] == file;
    NewestFull(Rows(parse, file[0..q]), RowsBehind(parse, file, q), limit);
  }

  /** The block after the loop. */
  method TryCarry<Row>(parse: Parser<Row>, before: seq<Row>, carry: seq<Byte>, limit: nat)
      returns (collected: seq<Row>)
    ensures collected == if |before| < limit then before + RowOfCarry(parse, carry) else before
  {
    collected := before;
    if |collected| < limit && |carry| > 0 {
      var headLine := Trim(Decode(carry));
      if headLine != "" {
        var data := parse(headLine);
        if data.Some? {
          collected := collected + [data.value];
        }
      }
    }
  }

  lemma ReversedIsTail<Row>(parse: Parser<Row>, file: seq<Byte>, limit: nat, chunkSize: nat, carry: seq<Byte>,
                            collected: seq<Row>)
    requires limit > 0 && chunkSize > 0
    requires var before := Newest(Rows(parse, file), limit);
             collected == if |before| < limit then before + RowOfCarry(parse, carry) else before
    requires |Rows(parse, file)| < limit ==> carry == LeftoverCarry(file, chunkSize)
    ensures Reversed(collected) == TailRows(parse, file, limit, chunkSize)
  {
    var rows := Rows(parse, file);
    NewestReversed(rows, limit);
    if |rows| < limit {
      var extra := RowOfCarry(parse, carry);
      assert Reversed(Newest(rows, limit) + extra) == extra + Reversed(Newest(rows, limit));
    }
  }

  // ---------------------------------------------------------------- loading

  /** The fallback's limit: `messages.slice(-limit)` when there are more messages than the limit, and
      everything when the limit is zero. */
  function Limited<Row>(rows: seq<Row>, limit: int): seq<Row> {
    if limit == 0 || |rows| <= limit then rows
    else if limit > 0 then rows[|rows| - limit..]
    else if -limit <= |rows| then rows[-limit..]
    else []
  }

  method ReadAllMessages<Row>(parse: Parser<Row>, file: seq<Byte>) returns (messages: seq<Row>)
    ensures messages == Rows(parse, file)
  {
    messages := [];
    var lines := Split(Decode(file), '\n');
    var i := 0;
    while i < |lines|
      invariant 0 <= i <= |lines|
      invariant messages == RowsOfLines(parse, lines[..i])
    {
      var line := lines[i];
      LineAppended(parse, lines, i);
      assert messages + [] == messages;
      if Trim(line) != "" {
        var data := parse(line);
        if data.Some? {
          messages := messages + [data.value];
        }
      }
      i := i + 1;
    }
    assert lines[..i] == lines;
  }

  lemma LineAppended<Row>(parse: Parser<Row>, lines: seq<string>, i: nat)
    requires i < |lines|
    ensures RowsOfLines(parse, lines[..i + 1]) == RowsOfLines(parse, lines[..i]) + RowsOfLine(parse, lines[i])
  {
    assert lines[..i + 1] == lines[..i] + [lines[i]];
    RowsOfLinesConcat(parse, lines[..i], [lines[i]]);
    assert RowsOfLines(parse, [lines[i]]) == RowsOfLine(parse, lines[i]) + [] == RowsOfLine(parse, lines[i]);
  }

  /** `loadSessionHistory`. An absent file has no value; the two flags stand for I/O errors of the
      tail reader and of the full read. */
  method LoadSessionHistory<Row(==)>(parse: Parser<Row>, file: Option<seq<Byte>>, limit: int, chunkSize: nat,
                                 maxCarry: nat, tailReadFails: bool, fullReadFails: bool)
      returns (messages: seq<Row>)
    requires chunkSize > 0
    ensures file.None? ==> messages == []
    ensures file.Some? && limit > 0 && !tailReadFails && !HasLongLine(file.value, maxCarry)
            ==> messages == TailRows(parse, file.value, limit, chunkSize)
    ensures file.Some? && limit > 0 && !tailReadFails && !HasLongLine(file.value, maxCarry)
            ==> (messages == Last(Rows(parse, file.value), limit)
                 <==> |Rows(parse, file.value)| >= limit || LeftoverRow(parse, file.value, chunkSize) == [])
    ensures file.Some? && limit > 0 && tailReadFails && !fullReadFails
            ==> messages == Last(Rows(parse, file.value), limit)
    ensures file.Some? && limit > 0 && !fullReadFails
            ==> messages in {TailRows(parse, file.value, limit, chunkSize), Last(Rows(parse, file.value), limit)}
    ensures file.Some? && limit == 0 && !fullReadFails ==> messages == Rows(parse, file.value)
    ensures file.Some? && limit < 0 && !fullReadFails
            ==> var rows := Rows(parse, file.value);
                messages == if |rows| <= -limit then [] else rows[-limit..]
    ensures fullReadFails && (limit <= 0 || tailReadFails) ==> messages == []
  {
    if file.None? {
      return [];
    }
    if limit > 0 && !tailReadFails {
      var tail := ReadTailMessages(parse, file.value, limit, chunkSize, maxCarry);
      if tail.Some? {
        TailIsLastUnlessCarryParses(parse, file.value, limit, chunkSize);
        return tail.value;
      }
    }
    messages := [];
    if !fullReadFails {
      messages := ReadAllMessages(parse, file.value);
    }
    return Limited(messages, limit);
  }

  // ---------------------------------------------------------------- main results

  /** The backward reader returns the last rows of the full parse exactly when there are enough of them
      or the leftover carry yields no row; otherwise it returns all of them and that row in front. */
  lemma TailIsLastUnlessCarryParses<Row>(parse: Parser<Row>, file: seq<Byte>, limit: nat, chunkSize: nat)
    requires limit > 0 && chunkSize > 0
    ensures TailRows(parse, file, limit, chunkSize) == Last(Rows(parse, file), limit)
            <==> |Rows(parse, file)| >= limit || LeftoverRow(parse, file, chunkSize) == []
    ensures |TailRows(parse, file, limit, chunkSize)| <= limit
    ensures |file| <= chunkSize ==> TailRows(parse, file, limit, chunkSize) == Last(Rows(parse, file), limit)
  {
    var rows := Rows(parse, file);
    if |rows| < limit {
      assert |LeftoverRow(parse, file, chunkSize) + rows| == |LeftoverRow(parse, file, chunkSize)| + |rows|;
    }
  }

  /** A session file: the text of every row on a line of its own. */
  function FileOf<Row>(write: Row -> string, rows: seq<Row>): seq<Byte> {
    Encoded(LinesOf(write, rows))
  }

  function LinesOf<Row>(write: Row -> string, rows: seq<Row>): string {
    if rows == [] then "" else write(rows[0]) + "\n" + LinesOf(write, rows[1..])
  }

  /** The text of a row is one line, is not blank and parses as the row. */
  predicate IsWriter<Row(==)>(parse: Parser<Row>, write: Row -> string, rows: seq<Row>) {
    forall i :: 0 <= i < |rows| ==>
      var line := write(rows[i]);
      '\n' !in line && Trim(line) != "" && parse(line) == Some(rows[i])
  }

  lemma OneLineMore<Row>(parse: Parser<Row>, line: string, row: Row, more: string)
    requires '\n' !in line && Trim(line) != "" && parse(line) == Some(row)
    ensures RowsOfLines(parse, Split(line + ['\n'] + more, '\n')) == [row] + RowsOfLines(parse, Split(more, '\n'))
  {
    SplitConcat(line, '\n', more);
    SplitWhole(line, '\n');
    RowsOfLinesConcat(parse, [line], Split(more, '\n'));
    assert RowsOfLines(parse, [line]) == [row] + RowsOfLines(parse, []);
  }

  lemma {:induction false} LinesAreRows<Row>(parse: Parser<Row>, write: Row -> string, rows: seq<Row>)
    requires IsWriter(parse, write, rows)
    ensures RowsOfLines(parse, Split(LinesOf(write, rows), '\n')) == rows
  {
    if rows == [] {
      assert Trim("") == "" && Split("", '\n') == [""];
    } else {
      var line := write(rows[0]);
      assert line == write(rows[0]) && parse(line) == Some(rows[0]);
      OneLineMore(parse, line, rows[0], LinesOf(write, rows[1..]));
      LinesAreRows(parse, write, rows[1..]);
    }
  }

  /** The rows written to a session file are the rows read from it, whatever characters they contain; and the
      backward reader returns the last of them. */
  lemma WrittenRowsAreRead<Row>(parse: Parser<Row>, write: Row -> string, rows: seq<Row>, limit: nat, chunkSize: nat)
    requires IsWriter(parse, write, rows) && 0 < limit <= |rows| && chunkSize > 0
    ensures Rows(parse, FileOf(write, rows)) == rows
    ensures TailRows(parse, FileOf(write, rows), limit, chunkSize) == rows[|rows| - limit..]
  {
    DecodeEncoded(LinesOf(write, rows));
    LinesAreRows(parse, write, rows);
  }

  function Blanks(n: nat): (b: seq<Byte>)
    ensures |b| == n && forall i :: 0 <= i < n ==> b[i] == 0x20
  {
    seq(n, _ => 0x20)
  }

  function Spaces(n: nat): string {
    if n == 0 then "" else " " + Spaces(n - 1)
  }

  lemma DecodeBlank(bytes: seq<Byte>)
    ensures Decode([0x20] + bytes) == " " + Decode(bytes)
  {
    DecodeStep(Idle, 0x20, bytes);
  }

  lemma BlanksCons(n: nat, line: seq<Byte>)
    requires n > 0
    ensures Blanks(n) + line == [0x20] + (Blanks(n - 1) + line)
  {
    assert Blanks(n) == [0x20] + Blanks(n - 1);
  }

  lemma SpacesCons(n: nat, s: string)
    requires n > 0
    ensures Spaces(n) + s == " " + (Spaces(n - 1) + s)
  {
  }

  lemma {:induction false} DecodeBlanks(n: nat, line: seq<Byte>)
    ensures Decode(Blanks(n) + line) == Spaces(n) + Decode(line)
  {
    if n == 0 {
      assert Blanks(0) + line == line;
    } else {
      DecodeBlanks(n - 1, line);
      BlanksCons(n, line);
      DecodeBlank(Blanks(n - 1) + line);
      SpacesCons(n, Decode(line));
    }
  }

  lemma {:induction false} TrimSpaces(n: nat, s: string)
    ensures Trim(Spaces(n) + s) == Trim(s)
  {
    if n == 0 {
      assert "" + s == s;
    } else {
      TrimSpaces(n - 1, s);
      assert IsWhitespace(' ') && (Spaces(n) + s)[1..] == Spaces(n - 1) + s;
    }
  }

  lemma {:induction false} HeadOfWholeChunks(n: nat, chunks: nat, chunkSize: nat)
    requires 0 < n <= chunkSize
    ensures HeadLength(n + chunks * chunkSize, chunkSize) == n
  {
    if chunks > 0 {
      assert n + chunks * chunkSize - chunkSize == n + (chunks - 1) * chunkSize;
      HeadOfWholeChunks(n, chunks - 1, chunkSize);
    }
  }

  /** The deviation happens for every chunk size and parser: the only line of a file begins with blanks that just
      fill the head chunk, and the rest of the line fills whole chunks. If it parses with and without the blanks
      around it, as JSON does, its row is returned twice when two or more rows are asked for. */
  lemma CarryParsesTwice<Row>(parse: Parser<Row>, blanks: nat, line: seq<Byte>, chunks: nat, limit: nat, chunkSize: nat)
    requires 0 < blanks <= chunkSize && chunks > 0 && |line| == chunks * chunkSize && NEWLINE_BYTE !in line && limit > 1
    requires Trim(Decode(line)) != "" && parse(Trim(Decode(line))).Some? && parse(Spaces(blanks) + Decode(line)).Some?
    ensures var file := Blanks(blanks) + line;
            && Rows(parse, file) == [parse(Spaces(blanks) + Decode(line)).value]
            && TailRows(parse, file, limit, chunkSize) == [parse(Trim(Decode(line))).value] + Rows(parse, file)
  {
    var file, text := Blanks(blanks) + line, Spaces(blanks) + Decode(line);
    DecodeBlanks(blanks, line);
    TrimSpaces(blanks, Decode(line));
    assert NEWLINE_BYTE !in file;
    NewlineSurvives(Idle, file);
    SplitWhole(text, '\n');
    assert Rows(parse, file) == RowsOfLine(parse, text) + RowsOfLines(parse, []);
    HeadOfWholeChunks(blanks, chunks, chunkSize);
    assert file[blanks..] == line;
    FirstNewlineIs(line, |line|);
    assert line[..|line|] == line && LeftoverCarry(file, chunkSize) == line;
  }
}
