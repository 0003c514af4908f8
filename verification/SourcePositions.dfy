/** Lines, columns and carets in diagnostics (compiler/src/source.rs), over the bytes of a file. */
module SourcePositions {
  import opened Prelude

  function Newlines(s: string, to: nat): nat
    requires to <= |s|
  {
    if to == 0 then 0 else Newlines(s, to - 1) + (if s[to - 1] == '\n' then 1 else 0)
  }

  /** Where the line of `at` begins: after the last newline before it. */
  function LineStart(s: string, at: nat): (r: nat)
    requires at <= |s|
    ensures r <= at
    ensures r > 0 ==> s[r - 1] == '\n'
    ensures forall i :: r <= i < at ==> s[i] != '\n'
  {
    if at == 0 || s[at - 1] == '\n' then at else LineStart(s, at - 1)
  }

  function LineEnd(s: string, at: nat): (r: nat)
    requires at <= |s|
    ensures at <= r <= |s|
    ensures r < |s| ==> s[r] == '\n'
    ensures forall i :: at <= i < r ==> s[i] != '\n'
    decreases |s| - at
  {
    if at == |s| || s[at] == '\n' then at else LineEnd(s, at + 1)
  }

  /** The part of the text an offset, which may lie past the end, looks back on. */
  function Clip(s: string, offset: nat): (r: nat)
    ensures r <= |s|
  {
    if offset <= |s| then offset else |s|
  }

  /** line_column: lines and columns count from one. */
  method LineColumn(source: string, offset: nat) returns (line: nat, column: nat)
    ensures line == 1 + Newlines(source, Clip(source, offset))
    ensures column == offset - LineStart(source, Clip(source, offset)) + 1
  {
    line := 1;
    var lastNewline := 0;
    var index := 0;
    while index < |source|
      invariant 0 <= index <= Clip(source, offset)
      invariant line == 1 + Newlines(source, index) && lastNewline == LineStart(source, index)
    {
      if index >= offset {
        break;
      }
      if source[index] == '\n' {
        line := line + 1;
        lastNewline := index + 1;
      }
      index := index + 1;
    }
    column := offset - lastNewline + 1;
  }

  /** line_bounds: the line without its newline or a carriage return before it. */
  function LineBounds(s: string, offset: nat): Option<(nat, nat)> {
    if offset > |s| then None
    else
      var start, end := LineStart(s, offset), LineEnd(s, offset);
      Some((start, if end > start && s[end - 1] == '\r' then end - 1 else end))
  }

  /** The line of an offset: from after a newline to before the next, less a carriage return at its end. */
  lemma LineBoundsExactly(s: string, offset: nat, end: nat)
    requires offset <= end <= |s| && (end == |s| || s[end] == '\n') && forall i :: offset <= i < end ==> s[i] != '\n'
    ensures LineBounds(s, offset).Some?
    ensures var (from, to) := LineBounds(s, offset).value;
            && from <= offset && from <= to <= end && (from == 0 || s[from - 1] == '\n')
            && (forall i :: from <= i < end ==> s[i] != '\n')
            && to == if from < end && s[end - 1] == '\r' then end - 1 else end
  {
    assert LineEnd(s, offset) == end;
  }

  // ----- positions determine offsets -----

  lemma {:induction false} NewlinesMonotone(s: string, a: nat, b: nat)
    requires a <= b <= |s|
    ensures Newlines(s, a) <= Newlines(s, b)
    ensures Newlines(s, a) == Newlines(s, b) <==> forall i :: a <= i < b ==> s[i] != '\n'
    decreases b - a
  {
    if a < b {
      NewlinesMonotone(s, a, b - 1);
    }
  }

  lemma {:induction false} SameLineStart(s: string, a: nat, b: nat)
    requires a <= b <= |s| && forall i :: a <= i < b ==> s[i] != '\n'
    ensures LineStart(s, a) == LineStart(s, b)
    decreases b - a
  {
    if a < b {
      SameLineStart(s, a, b - 1);
    }
  }

  /** Two offsets in the file with one line and column are one offset. */
  lemma PositionsAreUnique(s: string, a: nat, b: nat)
    requires a <= |s| && b <= |s|
    requires Newlines(s, a) == Newlines(s, b) && a - LineStart(s, a) == b - LineStart(s, b)
    ensures a == b
  {
    var lo, hi := if a <= b then a else b, if a <= b then b else a;
    NewlinesMonotone(s, lo, hi);
    SameLineStart(s, lo, hi);
  }

  // ----- the frame -----

  function Repeat(c: char, n: nat): (r: string)
    ensures |r| == n && forall i :: 0 <= i < n ==> r[i] == c
  {
    seq(n, _ => c)
  }

  function Decimal(n: nat): (r: string)
    ensures |r| > 0
  {
    if n < 10 then ["0123456789"[n]] else Decimal(n / 10) + ["0123456789"[n % 10]]
  }

  function ReadDecimal(text: string): nat
    requires AllDigits(text)
  {
    if text == "" then 0 else 10 * ReadDecimal(text[..|text| - 1]) + (text[|text| - 1] as nat - '0' as nat)
  }

  predicate AllDigits(text: string) {
    forall i :: 0 <= i < |text| ==> '0' <= text[i] <= '9'
  }

  lemma DigitIs(d: nat)
    requires d < 10
    ensures '0' <= "0123456789"[d] <= '9' && "0123456789"[d] as nat - '0' as nat == d
  {
  }

  lemma ReadSnoc(text: string, c: char)
    requires AllDigits(text) && '0' <= c <= '9'
    ensures AllDigits(text + [c]) && ReadDecimal(text + [c]) == 10 * ReadDecimal(text) + (c as nat - '0' as nat)
  {
    assert (text + [c])[..|text|] == text;
  }

  /** The printed number reads back. */
  lemma {:induction false} DecimalReadsBack(n: nat)
    ensures AllDigits(Decimal(n)) && ReadDecimal(Decimal(n)) == n
  {
    DigitIs(n % 10);
    if n < 10 {
      ReadSnoc("", "0123456789"[n]);
      assert "" + ["0123456789"[n]] == Decimal(n);
    } else {
      DecimalReadsBack(n / 10);
      ReadSnoc(Decimal(n / 10), "0123456789"[n % 10]);
    }
  }

  /** A number has two digits exactly from 10 to 99. */
  lemma TwoDigits(n: nat)
    ensures |Decimal(n)| == 2 <==> 10 <= n <= 99
  {
    if n >= 100 {
      assert |Decimal(n)| == |Decimal(n / 10)| + 1 && |Decimal(n / 10)| == |Decimal(n / 10 / 10)| + 1;
    }
  }

  const CARET_MARGIN := "   | "

  /** The row of text: its margin is as wide as the line number is long. */
  function TextRow(line: nat, text: string): string {
    Decimal(line) + " | " + text
  }

  /** The row of carets: its margin is fixed. */
  function CaretRow(column: nat, underline: nat, width: nat): string {
    CARET_MARGIN + Repeat(' ', if column == 0 then 0 else column - 1)
    + Repeat('^', if underline <= width + 1 then underline else width + 1)
  }

  /** The two last rows of a frame as they are printed, and the position in its first. */
  datatype Frame = Frame(line: nat, column: nat, textRow: string, caretRow: string)

  /** source_frame, from the third row on. */
  method SourceFrame(source: string, start: nat, end: nat) returns (r: Option<Frame>)
    ensures r.None? <==> start > |source|
    ensures r.Some? ==>
              var (from, to) := LineBounds(source, start).value;
              && from <= to <= |source|
              && r.value.line == 1 + Newlines(source, start) && r.value.column == start - from + 1
              && r.value.textRow == TextRow(1 + Newlines(source, start), source[from..to])
              && r.value.caretRow == CaretRow(start - from + 1, if end > start then end - start else 1, to - from)
  {
    var line, column := LineColumn(source, start);
    var bounds := LineBounds(source, start);
    if bounds.None? {
      return None;
    }
    var text := source[bounds.value.0..bounds.value.1];
    var prefix := Decimal(line) + " | ";
    var underline := if end > start then end - start else 1;
    var carets := CARET_MARGIN;
    carets := carets + Repeat(' ', if column == 0 then 0 else column - 1);
    carets := carets + Repeat('^', if underline <= |text| + 1 then underline else |text| + 1);
    r := Some(Frame(line, column, prefix + text, carets));
  }

  /** Position `i` of a row holds its first caret. */
  predicate FirstCaret(row: string, i: nat) {
    i < |row| && row[i] == '^' && forall j :: 0 <= j < i ==> row[j] != '^'
  }

  lemma FirstCaretIsUnique(row: string, i: nat, j: nat)
    requires FirstCaret(row, i) && FirstCaret(row, j)
    ensures i == j
  {
  }

  /** The framed line holds no newline, and the byte of the span is in its text row after the margin. */
  lemma ByteInRow(source: string, start: nat)
    requires start <= |source|
    ensures var (from, to) := LineBounds(source, start).value;
            && from <= start && from <= to && '\n' !in source[from..to]
            && (start < to ==>
                  var line := 1 + Newlines(source, start);
                  var row := TextRow(line, source[from..to]);
                  |Decimal(line)| + 3 + (start - from) < |row|
                  && row[|Decimal(line)| + 3 + (start - from)] == source[start])
  {
    var (from, to) := LineBounds(source, start).value;
    assert forall i :: from <= i < to ==> source[i] != '\n';
  }

  lemma CaretInRow(column: nat, underline: nat, width: nat)
    requires column > 0 && underline > 0
    ensures FirstCaret(CaretRow(column, underline, width), 5 + (column - 1))
  {
  }

  /** From there on the row is carets: as many as bytes to underline, but at most one past the text. */
  lemma CaretsInRow(column: nat, underline: nat, width: nat)
    requires column > 0
    ensures var row := CaretRow(column, underline, width);
            && |row| == 4 + column + (if underline < width + 1 then underline else width + 1)
            && forall i :: 4 + column <= i < |row| ==> row[i] == '^'
  {
  }

  /**
   The caret row starts with the five bytes that fit a line number of two digits.  So the first
   caret stands under the byte of the span exactly on the lines 10 to 99; on an earlier line it
   stands one byte to the right, from line 100 on to the left.
  */
  lemma CaretIsUnderTheByteExactly(source: string, start: nat, underline: nat, caret: nat)
    requires start <= |source| && underline > 0
    requires var (from, to) := LineBounds(source, start).value;
             FirstCaret(CaretRow(start - from + 1, underline, to - from), caret)
    ensures var (from, to) := LineBounds(source, start).value;
            var line := 1 + Newlines(source, start);
            var byte := |Decimal(line)| + 3 + (start - from);
            && (caret == byte <==> 10 <= line <= 99)
            && (caret == byte + 1 <==> line <= 9)
            && (caret < byte <==> line >= 100)
  {
    var (from, to) := LineBounds(source, start).value;
    var line := 1 + Newlines(source, start);
    CaretInRow(start - from + 1, underline, to - from);
    FirstCaretIsUnique(CaretRow(start - from + 1, underline, to - from), caret, 5 + (start - from));
    TwoDigits(line);
  }

  /** In a file of one line the caret for its first byte stands under the second. */
  lemma CaretMissesOnTheFirstLine()
    ensures LineBounds("ab", 0) == Some((0, 2)) && Newlines("ab", 0) == 0
    ensures TextRow(1, "ab")[4] == 'a' && TextRow(1, "ab")[5] == 'b'
    ensures FirstCaret(CaretRow(1, 1, 2), 5)
  {
    assert LineEnd("ab", 0) == LineEnd("ab", 1) == LineEnd("ab", 2) == 2;
    CaretInRow(1, 1, 2);
  }
}
