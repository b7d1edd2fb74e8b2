/** Source spans, the compiler's error conditions, and the position helpers of
    `hanno/errors.py`: `merge`, `relative_pos` and `make_pointer`. */
module Errors {
  import opened Wrappers
  import opened Text

  /** A half-open range of character offsets, `(start, end)`. */
  type Span = (nat, nat)

  /** The places where an irrefutable pattern is required. */
  datatype PatternPosition = Case | Parameter | Target

  /** The exceptions raised by the compiler's core, Python's own included. */
  datatype CompilerError =
    | IllegalChar(span: Span)
    | UnexpectedToken(at: Span)
    | UnexpectedEOF
    | UndefinedName(name: string)
    | CircularType
    | TypeMismatch
    | RefutablePattern(position: PatternPosition)
    | ValueError
    | TypeError
    | OverflowError
    | ZeroDivision
    | IndexError
    | AttributeError

  /** The smallest span covering both arguments. */
  function Merge(left: Span, right: Span): (r: Span)
    ensures r.0 <= left.0 && r.0 <= right.0 && (r.0 == left.0 || r.0 == right.0)
    ensures r.1 >= left.1 && r.1 >= right.1 && (r.1 == left.1 || r.1 == right.1)
  {
    (if left.0 <= right.0 then left.0 else right.0, if left.1 >= right.1 then left.1 else right.1)
  }

  lemma MergeCommutative(a: Span, b: Span)
    ensures Merge(a, b) == Merge(b, a)
  {}

  lemma MergeIdempotent(a: Span)
    ensures Merge(a, a) == a
  {}

  lemma MergeAssociative(a: Span, b: Span, c: Span)
    ensures Merge(Merge(a, b), c) == Merge(a, Merge(b, c))
  {}

  /** `column` characters before `pos` lie on the same line, and they reach
      back to the start of that line. */
  predicate IsColumn(source: string, pos: nat, column: nat)
    requires pos <= |source|
  {
    column <= pos
    && (forall j :: pos - column <= j < pos ==> source[j] != '\n')
    && (pos == column || source[pos - column - 1] == '\n')
  }

  /** `relative_pos`: the (column, line) of an offset, lines counted from 1. */
  function RelativePos(absPos: nat, source: string): (r: Result<(nat, nat), CompilerError>)
    ensures r.Err? <==> absPos >= |source|
    ensures r.Err? ==> r.error == ValueError
    ensures r.Ok? ==> IsColumn(source, absPos, r.value.0)
    ensures r.Ok? ==> r.value.1 == 1 + Count(source[..absPos], '\n')
  {
    if absPos >= |source| then Err(ValueError)
    else
      var column := absPos - RFind(source, '\n', absPos) - 1;
      Ok((if column < 0 then 0 else column, 1 + Count(source[..absPos], '\n')))
  }

  /** Stepping over a newline starts a new line at column 0. */
  lemma RelativePosAfterNewline(source: string, pos: nat)
    requires pos + 1 < |source| && source[pos] == '\n'
    ensures RelativePos(pos + 1, source) == Ok((0, RelativePos(pos, source).value.1 + 1))
  {
    assert source[..pos + 1][..pos] == source[..pos];
  }

  /** Stepping over any other character moves one column right on the same line. */
  lemma RelativePosAfterChar(source: string, pos: nat)
    requires pos + 1 < |source| && source[pos] != '\n'
    ensures RelativePos(pos + 1, source)
         == Ok((RelativePos(pos, source).value.0 + 1, RelativePos(pos, source).value.1))
  {
    assert source[..pos + 1][..pos] == source[..pos];
  }

  /** The text `p` ends with `|`, then `column` underscores, then the carets. */
  predicate EndsWithPointer(p: string, column: nat, carets: nat) {
    |p| >= column + carets + 1
    && p[|p| - carets..] == Repeat('^', carets)
    && p[|p| - carets - column..|p| - carets] == Repeat('_', column)
    && p[|p| - carets - column - 1] == '|'
  }

  lemma PointerSuffix(head: string, tail: string, column: nat, carets: nat)
    requires tail == "|" + Repeat('_', column) + Repeat('^', carets)
    ensures EndsWithPointer(head + tail, column, carets)
  {
    var p := head + tail;
    assert p[|p| - carets..] == Repeat('^', carets);
    assert p[|p| - carets - column..|p| - carets] == Repeat('_', column);
  }

  /** The text `p` starts with the line number, a space and `|`. */
  predicate StartsWithLine(p: string, line: nat) {
    var number := NatToString(line);
    |p| >= |number| + 2 && p[..|number| + 2] == number + " |"
  }

  lemma PointerPrefix(line: nat, start: string, p: string)
    requires start == NatToString(line) + " |"
    requires |p| >= |start| && p[..|start|] == start
    ensures StartsWithLine(p, line)
  {
  }

  /** The pointer text is the numbered line followed by the pointer row. */
  lemma PointerLayout(line: nat, start: string, middle: string, tail: string, text: string, column: nat, carets: nat)
    requires start == NatToString(line) + " |"
    requires tail == "|" + Repeat('_', column) + Repeat('^', carets)
    requires text == start + middle + tail
    ensures EndsWithPointer(text, column, carets) && StartsWithLine(text, line)
  {
    PointerSuffix(start + middle, tail, column, carets);
    assert text[..|start|] == start;
    PointerPrefix(line, start, text);
  }

  /** `make_pointer`: the offending source line with its line number, and under it
      a row of underscores up to the span's start and one caret per character of
      the span. */
  function MakePointer(span: Span, source: string): (r: Result<string, CompilerError>)
    ensures r.Err? <==> span.0 >= |source|
    ensures r.Ok? ==> EndsWithPointer(r.value, RelativePos(span.0, source).value.0,
                                      if span.1 < span.0 then 0 else span.1 - span.0)
    ensures r.Ok? ==> StartsWithLine(r.value, RelativePos(span.0, source).value.1)
  {
    if span.0 >= |source| then Err(ValueError)
    else
      var pos := RelativePos(span.0, source).value;
      var line := pos.1;
      var lineStart := 1 + RFind(source, '\n', span.0);
      assert pos.0 == span.0 - lineStart;
      var lineEnd := Find(source, '\n', span.0);
      var sourceLine := if lineEnd == -1 then source[lineStart..] else source[lineStart..lineEnd];
      var preface := NatToString(line) + " ";
      var carets: nat := if span.1 < span.0 then 0 else span.1 - span.0;
      var start := preface + "|";
      var middle := sourceLine + "\n" + Repeat(' ', |preface|);
      var tail := "|" + Repeat('_', pos.0) + Repeat('^', carets);
      var text := start + middle + tail;
      PointerLayout(line, start, middle, tail, text, pos.0, carets);
      Ok(text)
  }
}
