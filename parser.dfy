/**
 * WsvParser: the two line parsers (_parseLine keeps the whitespace layout and the comment,
 * _parseLineAsArray keeps the values only) and the entry points built on them. Each parser
 * is a function of the text and the start index, and each method that drives a CharIterator
 * is proved equal to that function.
 */
module WsvParser {
  import opened Wrappers
  import opened WsvChars
  import opened WsvErrors
  import opened WsvCursor
  import opened WsvData

  /**
   * One token of a line at p: a quoted string when t[p] is a quote, otherwise a bare value,
   * with the bare `-` read as the null value.
   */
  function TokenAt(t: Text, p: nat): (r: Result<(Value, nat), ParserError>)
    requires p < |t|
    ensures r.Success? ==> p < r.value.1 <= |t|
  {
    if t[p] == QUOTE then
      match ReadStringFrom(t, p + 1)
      case Success((s, j)) => StringSuccessAt(t, p + 1); Success((Some(s), j))
      case Failure(e) => Failure(e)
    else
      match ReadValueFrom(t, p)
      case Success((s, j)) => Success((if s == [DASH] then None else Some(s), j))
      case Failure(e) => Failure(e)
  }

  /**
   * The loop of _parseLine with the cursor at p, the values and slots read so far, and
   * `whitespace` the slot read last (None when no whitespace was found there).
   */
  function LineLoop(t: Text, p: nat, values: seq<Value>, whitespaces: seq<Option<Text>>, whitespace: Option<Text>)
    : (r: Result<(LineData, nat), ParserError>)
    requires p <= |t|
    ensures r.Success? ==> p <= r.value.1 <= |t|
    decreases |t| - p
  {
    if p == |t| || t[p] == LF || t[p] == HASH then LineEnd(t, p, values, whitespaces, whitespace)
    else
      match TokenAt(t, p)
      case Failure(e) => Failure(e)
      case Success((value, q)) =>
        var w := WhitespaceOrNull(t, q);
        if w.None? then LineEnd(t, q, values + [value], whitespaces, w)
        else LineLoop(t, WhitespaceEnd(t, q), values + [value], whitespaces + [w], w)
  }

  /**
   * The end of _parseLine: an optional comment up to the line feed; after a comment, a slot
   * that was not found is recorded as None.
   */
  function LineEnd(t: Text, p: nat, values: seq<Value>, whitespaces: seq<Option<Text>>, whitespace: Option<Text>)
    : (r: Result<(LineData, nat), ParserError>)
    requires p <= |t|
    ensures r.Success? && p <= r.value.1 <= |t|
  {
    if p < |t| && t[p] == HASH then
      var e := CommentEnd(t, p + 1);
      var slots := if whitespace.None? then whitespaces + [None] else whitespaces;
      Success((LineData(values, Some(slots), Some(t[p + 1..e])), e))
    else Success((LineData(values, Some(whitespaces), None), p))
  }

  /** _parseLine with the cursor at i: the line and the index where it stopped. */
  function LineAt(t: Text, i: nat): (r: Result<(LineData, nat), ParserError>)
    requires i <= |t|
    ensures r.Success? ==> i <= r.value.1 <= |t|
  {
    var w := WhitespaceOrNull(t, i);
    LineLoop(t, WhitespaceEnd(t, i), [], [w], w)
  }

  /** The loop of _parseLineAsArray with the cursor at p and the values read so far. */
  function ArrayLoop(t: Text, p: nat, values: seq<Value>): (r: Result<(seq<Value>, nat), ParserError>)
    requires p <= |t|
    ensures r.Success? ==> p <= r.value.1 <= |t|
    decreases |t| - p
  {
    if p == |t| || t[p] == LF || t[p] == HASH then ArrayEnd(t, p, values)
    else
      match TokenAt(t, p)
      case Failure(e) => Failure(e)
      case Success((value, q)) =>
        var w := WhitespaceEnd(t, q);
        if w == q then ArrayEnd(t, q, values + [value])
        else ArrayLoop(t, w, values + [value])
  }

  /** The end of _parseLineAsArray: a comment is skipped up to the line feed. */
  function ArrayEnd(t: Text, p: nat, values: seq<Value>): (r: Result<(seq<Value>, nat), ParserError>)
    requires p <= |t|
    ensures r.Success? && p <= r.value.1 <= |t|
  {
    if p < |t| && t[p] == HASH then Success((values, CommentEnd(t, p + 1)))
    else Success((values, p))
  }

  /** _parseLineAsArray with the cursor at i. */
  function ArrayAt(t: Text, i: nat): (r: Result<(seq<Value>, nat), ParserError>)
    requires i <= |t|
    ensures r.Success? ==> i <= r.value.1 <= |t|
  {
    ArrayLoop(t, WhitespaceEnd(t, i), [])
  }

  /** One pass of the _parseLine loop on a token that reads. */
  lemma LineLoopStep(t: Text, p: nat, values: seq<Value>, whitespaces: seq<Option<Text>>, whitespace: Option<Text>)
    requires p < |t| && t[p] != LF && t[p] != HASH && TokenAt(t, p).Success?
    ensures var (value, q) := TokenAt(t, p).value; var w := WhitespaceOrNull(t, q);
      LineLoop(t, p, values, whitespaces, whitespace)
      == if w.None? then LineEnd(t, q, values + [value], whitespaces, w)
         else LineLoop(t, WhitespaceEnd(t, q), values + [value], whitespaces + [w], w)
  {
  }

  /** One pass of the _parseLineAsArray loop on a token that reads. */
  lemma ArrayLoopStep(t: Text, p: nat, values: seq<Value>)
    requires p < |t| && t[p] != LF && t[p] != HASH && TokenAt(t, p).Success?
    ensures var (value, q) := TokenAt(t, p).value; var w := WhitespaceEnd(t, q);
      ArrayLoop(t, p, values)
      == if w == q then ArrayEnd(t, q, values + [value]) else ArrayLoop(t, w, values + [value])
  {
  }

  /** Puts the items already read in front of a successful result. */
  function PrependAll<X>(xs: seq<X>, r: Result<seq<X>, ParserError>): Result<seq<X>, ParserError> {
    match r
    case Success(ys) => Success(xs + ys)
    case Failure(e) => Failure(e)
  }

  lemma PrependNone<X>(r: Result<seq<X>, ParserError>)
    ensures PrependAll([], r) == r
  {
    if r.Success? {
      assert [] + r.value == r.value;
    }
  }

  lemma PrependBoth<X>(xs: seq<X>, ys: seq<X>, r: Result<seq<X>, ParserError>)
    ensures PrependAll(xs, PrependAll(ys, r)) == PrependAll(xs + ys, r)
  {
    if r.Success? {
      assert xs + (ys + r.value) == (xs + ys) + r.value;
    }
  }

  /** The loop of parseDocument with the cursor at the start i of a line. */
  function LinesFrom(t: Text, i: nat): Result<seq<LineData>, ParserError>
    requires i <= |t|
    decreases |t| - i
  {
    match LineAt(t, i)
    case Failure(e) => Failure(e)
    case Success((line, j)) =>
      if j == |t| then Success([line])
      else if t[j] == LF then PrependAll([line], LinesFrom(t, j + 1))
      else Failure(ErrorAt(t, j, UnexpectedParserError))
  }

  /** The loop of parseDocumentAsJaggedArray with the cursor at the start i of a line. */
  function RowsFrom(t: Text, i: nat): Result<seq<seq<Value>>, ParserError>
    requires i <= |t|
    decreases |t| - i
  {
    match ArrayAt(t, i)
    case Failure(e) => Failure(e)
    case Success((row, j)) =>
      if j == |t| then Success([row])
      else if t[j] == LF then PrependAll([row], RowsFrom(t, j + 1))
      else Failure(ErrorAt(t, j, UnexpectedParserError))
  }

  /** The loop of parseDocumentNonPreserving: each row becomes a line with values only. */
  function PlainLinesFrom(t: Text, i: nat): Result<seq<LineData>, ParserError>
    requires i <= |t|
    decreases |t| - i
  {
    match ArrayAt(t, i)
    case Failure(e) => Failure(e)
    case Success((row, j)) =>
      if j == |t| then Success([LineData(row, None, None)])
      else if t[j] == LF then PrependAll([LineData(row, None, None)], PlainLinesFrom(t, j + 1))
      else Failure(ErrorAt(t, j, UnexpectedParserError))
  }

  /** One pass of the parseDocument loop once a line has been read. */
  lemma LinesStep(t: Text, i: nat)
    requires i <= |t| && LineAt(t, i).Success?
    ensures var j := LineAt(t, i).value.1;
      LinesFrom(t, i)
      == if j == |t| then Success([LineAt(t, i).value.0])
         else if t[j] == LF then PrependAll([LineAt(t, i).value.0], LinesFrom(t, j + 1))
         else Failure(ErrorAt(t, j, UnexpectedParserError))
  {
  }

  /** The invariant of the parseDocument loop, carried past a line that ends at a line feed. */
  lemma LinesAdvance(t: Text, before: seq<LineData>, i: nat, done: seq<LineData>, next: nat)
    requires i <= |t| && LineAt(t, i).Success?
    requires var j := LineAt(t, i).value.1; j < |t| && t[j] == LF && next == j + 1
    requires done == before + [LineAt(t, i).value.0]
    requires LinesFrom(t, 0) == PrependAll(before, LinesFrom(t, i))
    ensures LinesFrom(t, 0) == PrependAll(done, LinesFrom(t, next))
  {
    LinesStep(t, i);
    PrependBoth(before, [LineAt(t, i).value.0], LinesFrom(t, next));
  }

  /** The invariant of the parseDocument loop at the last line, which ends at the end of the text. */
  lemma LinesLast(t: Text, before: seq<LineData>, i: nat, done: seq<LineData>)
    requires i <= |t| && LineAt(t, i).Success? && LineAt(t, i).value.1 == |t|
    requires done == before + [LineAt(t, i).value.0]
    requires LinesFrom(t, 0) == PrependAll(before, LinesFrom(t, i))
    ensures LinesFrom(t, 0) == Success(done)
  {
    LinesStep(t, i);
  }

  /** One pass of the parseDocumentAsJaggedArray loop once a line has been read. */
  lemma RowsStep(t: Text, i: nat)
    requires i <= |t| && ArrayAt(t, i).Success?
    ensures var j := ArrayAt(t, i).value.1;
      RowsFrom(t, i)
      == if j == |t| then Success([ArrayAt(t, i).value.0])
         else if t[j] == LF then PrependAll([ArrayAt(t, i).value.0], RowsFrom(t, j + 1))
         else Failure(ErrorAt(t, j, UnexpectedParserError))
  {
  }

  /** The invariant of the parseDocumentAsJaggedArray loop, carried past a line that ends at a line feed. */
  lemma RowsAdvance(t: Text, before: seq<seq<Value>>, i: nat, done: seq<seq<Value>>, next: nat)
    requires i <= |t| && ArrayAt(t, i).Success?
    requires var j := ArrayAt(t, i).value.1; j < |t| && t[j] == LF && next == j + 1
    requires done == before + [ArrayAt(t, i).value.0]
    requires RowsFrom(t, 0) == PrependAll(before, RowsFrom(t, i))
    ensures RowsFrom(t, 0) == PrependAll(done, RowsFrom(t, next))
  {
    RowsStep(t, i);
    PrependBoth(before, [ArrayAt(t, i).value.0], RowsFrom(t, next));
  }

  /** The invariant of the parseDocumentAsJaggedArray loop at the last line, which ends at the end of the text. */
  lemma RowsLast(t: Text, before: seq<seq<Value>>, i: nat, done: seq<seq<Value>>)
    requires i <= |t| && ArrayAt(t, i).Success? && ArrayAt(t, i).value.1 == |t|
    requires done == before + [ArrayAt(t, i).value.0]
    requires RowsFrom(t, 0) == PrependAll(before, RowsFrom(t, i))
    ensures RowsFrom(t, 0) == Success(done)
  {
    RowsStep(t, i);
  }

  /** One pass of the parseDocumentNonPreserving loop once a line has been read. */
  lemma PlainLinesStep(t: Text, i: nat)
    requires i <= |t| && ArrayAt(t, i).Success?
    ensures var j := ArrayAt(t, i).value.1;
      PlainLinesFrom(t, i)
      == if j == |t| then Success([LineData(ArrayAt(t, i).value.0, None, None)])
         else if t[j] == LF then PrependAll([LineData(ArrayAt(t, i).value.0, None, None)], PlainLinesFrom(t, j + 1))
         else Failure(ErrorAt(t, j, UnexpectedParserError))
  {
  }

  /** The invariant of the parseDocumentNonPreserving loop, carried past a line that ends at a line feed. */
  lemma PlainLinesAdvance(t: Text, before: seq<LineData>, i: nat, done: seq<LineData>, next: nat)
    requires i <= |t| && ArrayAt(t, i).Success?
    requires var j := ArrayAt(t, i).value.1; j < |t| && t[j] == LF && next == j + 1
    requires done == before + [LineData(ArrayAt(t, i).value.0, None, None)]
    requires PlainLinesFrom(t, 0) == PrependAll(before, PlainLinesFrom(t, i))
    ensures PlainLinesFrom(t, 0) == PrependAll(done, PlainLinesFrom(t, next))
  {
    PlainLinesStep(t, i);
    PrependBoth(before, [LineData(ArrayAt(t, i).value.0, None, None)], PlainLinesFrom(t, next));
  }

  /** The invariant of the parseDocumentNonPreserving loop at the last line, which ends at the end of the text. */
  lemma PlainLinesLast(t: Text, before: seq<LineData>, i: nat, done: seq<LineData>)
    requires i <= |t| && ArrayAt(t, i).Success? && ArrayAt(t, i).value.1 == |t|
    requires done == before + [LineData(ArrayAt(t, i).value.0, None, None)]
    requires PlainLinesFrom(t, 0) == PrependAll(before, PlainLinesFrom(t, i))
    ensures PlainLinesFrom(t, 0) == Success(done)
  {
    PlainLinesStep(t, i);
  }

  /** parseLine: one line that must take the whole text. */
  function ParsedLine(t: Text): Result<LineData, ParserError> {
    match LineAt(t, 0)
    case Failure(e) => Failure(e)
    case Success((line, j)) =>
      if j < |t| && t[j] == LF then Failure(ErrorAt(t, j, MultipleLinesNotAllowed))
      else if j < |t| then Failure(ErrorAt(t, j, UnexpectedParserError))
      else Success(line)
  }

  /** parseLineAsArray */
  function ParsedLineArray(t: Text): Result<seq<Value>, ParserError> {
    match ArrayAt(t, 0)
    case Failure(e) => Failure(e)
    case Success((values, j)) =>
      if j < |t| && t[j] == LF then Failure(ErrorAt(t, j, MultipleLinesNotAllowed))
      else if j < |t| then Failure(ErrorAt(t, j, UnexpectedParserError))
      else Success(values)
  }

  /** parseLineNonPreserving: the values of parseLineAsArray in a line without layout or comment. */
  function ParsedLineNonPreserving(t: Text): Result<LineData, ParserError> {
    match ParsedLineArray(t)
    case Failure(e) => Failure(e)
    case Success(values) => Success(LineData(values, None, None))
  }

  /** parseDocument */
  function ParsedDocument(t: Text): Result<seq<LineData>, ParserError> {
    LinesFrom(t, 0)
  }

  /** parseDocumentAsJaggedArray */
  function ParsedJaggedArray(t: Text): Result<seq<seq<Value>>, ParserError> {
    RowsFrom(t, 0)
  }

  /** parseDocumentNonPreserving */
  function ParsedDocumentNonPreserving(t: Text): Result<seq<LineData>, ParserError> {
    PlainLinesFrom(t, 0)
  }

  /**
   * The token branch shared by both line parsers: tryReadChar('"') then readString, or
   * readValue with `-` turned into the null value.
   */
  method ReadToken(it: CharIterator) returns (r: Result<Value, ParserError>)
    requires it.Valid() && it.index < |it.chars|
    modifies it
    ensures it.Valid()
    ensures var spec := TokenAt(it.chars, old(it.index));
      (spec.Success? ==> r == Success(spec.value.0) && it.index == spec.value.1)
      && (spec.Failure? ==> r == Failure(spec.error))
  {
    var quoted := it.TryReadChar(QUOTE);
    if quoted {
      var s := it.ReadString();
      if s.Failure? {
        return Failure(s.error);
      }
      return Success(Some(s.value));
    }
    var s := it.ReadValue();
    if s.Failure? {
      return Failure(s.error);
    }
    var value: Value := Some(s.value);
    if s.value == [DASH] {
      value := None;
    }
    return Success(value);
  }

  /** _parseLine */
  method ParseLineFrom(it: CharIterator) returns (r: Result<LineData, ParserError>)
    requires it.Valid()
    modifies it
    ensures it.Valid()
    ensures var spec := LineAt(it.chars, old(it.index));
      (spec.Success? ==> r == Success(spec.value.0) && it.index == spec.value.1)
      && (spec.Failure? ==> r == Failure(spec.error))
  {
    ghost var start := it.index;
    var values: seq<Value> := [];
    var whitespace := it.ReadWhitespaceOrNull();
    var whitespaces: seq<Option<Text>> := [whitespace];
    while !it.IsChar(LF) && !it.IsEndOfText()
      invariant it.Valid()
      invariant LineAt(it.chars, start) == LineLoop(it.chars, it.index, values, whitespaces, whitespace)
      decreases |it.chars| - it.index
    {
      if it.IsChar(HASH) {
        break;
      }
      ghost var p := it.index;
      var value := ReadToken(it);
      if value.Failure? {
        return Failure(value.error);
      }
      LineLoopStep(it.chars, p, values, whitespaces, whitespace);
      values := values + [value.value];
      whitespace := it.ReadWhitespaceOrNull();
      if whitespace.None? {
        break;
      }
      whitespaces := whitespaces + [whitespace];
    }
    assert LineAt(it.chars, start) == LineEnd(it.chars, it.index, values, whitespaces, whitespace);
    var line := ReadLineEnd(it, values, whitespaces, whitespace);
    r := Success(line);
  }

  /** The end of _parseLine: the comment, and the line built from what was read. */
  method ReadLineEnd(it: CharIterator, values: seq<Value>, whitespaces: seq<Option<Text>>, whitespace: Option<Text>)
    returns (line: LineData)
    requires it.Valid()
    modifies it
    ensures it.Valid()
    ensures LineEnd(it.chars, old(it.index), values, whitespaces, whitespace) == Success((line, it.index))
  {
    var slots := whitespaces;
    var comment: Option<Text> := None;
    var hash := it.TryReadChar(HASH);
    if hash {
      var text := it.ReadCommentText();
      comment := Some(text);
      if whitespace.None? {
        slots := slots + [None];
      }
    }
    line := LineData(values, Some(slots), comment);
  }

  /** _parseLineAsArray */
  method ParseLineAsArrayFrom(it: CharIterator) returns (r: Result<seq<Value>, ParserError>)
    requires it.Valid()
    modifies it
    ensures it.Valid()
    ensures var spec := ArrayAt(it.chars, old(it.index));
      (spec.Success? ==> r == Success(spec.value.0) && it.index == spec.value.1)
      && (spec.Failure? ==> r == Failure(spec.error))
  {
    ghost var start := it.index;
    var _ := it.SkipWhitespace();
    var values: seq<Value> := [];
    while !it.IsChar(LF) && !it.IsEndOfText()
      invariant it.Valid()
      invariant ArrayAt(it.chars, start) == ArrayLoop(it.chars, it.index, values)
      decreases |it.chars| - it.index
    {
      if it.IsChar(HASH) {
        break;
      }
      ghost var p := it.index;
      var value := ReadToken(it);
      if value.Failure? {
        return Failure(value.error);
      }
      ArrayLoopStep(it.chars, p, values);
      values := values + [value.value];
      var skipped := it.SkipWhitespace();
      if !skipped {
        break;
      }
    }
    assert ArrayAt(it.chars, start) == ArrayEnd(it.chars, it.index, values);
    var hash := it.TryReadChar(HASH);
    if hash {
      it.SkipCommentText();
    }
    r := Success(values);
  }

  /** parseLine */
  method ParseLine(content: Text) returns (r: Result<LineData, ParserError>)
    ensures r == ParsedLine(content)
  {
    var it := new CharIterator(content);
    var line := ParseLineFrom(it);
    if line.Failure? {
      return Failure(line.error);
    }
    if it.IsChar(LF) {
      var e := it.GetException(MultipleLinesNotAllowed);
      return Failure(e);
    } else if !it.IsEndOfText() {
      var e := it.GetException(UnexpectedParserError);
      return Failure(e);
    }
    return line;
  }

  /** parseLineAsArray */
  method ParseLineAsArray(content: Text) returns (r: Result<seq<Value>, ParserError>)
    ensures r == ParsedLineArray(content)
  {
    var it := new CharIterator(content);
    var values := ParseLineAsArrayFrom(it);
    if values.Failure? {
      return Failure(values.error);
    }
    if it.IsChar(LF) {
      var e := it.GetException(MultipleLinesNotAllowed);
      return Failure(e);
    } else if !it.IsEndOfText() {
      var e := it.GetException(UnexpectedParserError);
      return Failure(e);
    }
    return values;
  }

  /** parseLineNonPreserving */
  method ParseLineNonPreserving(content: Text) returns (r: Result<LineData, ParserError>)
    ensures r == ParsedLineNonPreserving(content)
  {
    var values := ParseLineAsArray(content);
    if values.Failure? {
      return Failure(values.error);
    }
    return Success(LineData(values.value, None, None));
  }

  /** parseDocument */
  method ParseDocument(content: Text) returns (r: Result<seq<LineData>, ParserError>)
    ensures r == ParsedDocument(content)
  {
    var it := new CharIterator(content);
    var lines: seq<LineData> := [];
    PrependNone(LinesFrom(content, 0));
    while true
      invariant it.Valid() && it.chars == content
      invariant LinesFrom(content, 0) == PrependAll(lines, LinesFrom(content, it.index))
      decreases |content| - it.index
    {
      ghost var i := it.index;
      ghost var before := lines;
      var line := ParseLineFrom(it);
      if line.Failure? {
        return Failure(line.error);
      }
      lines := lines + [line.value];
      if it.IsEndOfText() {
        LinesLast(content, before, i, lines);
        break;
      }
      var lf := it.TryReadChar(LF);
      if !lf {
        var e := it.GetException(UnexpectedParserError);
        return Failure(e);
      }
      LinesAdvance(content, before, i, lines, it.index);
    }
    if !it.IsEndOfText() {
      assert false;
    }
    return Success(lines);
  }

  /** parseDocumentAsJaggedArray */
  method ParseDocumentAsJaggedArray(content: Text) returns (r: Result<seq<seq<Value>>, ParserError>)
    ensures r == ParsedJaggedArray(content)
  {
    var it := new CharIterator(content);
    var lines: seq<seq<Value>> := [];
    PrependNone(RowsFrom(content, 0));
    while true
      invariant it.Valid() && it.chars == content
      invariant RowsFrom(content, 0) == PrependAll(lines, RowsFrom(content, it.index))
      decreases |content| - it.index
    {
      ghost var i := it.index;
      ghost var before := lines;
      var newLine := ParseLineAsArrayFrom(it);
      if newLine.Failure? {
        return Failure(newLine.error);
      }
      lines := lines + [newLine.value];
      if it.IsEndOfText() {
        RowsLast(content, before, i, lines);
        break;
      }
      var lf := it.TryReadChar(LF);
      if !lf {
        var e := it.GetException(UnexpectedParserError);
        return Failure(e);
      }
      RowsAdvance(content, before, i, lines, it.index);
    }
    if !it.IsEndOfText() {
      assert false;
    }
    return Success(lines);
  }

  /** parseDocumentNonPreserving */
  method ParseDocumentNonPreserving(content: Text) returns (r: Result<seq<LineData>, ParserError>)
    ensures r == ParsedDocumentNonPreserving(content)
  {
    var it := new CharIterator(content);
    var lines: seq<LineData> := [];
    PrependNone(PlainLinesFrom(content, 0));
    while true
      invariant it.Valid() && it.chars == content
      invariant PlainLinesFrom(content, 0) == PrependAll(lines, PlainLinesFrom(content, it.index))
      decreases |content| - it.index
    {
      ghost var i := it.index;
      ghost var before := lines;
      var lineValues := ParseLineAsArrayFrom(it);
      if lineValues.Failure? {
        return Failure(lineValues.error);
      }
      var newLine := LineData(lineValues.value, None, None);
      lines := lines + [newLine];
      if it.IsEndOfText() {
        PlainLinesLast(content, before, i, lines);
        break;
      }
      var lf := it.TryReadChar(LF);
      if !lf {
        var e := it.GetException(UnexpectedParserError);
        return Failure(e);
      }
      PlainLinesAdvance(content, before, i, lines, it.index);
    }
    if !it.IsEndOfText() {
      assert false;
    }
    return Success(lines);
  }
}
