/**
 * Whole-text properties of the parsers and serializers: which errors can surface, how many
 * lines a document has, the values-only round trip of parseLineAsArray and serializeLineValues,
 * and the preserving round trip of parseDocument and serializeDocument.
 */
module WsvRoundTrip {
  import opened Wrappers
  import opened WsvChars
  import opened WsvErrors
  import opened WsvCursor
  import opened WsvData
  import opened WsvSerializer
  import opened WsvParser
  import opened WsvTokens
  import opened WsvLines

  /** The grammar errors a token can raise; "Unexpected parser error" is never one of them. */
  predicate TokenError(kind: ErrorKind) {
    kind in {StringNotClosed, InvalidStringLineBreak, InvalidCharacterAfterString, InvalidDoubleQuoteInValue, InvalidValue}
  }

  /** A token fails only with one of the five grammar errors. */
  lemma TokenErrors(t: Text, p: nat)
    requires p < |t| && TokenAt(t, p).Failure?
    ensures TokenError(TokenAt(t, p).error.kind)
  {
    if t[p] == QUOTE {
      StringErrorKinds(t, p + 1);
    }
  }

  /** The loop of _parseLine fails only where a token does. */
  lemma {:induction false} LineLoopErrors(t: Text, p: nat, values: seq<Value>, slots: seq<Option<Text>>, whitespace: Option<Text>)
    requires p <= |t| && LineLoop(t, p, values, slots, whitespace).Failure?
    ensures TokenError(LineLoop(t, p, values, slots, whitespace).error.kind)
    decreases |t| - p
  {
    if p == |t| || t[p] == LF || t[p] == HASH {
    } else if TokenAt(t, p).Failure? {
      TokenErrors(t, p);
    } else {
      var (v, q) := TokenAt(t, p).value;
      LineLoopStep(t, p, values, slots, whitespace);
      var w := WhitespaceOrNull(t, q);
      if w.Some? {
        LineLoopErrors(t, WhitespaceEnd(t, q), values + [v], slots + [w], w);
      }
    }
  }

  /** The loop of _parseLineAsArray fails only where a token does. */
  lemma {:induction false} ArrayLoopErrors(t: Text, p: nat, values: seq<Value>)
    requires p <= |t| && ArrayLoop(t, p, values).Failure?
    ensures TokenError(ArrayLoop(t, p, values).error.kind)
    decreases |t| - p
  {
    if p == |t| || t[p] == LF || t[p] == HASH {
    } else if TokenAt(t, p).Failure? {
      TokenErrors(t, p);
    } else {
      var (v, q) := TokenAt(t, p).value;
      ArrayLoopStep(t, p, values);
      var w := WhitespaceEnd(t, q);
      if w != q {
        ArrayLoopErrors(t, w, values + [v]);
      }
    }
  }

  /** Leaving the loop of _parseLineAsArray at '#', a line feed or the end stops at the end of the line. */
  lemma ArrayEndSpan(t: Text, p: nat, values: seq<Value>)
    requires p <= |t| && (p == |t| || t[p] == LF || t[p] == HASH)
    ensures var j := ArrayEnd(t, p, values).value.1;
      EndsLine(t, j) && forall k :: p <= k < j ==> t[k] != LF
  {
    if p < |t| && t[p] == HASH {
      CommentEndFacts(t, p + 1);
    }
  }

  /** _parseLineAsArray stops at the end of the text or at a line feed, and reads no line feed on the way. */
  lemma {:induction false} ArrayLoopEnds(t: Text, p: nat, values: seq<Value>)
    requires p <= |t| && ArrayLoop(t, p, values).Success?
    ensures var j := ArrayLoop(t, p, values).value.1;
      EndsLine(t, j) && forall k :: p <= k < j ==> t[k] != LF
    decreases |t| - p
  {
    if p == |t| || t[p] == LF || t[p] == HASH {
      ArrayEndSpan(t, p, values);
    } else {
      var (v, q) := TokenAt(t, p).value;
      ArrayLoopStep(t, p, values);
      TokenFacts(t, p);
      var w := WhitespaceEnd(t, q);
      if w == q {
        ArrayEndSpan(t, q, values + [v]);
      } else {
        WhitespaceEndFacts(t, q);
        ArrayLoopEnds(t, w, values + [v]);
      }
    }
  }

  /** ArrayLoopEnds from the start of a line. */
  lemma ArrayAtEnds(t: Text, i: nat)
    requires i <= |t| && ArrayAt(t, i).Success?
    ensures var j := ArrayAt(t, i).value.1;
      EndsLine(t, j) && forall k :: i <= k < j ==> t[k] != LF
  {
    ArrayLoopEnds(t, WhitespaceEnd(t, i), []);
    WhitespaceEndFacts(t, i);
  }

  /**
   * parseLine fails only with a grammar error or with "Multiple WSV lines not allowed", and
   * with the latter exactly when the first line reads and a line feed follows it.
   */
  lemma ParsedLineErrors(t: Text)
    ensures ParsedLine(t).Failure? ==>
      TokenError(ParsedLine(t).error.kind) || ParsedLine(t).error.kind == MultipleLinesNotAllowed
    ensures ParsedLine(t).Failure? && ParsedLine(t).error.kind == MultipleLinesNotAllowed
      <==> LineAt(t, 0).Success? && LF in t
  {
    if LineAt(t, 0).Failure? {
      LineLoopErrors(t, WhitespaceEnd(t, 0), [], [WhitespaceOrNull(t, 0)], WhitespaceOrNull(t, 0));
    } else {
      ParsedLineWellFormed(t, 0);
      FirstLineFeed(t, LineAt(t, 0).value.1);
    }
  }

  /** parseLineAsArray fails in the same ways as parseLine. */
  lemma ParsedLineArrayErrors(t: Text)
    ensures ParsedLineArray(t).Failure? ==>
      TokenError(ParsedLineArray(t).error.kind) || ParsedLineArray(t).error.kind == MultipleLinesNotAllowed
    ensures ParsedLineArray(t).Failure? && ParsedLineArray(t).error.kind == MultipleLinesNotAllowed
      <==> ArrayAt(t, 0).Success? && LF in t
  {
    if ArrayAt(t, 0).Failure? {
      ArrayLoopErrors(t, WhitespaceEnd(t, 0), []);
    } else {
      ArrayAtEnds(t, 0);
      FirstLineFeed(t, ArrayAt(t, 0).value.1);
    }
  }

  /** A line that ends at j with no line feed before it stops at a line feed iff the text has one. */
  lemma FirstLineFeed(t: Text, j: nat)
    requires EndsLine(t, j) && forall k :: 0 <= k < j ==> t[k] != LF
    ensures j < |t| <==> LF in t
  {
    if LF in t {
      var f :| 0 <= f < |t| && t[f] == LF;
      assert j <= f;
    }
  }

  /** A text without line feeds counts none. */
  lemma NoLineFeedCount(t: Text, i: nat, j: nat)
    requires i <= j <= |t| && forall k :: i <= k < j ==> t[k] != LF
    ensures CountLF(t[i..j]) == 0
  {
    assert LF !in t[i..j];
  }

  /** The line count of t[i..] splits at a line feed at j. */
  lemma CountSplit(t: Text, i: nat, j: nat)
    requires i <= j < |t| && t[j] == LF
    ensures CountLF(t[i..]) == CountLF(t[i..j]) + 1 + CountLF(t[j + 1..])
  {
    assert t[i..] == t[i..j] + [LF] + t[j + 1..];
  }

  /** After a line that reads, parseDocument stops at the end of the text or goes on after a line feed. */
  lemma LinesNext(t: Text, i: nat, line: LineData, j: nat)
    requires i <= |t| && LineAt(t, i) == Success((line, j))
    ensures WellFormed(line) && i <= j <= |t| && CountLF(t[i..j]) == 0
    ensures j == |t| ==> LinesFrom(t, i) == Success([line])
    ensures j < |t| ==> t[j] == LF && LinesFrom(t, i) == PrependAll([line], LinesFrom(t, j + 1))
  {
    ParsedLineWellFormed(t, i);
    LinesStep(t, i);
    NoLineFeedCount(t, i, j);
  }

  /** What parseDocument reads from the start i of a line: one line per line of the text. */
  lemma {:induction false} LinesCount(t: Text, i: nat)
    requires i <= |t| && LinesFrom(t, i).Success?
    ensures |LinesFrom(t, i).value| == CountLF(t[i..]) + 1
    decreases |t| - i
  {
    assert LineAt(t, i).Success?;
    var (line, j) := LineAt(t, i).value;
    LinesNext(t, i, line, j);
    if j < |t| {
      LinesCount(t, j + 1);
      CountSplit(t, i, j);
    } else {
      assert t[i..] == t[i..j];
    }
  }

  /** Every line parseDocument reads from the start i of a line is well-formed. */
  lemma {:induction false} LinesWellFormed(t: Text, i: nat)
    requires i <= |t| && LinesFrom(t, i).Success?
    ensures forall k :: 0 <= k < |LinesFrom(t, i).value| ==> WellFormed(LinesFrom(t, i).value[k])
    decreases |t| - i
  {
    assert LineAt(t, i).Success?;
    var line := LineAt(t, i).value.0;
    var j := LineAt(t, i).value.1;
    LinesNext(t, i, line, j);
    if j < |t| {
      LinesWellFormed(t, j + 1);
      WellFormedCons(line, LinesFrom(t, j + 1).value);
    }
  }

  /** A well-formed line in front of well-formed lines. */
  lemma WellFormedCons(line: LineData, rest: seq<LineData>)
    requires WellFormed(line) && forall k :: 0 <= k < |rest| ==> WellFormed(rest[k])
    ensures forall k :: 0 <= k < |[line] + rest| ==> WellFormed(([line] + rest)[k])
  {
  }

  /** parseDocument fails only with a grammar error. */
  lemma {:induction false} LinesErrors(t: Text, i: nat)
    requires i <= |t| && LinesFrom(t, i).Failure?
    ensures TokenError(LinesFrom(t, i).error.kind)
    decreases |t| - i
  {
    if LineAt(t, i).Failure? {
      LineAtErrors(t, i);
    } else {
      var line := LineAt(t, i).value.0;
      var j := LineAt(t, i).value.1;
      LinesNext(t, i, line, j);
      LinesErrors(t, j + 1);
    }
  }

  /** _parseLine fails only with a grammar error. */
  lemma LineAtErrors(t: Text, i: nat)
    requires i <= |t| && LineAt(t, i).Failure?
    ensures TokenError(LineAt(t, i).error.kind)
  {
    LineLoopErrors(t, WhitespaceEnd(t, i), [], [WhitespaceOrNull(t, i)], WhitespaceOrNull(t, i));
  }

  /** After a row that reads, parseDocumentAsJaggedArray stops at the end of the text or goes on after a line feed. */
  lemma RowsNext(t: Text, i: nat, row: seq<Value>, j: nat)
    requires i <= |t| && ArrayAt(t, i) == Success((row, j))
    ensures i <= j <= |t| && CountLF(t[i..j]) == 0
    ensures j == |t| ==> RowsFrom(t, i) == Success([row])
    ensures j < |t| ==> t[j] == LF && RowsFrom(t, i) == PrependAll([row], RowsFrom(t, j + 1))
  {
    ArrayAtEnds(t, i);
    RowsStep(t, i);
    NoLineFeedCount(t, i, j);
  }

  /** What parseDocumentAsJaggedArray reads from the start i of a line: one row per line of the text. */
  lemma {:induction false} RowsCount(t: Text, i: nat)
    requires i <= |t| && RowsFrom(t, i).Success?
    ensures |RowsFrom(t, i).value| == CountLF(t[i..]) + 1
    decreases |t| - i
  {
    assert ArrayAt(t, i).Success?;
    var (row, j) := ArrayAt(t, i).value;
    RowsNext(t, i, row, j);
    if j < |t| {
      RowsCount(t, j + 1);
      CountSplit(t, i, j);
    } else {
      assert t[i..] == t[i..j];
    }
  }

  /** parseDocumentAsJaggedArray fails only with a grammar error. */
  lemma {:induction false} RowsErrors(t: Text, i: nat)
    requires i <= |t| && RowsFrom(t, i).Failure?
    ensures TokenError(RowsFrom(t, i).error.kind)
    decreases |t| - i
  {
    var first := ArrayAt(t, i);
    if first.Failure? {
      RowsFirstFails(t, i);
    } else {
      var j := first.value.1;
      RowsNext(t, i, first.value.0, j);
      if j < |t| {
        RowsErrors(t, j + 1);
      }
    }
  }

  /** parseDocumentAsJaggedArray fails where its first line fails, with a grammar error. */
  lemma RowsFirstFails(t: Text, i: nat)
    requires i <= |t| && ArrayAt(t, i).Failure?
    ensures RowsFrom(t, i) == Failure(ArrayAt(t, i).error) && TokenError(ArrayAt(t, i).error.kind)
  {
    ArrayLoopErrors(t, WhitespaceEnd(t, i), []);
  }

  /** Lines with values only, as parseDocumentNonPreserving builds them from rows. */
  function Bare(rows: seq<seq<Value>>): (r: seq<LineData>)
    ensures |r| == |rows| && forall k :: 0 <= k < |rows| ==> r[k] == LineData(rows[k], None, None)
  {
    seq(|rows|, k requires 0 <= k < |rows| => LineData(rows[k], None, None))
  }

  /** parseDocumentNonPreserving reads the rows of parseDocumentAsJaggedArray, each as a line without layout. */
  lemma {:induction false} PlainLinesAreRows(t: Text, i: nat)
    requires i <= |t|
    ensures RowsFrom(t, i).Success? ==> PlainLinesFrom(t, i) == Success(Bare(RowsFrom(t, i).value))
    ensures RowsFrom(t, i).Failure? ==> PlainLinesFrom(t, i) == Failure(RowsFrom(t, i).error)
    decreases |t| - i
  {
    if ArrayAt(t, i).Success? {
      var row := ArrayAt(t, i).value.0;
      var j := ArrayAt(t, i).value.1;
      PlainNext(t, i, row, j);
      if j == |t| {
        assert Bare([row]) == [LineData(row, None, None)];
      } else {
        PlainLinesAreRows(t, j + 1);
        BareCons(row, RowsFrom(t, j + 1), PlainLinesFrom(t, j + 1));
      }
    }
  }

  /** After a row that reads, both document loops stop at the end of the text or go on after a line feed. */
  lemma PlainNext(t: Text, i: nat, row: seq<Value>, j: nat)
    requires i <= |t| && ArrayAt(t, i) == Success((row, j))
    ensures j == |t| ==> RowsFrom(t, i) == Success([row]) && PlainLinesFrom(t, i) == Success([LineData(row, None, None)])
    ensures j < |t| ==> RowsFrom(t, i) == PrependAll([row], RowsFrom(t, j + 1))
    ensures j < |t| ==> PlainLinesFrom(t, i) == PrependAll([LineData(row, None, None)], PlainLinesFrom(t, j + 1))
  {
    RowsNext(t, i, row, j);
    PlainLinesStep(t, i);
  }

  /** Bare, one row in front of the others. */
  lemma BareCons(row: seq<Value>, r: Result<seq<seq<Value>>, ParserError>, s: Result<seq<LineData>, ParserError>)
    requires r.Success? ==> s == Success(Bare(r.value))
    requires r.Failure? ==> s == Failure(r.error)
    ensures PrependAll([row], r).Success? ==> PrependAll([LineData(row, None, None)], s) == Success(Bare(PrependAll([row], r).value))
    ensures PrependAll([row], r).Failure? ==> PrependAll([LineData(row, None, None)], s) == Failure(PrependAll([row], r).error)
  {
    if r.Success? {
      assert Bare([row] + r.value) == [LineData(row, None, None)] + Bare(r.value);
    }
  }

  /** The text of the values from value k on, without the separator in front of value k. */
  function Item(values: seq<Value>, k: nat): Text
    requires k < |values|
  {
    SerializedValue(values[k]) + JoinedFrom(values, k + 1)
  }

  /** After a value that another follows, serializeLineValues writes one space and the next item. */
  lemma ItemNext(values: seq<Value>, k: nat)
    requires k + 1 < |values|
    ensures JoinedFrom(values, k + 1) == [SPACE] + Item(values, k + 1)
  {
    JoinedFromStep(values, k + 1);
    AppendAssoc([SPACE], SerializedValue(values[k + 1]), JoinedFrom(values, k + 2));
  }

  /** The loop of _parseLineAsArray reads the values of serializeLineValues from value k on. */
  lemma {:induction false} ArrayLoopRoundTrip(t: Text, values: seq<Value>, k: nat, p: nat, end: nat)
    requires k < |values| && Occurs(t, p, Item(values, k)) && end == p + |Item(values, k)| && EndsLine(t, end)
    ensures ArrayLoop(t, p, values[..k]) == Success((values, end))
    decreases |values| - k
  {
    if k + 1 < |values| {
      var g := ArrayInnerStep(t, values, k, p, end);
      ArrayLoopRoundTrip(t, values, k + 1, g, end);
    } else {
      ArrayLastStep(t, values, k, p, end);
    }
  }

  /** _parseLineAsArray reads value k, which another follows, and the space after it, and goes on at g. */
  lemma ArrayInnerStep(t: Text, values: seq<Value>, k: nat, p: nat, end: nat) returns (g: nat)
    requires k + 1 < |values| && Occurs(t, p, Item(values, k)) && end == p + |Item(values, k)|
    ensures Occurs(t, g, Item(values, k + 1)) && end == g + |Item(values, k + 1)|
    ensures ArrayLoop(t, p, values[..k]) == ArrayLoop(t, g, values[..k + 1])
  {
    var q;
    q, g := ItemSplit(t, values, k, p, end);
    SnocSlice(values, k);
    ArrayTurn(t, p, values[..k], values[k], q, g, values[..k + 1]);
  }

  /** Item k at p is value k, a space at q, and item k + 1 at g, which starts with no whitespace. */
  lemma ItemSplit(t: Text, values: seq<Value>, k: nat, p: nat, end: nat) returns (q: nat, g: nat)
    requires k + 1 < |values| && Occurs(t, p, Item(values, k)) && end == p + |Item(values, k)|
    ensures q == p + |SerializedValue(values[k])| && g == q + 1
    ensures Occurs(t, p, SerializedValue(values[k]))
    ensures Occurs(t, g, Item(values, k + 1)) && end == g + |Item(values, k + 1)|
    ensures ClosedAt(t, q) && WhitespaceEnd(t, q) == g
  {
    var s := SerializedValue(values[k]);
    q := p + |s|;
    g := q + 1;
    var next := Item(values, k + 1);
    assert Occurs(t, p, s + ([SPACE] + next)) && end == g + |next| by {
      ItemNext(values, k);
    }
    assert Occurs(t, p, s) && Occurs(t, q, [SPACE] + next) by {
      OccursSplit(t, p, s, [SPACE] + next);
    }
    assert t[q] == SPACE && Occurs(t, g, next) by {
      OccursCons(t, q, SPACE, next);
    }
    assert g < |t| && !IsWhitespace(t[g]) by {
      ValueStart(t, g, values[k + 1], JoinedFrom(values, k + 2));
    }
    SpaceEnd(t, q);
  }

  /** c followed by x occurs at q: c is at q and x follows it. */
  lemma OccursCons(t: Text, q: nat, c: CodePoint, x: Text)
    requires Occurs(t, q, [c] + x)
    ensures q < |t| && t[q] == c && Occurs(t, q + 1, x)
  {
    OccursSplit(t, q, [c], x);
    OccursOne(t, q, c);
  }

  /** A single space that no whitespace follows is a whitespace run of one. */
  lemma SpaceEnd(t: Text, q: nat)
    requires q + 1 < |t| && t[q] == SPACE && !IsWhitespace(t[q + 1])
    ensures WhitespaceEnd(t, q) == q + 1 && ClosedAt(t, q)
  {
  }

  /** A turn of the loop of _parseLineAsArray over a token that whitespace follows. */
  lemma ArrayTurn(t: Text, p: nat, before: seq<Value>, v: Value, q: nat, g: nat, after: seq<Value>)
    requires Occurs(t, p, SerializedValue(v)) && q == p + |SerializedValue(v)| && ClosedAt(t, q)
    requires WhitespaceEnd(t, q) == g && g != q && after == before + [v]
    ensures ArrayLoop(t, p, before) == ArrayLoop(t, g, after)
  {
    TokenFirst(t, p, v, q);
    ArrayLoopStep(t, p, before);
  }

  /** _parseLineAsArray reads the last value and stops at the end of the line. */
  lemma ArrayLastStep(t: Text, values: seq<Value>, k: nat, p: nat, end: nat)
    requires k + 1 == |values| && Occurs(t, p, Item(values, k)) && end == p + |Item(values, k)| && EndsLine(t, end)
    ensures ArrayLoop(t, p, values[..k]) == Success((values, end))
  {
    var s := SerializedValue(values[k]);
    assert Item(values, k) == s;
    assert values[..k] + [values[k]] == values;
    ArrayLastTurn(t, p, values[..k], values[k], end, values);
  }

  /** The turn of the loop of _parseLineAsArray over a token that ends the line. */
  lemma ArrayLastTurn(t: Text, p: nat, before: seq<Value>, v: Value, q: nat, after: seq<Value>)
    requires Occurs(t, p, SerializedValue(v)) && q == p + |SerializedValue(v)| && EndsLine(t, q)
    requires after == before + [v]
    ensures ArrayLoop(t, p, before) == Success((after, q))
  {
    TokenFirst(t, p, v, q);
    ArrayLoopStep(t, p, before);
  }

  /**
   * _parseLineAsArray reads serializeLineValues(values), followed by the end of the text or a
   * line feed, back as values and stops at that end.
   */
  lemma ArrayRoundTrip(t: Text, i: nat, values: seq<Value>)
    requires Occurs(t, i, ValuesText(values)) && EndsLine(t, i + |ValuesText(values)|)
    ensures ArrayAt(t, i) == Success((values, i + |ValuesText(values)|))
  {
    if |values| == 0 {
      EmptyArrayRoundTrip(t, i, values);
    } else {
      ItemsRoundTrip(t, i, values);
    }
  }

  /** serializeLineValues starts with the first value, which no space precedes. */
  lemma ValuesTextFirst(values: seq<Value>)
    requires |values| > 0
    ensures ValuesText(values) == Item(values, 0)
  {
    JoinedFromStep(values, 0);
  }

  /** ArrayRoundTrip for a non-empty list of values: the first token starts the line. */
  lemma ItemsRoundTrip(t: Text, i: nat, values: seq<Value>)
    requires |values| > 0 && Occurs(t, i, ValuesText(values)) && EndsLine(t, i + |ValuesText(values)|)
    ensures ArrayAt(t, i) == Success((values, i + |ValuesText(values)|))
  {
    var end := i + |ValuesText(values)|;
    ValuesTextFirst(values);
    ValueStart(t, i, values[0], JoinedFrom(values, 1));
    ArrayStart(t, i);
    ArrayLoopRoundTrip(t, values, 0, i, end);
    assert values[..0] == [];
  }

  /** _parseLineAsArray skips no whitespace in front of a code point that is not whitespace. */
  lemma ArrayStart(t: Text, i: nat)
    requires i < |t| && !IsWhitespace(t[i])
    ensures ArrayAt(t, i) == ArrayLoop(t, i, [])
  {
  }

  /** ArrayRoundTrip for an empty list of values, which is written as nothing. */
  lemma EmptyArrayRoundTrip(t: Text, i: nat, values: seq<Value>)
    requires values == [] && i <= |t| && EndsLine(t, i)
    ensures ArrayAt(t, i) == Success((values, i))
  {
  }

  /** Values-only round trip: parseLineAsArray(serializeLineValues(values)) == values, for every list of values. */
  lemma LineValuesRoundTrip(values: seq<Value>)
    ensures ParsedLineArray(ValuesText(values)) == Success(values)
  {
    var t := ValuesText(values);
    OccursAll(t);
    ArrayRoundTrip(t, 0, values);
  }

  /** Every value written by serializeLineValues survives parseLineNonPreserving. */
  lemma LineNonPreservingRoundTrip(values: seq<Value>)
    ensures ParsedLineNonPreserving(ValuesText(values)) == Success(LineData(values, None, None))
  {
    LineValuesRoundTrip(values);
  }

  /** The text of a document from the start of line k on. */
  function RestOf(texts: seq<Text>, k: nat): Text
    requires k < |texts|
  {
    texts[k] + JoinedLines(texts, k + 1)
  }

  lemma RestNext(texts: seq<Text>, k: nat)
    requires k + 1 < |texts|
    ensures JoinedLines(texts, k + 1) == [LF] + RestOf(texts, k + 1)
  {
    JoinedLinesStep(texts, k + 1);
    AppendAssoc([LF], texts[k + 1], JoinedLines(texts, k + 2));
  }

  lemma RestFirst(texts: seq<Text>)
    requires |texts| > 0
    ensures JoinedLines(texts, 0) == RestOf(texts, 0)
  {
    JoinedLinesStep(texts, 0);
  }

  /**
   * Text k of a document occurs at p and is followed by the end of the text or by a line feed
   * and the rest of the document at p + |texts[k]| + 1.
   */
  lemma LineOfDocument(t: Text, texts: seq<Text>, k: nat, p: nat)
    requires k < |texts| && Occurs(t, p, RestOf(texts, k)) && p + |RestOf(texts, k)| == |t|
    ensures Occurs(t, p, texts[k]) && EndsLine(t, p + |texts[k]|)
    ensures k + 1 < |texts| ==>
      Occurs(t, p + |texts[k]| + 1, RestOf(texts, k + 1)) && p + |texts[k]| + 1 + |RestOf(texts, k + 1)| == |t|
    ensures k + 1 == |texts| ==> p + |texts[k]| == |t|
  {
    var q := p + |texts[k]|;
    OccursSplit(t, p, texts[k], JoinedLines(texts, k + 1));
    if k + 1 < |texts| {
      RestNext(texts, k);
      OccursSplit(t, q, [LF], RestOf(texts, k + 1));
      OccursOne(t, q, LF);
    }
  }

  /** _parseLine reads s as line, wherever s stands at the start of a line and a line end follows. */
  ghost predicate LineReadsBack(line: LineData, s: Text) {
    forall t: Text, q: nat :: Occurs(t, q, s) && EndsLine(t, q + |s|) ==> LineAt(t, q) == Success((line, q + |s|))
  }

  /** Text m reads back as line m. */
  ghost predicate ReadsBack(lines: seq<LineData>, texts: seq<Text>) {
    |texts| == |lines| && forall m :: 0 <= m < |lines| ==> LineReadsBack(lines[m], texts[m])
  }

  /** Well-formed lines read back from their serialized texts. */
  lemma WellFormedReadsBack(lines: seq<LineData>)
    requires forall m :: 0 <= m < |lines| ==> WellFormed(lines[m])
    ensures ReadsBack(lines, LineTexts(lines))
  {
    var texts := LineTexts(lines);
    forall m | 0 <= m < |lines|
      ensures LineReadsBack(lines[m], texts[m])
    {
      LineReadsBackOne(lines[m]);
    }
  }

  /** ReparseLine, wherever the text of the line stands. */
  lemma LineReadsBackOne(line: LineData)
    requires WellFormed(line)
    ensures LineReadsBack(line, LineText(line))
  {
    forall t: Text, q: nat | Occurs(t, q, LineText(line)) && EndsLine(t, q + |LineText(line)|)
      ensures LineAt(t, q) == Success((line, q + |LineText(line)|))
    {
      ReparseLine(t, q, line);
    }
  }

  /** parseDocument reads the lines of a document from line k on back, when each reads back. */
  lemma {:induction false} LinesRoundTrip(t: Text, lines: seq<LineData>, texts: seq<Text>, k: nat, p: nat)
    requires k < |lines| && ReadsBack(lines, texts)
    requires Occurs(t, p, RestOf(texts, k)) && p + |RestOf(texts, k)| == |t|
    ensures LinesFrom(t, p) == Success(lines[k..])
    decreases |lines| - k
  {
    var q := p + |texts[k]|;
    LineOfDocument(t, texts, k, p);
    assert LineAt(t, p) == Success((lines[k], q));
    LinesStep(t, p);
    if k + 1 < |lines| {
      LinesRoundTrip(t, lines, texts, k + 1, q + 1);
      Cons(lines, k, LinesFrom(t, q + 1));
    } else {
      assert lines[k..] == [lines[k]];
    }
  }

  /** Item k in front of the items after it. */
  lemma Cons<X>(xs: seq<X>, k: nat, r: Result<seq<X>, ParserError>)
    requires k + 1 < |xs| && r == Success(xs[k + 1..])
    ensures PrependAll([xs[k]], r) == Success(xs[k..])
  {
    assert xs[k..] == [xs[k]] + xs[k + 1..];
  }

  /**
   * Preserving round trip of the serializer: a non-empty list of well-formed lines, written by
   * serializeDocument, is read back by parseDocument as the same lines, values, whitespace
   * slots and comments alike.
   */
  lemma DocumentRoundTrip(lines: seq<LineData>)
    requires |lines| > 0 && forall m :: 0 <= m < |lines| ==> WellFormed(lines[m])
    ensures ParsedDocument(DocumentText(lines)) == Success(lines)
  {
    var t := DocumentText(lines);
    RestFirst(LineTexts(lines));
    OccursAll(t);
    WellFormedReadsBack(lines);
    LinesRoundTrip(t, lines, LineTexts(lines), 0, 0);
  }

  /**
   * Preserving round trip of the parser: a document that parseDocument accepts has one line
   * per line feed and one more, and serializing and re-parsing it gives the same lines; the
   * text it serializes to is then a fixed point of parsing and serializing. A text it rejects
   * is rejected with a grammar error, never with "Unexpected parser error".
   */
  lemma ParseDocumentRoundTrip(t: Text)
    ensures ParsedDocument(t).Success? ==>
      var lines := ParsedDocument(t).value;
      && |lines| == CountLF(t) + 1
      && ParsedDocument(DocumentText(lines)) == Success(lines)
      && DocumentText(ParsedDocument(DocumentText(lines)).value) == DocumentText(lines)
    ensures ParsedDocument(t).Failure? ==> TokenError(ParsedDocument(t).error.kind)
  {
    assert t[0..] == t;
    if ParsedDocument(t).Success? {
      LinesCount(t, 0);
      LinesWellFormed(t, 0);
      DocumentRoundTrip(ParsedDocument(t).value);
    } else {
      LinesErrors(t, 0);
    }
  }

  /** parseLine reads back serializeLine of a well-formed line. */
  lemma LineRoundTrip(line: LineData)
    requires WellFormed(line)
    ensures ParsedLine(LineText(line)) == Success(line)
  {
    var t := LineText(line);
    OccursAll(t);
    ReparseLine(t, 0, line);
  }

  /** _parseLineAsArray reads s as row, wherever s stands at the start of a line and a line end follows. */
  ghost predicate RowReadsBack(row: seq<Value>, s: Text) {
    forall t: Text, q: nat :: Occurs(t, q, s) && EndsLine(t, q + |s|) ==> ArrayAt(t, q) == Success((row, q + |s|))
  }

  /** Text m reads back as row m. */
  ghost predicate RowsReadBack(rows: seq<seq<Value>>, texts: seq<Text>) {
    |texts| == |rows| && forall m :: 0 <= m < |rows| ==> RowReadsBack(rows[m], texts[m])
  }

  /** Every row reads back from its serialized text. */
  lemma AllRowsReadBack(rows: seq<seq<Value>>)
    ensures RowsReadBack(rows, RowTexts(rows))
  {
    var texts := RowTexts(rows);
    forall m | 0 <= m < |rows|
      ensures RowReadsBack(rows[m], texts[m])
    {
      RowReadsBackOne(rows[m]);
    }
  }

  /** ArrayRoundTrip, wherever the text of the row stands. */
  lemma RowReadsBackOne(row: seq<Value>)
    ensures RowReadsBack(row, ValuesText(row))
  {
    forall t: Text, q: nat | Occurs(t, q, ValuesText(row)) && EndsLine(t, q + |ValuesText(row)|)
      ensures ArrayAt(t, q) == Success((row, q + |ValuesText(row)|))
    {
      ArrayRoundTrip(t, q, row);
    }
  }

  /** parseDocumentAsJaggedArray reads the rows of a document from row k on back, when each reads back. */
  lemma {:induction false} RowsRoundTrip(t: Text, rows: seq<seq<Value>>, texts: seq<Text>, k: nat, p: nat)
    requires k < |rows| && RowsReadBack(rows, texts)
    requires Occurs(t, p, RestOf(texts, k)) && p + |RestOf(texts, k)| == |t|
    ensures RowsFrom(t, p) == Success(rows[k..])
    decreases |rows| - k
  {
    var q := p + |texts[k]|;
    LineOfDocument(t, texts, k, p);
    assert ArrayAt(t, p) == Success((rows[k], q));
    RowsStep(t, p);
    if k + 1 < |rows| {
      RowsRoundTrip(t, rows, texts, k + 1, q + 1);
      Cons(rows, k, RowsFrom(t, q + 1));
    } else {
      assert rows[k..] == [rows[k]];
    }
  }

  /** Each row written by serializeLineValues. */
  function RowTexts(rows: seq<seq<Value>>): (r: seq<Text>)
    ensures |r| == |rows| && forall k :: 0 <= k < |rows| ==> r[k] == ValuesText(rows[k])
  {
    seq(|rows|, k requires 0 <= k < |rows| => ValuesText(rows[k]))
  }

  /** The values of each line of a document. */
  function Rows(lines: seq<LineData>): (r: seq<seq<Value>>)
    ensures |r| == |lines| && forall k :: 0 <= k < |lines| ==> r[k] == lines[k].values
  {
    seq(|lines|, k requires 0 <= k < |lines| => lines[k].values)
  }

  /**
   * Structural round trip: a non-empty document written by serializeDocumentNonPreserving is
   * read back by parseDocumentAsJaggedArray as its values, and by parseDocumentNonPreserving as
   * the same values in lines without layout or comment, whatever the lines' layouts and comments.
   */
  lemma NonPreservingRoundTrip(lines: seq<LineData>)
    requires |lines| > 0
    ensures ParsedJaggedArray(DocumentTextNonPreserving(lines)) == Success(Rows(lines))
    ensures ParsedDocumentNonPreserving(DocumentTextNonPreserving(lines)) == Success(Bare(Rows(lines)))
  {
    var t := DocumentTextNonPreserving(lines);
    var rows := Rows(lines);
    assert ValuesTexts(lines) == RowTexts(rows);
    RestFirst(RowTexts(rows));
    OccursAll(t);
    AllRowsReadBack(rows);
    RowsRoundTrip(t, rows, RowTexts(rows), 0, 0);
    assert rows[0..] == rows;
    PlainLinesAreRows(t, 0);
  }

  /**
   * parseDocumentAsJaggedArray and parseDocumentNonPreserving give one row per line of the text,
   * and fail only with a grammar error.
   */
  lemma JaggedArrayFacts(t: Text)
    ensures ParsedJaggedArray(t).Success? ==> |ParsedJaggedArray(t).value| == CountLF(t) + 1
    ensures ParsedJaggedArray(t).Failure? ==> TokenError(ParsedJaggedArray(t).error.kind)
    ensures ParsedDocumentNonPreserving(t).Failure? ==> TokenError(ParsedDocumentNonPreserving(t).error.kind)
  {
    assert t[0..] == t;
    if ParsedJaggedArray(t).Success? {
      RowsCount(t, 0);
    } else {
      RowsErrors(t, 0);
    }
    PlainLinesAreRows(t, 0);
  }
}
