/**
 * Line-level round trip of the preserving parser and serializer: the lines _parseLine
 * produces are exactly the well-formed ones, and a well-formed line written by serializeLine
 * reads back as the same line, values, whitespace slots and comment.
 */
module WsvLines {
  import opened Wrappers
  import opened WsvChars
  import opened WsvErrors
  import opened WsvCursor
  import opened WsvData
  import opened WsvSerializer
  import opened WsvParser
  import opened WsvTokens

  /** A slot as readWhitespaceOrNull returns it: absent, or a non-empty whitespace run. */
  predicate SlotRead(w: Option<Text>) {
    w.None? || WhitespaceOnly(w.value)
  }

  /**
   * The lines _parseLine produces. The slot before the first value is absent or whitespace;
   * the slots between values are whitespace; after the last value there is either no slot
   * (and no comment), or one more slot, absent only when a comment follows. An empty line
   * has its leading slot only, or two absent slots in front of a comment.
   */
  predicate WellFormed(line: LineData) {
    line.whitespaces.Some? && CommentValid(line.comment) && Shaped(line.values, line.whitespaces.value, line.comment)
  }

  /** A line as _parseLine produces it. */
  type Line = line: LineData | WellFormed(line) witness LineData([], Some([None]), None)

  predicate Shaped(values: seq<Value>, ws: seq<Option<Text>>, comment: Option<Text>) {
    var n := |values|;
    && |ws| >= 1 && SlotRead(ws[0])
    && (forall k :: 1 <= k < n && k < |ws| ==> ws[k].Some? && WhitespaceOnly(ws[k].value))
    && ((0 < n == |ws| && comment.None?)
        || (|ws| == n + 1 && SlotRead(ws[n])
            && (ws[n].None? && n > 0 ==> comment.Some?)
            && (n == 0 && ws[0].None? ==> comment.None?))
        || (n == 0 && |ws| == 2 && ws[0].None? && ws[1].None? && comment.Some?))
  }

  /** p is where a line ends: the end of the text or a line feed. */
  predicate EndsLine(t: Text, p: nat) {
    p == |t| || (p < |t| && t[p] == LF)
  }

  /** What serializeLine writes after the last value: the trailing slot and the comment. */
  function Tail(line: LineData): Text
    requires line.whitespaces.Some?
  {
    TrailingText(line.values, line.whitespaces.value, line.comment) + CommentText(line.comment)
  }

  lemma LineTextSplit(line: LineData)
    requires HasLayout(line)
    ensures LineText(line) == WsValues(line.values, line.whitespaces.value, 0) + Tail(line)
  {
    AppendAssoc(WsValues(line.values, line.whitespaces.value, 0),
      TrailingText(line.values, line.whitespaces.value, line.comment), CommentText(line.comment));
  }

  lemma SnocSlice<X>(s: seq<X>, k: nat)
    requires k < |s|
    ensures s[..k] + [s[k]] == s[..k + 1]
  {
  }

  /** A whitespace run w at q that no further whitespace follows is what readWhitespaceOrNull returns. */
  lemma {:induction false} WhitespaceRun(t: Text, q: nat, w: Text)
    requires Occurs(t, q, w) && forall k :: 0 <= k < |w| ==> IsWhitespace(w[k])
    requires q + |w| == |t| || !IsWhitespace(t[q + |w|])
    ensures WhitespaceEnd(t, q) == q + |w|
    ensures WhitespaceOrNull(t, q) == if |w| == 0 then None else Some(w)
    decreases |w|
  {
    if |w| > 0 {
      OccursSplit(t, q, [w[0]], w[1..]);
      assert [w[0]] + w[1..] == w;
      OccursOne(t, q, w[0]);
      WhitespaceRun(t, q + 1, w[1..]);
      OccursSlice(t, q, w);
    }
  }

  /** A comment c at p that ends the line is what readCommentText returns. */
  lemma {:induction false} CommentRun(t: Text, p: nat, c: Text)
    requires Occurs(t, p, c) && NoLineFeed(c) && EndsLine(t, p + |c|)
    ensures CommentEnd(t, p) == p + |c|
    decreases |c|
  {
    if |c| > 0 {
      OccursSplit(t, p, [c[0]], c[1..]);
      assert [c[0]] + c[1..] == c;
      OccursOne(t, p, c[0]);
      CommentRun(t, p + 1, c[1..]);
    }
  }

  /** The end of _parseLine on the comment text of a line that then ends. */
  lemma LineEndRoundTrip(t: Text, p: nat, values: seq<Value>, slots: seq<Option<Text>>, whitespace: Option<Text>,
                         comment: Option<Text>, end: nat)
    requires CommentValid(comment) && Occurs(t, p, CommentText(comment))
    requires end == p + |CommentText(comment)| && EndsLine(t, end)
    ensures LineEnd(t, p, values, slots, whitespace)
      == Success((LineData(values, Some(if comment.Some? && whitespace.None? then slots + [None] else slots), comment), end))
  {
    if comment.Some? {
      var c := comment.value;
      OccursSplit(t, p, [HASH], c);
      OccursOne(t, p, HASH);
      CommentRun(t, p + 1, c);
      OccursSlice(t, p + 1, c);
    }
  }

  /** After the last value of a well-formed line, the parser reads its trailing slot and comment. */
  lemma AfterLastValue(t: Text, line: Line, k: nat, q: nat, end: nat)
    requires k + 1 == |line.values|
    requires Occurs(t, q, WsValues(line.values, line.whitespaces.value, k + 1) + Tail(line))
    requires end == q + |WsValues(line.values, line.whitespaces.value, k + 1) + Tail(line)| && EndsLine(t, end)
    ensures var ws := line.whitespaces.value; var w := WhitespaceOrNull(t, q);
      (if w.None? then LineEnd(t, q, line.values[..k + 1], ws[..k + 1], w)
       else LineLoop(t, WhitespaceEnd(t, q), line.values[..k + 1], ws[..k + 1] + [w], w))
      == Success((line, end))
  {
    var n := |line.values|;
    var ws := line.whitespaces.value;
    var trailing := TrailingText(line.values, ws, line.comment);
    var ct := CommentText(line.comment);
    assert WsValues(line.values, ws, k + 1) + Tail(line) == Tail(line);
    assert line.values[..k + 1] == line.values;
    OccursSplit(t, q, trailing, ct);
    var p := q + |trailing|;
    if line.comment.Some? {
      OccursSplit(t, p, [HASH], line.comment.value);
      OccursOne(t, p, HASH);
    }
    if |ws| == n + 1 && ws[n].Some? {
      WhitespaceRun(t, q, trailing);
      assert ws[..n] + [ws[n]] == ws;
      LineEndRoundTrip(t, p, line.values, ws, ws[n], line.comment, end);
    } else {
      assert trailing == [];
      WhitespaceRun(t, q, trailing);
      LineEndRoundTrip(t, q, line.values, ws[..n], None, line.comment, end);
      if line.comment.Some? {
        assert ws[..n] + [None] == ws;
      } else {
        assert ws[..n] == ws;
      }
    }
  }

  /** The text of a well-formed line from value k on, up to the end of its comment. */
  function From(line: LineData, k: nat): Text
    requires line.whitespaces.Some? && k < |line.values|
  {
    SerializedValue(line.values[k]) + (WsValues(line.values, line.whitespaces.value, k + 1) + Tail(line))
  }

  /** The slot in front of value k of a well-formed line, as serializeLine writes it. */
  function Gap(line: LineData, k: nat): Text
    requires line.whitespaces.Some? && k < |line.whitespaces.value|
  {
    SerializeWhitespace(line.whitespaces.value[k], k > 0)
  }

  /** The slot in front of value k is written as it was read, and the text splits there. */
  lemma GapText(line: Line, k: nat)
    requires k < |line.values|
    ensures k < |line.whitespaces.value|
    ensures Gap(line, k) == if line.whitespaces.value[k].None? then [] else line.whitespaces.value[k].value
    ensures forall m :: 0 <= m < |Gap(line, k)| ==> IsWhitespace(Gap(line, k)[m])
    ensures WsValues(line.values, line.whitespaces.value, k) + Tail(line) == Gap(line, k) + From(line, k)
  {
    var ws := line.whitespaces.value;
    WsValuesStep(line.values, ws, k);
    var v := SerializedValue(line.values[k]);
    var rest := WsValues(line.values, ws, k + 1);
    AppendAssoc(Gap(line, k) + v, rest, Tail(line));
    AppendAssoc(Gap(line, k), v, rest + Tail(line));
  }

  /** The next code point after a value of a well-formed line ends the token. */
  lemma {:induction false} ClosedAfterValue(t: Text, line: Line, k: nat, q: nat)
    requires k < |line.values|
    requires Occurs(t, q, WsValues(line.values, line.whitespaces.value, k + 1) + Tail(line))
    requires EndsLine(t, q + |WsValues(line.values, line.whitespaces.value, k + 1) + Tail(line)|)
    ensures ClosedAt(t, q)
  {
    var ws := line.whitespaces.value;
    var n := |line.values|;
    var rest := WsValues(line.values, ws, k + 1) + Tail(line);
    if k + 1 < n {
      GapText(line, k + 1);
      var c := ws[k + 1].value[0];
      assert rest == [c] + rest[1..];
      OccursSplit(t, q, [c], rest[1..]);
      OccursOne(t, q, c);
    } else {
      var trailing := TrailingText(line.values, ws, line.comment);
      if |trailing| > 0 {
        assert rest[0] == trailing[0];
        assert rest == [rest[0]] + rest[1..];
        OccursSplit(t, q, [rest[0]], rest[1..]);
        OccursOne(t, q, rest[0]);
      } else if line.comment.Some? {
        assert rest == [HASH] + line.comment.value;
        OccursSplit(t, q, [HASH], line.comment.value);
        OccursOne(t, q, HASH);
      }
    }
  }

  /** Value k of a well-formed line is written at p and a token end follows it at q. */
  lemma TokenStep(t: Text, line: Line, k: nat, p: nat, q: nat, end: nat)
    requires k < |line.values|
    requires Occurs(t, p, From(line, k)) && end == p + |From(line, k)| && EndsLine(t, end)
    requires q == p + |SerializedValue(line.values[k])|
    ensures Occurs(t, q, WsValues(line.values, line.whitespaces.value, k + 1) + Tail(line))
    ensures end == q + |WsValues(line.values, line.whitespaces.value, k + 1) + Tail(line)|
    ensures Occurs(t, p, SerializedValue(line.values[k])) && ClosedAt(t, q)
  {
    var v := line.values[k];
    SplitAt(t, p, SerializedValue(v), WsValues(line.values, line.whitespaces.value, k + 1) + Tail(line), end);
    ClosedAfterValue(t, line, k, q);
  }

  /** Occurs splits at the join of a + b, and the end of b is the end of a + b. */
  lemma SplitAt(t: Text, p: nat, a: Text, b: Text, end: nat)
    requires Occurs(t, p, a + b) && end == p + |a + b|
    ensures Occurs(t, p, a) && Occurs(t, p + |a|, b) && end == p + |a| + |b|
  {
    OccursSplit(t, p, a, b);
  }

  /** A serialized value at p that a token end follows is one token, which starts the loop's turn. */
  lemma TokenFirst(t: Text, p: nat, v: Value, q: nat)
    requires Occurs(t, p, SerializedValue(v)) && q == p + |SerializedValue(v)| && ClosedAt(t, q)
    ensures p < |t| && t[p] != LF && t[p] != HASH && TokenAt(t, p) == Success((v, q))
  {
    var s := SerializedValue(v);
    TokenRoundTrip(t, p, v);
    SerializedValueShape(v);
    OccursOne(t, p, s[0]);
  }

  /** One turn of the loop of _parseLine over a token read from p to q. */
  lemma LoopTurn(t: Text, p: nat, values: seq<Value>, slots: seq<Option<Text>>, whitespace: Option<Text>,
                 v: Value, q: nat)
    requires Occurs(t, p, SerializedValue(v)) && q == p + |SerializedValue(v)| && ClosedAt(t, q)
    ensures var w := WhitespaceOrNull(t, q);
      LineLoop(t, p, values, slots, whitespace)
      == if w.None? then LineEnd(t, q, values + [v], slots, w)
         else LineLoop(t, WhitespaceEnd(t, q), values + [v], slots + [w], w)
  {
    TokenFirst(t, p, v, q);
    LineLoopStep(t, p, values, slots, whitespace);
  }

  /** A turn of the loop of _parseLine that finds whitespace after the token goes on at the next token. */
  lemma InnerTurn(t: Text, p: nat, values: seq<Value>, slots: seq<Option<Text>>, whitespace: Option<Text>,
                  v: Value, q: nat, g: nat, w: Option<Text>, values': seq<Value>, slots': seq<Option<Text>>)
    requires Occurs(t, p, SerializedValue(v)) && q == p + |SerializedValue(v)| && ClosedAt(t, q)
    requires WhitespaceOrNull(t, q) == w && w.Some? && WhitespaceEnd(t, q) == g
    requires values' == values + [v] && slots' == slots + [w]
    ensures LineLoop(t, p, values, slots, whitespace) == LineLoop(t, g, values', slots', w)
  {
    LoopTurn(t, p, values, slots, whitespace, v, q);
  }

  /** _parseLine reads the slot in front of value k of a well-formed line as it was. */
  lemma GapStep(t: Text, line: Line, k: nat, q: nat, end: nat)
    requires k < |line.values|
    requires Occurs(t, q, WsValues(line.values, line.whitespaces.value, k) + Tail(line))
    requires end == q + |WsValues(line.values, line.whitespaces.value, k) + Tail(line)|
    ensures k < |line.whitespaces.value|
    ensures WhitespaceOrNull(t, q) == line.whitespaces.value[k]
    ensures WhitespaceEnd(t, q) == q + |Gap(line, k)|
    ensures Occurs(t, q + |Gap(line, k)|, From(line, k)) && end == q + |Gap(line, k)| + |From(line, k)|
  {
    GapText(line, k);
    var gap := Gap(line, k);
    assert Occurs(t, q, gap) && Occurs(t, q + |gap|, From(line, k)) by {
      OccursSplit(t, q, gap, From(line, k));
    }
    assert q + |gap| < |t| && !IsWhitespace(t[q + |gap|]) by {
      ValueStart(t, q + |gap|, line.values[k], WsValues(line.values, line.whitespaces.value, k + 1) + Tail(line));
    }
    WhitespaceRun(t, q, gap);
  }

  /** A serialized value at p starts with a code point that is neither whitespace, a line feed nor '#'. */
  lemma ValueStart(t: Text, p: nat, v: Value, rest: Text)
    requires Occurs(t, p, SerializedValue(v) + rest)
    ensures p < |t| && !IsWhitespace(t[p]) && t[p] != LF && t[p] != HASH
  {
    SerializedValueShape(v);
    OccursAt(t, p, SerializedValue(v) + rest, 0);
  }


  /** _parseLine reads the last value of a well-formed line and the rest of the line. */
  lemma LastValueStep(t: Text, line: Line, k: nat, p: nat, end: nat)
    requires ValueAt(t, line, k, p, end) && k + 1 == |line.values|
    ensures LoopReads(t, line, k, p, end)
  {
    var ws := line.whitespaces.value;
    var q := p + |SerializedValue(line.values[k])|;
    TokenStep(t, line, k, p, q, end);
    SnocSlice(line.values, k);
    LoopTurn(t, p, line.values[..k], ws[..k + 1], ws[k], line.values[k], q);
    AfterLastValue(t, line, k, q, end);
  }

  /** Value k of a well-formed line is written at p, and the line ends at end. */
  predicate ValueAt(t: Text, line: Line, k: nat, p: nat, end: nat) {
    k < |line.values|
    && Occurs(t, p, From(line, k)) && end == p + |From(line, k)| && EndsLine(t, end)
  }

  /** The loop of _parseLine, entered at p with the values before value k, reads line and stops at end. */
  predicate LoopReads(t: Text, line: LineData, k: nat, p: nat, end: nat) {
    line.whitespaces.Some? && k < |line.values| && k < |line.whitespaces.value| && p <= |t|
    && LineLoop(t, p, line.values[..k], line.whitespaces.value[..k + 1], line.whitespaces.value[k])
       == Success((line, end))
  }

  /** The loop of _parseLine, from value k of a well-formed line, reads the rest of it back. */
  lemma {:induction false} LoopRoundTrip(t: Text, line: Line, k: nat, p: nat, end: nat)
    requires ValueAt(t, line, k, p, end)
    ensures LoopReads(t, line, k, p, end)
    decreases |line.values| - k
  {
    if k + 1 < |line.values| {
      var g := InnerValueStep(t, line, k, p, end);
      LoopRoundTrip(t, line, k + 1, g, end);
    } else {
      LastValueStep(t, line, k, p, end);
    }
  }

  /** _parseLine reads value k of a well-formed line and the slot after it, and goes on at g with value k + 1. */
  lemma InnerValueStep(t: Text, line: Line, k: nat, p: nat, end: nat) returns (g: nat)
    requires ValueAt(t, line, k, p, end) && k + 1 < |line.values|
    ensures ValueAt(t, line, k + 1, g, end)
    ensures LoopReads(t, line, k + 1, g, end) ==> LoopReads(t, line, k, p, end)
  {
    var ws := line.whitespaces.value;
    var q;
    q, g := TokenAndGap(t, line, k, p, end);
    InnerSlot(line, k + 1);
    SnocSlice(line.values, k);
    SnocSlice(ws, k + 1);
    InnerTurn(t, p, line.values[..k], ws[..k + 1], ws[k], line.values[k], q, g, ws[k + 1],
      line.values[..k + 1], ws[..k + 2]);
  }

  /** Value k of a well-formed line is one token from p to q, and the slot after it runs from q to g. */
  lemma TokenAndGap(t: Text, line: Line, k: nat, p: nat, end: nat) returns (q: nat, g: nat)
    requires k + 1 < |line.values|
    requires Occurs(t, p, From(line, k)) && end == p + |From(line, k)| && EndsLine(t, end)
    ensures Occurs(t, g, From(line, k + 1)) && end == g + |From(line, k + 1)|
    ensures Occurs(t, p, SerializedValue(line.values[k])) && q == p + |SerializedValue(line.values[k])| && ClosedAt(t, q)
    ensures k + 1 < |line.whitespaces.value|
    ensures WhitespaceOrNull(t, q) == line.whitespaces.value[k + 1] && WhitespaceEnd(t, q) == g
  {
    q := p + |SerializedValue(line.values[k])|;
    TokenStep(t, line, k, p, q, end);
    GapStep(t, line, k + 1, q, end);
    g := q + |Gap(line, k + 1)|;
  }

  /** Every slot between two values of a well-formed line is whitespace. */
  lemma InnerSlot(line: Line, k: nat)
    requires 1 <= k < |line.values|
    ensures k < |line.whitespaces.value| && line.whitespaces.value[k].Some?
    ensures WhitespaceOnly(line.whitespaces.value[k].value)
  {
  }

  /**
   * Line round trip: a well-formed line written by serializeLine, followed by the end of the
   * text or a line feed, is read back by _parseLine as the same line, which stops at that end.
   */
  lemma ReparseLine(t: Text, i: nat, line: Line)
    requires Occurs(t, i, LineText(line)) && EndsLine(t, i + |LineText(line)|)
    ensures LineAt(t, i) == Success((line, i + |LineText(line)|))
  {
    var end := i + |LineText(line)|;
    LineTextSplit(line);
    ReparseSplitLine(t, i, line, end);
  }

  /** ReparseLine once the text is split at the last value. */
  lemma ReparseSplitLine(t: Text, i: nat, line: Line, end: nat)
    requires Occurs(t, i, WsValues(line.values, line.whitespaces.value, 0) + Tail(line))
    requires end == i + |WsValues(line.values, line.whitespaces.value, 0) + Tail(line)| && EndsLine(t, end)
    ensures LineAt(t, i) == Success((line, end))
  {
    if |line.values| == 0 {
      EmptyLineRoundTrip(t, i, line, end);
    } else {
      ValuesLineRoundTrip(t, i, line, end);
    }
  }

  /** ReparseLine for a line with values. */
  lemma ValuesLineRoundTrip(t: Text, i: nat, line: Line, end: nat)
    requires |line.values| > 0
    requires Occurs(t, i, WsValues(line.values, line.whitespaces.value, 0) + Tail(line))
    requires end == i + |WsValues(line.values, line.whitespaces.value, 0) + Tail(line)| && EndsLine(t, end)
    ensures LineAt(t, i) == Success((line, end))
  {
    var g := FirstStep(t, i, line, end);
    LoopRoundTrip(t, line, 0, g, end);
  }

  /** _parseLine reads the leading slot of a well-formed line with values and enters its loop at g. */
  lemma FirstStep(t: Text, i: nat, line: Line, end: nat) returns (g: nat)
    requires |line.values| > 0
    requires Occurs(t, i, WsValues(line.values, line.whitespaces.value, 0) + Tail(line))
    requires end == i + |WsValues(line.values, line.whitespaces.value, 0) + Tail(line)| && EndsLine(t, end)
    ensures Occurs(t, g, From(line, 0)) && end == g + |From(line, 0)|
    ensures var ws := line.whitespaces.value;
      LineAt(t, i) == LineLoop(t, g, line.values[..0], ws[..1], ws[0])
  {
    var ws := line.whitespaces.value;
    GapStep(t, line, 0, i, end);
    g := i + |Gap(line, 0)|;
    LineStart(t, i, g, ws[0], line.values[..0], ws[..1]);
  }

  /** _parseLine starts with the leading slot and enters its loop after it. */
  lemma LineStart(t: Text, i: nat, g: nat, w: Option<Text>, values: seq<Value>, slots: seq<Option<Text>>)
    requires i <= |t| && WhitespaceOrNull(t, i) == w && WhitespaceEnd(t, i) == g
    requires values == [] && slots == [w]
    ensures LineAt(t, i) == LineLoop(t, g, values, slots, w)
  {
  }

  /** ReparseLine for a line without values: its leading slot and its comment. */
  lemma EmptyLineRoundTrip(t: Text, i: nat, line: Line, end: nat)
    requires |line.values| == 0
    requires Occurs(t, i, WsValues(line.values, line.whitespaces.value, 0) + Tail(line))
    requires end == i + |WsValues(line.values, line.whitespaces.value, 0) + Tail(line)| && EndsLine(t, end)
    ensures LineAt(t, i) == Success((line, end))
  {
    var ws := line.whitespaces.value;
    var g := EmptyLead(t, i, line, end);
    LineStart(t, i, g, ws[0], [], [ws[0]]);
    LoopExit(t, g, [], [ws[0]], ws[0]);
    LineEndRoundTrip(t, g, [], [ws[0]], ws[0], line.comment, end);
    EmptySlots(line);
  }

  /** The leading slot of a line without values is read as it was; the comment text follows. */
  lemma EmptyLead(t: Text, i: nat, line: Line, end: nat) returns (g: nat)
    requires |line.values| == 0
    requires Occurs(t, i, WsValues(line.values, line.whitespaces.value, 0) + Tail(line))
    requires end == i + |WsValues(line.values, line.whitespaces.value, 0) + Tail(line)| && EndsLine(t, end)
    ensures WhitespaceOrNull(t, i) == line.whitespaces.value[0] && WhitespaceEnd(t, i) == g
    ensures Occurs(t, g, CommentText(line.comment)) && end == g + |CommentText(line.comment)|
    ensures g == |t| || t[g] == LF || t[g] == HASH
  {
    var ws := line.whitespaces.value;
    assert WsValues(line.values, ws, 0) + Tail(line) == Tail(line);
    var gap := SerializeWhitespace(ws[0], false);
    assert TrailingText(line.values, ws, line.comment) == gap;
    OccursSplit(t, i, gap, CommentText(line.comment));
    g := i + |gap|;
    if line.comment.Some? {
      OccursSplit(t, g, [HASH], line.comment.value);
      OccursOne(t, g, HASH);
    }
    WhitespaceRun(t, i, gap);
  }

  /** The loop of _parseLine leaves at once at the end of the line or at '#'. */
  lemma LoopExit(t: Text, p: nat, values: seq<Value>, slots: seq<Option<Text>>, whitespace: Option<Text>)
    requires p <= |t| && (p == |t| || t[p] == LF || t[p] == HASH)
    ensures LineLoop(t, p, values, slots, whitespace) == LineEnd(t, p, values, slots, whitespace)
  {
  }

  /** The slots of a line without values are the leading one, and a second absent one before a comment. */
  lemma EmptySlots(line: Line)
    requires |line.values| == 0
    ensures var ws := line.whitespaces.value;
      line == LineData([], Some(if line.comment.Some? && ws[0].None? then [ws[0]] + [None] else [ws[0]]), line.comment)
  {
    var ws := line.whitespaces.value;
    assert line.values == [];
    if |ws| == 2 {
      assert ws == [ws[0]] + [None];
    } else {
      assert ws == [ws[0]];
    }
  }

  /** A token the line parsers read ends at a token end and spans no line feed. */
  lemma TokenFacts(t: Text, p: nat)
    requires p < |t| && TokenAt(t, p).Success?
    ensures var q := TokenAt(t, p).value.1;
      ClosedAt(t, q) && forall k :: p <= k < q ==> t[k] != LF
  {
    if t[p] == QUOTE {
      StringSuccessAt(t, p + 1);
      var q := TokenAt(t, p).value.1;
      forall k | p < k < q
        ensures t[k] != LF
      {
        assert t[p + 1..q][k - (p + 1)] == t[k];
      }
    } else {
      ValueEndFacts(t, p);
      var q := TokenAt(t, p).value.1;
      forall k | p <= k < q
        ensures t[k] != LF
      {
        assert t[p..q][k - p] == t[k];
      }
    }
  }

  /** readWhitespaceOrNull finds no slot exactly when no whitespace follows, and a slot is whitespace. */
  lemma WhitespaceOrNullShape(t: Text, i: nat)
    requires i <= |t|
    ensures var w := WhitespaceOrNull(t, i);
      (w.None? <==> WhitespaceEnd(t, i) == i) && (w.Some? ==> WhitespaceOnly(w.value))
  {
    var j := WhitespaceEnd(t, i);
    if j > i {
      WhitespaceEndFacts(t, i);
      forall k | 0 <= k < j - i
        ensures IsWhitespace(t[i..j][k])
      {
        assert t[i..j][k] == t[i + k];
      }
    }
  }

  /** The state of the loop of _parseLine at its head: one slot per value and one more, the last read last. */
  predicate HeadState(values: seq<Value>, slots: seq<Option<Text>>, whitespace: Option<Text>) {
    && |slots| == |values| + 1
    && SlotRead(slots[0])
    && (forall k :: 1 <= k < |slots| ==> slots[k].Some? && WhitespaceOnly(slots[k].value))
    && whitespace == slots[|values|]
    && (|values| > 0 ==> whitespace.Some?)
  }

  /** The state after a value that no whitespace follows: one slot per value. */
  predicate BrokenState(values: seq<Value>, slots: seq<Option<Text>>) {
    && |slots| == |values| > 0
    && SlotRead(slots[0])
    && (forall k :: 1 <= k < |slots| ==> slots[k].Some? && WhitespaceOnly(slots[k].value))
  }

  /** The comment _parseLine reads after '#' holds no line feed and ends the line. */
  lemma CommentFacts(t: Text, p: nat)
    requires p < |t| && t[p] == HASH
    ensures var e := CommentEnd(t, p + 1); NoLineFeed(t[p + 1..e]) && EndsLine(t, e)
  {
    var c := t[p + 1..CommentEnd(t, p + 1)];
    CommentEndFacts(t, p + 1);
    forall k | 0 <= k < |c|
      ensures c[k] != LF
    {
      assert c[k] == t[p + 1 + k];
    }
  }

  /** Leaving the loop at its head gives a well-formed line, which ends the line. */
  lemma HeadEnd(t: Text, p: nat, values: seq<Value>, slots: seq<Option<Text>>, whitespace: Option<Text>)
    requires p <= |t| && (p == |t| || t[p] == LF || t[p] == HASH) && HeadState(values, slots, whitespace)
    ensures var (line, j) := LineEnd(t, p, values, slots, whitespace).value;
      WellFormed(line) && line.values == values && EndsLine(t, j)
  {
    if p < |t| && t[p] == HASH {
      CommentFacts(t, p);
      if whitespace.None? {
        assert |values| == 0 && slots == [None];
      }
    }
  }

  /** Leaving the loop after a value that no whitespace follows gives a well-formed line. */
  lemma BrokenEnd(t: Text, q: nat, values: seq<Value>, slots: seq<Option<Text>>)
    requires q <= |t| && ClosedAt(t, q) && WhitespaceEnd(t, q) == q && BrokenState(values, slots)
    ensures var (line, j) := LineEnd(t, q, values, slots, None).value;
      WellFormed(line) && line.values == values && EndsLine(t, j)
  {
    if q < |t| && t[q] == HASH {
      CommentFacts(t, q);
      var n := |values|;
      assert (slots + [None])[n] == None;
    }
  }

  /** Every line the loop of _parseLine produces from a head state is well-formed and ends the line. */
  lemma {:induction false} LoopWellFormed(t: Text, p: nat, values: seq<Value>, slots: seq<Option<Text>>,
                                          whitespace: Option<Text>)
    requires p <= |t| && HeadState(values, slots, whitespace)
    requires LineLoop(t, p, values, slots, whitespace).Success?
    ensures var (line, j) := LineLoop(t, p, values, slots, whitespace).value;
      WellFormed(line) && EndsLine(t, j)
      && forall k :: p <= k < j ==> t[k] != LF
    decreases |t| - p
  {
    if p == |t| || t[p] == LF || t[p] == HASH {
      HeadEnd(t, p, values, slots, whitespace);
      HeadEndSpan(t, p, values, slots, whitespace);
    } else {
      var v, q, w, g := LoopTurnFacts(t, p, values, slots, whitespace);
      var j := LineLoop(t, p, values, slots, whitespace).value.1;
      if w.None? {
        BrokenEnd(t, q, values + [v], slots);
        HeadEndSpan(t, q, values + [v], slots, None);
      } else {
        LoopWellFormed(t, g, values + [v], slots + [w], w);
      }
      SpanJoin(t, p, g, j);
    }
  }

  /** One turn of the loop of _parseLine from a head state: a token from p to q, then the slot w up to g. */
  lemma LoopTurnFacts(t: Text, p: nat, values: seq<Value>, slots: seq<Option<Text>>, whitespace: Option<Text>)
      returns (v: Value, q: nat, w: Option<Text>, g: nat)
    requires p < |t| && t[p] != LF && t[p] != HASH && HeadState(values, slots, whitespace)
    requires LineLoop(t, p, values, slots, whitespace).Success?
    ensures TokenAt(t, p) == Success((v, q)) && w == WhitespaceOrNull(t, q)
    ensures p < q <= g <= |t| && ClosedAt(t, q) && WhitespaceEnd(t, q) == g
    ensures forall k :: p <= k < g ==> t[k] != LF
    ensures w.None? ==> g == q && BrokenState(values + [v], slots)
    ensures w.None? ==> LineLoop(t, p, values, slots, whitespace) == LineEnd(t, q, values + [v], slots, None)
    ensures w.Some? ==> HeadState(values + [v], slots + [w], w)
    ensures w.Some? ==> LineLoop(t, p, values, slots, whitespace) == LineLoop(t, g, values + [v], slots + [w], w)
  {
    v := TokenAt(t, p).value.0;
    q := TokenAt(t, p).value.1;
    w := WhitespaceOrNull(t, q);
    g := WhitespaceEnd(t, q);
    LineLoopStep(t, p, values, slots, whitespace);
    TokenFacts(t, p);
    WhitespaceOrNullShape(t, q);
    WhitespaceEndFacts(t, q);
    if w.Some? {
      assert HeadState(values + [v], slots + [w], w);
    }
  }

  /** Two spans with no line feed make one. */
  lemma SpanJoin(t: Text, a: nat, b: nat, c: nat)
    requires a <= b <= c <= |t|
    requires forall k :: a <= k < b ==> t[k] != LF
    requires forall k :: b <= k < c ==> t[k] != LF
    ensures forall k :: a <= k < c ==> t[k] != LF
  {
  }

  /** LineEnd spans no line feed. */
  lemma HeadEndSpan(t: Text, p: nat, values: seq<Value>, slots: seq<Option<Text>>, whitespace: Option<Text>)
    requires p <= |t|
    ensures var j := LineEnd(t, p, values, slots, whitespace).value.1;
      forall k :: p <= k < j ==> t[k] != LF
  {
    if p < |t| && t[p] == HASH {
      CommentEndFacts(t, p + 1);
    }
  }

  /**
   * Every line _parseLine produces is well-formed; it stops at the end of the text or at a
   * line feed, and reads no line feed on the way.
   */
  lemma ParsedLineWellFormed(t: Text, i: nat)
    requires i <= |t| && LineAt(t, i).Success?
    ensures var (line, j) := LineAt(t, i).value;
      WellFormed(line) && EndsLine(t, j) && forall k :: i <= k < j ==> t[k] != LF
  {
    var w := WhitespaceOrNull(t, i);
    var g := WhitespaceEnd(t, i);
    WhitespaceOrNullShape(t, i);
    LoopWellFormed(t, g, [], [w], w);
  }

  /** A line as the parser reads it never reaches the branch of line 382 that raises. */
  lemma WellFormedAsWritten(line: Line)
    ensures ValuesWithWhitespaceAsWritten(line) == Some(ValuesWithWhitespace(line))
  {
    var n := |line.values|;
    assert |line.whitespaces.value| < n + 1 ==> line.comment.None?;
  }
}
