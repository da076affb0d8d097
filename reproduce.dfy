/**
 * The promise of the preserving mode, from the text's side: a text that parseDocument
 * accepts, written back by serializeDocument, is the text itself, provided every token in it
 * is written the way serializeValue writes its value. Every text without a double quote is
 * such a text. A quoted token written differently (`"a"` rather than `a`) comes back in its
 * canonical form instead.
 */
module WsvReproduce {
  import opened Wrappers
  import opened WsvChars
  import opened WsvErrors
  import opened WsvCursor
  import opened WsvData
  import opened WsvSerializer
  import opened WsvParser
  import opened WsvTokens
  import opened WsvLines
  import opened WsvRoundTrip

  /** The text a captured slot stands for; an absent slot stands for none. */
  function SlotText(w: Option<Text>): Text {
    if w.Some? then w.value else []
  }

  /**
   * Every token the loop of _parseLine reads from p on is written exactly as serializeValue
   * writes the value read.
   */
  predicate CanonicalFrom(t: Text, p: nat)
    requires p <= |t|
    decreases |t| - p
  {
    if p == |t| || t[p] == LF || t[p] == HASH then true
    else
      match TokenAt(t, p)
      case Failure(_) => true
      case Success((v, q)) => t[p..q] == SerializedValue(v) && CanonicalFrom(t, WhitespaceEnd(t, q))
  }

  /** i is where a line of t starts. */
  predicate StartsLine(t: Text, i: nat) {
    i == 0 || (0 < i <= |t| && t[i - 1] == LF)
  }

  /** Every line of t has its tokens written canonically. */
  predicate CanonicalText(t: Text) {
    forall i {:trigger StartsLine(t, i)} :: 0 <= i <= |t| && StartsLine(t, i) ==> CanonicalFrom(t, WhitespaceEnd(t, i))
  }

  /** An optional separator is replayed as the slot it was read as. */
  lemma SlotReplay(w: Option<Text>, isRequired: bool)
    requires isRequired ==> w.Some? && |w.value| > 0
    ensures SerializeWhitespace(w, isRequired) == SlotText(w)
  {
  }

  /** What the loop of _parseLine returns extends the values and slots it has read so far. */
  lemma {:induction false} LoopPrefix(t: Text, p: nat, values: seq<Value>, slots: seq<Option<Text>>, whitespace: Option<Text>)
    requires p <= |t| && LineLoop(t, p, values, slots, whitespace).Success?
    ensures var line := LineLoop(t, p, values, slots, whitespace).value.0;
      && line.whitespaces.Some?
      && |values| <= |line.values| && line.values[..|values|] == values
      && |slots| <= |line.whitespaces.value| && line.whitespaces.value[..|slots|] == slots
    decreases |t| - p
  {
    if p == |t| || t[p] == LF || t[p] == HASH {
      var line := LineLoop(t, p, values, slots, whitespace).value.0;
      assert line.values == values;
      assert line.whitespaces.value[..|slots|] == slots;
    } else {
      var v := TokenAt(t, p).value.0;
      var q := TokenAt(t, p).value.1;
      var w := WhitespaceOrNull(t, q);
      LineLoopStep(t, p, values, slots, whitespace);
      if w.None? {
        var line := LineLoop(t, p, values, slots, whitespace).value.0;
        assert line.values == values + [v];
        assert line.whitespaces.value[..|slots|] == slots;
      } else {
        LoopPrefix(t, WhitespaceEnd(t, q), values + [v], slots + [w], w);
        var line := LineLoop(t, p, values, slots, whitespace).value.0;
        PrefixOfPrefix(line.values, values, v);
        PrefixOfPrefix(line.whitespaces.value, slots, w);
      }
    }
  }

  lemma PrefixOfPrefix<X>(s: seq<X>, xs: seq<X>, x: X)
    requires |xs| + 1 <= |s| && s[..|xs| + 1] == xs + [x]
    ensures s[..|xs|] == xs && s[|xs|] == x
  {
    assert s[..|xs|] == s[..|xs| + 1][..|xs|];
  }

  /** The end of _parseLine writes back as the text it read: the comment, or nothing. */
  lemma LineEndText(t: Text, p: nat, values: seq<Value>, slots: seq<Option<Text>>, whitespace: Option<Text>)
    requires p <= |t|
    ensures var (line, j) := LineEnd(t, p, values, slots, whitespace).value;
      CommentText(line.comment) == t[p..j]
  {
    if p < |t| && t[p] == HASH {
      var e := CommentEnd(t, p + 1);
      assert t[p..e] == [HASH] + t[p + 1..e];
    }
  }

  /** Leaving the loop of _parseLine at its head: the trailing slot and the comment write back as read. */
  lemma HeadExitText(t: Text, p: nat, values: seq<Value>, slots: seq<Option<Text>>, whitespace: Option<Text>)
    requires p <= |t| && |values| < |slots| && slots[|values|] == whitespace
    ensures var (line, j) := LineEnd(t, p, values, slots, whitespace).value;
      && line.whitespaces.Some?
      && SlotText(whitespace) + t[p..j] == WsValues(line.values, line.whitespaces.value, |values|) + Tail(line)
  {
    var line := LineEnd(t, p, values, slots, whitespace).value.0;
    HeadExitLine(t, p, values, slots, whitespace);
    LineEndText(t, p, values, slots, whitespace);
    TrailingSlot(line, whitespace);
  }

  /** The line the loop of _parseLine builds when it leaves at its head keeps the slot read last. */
  lemma HeadExitLine(t: Text, p: nat, values: seq<Value>, slots: seq<Option<Text>>, whitespace: Option<Text>)
    requires p <= |t| && |values| < |slots| && slots[|values|] == whitespace
    ensures var line := LineEnd(t, p, values, slots, whitespace).value.0;
      && line.whitespaces.Some? && line.values == values
      && |values| < |line.whitespaces.value| && line.whitespaces.value[|values|] == whitespace
  {
  }

  /** After the last value, a line writes its trailing slot and its comment. */
  lemma TrailingSlot(line: LineData, whitespace: Option<Text>)
    requires line.whitespaces.Some? && |line.values| < |line.whitespaces.value|
    requires line.whitespaces.value[|line.values|] == whitespace
    ensures WsValues(line.values, line.whitespaces.value, |line.values|) + Tail(line)
      == SlotText(whitespace) + CommentText(line.comment)
  {
    SlotReplay(whitespace, false);
    assert WsValues(line.values, line.whitespaces.value, |line.values|) == [];
  }

  /** Leaving the loop after a value with no whitespace behind it: the comment writes back as read. */
  lemma BrokenExitText(t: Text, q: nat, values: seq<Value>, slots: seq<Option<Text>>)
    requires q <= |t| && |slots| == |values| > 0
    ensures var (line, j) := LineEnd(t, q, values, slots, None).value;
      && line.whitespaces.Some? && q <= j <= |t|
      && line.values == values && |values| <= |line.whitespaces.value|
      && line.whitespaces.value[|values| - 1] == slots[|values| - 1]
      && t[q..j] == WsValues(line.values, line.whitespaces.value, |values|) + Tail(line)
  {
    var line := LineEnd(t, q, values, slots, None).value.0;
    var ws := line.whitespaces.value;
    assert line.values == values;
    if line.comment.Some? {
      assert ws[|values|] == None;
    }
    assert TrailingText(values, ws, line.comment) == [];
    LineEndText(t, q, values, slots, None);
  }

  /** The slot before value k, the value and the text serializeLine writes after it make the text from value k on. */
  lemma TurnText(line: LineData, k: nat, whitespace: Option<Text>, a: Text, rest: Text)
    requires line.whitespaces.Some? && k < |line.values| && k < |line.whitespaces.value|
    requires line.whitespaces.value[k] == whitespace && (k > 0 ==> whitespace.Some? && |whitespace.value| > 0)
    requires a == SerializedValue(line.values[k])
    requires rest == WsValues(line.values, line.whitespaces.value, k + 1) + Tail(line)
    ensures SlotText(whitespace) + a + rest == WsValues(line.values, line.whitespaces.value, k) + Tail(line)
  {
    var ws := line.whitespaces.value;
    WsValuesStep(line.values, ws, k);
    SlotReplay(whitespace, k > 0);
    assert Slot(ws, k) == whitespace;
    AppendAssoc(SlotText(whitespace) + a, WsValues(line.values, ws, k + 1), Tail(line));
  }

  /** One turn of the loop of _parseLine over a canonically written token. */
  lemma CanonicalTurn(t: Text, p: nat, values: seq<Value>, slots: seq<Option<Text>>, whitespace: Option<Text>)
      returns (v: Value, q: nat, w: Option<Text>, g: nat)
    requires p < |t| && t[p] != LF && t[p] != HASH && HeadState(values, slots, whitespace)
    requires LineLoop(t, p, values, slots, whitespace).Success? && CanonicalFrom(t, p)
    ensures p < q <= g <= |t| && t[p..q] == SerializedValue(v) && CanonicalFrom(t, g)
    ensures w.None? ==> g == q && BrokenState(values + [v], slots)
    ensures w.None? ==> LineLoop(t, p, values, slots, whitespace) == LineEnd(t, q, values + [v], slots, None)
    ensures w.Some? ==> t[q..g] == w.value && HeadState(values + [v], slots + [w], w)
    ensures w.Some? ==> LineLoop(t, p, values, slots, whitespace) == LineLoop(t, g, values + [v], slots + [w], w)
  {
    v, q, w, g := LoopTurnFacts(t, p, values, slots, whitespace);
    assert t[p..q] == SerializedValue(v) && CanonicalFrom(t, g);
  }

  /** The loop stops after a token that no whitespace follows: the line writes back from value k on as read. */
  lemma TurnSlices(t: Text, p: nat, q: nat, j: nat, line: LineData, k: nat, whitespace: Option<Text>)
    requires p <= q <= j <= |t| && line.whitespaces.Some? && k < |line.values| && k < |line.whitespaces.value|
    requires line.whitespaces.value[k] == whitespace && (k > 0 ==> whitespace.Some? && |whitespace.value| > 0)
    requires t[p..q] == SerializedValue(line.values[k])
    requires t[q..j] == WsValues(line.values, line.whitespaces.value, k + 1) + Tail(line)
    ensures SlotText(whitespace) + t[p..j] == WsValues(line.values, line.whitespaces.value, k) + Tail(line)
  {
    SliceTwo(t, p, q, j);
    Regroup(SlotText(whitespace), t[p..q], t[q..j], t[p..j]);
    TurnText(line, k, whitespace, t[p..q], t[q..j]);
  }

  /** Two adjacent slices of t make one. */
  lemma SliceTwo(t: Text, p: nat, q: nat, j: nat)
    requires p <= q <= j <= |t|
    ensures t[p..j] == t[p..q] + t[q..j]
  {
  }

  lemma Regroup(x: Text, a: Text, b: Text, ab: Text)
    requires ab == a + b
    ensures x + ab == x + a + b
  {
  }

  /** The slot the loop of _parseLine read last: an absent one only before the first value. */
  lemma HeadSlot(values: seq<Value>, slots: seq<Option<Text>>, whitespace: Option<Text>)
    requires HeadState(values, slots, whitespace)
    ensures |values| < |slots| && slots[|values|] == whitespace
    ensures |values| > 0 ==> whitespace.Some? && |whitespace.value| > 0
  {
  }

  /** The loop goes on after a token and its whitespace: the rest reads back, so the line does from value k on. */
  lemma InnerTurnText(t: Text, p: nat, q: nat, g: nat, j: nat, line: LineData,
                      values: seq<Value>, slots: seq<Option<Text>>, whitespace: Option<Text>, v: Value, w: Option<Text>)
    requires p <= q <= g <= j <= |t| && w.Some?
    requires |values| < |slots| && slots[|values|] == whitespace
    requires |values| > 0 ==> whitespace.Some? && |whitespace.value| > 0
    requires t[p..q] == SerializedValue(v) && t[q..g] == w.value
    requires line.whitespaces.Some?
    requires |values| + 1 <= |line.values| && line.values[..|values| + 1] == values + [v]
    requires |slots| + 1 <= |line.whitespaces.value| && line.whitespaces.value[..|slots| + 1] == slots + [w]
    requires SlotText(w) + t[g..j] == WsValues(line.values, line.whitespaces.value, |values| + 1) + Tail(line)
    ensures SlotText(whitespace) + t[p..j] == WsValues(line.values, line.whitespaces.value, |values|) + Tail(line)
  {
    PrefixOfPrefix(line.values, values, v);
    PrefixOfPrefix(line.whitespaces.value, slots, w);
    SliceTwo(t, q, g, j);
    TurnSlices(t, p, q, j, line, |values|, whitespace);
  }

  /**
   * The loop of _parseLine, from a head state at p, reads tokens that write back as read: the
   * slot read last and the text up to where the loop stops are what serializeLine writes from
   * value |values| on.
   */
  lemma {:induction false} LoopText(t: Text, p: nat, values: seq<Value>, slots: seq<Option<Text>>, whitespace: Option<Text>)
    requires p <= |t| && HeadState(values, slots, whitespace) && CanonicalFrom(t, p)
    requires LineLoop(t, p, values, slots, whitespace).Success?
    ensures var line := LineLoop(t, p, values, slots, whitespace).value.0;
      && line.whitespaces.Some?
      && SlotText(whitespace) + t[p..LineLoop(t, p, values, slots, whitespace).value.1]
         == WsValues(line.values, line.whitespaces.value, |values|) + Tail(line)
    decreases |t| - p
  {
    if p == |t| || t[p] == LF || t[p] == HASH {
      HeadSlot(values, slots, whitespace);
      HeadExitText(t, p, values, slots, whitespace);
    } else {
      var v, q, w, g := CanonicalTurn(t, p, values, slots, whitespace);
      HeadSlot(values, slots, whitespace);
      if w.None? {
        BrokenTurn(t, p, q, values, slots, whitespace, v);
      } else {
        LoopText(t, g, values + [v], slots + [w], w);
        LoopPrefix(t, g, values + [v], slots + [w], w);
        var (line, j) := LineLoop(t, g, values + [v], slots + [w], w).value;
        InnerTurnText(t, p, q, g, j, line, values, slots, whitespace, v, w);
      }
    }
  }

  /** The loop of _parseLine stops after a canonically written token that no whitespace follows. */
  lemma BrokenTurn(t: Text, p: nat, q: nat, values: seq<Value>, slots: seq<Option<Text>>, whitespace: Option<Text>, v: Value)
    requires p <= q <= |t| && t[p..q] == SerializedValue(v) && |slots| == |values| + 1
    requires slots[|values|] == whitespace
    requires |values| > 0 ==> whitespace.Some? && |whitespace.value| > 0
    ensures var (line, j) := LineEnd(t, q, values + [v], slots, None).value;
      && line.whitespaces.Some?
      && SlotText(whitespace) + t[p..j] == WsValues(line.values, line.whitespaces.value, |values|) + Tail(line)
  {
    BrokenExitText(t, q, values + [v], slots);
    var (line, j) := LineEnd(t, q, values + [v], slots, None).value;
    TurnSlices(t, p, q, j, line, |values|, whitespace);
  }

  /** A line whose tokens are written canonically is written back, by serializeLine, as the text it was read from. */
  lemma LineReproduces(t: Text, i: nat)
    requires i <= |t| && LineAt(t, i).Success? && CanonicalFrom(t, WhitespaceEnd(t, i))
    ensures LineText(LineAt(t, i).value.0) == t[i..LineAt(t, i).value.1]
  {
    var w := WhitespaceOrNull(t, i);
    var g := WhitespaceEnd(t, i);
    WhitespaceOrNullShape(t, i);
    LineStart(t, i, g, w, [], [w]);
    assert HeadState([], [w], w);
    LoopText(t, g, [], [w], w);
    LoopPrefix(t, g, [], [w], w);
    var line := LineAt(t, i).value.0;
    var j := LineAt(t, i).value.1;
    LeadText(t, i, g, j, w, line);
  }

  /** The leading slot read from i to g, and the rest of the line, make the whole text serializeLine writes. */
  lemma LeadText(t: Text, i: nat, g: nat, j: nat, w: Option<Text>, line: LineData)
    requires i <= g <= j <= |t| && t[i..g] == SlotText(w)
    requires line.whitespaces.Some? && |line.whitespaces.value| >= 1
    requires SlotText(w) + t[g..j] == WsValues(line.values, line.whitespaces.value, 0) + Tail(line)
    ensures LineText(line) == t[i..j]
  {
    assert t[i..j] == t[i..g] + t[g..j];
    LineTextSplit(line);
  }

  /** The texts of a line in front of at least one more line, joined by line feeds. */
  lemma {:induction false} JoinedShift(texts: seq<Text>, k: nat)
    requires 1 <= k && |texts| > 0
    ensures JoinedLines(texts, k + 1) == JoinedLines(texts[1..], k)
    decreases |texts| - k
  {
    if k + 1 < |texts| {
      JoinedShift(texts, k + 1);
      JoinedLinesStep(texts, k + 1);
      JoinedLinesStep(texts[1..], k);
    }
  }

  lemma JoinedCons(x: Text, rest: seq<Text>)
    requires |rest| > 0
    ensures JoinedLines([x] + rest, 0) == x + [LF] + JoinedLines(rest, 0)
  {
    var texts := [x] + rest;
    var tail := JoinedLines(rest, 1);
    assert texts[1..] == rest;
    assert texts[0] == x && texts[1] == rest[0];
    JoinedShift(texts, 1);
    assert JoinedLines(texts, 2) == tail;
    JoinedLinesStep(texts, 1);
    assert JoinedLines(texts, 1) == [LF] + rest[0] + tail;
    JoinedLinesStep(rest, 0);
    assert [] + rest[0] == rest[0];
    assert JoinedLines(rest, 0) == rest[0] + tail;
    JoinedLinesStep(texts, 0);
    assert [] + x == x;
    assert JoinedLines(texts, 0) == x + JoinedLines(texts, 1);
    AppendAssoc([LF], rest[0], tail);
    AppendAssoc(x, [LF], rest[0] + tail);
  }

  /** parseDocument from the start i of a line reads lines that serializeDocument writes back as t[i..]. */
  lemma {:induction false} LinesReproduce(t: Text, i: nat)
    requires i <= |t| && StartsLine(t, i) && CanonicalText(t) && LinesFrom(t, i).Success?
    ensures DocumentText(LinesFrom(t, i).value) == t[i..]
    decreases |t| - i
  {
    var line, j := LineOfLines(t, i);
    if j == |t| {
      DocumentOne(line);
      assert t[i..j] == t[i..];
    } else {
      assert StartsLine(t, j + 1);
      LinesReproduce(t, j + 1);
      LinesNonEmpty(t, j + 1);
      DocumentStep(t, i, j, line, LinesFrom(t, j + 1).value);
    }
  }

  /** The first line parseDocument reads from i, where it stops, and what the loop goes on with. */
  lemma LineOfLines(t: Text, i: nat) returns (line: LineData, j: nat)
    requires i <= |t| && StartsLine(t, i) && CanonicalText(t) && LinesFrom(t, i).Success?
    ensures i <= j <= |t| && LineText(line) == t[i..j]
    ensures j == |t| ==> LinesFrom(t, i).value == [line]
    ensures j < |t| ==>
      t[j] == LF && LinesFrom(t, j + 1).Success? && LinesFrom(t, i).value == [line] + LinesFrom(t, j + 1).value
  {
    assert LineAt(t, i).Success?;
    line := LineAt(t, i).value.0;
    j := LineAt(t, i).value.1;
    LinesNext(t, i, line, j);
    assert CanonicalFrom(t, WhitespaceEnd(t, i));
    LineReproduces(t, i);
  }

  /** parseDocument reads at least one line. */
  lemma LinesNonEmpty(t: Text, i: nat)
    requires i <= |t| && LinesFrom(t, i).Success?
    ensures |LinesFrom(t, i).value| > 0
  {
    LinesStep(t, i);
  }

  /** A line read from i to a line feed at j, in front of lines written back as the text after it. */
  lemma DocumentStep(t: Text, i: nat, j: nat, line: LineData, rest: seq<LineData>)
    requires i <= j < |t| && t[j] == LF && |rest| > 0
    requires LineText(line) == t[i..j] && DocumentText(rest) == t[j + 1..]
    ensures DocumentText([line] + rest) == t[i..]
  {
    DocumentCons(line, rest);
    SliceLineFeed(t, i, j);
  }

  lemma DocumentOne(line: LineData)
    ensures DocumentText([line]) == LineText(line)
  {
    assert LineTexts([line]) == [LineText(line)];
    JoinedLinesStep([LineText(line)], 0);
  }

  /** A document is its first line's text, a line feed, and the text of the rest. */
  lemma DocumentCons(line: LineData, rest: seq<LineData>)
    requires |rest| > 0
    ensures DocumentText([line] + rest) == LineText(line) + [LF] + DocumentText(rest)
  {
    LineTextsCons(line, rest);
    JoinedCons(LineText(line), LineTexts(rest));
  }

  lemma LineTextsCons(line: LineData, rest: seq<LineData>)
    ensures LineTexts([line] + rest) == [LineText(line)] + LineTexts(rest)
  {
    var a := LineTexts([line] + rest);
    var b := [LineText(line)] + LineTexts(rest);
    forall k | 0 <= k < |a|
      ensures a[k] == b[k]
    {
      if k > 0 {
        assert ([line] + rest)[k] == rest[k - 1];
      }
    }
  }

  /** The text from i splits at a line feed at j. */
  lemma SliceLineFeed(t: Text, i: nat, j: nat)
    requires i <= j < |t| && t[j] == LF
    ensures t[i..] == t[i..j] + [LF] + t[j + 1..]
  {
  }

  /**
   * Preserving round trip from the text's side: a text whose tokens are written as
   * serializeValue writes them, once parseDocument accepts it, is written back by
   * serializeDocument as exactly that text, whitespace and comments included.
   */
  lemma ParsedDocumentReproduces(t: Text)
    requires CanonicalText(t)
    ensures ParsedDocument(t).Success? ==> DocumentText(ParsedDocument(t).value) == t
  {
    if ParsedDocument(t).Success? {
      LinesReproduce(t, 0);
      assert t[0..] == t;
    }
  }

  /** parseLine then serializeLine gives back a line whose tokens are written canonically. */
  lemma ParsedLineReproduces(t: Text)
    requires CanonicalFrom(t, WhitespaceEnd(t, 0))
    ensures ParsedLine(t).Success? ==> LineText(ParsedLine(t).value) == t
  {
    if ParsedLine(t).Success? {
      LineReproduces(t, 0);
      assert t[0..|t|] == t;
    }
  }

  /**
   * The hypothesis cannot be dropped: `"a"#c` is read as the value `a` with a comment, and
   * serializeLine writes that line back as `a#c`.
   */
  lemma QuotedBareNotReproduced()
    ensures var t := [QUOTE, 97, QUOTE, HASH, 99];
      && ParsedLine(t) == Success(LineData([Some([97])], Some([None, None]), Some([99])))
      && LineText(ParsedLine(t).value) == [97, HASH, 99]
      && !CanonicalFrom(t, WhitespaceEnd(t, 0))
  {
    var t := [QUOTE, 97, QUOTE, HASH, 99];
    QuotedToken(t);
    assert WhitespaceEnd(t, 3) == 3 && WhitespaceOrNull(t, 3) == None && WhitespaceOrNull(t, 0) == None;
    var line := LineData([Some([97])], Some([None, None]), Some([99]));
    QuotedLineEnd(t, line);
    assert LineLoop(t, 0, [], [None], None) == Success((line, 5));
    assert LineAt(t, 0) == Success((line, 5));
  }

  /** `"a"` followed by '#' is one token, the value `a`. */
  lemma QuotedToken(t: Text)
    requires t == [QUOTE, 97, QUOTE, HASH, 99]
    ensures WhitespaceEnd(t, 0) == 0 && TokenAt(t, 0) == Success((Some([97]), 3))
  {
    assert AfterQuote(t, 3) == Success(([], 3));
    assert ReadStringFrom(t, 2) == Success(([], 3));
    assert ReadStringFrom(t, 1) == PrependText([97], ReadStringFrom(t, 2));
    assert [97] + [] == [97];
  }

  /** After the token of `"a"#c`, the comment `c` ends the line. */
  lemma QuotedLineEnd(t: Text, line: LineData)
    requires t == [QUOTE, 97, QUOTE, HASH, 99]
    requires line == LineData([Some([97])], Some([None, None]), Some([99]))
    ensures LineEnd(t, 3, [] + [Some([97])], [None], None) == Success((line, 5))
  {
    assert CommentEnd(t, 5) == 5 && CommentEnd(t, 4) == 5;
    var none: Option<Text> := None;
    var empty: seq<Value> := [];
    assert t[4..5] == [99] && [none] + [none] == [none, none] && empty + [Some([97])] == [Some([97])];
  }

  /** A bare token is written exactly as serializeValue writes the value read from it. */
  lemma BareCanonical(t: Text, p: nat)
    requires p < |t| && t[p] != QUOTE && TokenAt(t, p).Success?
    ensures t[p..TokenAt(t, p).value.1] == SerializedValue(TokenAt(t, p).value.0)
  {
    ReadValueFacts(t, p);
    var s := ReadValueFrom(t, p).value.0;
    assert forall k :: 0 <= k < |s| ==> !IsSpecial(s[k]);
    MinimalQuoting(s);
  }

  /** Without a double quote, every token of a line is written canonically. */
  lemma {:induction false} UnquotedCanonical(t: Text, p: nat)
    requires p <= |t| && QUOTE !in t
    ensures CanonicalFrom(t, p)
    decreases |t| - p
  {
    if !(p == |t| || t[p] == LF || t[p] == HASH) && TokenAt(t, p).Success? {
      BareCanonical(t, p);
      UnquotedCanonical(t, WhitespaceEnd(t, TokenAt(t, p).value.1));
    }
  }

  /** A text without a double quote has all its lines written canonically. */
  lemma UnquotedText(t: Text)
    requires QUOTE !in t
    ensures CanonicalText(t)
  {
    forall i | 0 <= i <= |t| && StartsLine(t, i)
      ensures CanonicalFrom(t, WhitespaceEnd(t, i))
    {
      UnquotedCanonical(t, WhitespaceEnd(t, i));
    }
  }

  /**
   * A document without a double quote that parseDocument accepts is written back by
   * serializeDocument as the same text, and a single line by serializeLine likewise.
   */
  lemma UnquotedReproduces(t: Text)
    requires QUOTE !in t
    ensures ParsedDocument(t).Success? ==> DocumentText(ParsedDocument(t).value) == t
    ensures ParsedLine(t).Success? ==> LineText(ParsedLine(t).value) == t
  {
    UnquotedText(t);
    ParsedDocumentReproduces(t);
    UnquotedCanonical(t, WhitespaceEnd(t, 0));
    ParsedLineReproduces(t);
  }
}
