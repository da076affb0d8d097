/**
 * WsvSerializer: minimal quoting of a value, and lines and documents rendered either by
 * replaying the captured whitespace layout or with single spaces. Each serializer is a
 * method with the loop of the original, proved equal to a specification function.
 */
module WsvSerializer {
  import opened Wrappers
  import opened WsvChars
  import opened WsvData

  /** A code point that forces a value to be quoted (containsSpecialChar). */
  predicate IsSpecial(c: CodePoint) {
    c == LF || IsWhitespace(c) || c == QUOTE || c == HASH
  }

  predicate HasSpecial(s: Text) {
    exists k :: 0 <= k < |s| && IsSpecial(s[k])
  }

  /** The escape of one code point inside quotes: a line feed becomes `"/"`, a quote `""`. */
  function EscapeChar(c: CodePoint): Text {
    if c == LF then [QUOTE, SLASH, QUOTE]
    else if c == QUOTE then [QUOTE, QUOTE]
    else [c]
  }

  /** The body of a quoted value: every code point escaped. */
  function Escape(s: Text): Text {
    if s == [] then [] else EscapeChar(s[0]) + Escape(s[1..])
  }

  /** Escaping removes every line feed and never shortens the text. */
  lemma {:induction false} EscapeShape(s: Text)
    ensures NoLineFeed(Escape(s)) && |Escape(s)| >= |s|
  {
    if s != [] {
      EscapeShape(s[1..]);
      var e := Escape(s);
      assert e == EscapeChar(s[0]) + Escape(s[1..]);
      assert forall k :: 0 <= k < |e| ==> e[k] != LF by {
        forall k | 0 <= k < |e|
          ensures e[k] != LF
        {
          if k >= |EscapeChar(s[0])| {
            assert e[k] == Escape(s[1..])[k - |EscapeChar(s[0])|];
          }
        }
      }
    }
  }

  lemma {:induction false} EscapeAppend(s: Text, c: CodePoint)
    ensures Escape(s + [c]) == Escape(s) + EscapeChar(c)
  {
    if s == [] {
      assert [] + [c] == [c];
    } else {
      assert (s + [c])[1..] == s[1..] + [c];
      EscapeAppend(s[1..], c);
    }
  }

  /** A value written between quotes. */
  function Quoted(s: Text): Text {
    [QUOTE] + Escape(s) + [QUOTE]
  }

  /** serializeValue: `-` for null, and quotes only where a bare token could not stand. */
  function SerializedValue(value: Value): Text {
    match value
    case None => [DASH]
    case Some(s) =>
      if |s| == 0 then [QUOTE, QUOTE]
      else if s == [DASH] then [QUOTE, DASH, QUOTE]
      else if HasSpecial(s) then Quoted(s)
      else s
  }

  /**
   * A serialized value is one non-empty token on one line that starts with neither whitespace
   * nor '#', and a string is written either as it is or quoted.
   */
  lemma SerializedValueShape(value: Value)
    ensures var r := SerializedValue(value);
      NoLineFeed(r) && |r| > 0 && !IsWhitespace(r[0]) && r[0] != HASH
      && (value.Some? ==> r == value.value || r == Quoted(value.value))
  {
    if value.Some? {
      var s := value.value;
      EscapeShape(s);
      if s == [DASH] {
        assert Escape(s) == [DASH] + Escape([]);
      } else if |s| > 0 && s != [DASH] && !HasSpecial(s) {
        assert !IsSpecial(s[0]);
        assert forall k :: 0 <= k < |s| ==> !IsSpecial(s[k]);
      }
    }
  }

  /** A string comes out unchanged exactly when it is not empty, not `-` and has no special code point. */
  lemma MinimalQuoting(s: Text)
    ensures SerializedValue(Some(s)) == s <==> |s| > 0 && s != [DASH] && !HasSpecial(s)
  {
    if |s| > 0 && s != [DASH] && HasSpecial(s) {
      EscapeShape(s);
      assert |Quoted(s)| >= |s| + 2;
    }
  }

  /** containsSpecialChar */
  method ContainsSpecialChar(s: Text) returns (b: bool)
    ensures b <==> HasSpecial(s)
  {
    for k := 0 to |s|
      invariant forall m :: 0 <= m < k ==> !IsSpecial(s[m])
    {
      if s[k] == LF || IsWhitespace(s[k]) || s[k] == QUOTE || s[k] == HASH {
        return true;
      }
    }
    return false;
  }

  method SerializeValue(value: Value) returns (r: Text)
    ensures r == SerializedValue(value)
  {
    if value.None? {
      return [DASH];
    }
    var s := value.value;
    if |s| == 0 {
      return [QUOTE, QUOTE];
    }
    if s == [DASH] {
      return [QUOTE, DASH, QUOTE];
    }
    var special := ContainsSpecialChar(s);
    if !special {
      return s;
    }
    r := [QUOTE];
    for k := 0 to |s|
      invariant r == [QUOTE] + Escape(s[..k])
    {
      assert s[..k + 1] == s[..k] + [s[k]];
      EscapeAppend(s[..k], s[k]);
      if s[k] == LF {
        r := r + [QUOTE, SLASH, QUOTE];
      } else if s[k] == QUOTE {
        r := r + [QUOTE, QUOTE];
      } else {
        r := r + [s[k]];
      }
    }
    assert s[..|s|] == s;
    r := r + [QUOTE];
  }

  /** _serializeWhitespace: a captured slot is replayed; a required separator is never empty. */
  function SerializeWhitespace(whitespace: Option<Text>, isRequired: bool): (r: Text)
    ensures SlotValid(whitespace) ==> r == [] || WhitespaceOnly(r)
    ensures isRequired ==> |r| > 0
    ensures r == [] || r == [SPACE] || (whitespace.Some? && r == whitespace.value)
  {
    if whitespace.Some? && |whitespace.value| > 0 then whitespace.value
    else if isRequired then [SPACE]
    else []
  }

  /** The slot before value k, or None beyond the end of the layout. */
  function Slot(whitespaces: seq<Option<Text>>, k: nat): Option<Text> {
    if k < |whitespaces| then whitespaces[k] else None
  }

  /** The loop of _serializeValuesWithWhitespace from value k on: each value preceded by its slot. */
  function WsValues(values: seq<Value>, whitespaces: seq<Option<Text>>, k: nat): Text
    decreases |values| - k
  {
    if k >= |values| then []
    else
      SerializeWhitespace(Slot(whitespaces, k), k > 0) + SerializedValue(values[k])
      + WsValues(values, whitespaces, k + 1)
  }

  /** What follows the last value: the trailing slot, or a space in front of a comment. */
  function TrailingText(values: seq<Value>, whitespaces: seq<Option<Text>>, comment: Option<Text>): Text {
    if |whitespaces| >= |values| + 1 then SerializeWhitespace(whitespaces[|values|], false)
    else if comment.Some? && |values| > 0 then [SPACE]
    else []
  }

  /** _serializeValuesWithWhitespace, with the evident reading of its line 382. */
  function ValuesWithWhitespace(line: LineData): Text
    requires line.whitespaces.Some?
  {
    WsValues(line.values, line.whitespaces.value, 0)
      + TrailingText(line.values, line.whitespaces.value, line.comment)
  }

  /**
   * _serializeValuesWithWhitespace as written: the branch for a layout without a trailing
   * slot reads `line.Values`, an attribute a WsvLine does not have, so it raises whenever a
   * comment is set there. None stands for that exception.
   */
  function ValuesWithWhitespaceAsWritten(line: LineData): (r: Option<Text>)
    requires line.whitespaces.Some?
    ensures r.None? <==> |line.whitespaces.value| < |line.values| + 1 && line.comment.Some?
    ensures r.Some? ==> r.value == ValuesWithWhitespace(line)
  {
    var ws := line.whitespaces.value;
    if |ws| >= |line.values| + 1 then
      Some(WsValues(line.values, ws, 0) + SerializeWhitespace(ws[|line.values|], false))
    else if line.comment.Some? then None
    else Some(WsValues(line.values, ws, 0))
  }

  /** One value, a layout with only its leading slot, and an empty comment: the original raises. */
  lemma AsWrittenRaises()
    ensures var line := LineData([Some([97])], Some([None]), Some([]));
      ValuesWithWhitespaceAsWritten(line).None? && ValuesWithWhitespace(line) == [97, SPACE]
  {
  }

  /** A layout of uncaptured slots serializes the values as serializeLineValues does. */
  lemma {:induction false} BlankSlots(values: seq<Value>, ws: seq<Option<Text>>, k: nat)
    requires forall m :: 0 <= m < |ws| ==> ws[m].None?
    ensures WsValues(values, ws, k) == JoinedFrom(values, k)
    decreases |values| - k
  {
    if k < |values| {
      BlankSlots(values, ws, k + 1);
    }
  }

  /**
   * With the corrected branch, a line whose layout holds only uncaptured slots and no trailing
   * one is written exactly as the same line without a layout, comment included: the space in
   * front of the comment is the one _serializeValuesWithoutWhitespace writes.
   */
  lemma BlankLayoutAgrees(values: seq<Value>, ws: seq<Option<Text>>, comment: Option<Text>)
    requires 0 < |ws| <= |values| && forall m :: 0 <= m < |ws| ==> ws[m].None?
    ensures LineText(LineData(values, Some(ws), comment)) == LineText(LineData(values, None, comment))
  {
    BlankSlots(values, ws, 0);
  }

  /** The values joined by single spaces, from value k on (serializeLineValues). */
  function JoinedFrom(values: seq<Value>, k: nat): Text
    decreases |values| - k
  {
    if k >= |values| then []
    else (if k > 0 then [SPACE] else []) + SerializedValue(values[k]) + JoinedFrom(values, k + 1)
  }

  function ValuesText(values: seq<Value>): Text {
    JoinedFrom(values, 0)
  }

  /** _serializeValuesWithoutWhitespace */
  function ValuesWithoutWhitespace(line: LineData): Text {
    ValuesText(line.values) + (if line.comment.Some? && |line.values| > 0 then [SPACE] else [])
  }

  function CommentText(comment: Option<Text>): Text {
    if comment.Some? then [HASH] + comment.value else []
  }

  /** True iff serializeLine replays the layout. */
  predicate HasLayout(line: LineData) {
    line.whitespaces.Some? && |line.whitespaces.value| > 0
  }

  /** serializeLine */
  function LineText(line: LineData): Text {
    (if HasLayout(line) then ValuesWithWhitespace(line) else ValuesWithoutWhitespace(line))
      + CommentText(line.comment)
  }

  /** Texts joined by line feeds, from text k on, with no trailing line feed. */
  function JoinedLines(texts: seq<Text>, k: nat): Text
    decreases |texts| - k
  {
    if k >= |texts| then []
    else (if k > 0 then [LF] else []) + texts[k] + JoinedLines(texts, k + 1)
  }

  function LineTexts(lines: seq<LineData>): (r: seq<Text>)
    ensures |r| == |lines| && forall k :: 0 <= k < |lines| ==> r[k] == LineText(lines[k])
  {
    seq(|lines|, k requires 0 <= k < |lines| => LineText(lines[k]))
  }

  function ValuesTexts(lines: seq<LineData>): (r: seq<Text>)
    ensures |r| == |lines| && forall k :: 0 <= k < |lines| ==> r[k] == ValuesText(lines[k].values)
  {
    seq(|lines|, k requires 0 <= k < |lines| => ValuesText(lines[k].values))
  }

  /** serializeDocument */
  function DocumentText(lines: seq<LineData>): Text {
    JoinedLines(LineTexts(lines), 0)
  }

  /** serializeDocumentNonPreserving */
  function DocumentTextNonPreserving(lines: seq<LineData>): Text {
    JoinedLines(ValuesTexts(lines), 0)
  }

  lemma AppendAssoc(a: Text, b: Text, c: Text)
    ensures (a + b) + c == a + (b + c)
  {
  }

  lemma WsValuesStep(values: seq<Value>, whitespaces: seq<Option<Text>>, k: nat)
    requires k < |values|
    ensures WsValues(values, whitespaces, k)
      == SerializeWhitespace(Slot(whitespaces, k), k > 0) + SerializedValue(values[k])
         + WsValues(values, whitespaces, k + 1)
  {
  }

  lemma JoinedFromStep(values: seq<Value>, k: nat)
    requires k < |values|
    ensures JoinedFrom(values, k)
      == (if k > 0 then [SPACE] else []) + SerializedValue(values[k]) + JoinedFrom(values, k + 1)
  {
  }

  lemma JoinedLinesStep(texts: seq<Text>, k: nat)
    requires k < |texts|
    ensures JoinedLines(texts, k) == (if k > 0 then [LF] else []) + texts[k] + JoinedLines(texts, k + 1)
  {
  }

  method SerializeValuesWithWhitespace(line: LineData) returns (r: Text)
    requires line.whitespaces.Some?
    ensures r == ValuesWithWhitespace(line)
  {
    var whitespaces := line.whitespaces.value;
    var values := line.values;
    r := [];
    var k := 0;
    while k < |values|
      invariant 0 <= k <= |values|
      invariant r + WsValues(values, whitespaces, k) == WsValues(values, whitespaces, 0)
    {
      var whitespace: Option<Text> := None;
      if k < |whitespaces| {
        whitespace := whitespaces[k];
      }
      var gap: Text;
      if k == 0 {
        gap := SerializeWhitespace(whitespace, false);
      } else {
        gap := SerializeWhitespace(whitespace, true);
      }
      var v := SerializeValue(values[k]);
      assert gap == SerializeWhitespace(Slot(whitespaces, k), k > 0);
      WsValuesStep(values, whitespaces, k);
      AppendAssoc(r, gap + v, WsValues(values, whitespaces, k + 1));
      r := r + (gap + v);
      k := k + 1;
    }
    assert r == WsValues(values, whitespaces, 0);
    if |whitespaces| >= |values| + 1 {
      r := r + SerializeWhitespace(whitespaces[|values|], false);
    } else if line.comment.Some? && |values| > 0 {
      r := r + [SPACE];
    }
  }

  method SerializeLineValues(values: seq<Value>) returns (r: Text)
    ensures r == ValuesText(values)
  {
    r := [];
    var isFirstValue := true;
    var k := 0;
    while k < |values|
      invariant 0 <= k <= |values|
      invariant isFirstValue <==> k == 0
      invariant r + JoinedFrom(values, k) == JoinedFrom(values, 0)
    {
      var gap: Text := [];
      if !isFirstValue {
        gap := [SPACE];
      } else {
        isFirstValue := false;
      }
      var v := SerializeValue(values[k]);
      JoinedFromStep(values, k);
      AppendAssoc(r, gap + v, JoinedFrom(values, k + 1));
      r := r + (gap + v);
      k := k + 1;
    }
  }

  method SerializeValuesWithoutWhitespace(line: LineData) returns (r: Text)
    ensures r == ValuesWithoutWhitespace(line)
  {
    r := SerializeLineValues(line.values);
    if line.comment.Some? && |line.values| > 0 {
      r := r + [SPACE];
    }
  }

  method SerializeLine(line: LineData) returns (r: Text)
    ensures r == LineText(line)
  {
    if line.whitespaces.Some? && |line.whitespaces.value| > 0 {
      r := SerializeValuesWithWhitespace(line);
    } else {
      r := SerializeValuesWithoutWhitespace(line);
    }
    if line.comment.Some? {
      r := r + [HASH] + line.comment.value;
    }
  }

  method SerializeLineNonPreserving(line: LineData) returns (r: Text)
    ensures r == ValuesText(line.values)
  {
    r := SerializeLineValues(line.values);
  }

  method SerializeDocument(lines: seq<LineData>) returns (r: Text)
    ensures r == DocumentText(lines)
  {
    ghost var texts := LineTexts(lines);
    r := [];
    var isFirstLine := true;
    var k := 0;
    while k < |lines|
      invariant 0 <= k <= |lines|
      invariant isFirstLine <==> k == 0
      invariant r + JoinedLines(texts, k) == JoinedLines(texts, 0)
    {
      var gap: Text := [];
      if !isFirstLine {
        gap := [LF];
      } else {
        isFirstLine := false;
      }
      var line := SerializeLine(lines[k]);
      assert line == texts[k];
      JoinedLinesStep(texts, k);
      AppendAssoc(r, gap + line, JoinedLines(texts, k + 1));
      r := r + (gap + line);
      k := k + 1;
    }
  }

  method SerializeDocumentNonPreserving(lines: seq<LineData>) returns (r: Text)
    ensures r == DocumentTextNonPreserving(lines)
  {
    ghost var texts := ValuesTexts(lines);
    r := [];
    var isFirstLine := true;
    var k := 0;
    while k < |lines|
      invariant 0 <= k <= |lines|
      invariant isFirstLine <==> k == 0
      invariant r + JoinedLines(texts, k) == JoinedLines(texts, 0)
    {
      var gap: Text := [];
      if !isFirstLine {
        gap := [LF];
      } else {
        isFirstLine := false;
      }
      var line := SerializeLineNonPreserving(lines[k]);
      assert line == texts[k];
      JoinedLinesStep(texts, k);
      AppendAssoc(r, gap + line, JoinedLines(texts, k + 1));
      r := r + (gap + line);
      k := k + 1;
    }
  }
}
