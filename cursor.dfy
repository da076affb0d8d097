/**
 * The forward-only cursor WsvCharIterator, together with the cursor primitives it inherits
 * (end of text, peek, consume on match, line information). Each scanner is specified by a
 * function of the text and the start index; the methods of CharIterator are proved against them.
 */
module WsvCursor {
  import opened Wrappers
  import opened WsvChars
  import opened WsvErrors

  /** The error raised with the cursor at idx. */
  function ErrorAt(t: Text, idx: nat, kind: ErrorKind): ParserError
    requires idx <= |t|
  {
    var info := LineInfo(t[..idx]);
    ParserError(idx, info.0, info.1, kind)
  }

  /** A code point that may follow a closing quote: whitespace, line feed or '#'. */
  predicate IsCloser(c: CodePoint) {
    IsWhitespace(c) || c == LF || c == HASH
  }

  /** The position p ends a token: the end of the text or a closer. */
  predicate ClosedAt(t: Text, p: nat) {
    p >= |t| || IsCloser(t[p])
  }

  /** A code point that stops a bare value: a closer or a double quote. */
  predicate StopsValue(c: CodePoint) {
    IsCloser(c) || c == QUOTE
  }

  /** Where readWhitespaceOrNull and skipWhitespace stop when started at i. */
  function WhitespaceEnd(t: Text, i: nat): (j: nat)
    requires i <= |t|
    ensures i <= j <= |t|
    ensures j == |t| || !IsWhitespace(t[j])
    decreases |t| - i
  {
    if i == |t| || t[i] == LF || !IsWhitespace(t[i]) then i else WhitespaceEnd(t, i + 1)
  }

  /** Everything a whitespace scan passes over is whitespace. */
  lemma {:induction false} WhitespaceEndFacts(t: Text, i: nat)
    requires i <= |t|
    ensures forall k :: i <= k < WhitespaceEnd(t, i) ==> IsWhitespace(t[k])
    decreases |t| - i
  {
    if WhitespaceEnd(t, i) > i {
      WhitespaceEndFacts(t, i + 1);
    }
  }

  /** The whitespace run at i as readWhitespaceOrNull returns it. */
  function WhitespaceOrNull(t: Text, i: nat): Option<Text>
    requires i <= |t|
  {
    var j := WhitespaceEnd(t, i);
    if j == i then None else Some(t[i..j])
  }

  /** Where readCommentText and skipCommentText stop when started at i. */
  function CommentEnd(t: Text, i: nat): (j: nat)
    requires i <= |t|
    ensures i <= j <= |t|
    ensures j == |t| || t[j] == LF
    decreases |t| - i
  {
    if i == |t| || t[i] == LF then i else CommentEnd(t, i + 1)
  }

  /** A comment scan passes over no line feed. */
  lemma {:induction false} CommentEndFacts(t: Text, i: nat)
    requires i <= |t|
    ensures forall k :: i <= k < CommentEnd(t, i) ==> t[k] != LF
    decreases |t| - i
  {
    if CommentEnd(t, i) > i {
      CommentEndFacts(t, i + 1);
    }
  }

  /** Where the loop of readValue stops (by break or by raising) when started at i. */
  function ValueEnd(t: Text, i: nat): (j: nat)
    requires i <= |t|
    ensures i <= j <= |t|
    ensures j == |t| || StopsValue(t[j])
    decreases |t| - i
  {
    if i == |t| || IsWhitespace(t[i]) || t[i] == LF || t[i] == HASH || t[i] == QUOTE then i
    else ValueEnd(t, i + 1)
  }

  /** A bare-value scan passes over no code point that stops a value. */
  lemma {:induction false} ValueEndFacts(t: Text, i: nat)
    requires i <= |t|
    ensures forall k :: i <= k < ValueEnd(t, i) ==> !StopsValue(t[k])
    decreases |t| - i
  {
    if ValueEnd(t, i) > i {
      ValueEndFacts(t, i + 1);
    }
  }

  /** readValue started at i: the bare token and the index after it. */
  function ReadValueFrom(t: Text, i: nat): (r: Result<(Text, nat), ParserError>)
    requires i <= |t|
    ensures r.Success? ==> var (s, j) := r.value;
      i < j <= |t| && s == t[i..j] && ClosedAt(t, j)
    ensures r.Failure? ==> i <= r.error.index <= |t|
    ensures r.Failure? && r.error.kind == InvalidDoubleQuoteInValue ==>
      r.error.index < |t| && t[r.error.index] == QUOTE
    ensures r.Failure? && r.error.kind == InvalidValue ==> r.error.index == i && ClosedAt(t, i)
    ensures r.Failure? ==> r.error.kind in {InvalidDoubleQuoteInValue, InvalidValue}
  {
    var j := ValueEnd(t, i);
    if j < |t| && t[j] == QUOTE then Failure(ErrorAt(t, j, InvalidDoubleQuoteInValue))
    else if j == i then Failure(ErrorAt(t, i, InvalidValue))
    else Success((t[i..j], j))
  }

  /** What a bare value holds, and what precedes a misplaced double quote. */
  lemma ReadValueFacts(t: Text, i: nat)
    requires i <= |t|
    ensures ReadValueFrom(t, i).Success? ==>
      forall k :: 0 <= k < |ReadValueFrom(t, i).value.0| ==> !StopsValue(ReadValueFrom(t, i).value.0[k])
    ensures ReadValueFrom(t, i).Failure? && ReadValueFrom(t, i).error.kind == InvalidDoubleQuoteInValue ==>
      forall k :: i <= k < ReadValueFrom(t, i).error.index ==> !StopsValue(t[k])
  {
    ValueEndFacts(t, i);
  }

  /** Puts prefix in front of the text a successful scan produced. */
  function PrependText(prefix: Text, r: Result<(Text, nat), ParserError>): Result<(Text, nat), ParserError> {
    match r
    case Success((s, j)) => Success((prefix + s, j))
    case Failure(e) => Failure(e)
  }

  /**
   * readString started at i, just after the opening quote: the decoded string and the
   * index after the closing quote. `""` stands for a quote and `"/"` for a line feed.
   */
  function ReadStringFrom(t: Text, i: nat): (r: Result<(Text, nat), ParserError>)
    requires i <= |t|
    decreases |t| - i
  {
    if i == |t| || t[i] == LF then Failure(ErrorAt(t, i, StringNotClosed))
    else if t[i] == QUOTE then AfterQuote(t, i + 1)
    else PrependText([t[i]], ReadStringFrom(t, i + 1))
  }

  /**
   * readString just after a quote inside the string at p - 1: an escaped quote, an escaped
   * line break, or the closing quote.
   */
  function AfterQuote(t: Text, p: nat): (r: Result<(Text, nat), ParserError>)
    requires 0 < p <= |t| && t[p - 1] == QUOTE
    decreases |t| - p
  {
    if p < |t| && t[p] == QUOTE then PrependText([QUOTE], ReadStringFrom(t, p + 1))
    else if p < |t| && t[p] == SLASH then
      if p + 1 < |t| && t[p + 1] == QUOTE then PrependText([LF], ReadStringFrom(t, p + 2))
      else Failure(ErrorAt(t, p + 1, InvalidStringLineBreak))
    else if ClosedAt(t, p) then Success(([], p))
    else Failure(ErrorAt(t, p, InvalidCharacterAfterString))
  }

  /** What follows a quote inside a string, one step of readString. */
  datatype QuoteStep = Escaped(code: CodePoint) | Closed | Failed(error: ParserError)

  /** A successful readString ends just after a closing quote that a closer or the end follows. */
  lemma {:induction false} StringSuccessAt(t: Text, i: nat)
    requires i <= |t| && ReadStringFrom(t, i).Success?
    ensures var j := ReadStringFrom(t, i).value.1;
      i < j <= |t| && t[j - 1] == QUOTE && ClosedAt(t, j) && NoLineFeed(t[i..j])
    decreases |t| - i
  {
    if i == |t| || t[i] == LF {
    } else if t[i] == QUOTE {
      var p := i + 1;
      if p < |t| && t[p] == QUOTE {
        StringSuccessAt(t, p + 1);
      } else if p < |t| && t[p] == SLASH {
        if p + 1 < |t| && t[p + 1] == QUOTE {
          StringSuccessAt(t, p + 2);
        }
      }
    } else {
      StringSuccessAt(t, i + 1);
    }
  }

  /** readString fails in one of three ways only, at or after where it started. */
  lemma {:induction false} StringErrorKinds(t: Text, i: nat)
    requires i <= |t| && ReadStringFrom(t, i).Failure?
    ensures var e := ReadStringFrom(t, i).error; var p := e.index;
      i <= p <= |t| && e.kind in {StringNotClosed, InvalidStringLineBreak, InvalidCharacterAfterString}
    decreases |t| - i
  {
    if i == |t| || t[i] == LF {
    } else if t[i] == QUOTE {
      var p := i + 1;
      if p < |t| && t[p] == QUOTE {
        StringErrorKinds(t, p + 1);
      } else if p < |t| && t[p] == SLASH {
        if p + 1 < |t| && t[p + 1] == QUOTE {
          StringErrorKinds(t, p + 2);
        }
      }
    } else {
      StringErrorKinds(t, i + 1);
    }
  }

  /** "String not closed": a line feed or the end of the text was reached inside the string. */
  lemma {:induction false} StringNotClosedAt(t: Text, i: nat)
    requires i <= |t| && ReadStringFrom(t, i).Failure?
    ensures var e := ReadStringFrom(t, i).error; var p := e.index;
      e.kind == StringNotClosed ==> i <= p <= |t| && (p == |t| || t[p] == LF)
    decreases |t| - i
  {
    if i == |t| || t[i] == LF {
    } else if t[i] == QUOTE {
      var p := i + 1;
      if p < |t| && t[p] == QUOTE {
        StringNotClosedAt(t, p + 1);
      } else if p < |t| && t[p] == SLASH {
        if p + 1 < |t| && t[p + 1] == QUOTE {
          StringNotClosedAt(t, p + 2);
        }
      }
    } else {
      StringNotClosedAt(t, i + 1);
    }
  }

  /** "Invalid string line break": `"/` not followed by a quote. */
  lemma {:induction false} InvalidLineBreakAt(t: Text, i: nat)
    requires i <= |t| && ReadStringFrom(t, i).Failure?
    ensures var e := ReadStringFrom(t, i).error; var p := e.index;
      e.kind == InvalidStringLineBreak ==>
        i + 2 <= p <= |t| && t[p - 2] == QUOTE && t[p - 1] == SLASH && (p == |t| || t[p] != QUOTE)
    decreases |t| - i
  {
    if i == |t| || t[i] == LF {
    } else if t[i] == QUOTE {
      var p := i + 1;
      if p < |t| && t[p] == QUOTE {
        InvalidLineBreakAt(t, p + 1);
      } else if p < |t| && t[p] == SLASH {
        if p + 1 < |t| && t[p + 1] == QUOTE {
          InvalidLineBreakAt(t, p + 2);
        }
      }
    } else {
      InvalidLineBreakAt(t, i + 1);
    }
  }

  /**
   * "Invalid character after string": a closing quote followed by something other than
   * whitespace, a line feed, '#' or the end (nor by a quote or '/', which would be escapes).
   */
  lemma {:induction false} InvalidAfterStringAt(t: Text, i: nat)
    requires i <= |t| && ReadStringFrom(t, i).Failure?
    ensures var e := ReadStringFrom(t, i).error; var p := e.index;
      e.kind == InvalidCharacterAfterString ==>
        i + 1 <= p < |t| && t[p - 1] == QUOTE && !IsCloser(t[p]) && t[p] != QUOTE && t[p] != SLASH
    decreases |t| - i
  {
    if i == |t| || t[i] == LF {
    } else if t[i] == QUOTE {
      var p := i + 1;
      if p < |t| && t[p] == QUOTE {
        InvalidAfterStringAt(t, p + 1);
      } else if p < |t| && t[p] == SLASH {
        if p + 1 < |t| && t[p + 1] == QUOTE {
          InvalidAfterStringAt(t, p + 2);
        }
      }
    } else {
      InvalidAfterStringAt(t, i + 1);
    }
  }

  /** One step of readString on a code point other than a quote or a line feed. */
  lemma PlainStep(t: Text, i: nat)
    requires i < |t| && t[i] != QUOTE && t[i] != LF
    ensures ReadStringFrom(t, i) == PrependText([t[i]], ReadStringFrom(t, i + 1))
  {
  }

  /** `""` inside a string stands for one quote. */
  lemma EscapedQuoteStep(t: Text, i: nat)
    requires i + 1 < |t| && t[i] == QUOTE && t[i + 1] == QUOTE
    ensures ReadStringFrom(t, i) == PrependText([QUOTE], ReadStringFrom(t, i + 2))
  {
  }

  /** `"/"` inside a string stands for one line feed. */
  lemma LineBreakStep(t: Text, i: nat)
    requires i + 2 < |t| && t[i] == QUOTE && t[i + 1] == SLASH && t[i + 2] == QUOTE
    ensures ReadStringFrom(t, i) == PrependText([LF], ReadStringFrom(t, i + 3))
  {
  }

  /** A quote followed by a token end closes the string. */
  lemma ClosingStep(t: Text, i: nat)
    requires i < |t| && t[i] == QUOTE && ClosedAt(t, i + 1)
    ensures ReadStringFrom(t, i) == Success(([], i + 1))
  {
  }

  lemma PrependNothing(r: Result<(Text, nat), ParserError>)
    ensures PrependText([], r) == r
  {
    if r.Success? {
      assert [] + r.value.0 == r.value.0;
    }
  }

  lemma PrependTwice(a: Text, b: Text, r: Result<(Text, nat), ParserError>)
    ensures PrependText(a, PrependText(b, r)) == PrependText(a + b, r)
  {
    if r.Success? {
      assert a + (b + r.value.0) == (a + b) + r.value.0;
    }
  }

  /** WsvCharIterator over a fixed code-point sequence. */
  class CharIterator {
    const chars: Text
    var index: nat

    ghost predicate Valid()
      reads this
    {
      index <= |chars|
    }

    constructor (text: Text)
      ensures Valid() && chars == text && index == 0
    {
      chars := text;
      index := 0;
    }

    /** isEndOfText: no code point is left; for a valid cursor, it stands just past the last one. */
    predicate IsEndOfText(): (r: bool)
      reads this
      ensures Valid() ==> (r <==> index == |chars|)
    {
      index >= |chars|
    }

    /** isChar: the current code point is c, so the text has not ended. */
    predicate IsChar(c: CodePoint): (r: bool)
      reads this
      ensures r ==> !IsEndOfText()
      ensures !IsEndOfText() ==> (r <==> chars[index] == c)
    {
      index < |chars| && chars[index] == c
    }

    /**
     * WsvCharIterator.isWhitespace: the current code point is one of the table of whitespace
     * code points, and so neither a line feed, a quote nor '#'.
     */
    predicate IsWhitespaceHere(): (r: bool)
      reads this
      ensures r <==> !IsEndOfText() && chars[index] in WhitespaceCodePoints()
      ensures r ==> !IsChar(LF) && !IsChar(QUOTE) && !IsChar(HASH)
    {
      index < |chars| && IsWhitespace(chars[index])
    }

    /** Consumes c if it is the current code point. */
    method TryReadChar(c: CodePoint) returns (read: bool)
      requires Valid()
      modifies this
      ensures Valid()
      ensures read == old(IsChar(c))
      ensures index == if read then old(index) + 1 else old(index)
    {
      read := IsChar(c);
      if read {
        index := index + 1;
      }
    }

    /** getString: the code points from startIndex up to the cursor. */
    function GetString(startIndex: nat): (r: Text)
      reads this
      requires startIndex <= index <= |chars|
      ensures |r| == index - startIndex
      ensures r + chars[index..] == chars[startIndex..]
    {
      chars[startIndex..index]
    }

    method ReadCommentText() returns (s: Text)
      requires Valid()
      modifies this
      ensures Valid()
      ensures index == CommentEnd(chars, old(index))
      ensures s == chars[old(index)..index] && NoLineFeed(s)
    {
      var startIndex := index;
      while true
        invariant startIndex <= index <= |chars|
        invariant CommentEnd(chars, startIndex) == CommentEnd(chars, index)
        invariant forall k :: startIndex <= k < index ==> chars[k] != LF
        decreases |chars| - index
      {
        if IsEndOfText() {
          break;
        }
        if chars[index] == LF {
          break;
        }
        index := index + 1;
      }
      s := GetString(startIndex);
      assert forall k :: 0 <= k < |s| ==> s[k] == chars[startIndex + k];
    }

    method SkipCommentText()
      requires Valid()
      modifies this
      ensures Valid()
      ensures index == CommentEnd(chars, old(index))
    {
      ghost var startIndex := index;
      while true
        invariant startIndex <= index <= |chars|
        invariant CommentEnd(chars, startIndex) == CommentEnd(chars, index)
        decreases |chars| - index
      {
        if IsEndOfText() {
          break;
        }
        if chars[index] == LF {
          break;
        }
        index := index + 1;
      }
    }

    /** The whitespace run at the cursor, or None when there is none. */
    method ReadWhitespaceOrNull() returns (w: Option<Text>)
      requires Valid()
      modifies this
      ensures Valid()
      ensures index == WhitespaceEnd(chars, old(index)) && w == WhitespaceOrNull(chars, old(index))
      ensures w.None? <==> index == old(index)
      ensures w.Some? ==> w.value == chars[old(index)..index] && WhitespaceOnly(w.value)
    {
      var startIndex := index;
      while true
        invariant startIndex <= index <= |chars|
        invariant WhitespaceEnd(chars, startIndex) == WhitespaceEnd(chars, index)
        invariant forall k :: startIndex <= k < index ==> IsWhitespace(chars[k])
        decreases |chars| - index
      {
        if IsEndOfText() {
          break;
        }
        var c := chars[index];
        if c == LF {
          break;
        }
        if !IsWhitespace(c) {
          break;
        }
        index := index + 1;
      }
      if index == startIndex {
        return None;
      }
      var run := GetString(startIndex);
      assert forall k :: 0 <= k < |run| ==> run[k] == chars[startIndex + k];
      w := Some(run);
    }

    /** Skips the whitespace run at the cursor; true iff it was not empty. */
    method SkipWhitespace() returns (skipped: bool)
      requires Valid()
      modifies this
      ensures Valid()
      ensures index == WhitespaceEnd(chars, old(index))
      ensures skipped <==> index > old(index)
    {
      var startIndex := index;
      while true
        invariant startIndex <= index <= |chars|
        invariant WhitespaceEnd(chars, startIndex) == WhitespaceEnd(chars, index)
        decreases |chars| - index
      {
        if IsEndOfText() {
          break;
        }
        var c := chars[index];
        if c == LF {
          break;
        }
        if !IsWhitespace(c) {
          break;
        }
        index := index + 1;
      }
      skipped := index > startIndex;
    }

    /** getLineInfo: counts the line feeds before the cursor and the code points after the last one. */
    method GetLineInfo() returns (lineIndex: nat, linePosition: nat)
      requires Valid()
      ensures (lineIndex, linePosition) == LineInfo(chars[..index])
      ensures lineIndex == CountLF(chars[..index])
    {
      lineIndex, linePosition := 0, 0;
      for k := 0 to index
        invariant (lineIndex, linePosition) == LineInfo(chars[..k])
      {
        assert chars[..k + 1][..k] == chars[..k];
        if chars[k] == LF {
          lineIndex, linePosition := lineIndex + 1, 0;
        } else {
          linePosition := linePosition + 1;
        }
      }
      LineInfoMeaning(chars[..index]);
    }

    /** getException: the error positioned at the cursor. */
    method GetException(kind: ErrorKind) returns (e: ParserError)
      requires Valid()
      ensures e == ErrorAt(chars, index, kind)
    {
      var lineIndex, linePosition := GetLineInfo();
      e := ParserError(index, lineIndex, linePosition, kind);
    }

    /**
     * The branch of readString that follows a quote inside the string: an escaped quote,
     * an escaped line break, the closing quote, or an error.
     */
    method ReadAfterQuote() returns (step: QuoteStep)
      requires Valid() && 0 < index && chars[index - 1] == QUOTE
      modifies this
      ensures Valid()
      ensures step.Escaped? ==> old(index) < index
      ensures step.Escaped? ==> AfterQuote(chars, old(index)) == PrependText([step.code], ReadStringFrom(chars, index))
      ensures step.Closed? ==> AfterQuote(chars, old(index)) == Success(([], index))
      ensures step.Failed? ==> AfterQuote(chars, old(index)) == Failure(step.error)
    {
      var quote := TryReadChar(QUOTE);
      if quote {
        return Escaped(QUOTE);
      }
      var slash := TryReadChar(SLASH);
      if slash {
        var closing := TryReadChar(QUOTE);
        if !closing {
          var e := GetException(InvalidStringLineBreak);
          return Failed(e);
        }
        return Escaped(LF);
      }
      if IsWhitespaceHere() || IsChar(LF) || IsChar(HASH) || IsEndOfText() {
        return Closed;
      }
      var e := GetException(InvalidCharacterAfterString);
      return Failed(e);
    }

    /**
     * readString: decodes a quoted string; the cursor starts just after the opening quote
     * and ends just after the closing one.
     */
    method ReadString() returns (r: Result<Text, ParserError>)
      requires Valid()
      modifies this
      ensures Valid()
      ensures var spec := ReadStringFrom(chars, old(index));
        (spec.Success? ==> r == Success(spec.value.0) && index == spec.value.1)
        && (spec.Failure? ==> r == Failure(spec.error))
    {
      ghost var startIndex := index;
      var acc: Text := [];
      PrependNothing(ReadStringFrom(chars, index));
      while true
        invariant Valid() && startIndex <= index
        invariant ReadStringFrom(chars, startIndex) == PrependText(acc, ReadStringFrom(chars, index))
        decreases |chars| - index
      {
        if IsEndOfText() || IsChar(LF) {
          var e := GetException(StringNotClosed);
          return Failure(e);
        }
        var c := chars[index];
        if c == QUOTE {
          index := index + 1;
          var step := ReadAfterQuote();
          match step
          case Escaped(code) =>
            PrependTwice(acc, [code], ReadStringFrom(chars, index));
            acc := acc + [code];
          case Closed =>
            assert acc + [] == acc;
            break;
          case Failed(e) =>
            return Failure(e);
        } else {
          PlainStep(chars, index);
          PrependTwice(acc, [c], ReadStringFrom(chars, index + 1));
          acc := acc + [c];
          index := index + 1;
        }
      }
      r := Success(acc);
    }

    /** readValue: a bare token, which must not be empty and must not contain a quote. */
    method ReadValue() returns (r: Result<Text, ParserError>)
      requires Valid()
      modifies this
      ensures Valid()
      ensures var spec := ReadValueFrom(chars, old(index));
        (spec.Success? ==> r == Success(spec.value.0) && index == spec.value.1)
        && (spec.Failure? ==> r == Failure(spec.error))
    {
      var startIndex := index;
      while true
        invariant startIndex <= index <= |chars|
        invariant ValueEnd(chars, startIndex) == ValueEnd(chars, index)
        decreases |chars| - index
      {
        if IsEndOfText() {
          break;
        }
        var c := chars[index];
        if IsWhitespace(c) || c == LF || c == HASH {
          break;
        }
        if c == QUOTE {
          var e := GetException(InvalidDoubleQuoteInValue);
          return Failure(e);
        }
        index := index + 1;
      }
      if index == startIndex {
        var e := GetException(InvalidValue);
        return Failure(e);
      }
      r := Success(GetString(startIndex));
    }
  }
}
