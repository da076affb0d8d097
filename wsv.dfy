/**
 * The two classes of the library: WsvLine, whose setters validate what they install, and
 * WsvDocument, a list of lines. Both delegate parsing and serializing to the parser and
 * serializer modules and inherit their round trips.
 */
module Wsv {
  import opened Wrappers
  import opened WsvChars
  import opened WsvErrors
  import opened WsvData
  import opened WsvSerializer
  import opened WsvParser
  import opened WsvLines
  import opened WsvRoundTrip

  /** A line as the parser reads it passes both of WsvLine's validators. */
  lemma WellFormedValid(line: LineData)
    requires WellFormed(line)
    ensures WhitespacesValid(line.whitespaces) && CommentValid(line.comment)
  {
    var ws := line.whitespaces.value;
    var n := |line.values|;
    forall k | 0 <= k < |ws|
      ensures SlotValid(ws[k])
    {
      if k == 0 || k == n {
        assert SlotRead(ws[k]);
      } else if k < n {
        assert ws[k].Some? && WhitespaceOnly(ws[k].value);
      } else {
        assert n == 0 && |ws| == 2 && ws[1].None?;
      }
    }
  }

  class WsvLine {
    var values: seq<Value>
    var whitespaces: Option<seq<Option<Text>>>
    var comment: Option<Text>

    /** What setWhitespaces and setComment guarantee; _set does not check it. */
    ghost predicate Valid()
      reads this
    {
      WhitespacesValid(whitespaces) && CommentValid(comment)
    }

    function Data(): LineData
      reads this
    {
      LineData(values, whitespaces, comment)
    }

    /** A line with the given values and neither layout nor comment. */
    constructor (values: seq<Value>)
      ensures Data() == LineData(values, None, None) && Valid()
    {
      this.values := values;
      whitespaces := None;
      comment := None;
    }

    /** __init__: the values, then setWhitespaces and setComment, each of which may raise. */
    static method Create(values: seq<Value>, whitespaces: Option<seq<Option<Text>>>, comment: Option<Text>)
      returns (r: Result<WsvLine, ValidationError>)
      ensures r.Success? <==> WhitespacesValid(whitespaces) && CommentValid(comment)
      ensures r.Success? ==> fresh(r.value) && r.value.Valid()
      ensures r.Success? ==> r.value.Data() == LineData(values, whitespaces, comment)
      ensures r.Failure? && !WhitespacesValid(whitespaces) ==> r.error == NonWhitespaceInWhitespace
      ensures r.Failure? && WhitespacesValid(whitespaces) ==> r.error == LineFeedInComment
    {
      var line := new WsvLine(values);
      var o := line.SetWhitespaces(whitespaces);
      if o.Fail? {
        return Failure(o.error);
      }
      o := line.SetComment(comment);
      if o.Fail? {
        return Failure(o.error);
      }
      return Success(line);
    }

    /** hasValues: the line has values, exactly when its values serialize to some text. */
    function HasValues(): (b: bool)
      reads this
      ensures b <==> |values| > 0
      ensures b <==> ValuesText(values) != []
    {
      if |values| > 0 then
        SerializedValueShape(values[0]);
        true
      else
        false
    }

    /** validateWhitespaces: every captured slot is empty or whitespace only. */
    static method ValidateWhitespaces(whitespaces: Option<seq<Option<Text>>>) returns (o: Outcome<ValidationError>)
      ensures o.Pass? <==> WhitespacesValid(whitespaces)
      ensures o.Fail? ==> o.error == NonWhitespaceInWhitespace
    {
      if whitespaces.None? {
        return Pass;
      }
      var ws := whitespaces.value;
      for k := 0 to |ws|
        invariant forall m :: 0 <= m < k ==> SlotValid(ws[m])
      {
        if ws[k].Some? && |ws[k].value| > 0 {
          var b := IsWhitespaceString(ws[k].value);
          if !b {
            return Fail(NonWhitespaceInWhitespace);
          }
        }
      }
      return Pass;
    }

    /** validateComment: a comment holds no line feed. */
    static function ValidateComment(comment: Option<Text>): (o: Outcome<ValidationError>)
      ensures o.Pass? <==> CommentValid(comment)
      ensures o.Fail? ==> o.error == LineFeedInComment
    {
      if comment.Some? && LF in comment.value then Fail(LineFeedInComment) else Pass
    }

    /** setWhitespaces: validates, then installs; a rejected layout leaves the line as it was. */
    method SetWhitespaces(whitespaces: Option<seq<Option<Text>>>) returns (o: Outcome<ValidationError>)
      modifies this
      ensures o.Pass? <==> WhitespacesValid(whitespaces)
      ensures o.Fail? ==> o.error == NonWhitespaceInWhitespace && Data() == old(Data())
      ensures o.Pass? ==> Data() == old(Data()).(whitespaces := whitespaces)
      ensures old(Valid()) ==> Valid()
    {
      o := ValidateWhitespaces(whitespaces);
      if o.Pass? {
        this.whitespaces := whitespaces;
      }
    }

    /** setComment: validates, then installs; a rejected comment leaves the line as it was. */
    method SetComment(comment: Option<Text>) returns (o: Outcome<ValidationError>)
      modifies this
      ensures o.Pass? <==> CommentValid(comment)
      ensures o.Fail? ==> o.error == LineFeedInComment && Data() == old(Data())
      ensures o.Pass? ==> Data() == old(Data()).(comment := comment)
      ensures old(Valid()) ==> Valid()
    {
      o := ValidateComment(comment);
      if o.Pass? {
        this.comment := comment;
      }
    }

    /** setValues: rebuilds the value list one value at a time; layout and comment stay. */
    method SetValues(newValues: seq<Value>)
      modifies this
      ensures Data() == old(Data()).(values := newValues)
      ensures old(Valid()) ==> Valid()
    {
      values := [];
      for k := 0 to |newValues|
        invariant values == newValues[..k]
        invariant whitespaces == old(whitespaces) && comment == old(comment)
      {
        values := values + [newValues[k]];
      }
      assert newValues[..|newValues|] == newValues;
    }

    /** _set: installs all three parts without validating them. */
    method Set(data: LineData)
      modifies this
      ensures Data() == data
    {
      values := data.values;
      whitespaces := data.whitespaces;
      comment := data.comment;
    }

    /**
     * toString: serializeLine or serializeLineNonPreserving. The values-only text reads back
     * as the same values, and a line as the parser reads it reads back whole.
     */
    method ToString(preserve: bool) returns (s: Text)
      ensures preserve ==> s == LineText(Data())
      ensures !preserve ==> s == ValuesText(values) && ParsedLineArray(s) == Success(values)
      ensures preserve && WellFormed(Data()) ==> ParsedLine(s) == Success(Data())
    {
      if preserve {
        s := SerializeLine(Data());
        if WellFormed(Data()) {
          LineRoundTrip(Data());
        }
      } else {
        s := SerializeLineNonPreserving(Data());
        LineValuesRoundTrip(values);
      }
    }

    /** parse: parseLine or parseLineNonPreserving, as a new line object that passes validation. */
    static method Parse(content: Text, preserve: bool) returns (r: Result<WsvLine, ParserError>)
      ensures var spec := if preserve then ParsedLine(content) else ParsedLineNonPreserving(content);
        && (r.Success? <==> spec.Success?)
        && (r.Success? ==> r.value.Data() == spec.value)
        && (r.Failure? ==> r.error == spec.error)
      ensures r.Success? ==> fresh(r.value) && r.value.Valid()
      ensures r.Failure? ==> TokenError(r.error.kind) || r.error.kind == MultipleLinesNotAllowed
    {
      var parsed;
      if preserve {
        parsed := ParseLine(content);
        ParsedLineErrors(content);
      } else {
        parsed := ParseLineNonPreserving(content);
        ParsedLineArrayErrors(content);
      }
      if parsed.Failure? {
        return Failure(parsed.error);
      }
      if preserve {
        ParsedLineWellFormed(content, 0);
        WellFormedValid(parsed.value);
      }
      var line := new WsvLine([]);
      line.Set(parsed.value);
      return Success(line);
    }

    /** parseAsArray: parseLineAsArray. */
    static method ParseAsArray(content: Text) returns (r: Result<seq<Value>, ParserError>)
      ensures r == ParsedLineArray(content)
      ensures r.Success? ==> ParsedLineArray(ValuesText(r.value)) == r
      ensures r.Failure? ==> TokenError(r.error.kind) || r.error.kind == MultipleLinesNotAllowed
    {
      r := ParseLineAsArray(content);
      ParsedLineArrayErrors(content);
      if r.Success? {
        LineValuesRoundTrip(r.value);
      }
    }
  }

  /** Every line passes WsvLine's validators. */
  predicate AllValid(lines: seq<LineData>) {
    forall k :: 0 <= k < |lines| ==> WhitespacesValid(lines[k].whitespaces) && CommentValid(lines[k].comment)
  }

  /** The contents of a list of line objects. */
  function DataOf(lines: seq<WsvLine>): (r: seq<LineData>)
    reads lines
    ensures |r| == |lines| && forall k :: 0 <= k < |lines| ==> r[k] == lines[k].Data()
  {
    if lines == [] then [] else DataOf(lines[..|lines| - 1]) + [lines[|lines| - 1].Data()]
  }

  class WsvDocument {
    var lines: seq<WsvLine>

    ghost predicate Valid()
      reads this, lines
    {
      forall k :: 0 <= k < |lines| ==> lines[k].Valid()
    }

    function Contents(): seq<LineData>
      reads this, lines
    {
      DataOf(lines)
    }

    constructor ()
      ensures lines == [] && Valid()
    {
      lines := [];
    }

    /** addLine */
    method AddLine(line: WsvLine)
      modifies this
      ensures lines == old(lines) + [line]
      ensures old(Valid()) && line.Valid() ==> Valid()
    {
      lines := lines + [line];
    }

    /**
     * toString: serializeDocument or serializeDocumentNonPreserving. A non-empty document
     * of lines as the parser reads them reads back whole; the values-only text reads back
     * as the document's jagged array.
     */
    method ToString(preserve: bool) returns (s: Text)
      ensures preserve ==> s == DocumentText(Contents())
      ensures !preserve ==> s == DocumentTextNonPreserving(Contents())
      ensures preserve && |lines| > 0 && (forall k :: 0 <= k < |lines| ==> WellFormed(lines[k].Data())) ==>
        ParsedDocument(s) == Success(Contents())
      ensures !preserve && |lines| > 0 ==> ParsedJaggedArray(s) == Success(Rows(Contents()))
    {
      var data := Contents();
      if preserve {
        s := SerializeDocument(data);
        if |lines| > 0 && forall k :: 0 <= k < |lines| ==> WellFormed(lines[k].Data()) {
          DocumentRoundTrip(data);
        }
      } else {
        s := SerializeDocumentNonPreserving(data);
        if |lines| > 0 {
          NonPreservingRoundTrip(data);
        }
      }
    }

    /** toArray: the values of each line, in order. */
    method ToArray() returns (a: seq<seq<Value>>)
      ensures a == Rows(Contents())
    {
      a := [];
      for k := 0 to |lines|
        invariant |a| == k && forall m :: 0 <= m < k ==> a[m] == lines[m].values
      {
        a := a + [lines[k].values];
      }
    }

    /** parse: parseDocument or parseDocumentNonPreserving, one new line object per line. */
    static method Parse(content: Text, preserve: bool) returns (r: Result<WsvDocument, ParserError>)
      ensures var spec := if preserve then ParsedDocument(content) else ParsedDocumentNonPreserving(content);
        && (r.Success? <==> spec.Success?)
        && (r.Success? ==> r.value.Contents() == spec.value)
        && (r.Failure? ==> r.error == spec.error)
      ensures r.Success? ==> fresh(r.value) && r.value.Valid() && |r.value.lines| == CountLF(content) + 1
      ensures r.Success? ==> forall m :: 0 <= m < |r.value.lines| ==> fresh(r.value.lines[m])
      ensures r.Success? ==> forall m, n :: 0 <= m < n < |r.value.lines| ==> r.value.lines[m] != r.value.lines[n]
      ensures r.Failure? ==> TokenError(r.error.kind)
    {
      var parsed;
      if preserve {
        parsed := ParseDocument(content);
        ParseDocumentRoundTrip(content);
      } else {
        parsed := ParseDocumentNonPreserving(content);
        JaggedArrayFacts(content);
        PlainLinesAreRows(content, 0);
      }
      if parsed.Failure? {
        return Failure(parsed.error);
      }
      var data := parsed.value;
      if preserve {
        LinesWellFormed(content, 0);
        forall k | 0 <= k < |data|
          ensures WhitespacesValid(data[k].whitespaces) && CommentValid(data[k].comment)
        {
          WellFormedValid(data[k]);
        }
      }
      assert AllValid(data);
      var doc := FromData(data);
      return Success(doc);
    }

    /** The document the parser builds: a new, distinct line object per line, added in order. */
    static method FromData(data: seq<LineData>) returns (doc: WsvDocument)
      ensures fresh(doc) && doc.Contents() == data
      ensures forall m :: 0 <= m < |doc.lines| ==> fresh(doc.lines[m])
      ensures forall m, n :: 0 <= m < n < |doc.lines| ==> doc.lines[m] != doc.lines[n]
      ensures AllValid(data) ==> doc.Valid()
    {
      doc := new WsvDocument();
      for k := 0 to |data|
        invariant fresh(doc) && |doc.lines| == k
        invariant forall m :: 0 <= m < k ==> doc.lines[m].Data() == data[m]
        invariant forall m :: 0 <= m < k ==> fresh(doc.lines[m])
        invariant forall m, n :: 0 <= m < n < k ==> doc.lines[m] != doc.lines[n]
      {
        var line := new WsvLine([]);
        line.Set(data[k]);
        doc.AddLine(line);
      }
      assert doc.Contents() == data;
    }

    /** parseAsJaggedArray: parseDocumentAsJaggedArray. */
    static method ParseAsJaggedArray(content: Text) returns (r: Result<seq<seq<Value>>, ParserError>)
      ensures r == ParsedJaggedArray(content)
      ensures r.Success? ==> |r.value| == CountLF(content) + 1
      ensures r.Failure? ==> TokenError(r.error.kind)
    {
      r := ParseDocumentAsJaggedArray(content);
      JaggedArrayFacts(content);
    }
  }
}
