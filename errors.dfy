/**
 * WsvParserException: a parse failure positioned by code-point index, line index and
 * column, both counted from zero, and the way the message renders them.
 */
module WsvErrors {
  import opened WsvChars

  /** The messages the cursor and the parser raise. */
  datatype ErrorKind =
    | StringNotClosed
    | InvalidStringLineBreak
    | InvalidCharacterAfterString
    | InvalidDoubleQuoteInValue
    | InvalidValue
    | MultipleLinesNotAllowed
    | UnexpectedParserError
  {
    function Message(): string {
      match this
      case StringNotClosed => "String not closed"
      case InvalidStringLineBreak => "Invalid string line break"
      case InvalidCharacterAfterString => "Invalid character after string"
      case InvalidDoubleQuoteInValue => "Invalid double quote in value"
      case InvalidValue => "Invalid value"
      case MultipleLinesNotAllowed => "Multiple WSV lines not allowed"
      case UnexpectedParserError => "Unexpected parser error"
    }
  }

  datatype ParserError = ParserError(index: nat, lineIndex: nat, linePosition: nat, kind: ErrorKind)

  /** The number of line feeds in s. */
  function CountLF(s: Text): nat {
    multiset(s)[LF]
  }

  /**
   * Line index and column of the position just after `consumed`: the line index is the
   * number of line feeds consumed, the column the number of code points after the last one.
   */
  function LineInfo(consumed: Text): (nat, nat) {
    if consumed == [] then (0, 0)
    else
      var (line, column) := LineInfo(consumed[..|consumed| - 1]);
      if consumed[|consumed| - 1] == LF then (line + 1, 0) else (line, column + 1)
  }

  /**
   * The line index counts every line feed consumed; the column counts the code points after
   * the last line feed, which is just before them when there is one.
   */
  lemma {:induction false} LineInfoMeaning(consumed: Text)
    ensures var info := LineInfo(consumed);
      && info.0 == CountLF(consumed)
      && info.1 <= |consumed|
      && (forall k :: |consumed| - info.1 <= k < |consumed| ==> consumed[k] != LF)
      && (info.1 < |consumed| ==> consumed[|consumed| - info.1 - 1] == LF)
  {
    if consumed != [] {
      var before := consumed[..|consumed| - 1];
      assert consumed == before + [consumed[|consumed| - 1]];
      LineInfoMeaning(before);
    }
  }

  /** The decimal digits of n, most significant first. */
  function Decimal(n: nat): (s: string)
    ensures |s| > 0
    ensures forall k :: 0 <= k < |s| ==> '0' <= s[k] <= '9'
    ensures n < 10 ==> |s| == 1
  {
    var digit := ['0' + (n % 10) as char];
    if n < 10 then digit else Decimal(n / 10) + digit
  }

  /** The number a string of decimal digits denotes. */
  function DigitsValue(s: string): nat
    requires forall k :: 0 <= k < |s| ==> '0' <= s[k] <= '9'
  {
    if s == [] then 0 else 10 * DigitsValue(s[..|s| - 1]) + ((s[|s| - 1] as int) - ('0' as int))
  }

  /** Decimal writes n in base ten, without leading zeros. */
  lemma {:induction false} DecimalValue(n: nat)
    ensures DigitsValue(Decimal(n)) == n
    ensures |Decimal(n)| > 1 ==> Decimal(n)[0] != '0'
  {
    if n >= 10 {
      DecimalValue(n / 10);
      var s := Decimal(n);
      assert s[..|s| - 1] == Decimal(n / 10);
    }
  }

  /** The exception text "{message} ({line+1}, {column+1})". */
  function Render(e: ParserError): (s: string)
    ensures |s| > |e.kind.Message()| + 1
    ensures s[..|e.kind.Message()|] == e.kind.Message()
    ensures s[|s| - 1] == ')'
  {
    e.kind.Message() + " (" + Decimal(e.lineIndex + 1) + ", " + Decimal(e.linePosition + 1) + ")"
  }
}
