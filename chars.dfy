/**
 * The code-point classifier of WSV (class WsvChar and WsvString.isWhitespace).
 * Text is a sequence of Unicode code points.
 */
module WsvChars {

  type CodePoint = int
  type Text = seq<CodePoint>

  const LF: CodePoint := 0x0A
  const SPACE: CodePoint := 0x20
  const QUOTE: CodePoint := 0x22
  const HASH: CodePoint := 0x23
  const DASH: CodePoint := 0x2D
  const SLASH: CodePoint := 0x2F

  /** WsvChar.isWhitespace: one of 24 code points; the line feed is never whitespace. */
  predicate IsWhitespace(c: CodePoint): (r: bool)
    ensures r ==> c != LF && c != QUOTE && c != HASH && c != SLASH && c != DASH
    ensures r ==> 0x09 <= c <= 0x3000
  {
    c == 0x09
    || (0x0B <= c <= 0x0D)
    || c == 0x20
    || c == 0x85
    || c == 0xA0
    || c == 0x1680
    || (0x2000 <= c <= 0x200A)
    || c == 0x2028
    || c == 0x2029
    || c == 0x202F
    || c == 0x205F
    || c == 0x3000
  }

  /** WsvChar.getWhitespaceCodePoints: the table of whitespace code points, ascending. */
  function WhitespaceCodePoints(): (r: seq<CodePoint>)
    ensures |r| == 24
    ensures forall k :: 0 <= k < |r| - 1 ==> r[k] < r[k + 1]
    ensures forall c :: c in r <==> IsWhitespace(c)
  {
    [0x0009, 0x000B, 0x000C, 0x000D, 0x0020, 0x0085, 0x00A0, 0x1680,
     0x2000, 0x2001, 0x2002, 0x2003, 0x2004, 0x2005, 0x2006, 0x2007,
     0x2008, 0x2009, 0x200A, 0x2028, 0x2029, 0x202F, 0x205F, 0x3000]
  }

  /** What WsvString.isWhitespace decides: non-empty and whitespace throughout. */
  predicate WhitespaceOnly(s: Text) {
    |s| > 0 && forall k :: 0 <= k < |s| ==> IsWhitespace(s[k])
  }

  /** True iff s contains no line feed. */
  predicate NoLineFeed(s: Text) {
    forall k :: 0 <= k < |s| ==> s[k] != LF
  }

  /** WsvString.isWhitespace, with its early return on the empty string and on the first non-whitespace. */
  method IsWhitespaceString(s: Text) returns (b: bool)
    ensures b <==> WhitespaceOnly(s)
    ensures b ==> NoLineFeed(s)
  {
    if |s| == 0 {
      return false;
    }
    for k := 0 to |s|
      invariant forall m :: 0 <= m < k ==> IsWhitespace(s[m])
    {
      if !IsWhitespace(s[k]) {
        return false;
      }
    }
    return true;
  }
}
