/**
 * The contents of a WsvLine: its values, its whitespace layout and its comment, and the
 * validity conditions that WsvLine.setWhitespaces and WsvLine.setComment enforce.
 */
module WsvData {
  import opened Wrappers
  import opened WsvChars

  /** A value: None is the null value, written `-`. */
  type Value = Option<Text>

  /**
   * values; the whitespace layout (None when none was set, and within it None for a slot
   * that was not captured, distinct from an empty string); the comment, without its '#'.
   */
  datatype LineData = LineData(values: seq<Value>, whitespaces: Option<seq<Option<Text>>>, comment: Option<Text>)

  /** A whitespace slot that validateWhitespaces accepts. */
  predicate SlotValid(w: Option<Text>) {
    w.None? || |w.value| == 0 || WhitespaceOnly(w.value)
  }

  predicate WhitespacesValid(whitespaces: Option<seq<Option<Text>>>) {
    whitespaces.None? || forall k :: 0 <= k < |whitespaces.value| ==> SlotValid(whitespaces.value[k])
  }

  predicate CommentValid(comment: Option<Text>) {
    comment.None? || NoLineFeed(comment.value)
  }

  /** The two exceptions of WsvLine's validators. */
  datatype ValidationError = NonWhitespaceInWhitespace | LineFeedInComment {
    function Message(): string {
      match this
      case NonWhitespaceInWhitespace => "Whitespace value contains non whitespace character or line feed"
      case LineFeedInComment => "Line feed in comment is not allowed"
    }
  }
}
