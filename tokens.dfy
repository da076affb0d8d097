/**
 * Token-level round trip: a value written by serializeValue and followed by a token end
 * reads back, with the token reader of the line parsers, as the same value.
 */
module WsvTokens {
  import opened Wrappers
  import opened WsvChars
  import opened WsvErrors
  import opened WsvCursor
  import opened WsvData
  import opened WsvSerializer
  import opened WsvParser

  /** s occurs in t at index i. */
  predicate Occurs(t: Text, i: nat, s: Text) {
    i + |s| <= |t| && Matches(t, i, s)
  }

  /**
   * The code points of s are those of t from i on, stated one code point at a time so that
   * a fact about an occurrence unfolds only as far as a proof asks.
   */
  predicate Matches(t: Text, i: nat, s: Text)
    requires i + |s| <= |t|
    decreases |s|
  {
    |s| == 0 || (t[i] == s[0] && Matches(t, i + 1, s[1..]))
  }

  lemma {:induction false} OccursSplit(t: Text, i: nat, a: Text, b: Text)
    ensures Occurs(t, i, a + b) <==> Occurs(t, i, a) && Occurs(t, i + |a|, b)
    decreases |a|
  {
    if |a| == 0 {
      assert a + b == b;
    } else {
      assert (a + b)[0] == a[0];
      assert (a + b)[1..] == a[1..] + b;
      OccursSplit(t, i + 1, a[1..], b);
    }
  }

  lemma OccursOne(t: Text, i: nat, c: CodePoint)
    ensures Occurs(t, i, [c]) <==> i < |t| && t[i] == c
  {
    assert [c][1..] == [];
    if i < |t| {
      assert Matches(t, i + 1, [c][1..]);
    }
  }

  lemma {:induction false} OccursAt(t: Text, i: nat, s: Text, k: nat)
    requires Occurs(t, i, s) && k < |s|
    ensures t[i + k] == s[k]
    decreases k
  {
    if k > 0 {
      OccursAt(t, i + 1, s[1..], k - 1);
    }
  }

  lemma {:induction false} OccursSlice(t: Text, i: nat, s: Text)
    requires Occurs(t, i, s)
    ensures t[i..i + |s|] == s
    decreases |s|
  {
    if |s| > 0 {
      OccursSlice(t, i + 1, s[1..]);
      assert t[i..i + |s|] == [t[i]] + t[i + 1..i + 1 + |s[1..]|];
      assert s == [s[0]] + s[1..];
    }
  }

  lemma {:induction false} OccursSuffix(t: Text, i: nat)
    requires i <= |t|
    ensures Occurs(t, i, t[i..])
    decreases |t| - i
  {
    if i < |t| {
      assert t[i..][1..] == t[i + 1..];
      OccursSuffix(t, i + 1);
    }
  }

  lemma OccursAll(t: Text)
    ensures Occurs(t, 0, t)
  {
    OccursSuffix(t, 0);
    assert t[0..] == t;
  }

  /** Reading the escaped body of s and its closing quote, then a token end, gives s back. */
  lemma {:induction false} EscapedRead(t: Text, i: nat, s: Text)
    requires Occurs(t, i, Escape(s))
    requires i + |Escape(s)| < |t| && t[i + |Escape(s)|] == QUOTE && ClosedAt(t, i + |Escape(s)| + 1)
    ensures ReadStringFrom(t, i) == Success((s, i + |Escape(s)| + 1))
    decreases |s|
  {
    if s == [] {
      ClosingStep(t, i);
    } else {
      var e := EscapeChar(s[0]);
      assert Escape(s) == e + Escape(s[1..]);
      OccursSplit(t, i, e, Escape(s[1..]));
      EscapedRead(t, i + |e|, s[1..]);
      EscapedReadStep(t, i, s);
    }
  }

  /** One step of EscapedRead: the first code point's escape, then the rest read back. */
  lemma EscapedReadStep(t: Text, i: nat, s: Text)
    requires |s| > 0 && Occurs(t, i, Escape(s)) && i + |Escape(s)| < |t|
    requires ReadStringFrom(t, i + |EscapeChar(s[0])|) == Success((s[1..], i + |Escape(s)| + 1))
    ensures ReadStringFrom(t, i) == Success((s, i + |Escape(s)| + 1))
  {
    var c := s[0];
    var e := EscapeChar(c);
    assert Escape(s) == e + Escape(s[1..]);
    OccursSplit(t, i, e, Escape(s[1..]));
    EscapeCharStep(t, i, c, Success((s[1..], i + |Escape(s)| + 1)));
    assert [c] + s[1..] == s;
  }

  /** readString on the escape of one code point c at i consumes it and yields c. */
  lemma EscapeCharStep(t: Text, i: nat, c: CodePoint, later: Result<(Text, nat), ParserError>)
    requires Occurs(t, i, EscapeChar(c)) && i + |EscapeChar(c)| < |t|
    requires later == ReadStringFrom(t, i + |EscapeChar(c)|)
    ensures ReadStringFrom(t, i) == PrependText([c], later)
  {
    var e := EscapeChar(c);
    OccursAt(t, i, e, 0);
    if c == LF {
      OccursAt(t, i, e, 1);
      OccursAt(t, i, e, 2);
      LineBreakStep(t, i);
    } else if c == QUOTE {
      OccursAt(t, i, e, 1);
      EscapedQuoteStep(t, i);
    } else {
      PlainStep(t, i);
    }
  }

  /** A bare run of code points that stop no value, followed by a token end, is one bare value. */
  lemma {:induction false} BareValueEnd(t: Text, i: nat, s: Text)
    requires Occurs(t, i, s) && ClosedAt(t, i + |s|)
    requires forall k :: 0 <= k < |s| ==> !StopsValue(s[k])
    ensures ValueEnd(t, i) == i + |s|
    decreases |s|
  {
    if s != [] {
      assert t[i] == s[0];
      OccursSplit(t, i, [s[0]], s[1..]);
      assert [s[0]] + s[1..] == s;
      BareValueEnd(t, i + 1, s[1..]);
    }
  }

  /** The null value is written `-`, which reads back as null. */
  lemma NullTokenRoundTrip(t: Text, p: nat)
    requires Occurs(t, p, [DASH]) && ClosedAt(t, p + 1)
    ensures TokenAt(t, p) == Success((None, p + 1))
  {
    OccursOne(t, p, DASH);
    BareValueEnd(t, p, [DASH]);
    OccursSlice(t, p, [DASH]);
  }

  /** A string written bare reads back as itself. */
  lemma BareTokenRoundTrip(t: Text, p: nat, s: Text)
    requires SerializedValue(Some(s)) == s
    requires Occurs(t, p, s) && ClosedAt(t, p + |s|)
    ensures TokenAt(t, p) == Success((Some(s), p + |s|))
  {
    MinimalQuoting(s);
    assert t[p] == s[0] && !IsSpecial(s[0]);
    assert forall k :: 0 <= k < |s| ==> !IsSpecial(s[k]);
    BareValueEnd(t, p, s);
    OccursSlice(t, p, s);
  }

  /** A string written between quotes reads back as itself. */
  lemma QuotedTokenRoundTrip(t: Text, p: nat, s: Text)
    requires Occurs(t, p, Quoted(s)) && ClosedAt(t, p + |Quoted(s)|)
    ensures TokenAt(t, p) == Success((Some(s), p + |Quoted(s)|))
  {
    OccursSplit(t, p, [QUOTE] + Escape(s), [QUOTE]);
    OccursSplit(t, p, [QUOTE], Escape(s));
    OccursOne(t, p, QUOTE);
    OccursOne(t, p + 1 + |Escape(s)|, QUOTE);
    EscapedRead(t, p + 1, s);
  }

  /**
   * Token round trip: serializeValue(v) at p, followed by whitespace, a line feed, '#' or the
   * end of the text, is read back as v, and the read stops just after it.
   */
  lemma TokenRoundTrip(t: Text, p: nat, v: Value)
    requires Occurs(t, p, SerializedValue(v)) && ClosedAt(t, p + |SerializedValue(v)|)
    ensures p < |t|
    ensures TokenAt(t, p) == Success((v, p + |SerializedValue(v)|))
  {
    SerializedValueShape(v);
    if v.None? {
      NullTokenRoundTrip(t, p);
    } else if SerializedValue(v) == v.value {
      BareTokenRoundTrip(t, p, v.value);
    } else {
      QuotedTokenRoundTrip(t, p, v.value);
    }
  }
}
