# WSV (Whitespace Separated Values) for Python, modelled in Dafny

This project models the core of the Python WSV library, `stenway/wsv.py`. It covers:

- the whitespace classifier (`WsvChar`, `WsvString`);
- the forward-only cursor `WsvCharIterator`;
- `WsvParser`: `_parseLine`, which keeps each line's whitespace layout and comment, and `_parseLineAsArray`, which keeps the values only, plus the line and document entry points built on them;
- `WsvSerializer`: minimal quoting of a value, and lines and documents written either by replaying the layout or with single spaces;
- the classes `WsvLine` (whose setters validate) and `WsvDocument`.

How the model represents the library:

- Text is a sequence of Unicode code points (`seq<int>`).
- A value is `Option<Text>`; `None` is the null value, written `-`.
- A line's contents is the datatype `LineData(values, whitespaces, comment)`.
- Raised exceptions become `Result.Failure` or `Outcome.Fail`, carrying the error kind and its position.

Each scanner and parser is specified by a function of the text and a start index. Each method that drives the `CharIterator` class, or runs one of the serializer's loops, is proved equal to its function. The properties are then proved about those functions:

- **Token round trip.** `serializeValue(v)` followed by whitespace, a line feed, `#` or the end of the text reads back as `v`.
- **Line round trip.** A line as `_parseLine` produces it, once written by `serializeLine`, reads back as the same line.
- **Document round trip.** The same holds for whole documents.
- **Text round trip.** A text in which every token is written as `serializeValue` would write it reads back and writes out as that same text, for single lines and for whole documents. This covers every text without a double quote. A non-canonical quoted token such as `"a"` is written back in its canonical form.
- **Values-only round trip.** Values-only lines and documents read back as their values and jagged arrays.
- **Line count.** A document reads as one line per line feed plus one.
- **Error classes.**
  - Every parse failure is one of the five grammar errors, or "Multiple WSV lines not allowed" exactly when a single line is followed by a line feed.
  - "Unexpected parser error" never occurs. The error lemmas prove this. The document parsers' final end-of-text check is a dead branch, marked with `assert false`.
- **Validity.** Every parsed line passes `WsvLine`'s two validators.

Modules, in dependency order:

| module | role |
|---|---|
| `Wrappers` | Option, Result, Outcome |
| `WsvChars` | classifier |
| `WsvErrors` | error kinds, line information, message rendering |
| `WsvCursor` | scanners and `CharIterator` |
| `WsvData` | `LineData` and the validity predicates |
| `WsvSerializer` | serializer |
| `WsvParser` | parser |
| `WsvTokens` | token round trip |
| `WsvLines` | line round trip, well-formed lines |
| `WsvRoundTrip` | error classes, documents, arrays |
| `WsvReproduce` | text round trip: parsing then writing reproduces canonically written texts |
| `Wsv` | the classes |

A line is *well-formed* (`WsvLines.WellFormed`) when it has the shape `_parseLine` gives it:

- a layout with one leading slot;
- whitespace-only slots between values;
- a trailing slot where the parser records one;
- a comment without a line feed.

## Model

| member | source | states |
|---|---|---|
| WsvChars.IsWhitespace | stenway/wsv.py:4-16 | a whitespace code point is never a line feed, quote, `#`, `/` or `-`, and lies in 0x09..0x3000 |
| WsvChars.WhitespaceCodePoints | stenway/wsv.py:18-42 | the table has 24 entries, strictly ascending, and holds exactly the code points isWhitespace accepts |
| WsvChars.IsWhitespaceString | stenway/wsv.py:46-53 | true iff the string is non-empty and whitespace throughout; such a string holds no line feed |
| WsvErrors.LineInfoMeaning | stenway/wsv.py:126-128 | the line index is the number of line feeds consumed; the column counts the code points after the last of them |
| WsvErrors.DecimalValue | stenway/wsv.py:58 | the digits written for a line or column number denote that number, with no leading zero |
| WsvErrors.Render | stenway/wsv.py:58 | the exception text starts with the message and ends with `)` |
| WsvCursor.WhitespaceEnd | stenway/wsv.py:96-124 | the whitespace scan stops within the text, at the end or at a code point that is not whitespace |
| WsvCursor.WhitespaceEndFacts | stenway/wsv.py:98-106 | every code point the whitespace scan passes over is whitespace |
| WsvCursor.CommentEnd | stenway/wsv.py:77-94 | the comment scan stops at the end of the text or at a line feed |
| WsvCursor.CommentEndFacts | stenway/wsv.py:79-84 | the comment scan passes over no line feed |
| WsvCursor.ValueEnd | stenway/wsv.py:157-168 | the bare-value scan stops at the end or at whitespace, a line feed, `#` or a quote |
| WsvCursor.ValueEndFacts | stenway/wsv.py:157-168 | the bare-value scan passes over no code point that stops a value |
| WsvCursor.ReadValueFrom | stenway/wsv.py:155-173 | a bare value is the non-empty slice up to a token end; "Invalid double quote in value" points at a quote; "Invalid value" is raised where a token end already stands |
| WsvCursor.ReadValueFacts | stenway/wsv.py:155-173 | a bare value holds no whitespace, line feed, `#` or quote, nor does the run before a misplaced quote |
| WsvCursor.StringSuccessAt | stenway/wsv.py:130-153 | a string that reads ends just after a closing quote that a token end follows, on the same line |
| WsvCursor.StringErrorKinds | stenway/wsv.py:130-153 | readString fails only with "String not closed", "Invalid string line break" or "Invalid character after string", at or after its start |
| WsvCursor.StringNotClosedAt | stenway/wsv.py:133-134 | "String not closed" is raised at a line feed or at the end of the text |
| WsvCursor.InvalidLineBreakAt | stenway/wsv.py:141-143 | "Invalid string line break" is raised just after `"/` that no quote follows |
| WsvCursor.InvalidAfterStringAt | stenway/wsv.py:145-148 | "Invalid character after string" is raised at a code point after a quote that is no token end, quote or `/` |
| WsvCursor.CharIterator.constructor | stenway/wsv.py:65-66 | a new cursor stands at index 0 of the text |
| WsvCursor.CharIterator.IsEndOfText | stenway/wsv.py:69-70 | true iff no code point is left: the cursor stands just past the last one |
| WsvCursor.CharIterator.IsChar | stenway/wsv.py:133 | true iff the text has not ended and the current code point is the one asked for |
| WsvCursor.CharIterator.IsWhitespaceHere | stenway/wsv.py:68-71 | false at the end of the text, else whether the current code point is whitespace; whitespace is never a line feed, quote or `#` |
| WsvCursor.CharIterator.GetString | stenway/wsv.py:73-75 | the code points from the start index up to the cursor, which continue into the rest of the text |
| WsvCursor.CharIterator.TryReadChar | stenway/wsv.py:139-142 | consumes the code point exactly when it is the current one |
| WsvCursor.CharIterator.ReadCommentText | stenway/wsv.py:77-86 | returns the code points up to the line feed or end, which hold no line feed, and stops there |
| WsvCursor.CharIterator.SkipCommentText | stenway/wsv.py:88-94 | stops where the comment scan stops |
| WsvCursor.CharIterator.ReadWhitespaceOrNull | stenway/wsv.py:96-110 | returns None iff no whitespace is at the cursor, else the whitespace-only run it passed |
| WsvCursor.CharIterator.SkipWhitespace | stenway/wsv.py:112-124 | stops where the whitespace scan stops; true iff it moved |
| WsvCursor.CharIterator.GetLineInfo | stenway/wsv.py:127 | the line index counts the line feeds before the cursor |
| WsvCursor.CharIterator.GetException | stenway/wsv.py:126-128 | the error carries the cursor index and its line information |
| WsvCursor.CharIterator.ReadAfterQuote | stenway/wsv.py:137-148 | the step after a quote inside a string agrees with the string reader: an escape, the close, or the error |
| WsvCursor.CharIterator.ReadString | stenway/wsv.py:130-153 | the loop computes ReadStringFrom: the decoded string and the index after the closing quote, or the same error |
| WsvCursor.CharIterator.ReadValue | stenway/wsv.py:155-173 | the loop computes ReadValueFrom: the bare token and its end, or the same error |
| WsvTokens.EscapedRead | stenway/wsv.py:130-153 | readString on the escaped body of s, its closing quote and a token end yields s and stops after the quote |
| WsvTokens.BareValueEnd | stenway/wsv.py:155-168 | a run with no stopping code point, followed by a token end, is scanned to its end |
| WsvTokens.NullTokenRoundTrip | stenway/wsv.py:196-198 | `-` followed by a token end reads back as the null value |
| WsvTokens.BareTokenRoundTrip | stenway/wsv.py:195-196 | a string that serializeValue writes unquoted reads back as itself |
| WsvTokens.QuotedTokenRoundTrip | stenway/wsv.py:193-194 | a string that serializeValue writes between quotes reads back as itself |
| WsvTokens.TokenRoundTrip | stenway/wsv.py:324-348 | serializeValue(v), followed by a token end, reads back as v and the read stops right after it |
| WsvParser.TokenAt | stenway/wsv.py:248-253 | a token that reads consumes at least one code point |
| WsvParser.LineLoop | stenway/wsv.py:244-261 | the loop of _parseLine never moves backwards |
| WsvParser.LineEnd | stenway/wsv.py:263-272 | the end of a line always succeeds and never moves backwards |
| WsvParser.LineAt | stenway/wsv.py:237-272 | _parseLine stops at or after its start |
| WsvParser.ArrayLoop | stenway/wsv.py:189-203 | the loop of _parseLineAsArray never moves backwards |
| WsvParser.ArrayEnd | stenway/wsv.py:205-208 | skipping a comment always succeeds |
| WsvParser.ArrayAt | stenway/wsv.py:186-208 | _parseLineAsArray stops at or after its start |
| WsvParser.ReadToken | stenway/wsv.py:248-253 | the token branch computes TokenAt |
| WsvParser.ParseLineFrom | stenway/wsv.py:237-272 | _parseLine driven by the cursor computes LineAt, error included |
| WsvParser.ReadLineEnd | stenway/wsv.py:263-272 | the comment branch builds the line LineEnd describes |
| WsvParser.ParseLineAsArrayFrom | stenway/wsv.py:186-208 | _parseLineAsArray driven by the cursor computes ArrayAt, error included |
| WsvParser.ParseLine | stenway/wsv.py:228-235 | parseLine computes ParsedLine |
| WsvParser.ParseLineAsArray | stenway/wsv.py:177-184 | parseLineAsArray computes ParsedLineArray |
| WsvParser.ParseLineNonPreserving | stenway/wsv.py:292-294 | parseLineNonPreserving computes ParsedLineNonPreserving |
| WsvParser.ParseDocument | stenway/wsv.py:274-290 | parseDocument's loop computes ParsedDocument |
| WsvParser.ParseDocumentAsJaggedArray | stenway/wsv.py:211-226 | parseDocumentAsJaggedArray's loop computes ParsedJaggedArray |
| WsvParser.ParseDocumentNonPreserving | stenway/wsv.py:296-313 | parseDocumentNonPreserving's loop computes ParsedDocumentNonPreserving |
| WsvSerializer.EscapeShape | stenway/wsv.py:335-344 | an escaped body holds no line feed and is never shorter than the string |
| WsvSerializer.SerializedValueShape | stenway/wsv.py:324-348 | a serialized value is a non-empty single-line token starting with neither whitespace nor `#`, the string itself or its quoted form |
| WsvSerializer.MinimalQuoting | stenway/wsv.py:324-348 | a string is written unchanged iff it is non-empty, not `-` and has no special code point |
| WsvSerializer.ContainsSpecialChar | stenway/wsv.py:317-322 | true iff some code point is a line feed, whitespace, quote or `#` |
| WsvSerializer.SerializeValue | stenway/wsv.py:324-348 | the escaping loop computes SerializedValue |
| WsvSerializer.SerializeWhitespace | stenway/wsv.py:350-356 | a valid slot is replayed as empty or whitespace only; a required separator is never empty |
| WsvSerializer.ValuesWithWhitespaceAsWritten | stenway/wsv.py:358-385 | the code as written raises exactly when the layout has no trailing slot and a comment is set, and otherwise agrees with the corrected branch |
| WsvSerializer.AsWrittenRaises | stenway/wsv.py:382 | the line with value `a`, layout [None] and an empty comment makes the code as written raise |
| WsvSerializer.BlankLayoutAgrees | stenway/wsv.py:379-383 | with the corrected branch, a layout of uncaptured slots without a trailing one writes the line as if it had no layout, comment included |
| WsvSerializer.SerializeValuesWithWhitespace | stenway/wsv.py:358-385 | the loop computes ValuesWithWhitespace |
| WsvSerializer.SerializeLineValues | stenway/wsv.py:421-432 | the loop computes the values joined by single spaces |
| WsvSerializer.SerializeValuesWithoutWhitespace | stenway/wsv.py:387-404 | the loop computes the joined values and the space before a comment |
| WsvSerializer.SerializeLine | stenway/wsv.py:406-419 | serializeLine computes LineText |
| WsvSerializer.SerializeLineNonPreserving | stenway/wsv.py:434-435 | computes the values joined by single spaces |
| WsvSerializer.SerializeDocument | stenway/wsv.py:437-448 | the loop joins the line texts with line feeds |
| WsvSerializer.SerializeDocumentNonPreserving | stenway/wsv.py:450-461 | the loop joins the values-only line texts with line feeds |
| WsvLines.WhitespaceRun | stenway/wsv.py:96-110 | a whitespace-only run that no whitespace follows is what readWhitespaceOrNull returns |
| WsvLines.CommentRun | stenway/wsv.py:77-86 | a comment without a line feed that ends the line is what readCommentText reads |
| WsvLines.LineEndRoundTrip | stenway/wsv.py:263-272 | the end of _parseLine reads a written comment back and records a missing slot as None |
| WsvLines.AfterLastValue | stenway/wsv.py:257-268 | after the last value of a well-formed line, the parser reads its trailing slot and comment back |
| WsvLines.LoopRoundTrip | stenway/wsv.py:244-261 | from value k of a well-formed line on, the _parseLine loop reads the rest of the line back |
| WsvLines.ReparseLine | stenway/wsv.py:237-272 | a well-formed line written by serializeLine and followed by a line end is read back as the same line, stopping at that end |
| WsvLines.EmptyLineRoundTrip | stenway/wsv.py:241-268 | a well-formed line without values reads back |
| WsvLines.LoopWellFormed | stenway/wsv.py:244-261 | whatever the loop of _parseLine builds is well-formed, ends at a line end and reads no line feed |
| WsvLines.ParsedLineWellFormed | stenway/wsv.py:237-272 | every line _parseLine produces is well-formed, stops at a line end and reads no line feed |
| WsvLines.WellFormedAsWritten | stenway/wsv.py:379-383 | a well-formed line never reaches the raising branch of line 382 |
| WsvRoundTrip.TokenErrors | stenway/wsv.py:193-198 | a token fails only with one of the five grammar errors |
| WsvRoundTrip.LineLoopErrors | stenway/wsv.py:244-261 | the _parseLine loop fails only with a grammar error |
| WsvRoundTrip.ArrayLoopErrors | stenway/wsv.py:189-203 | the _parseLineAsArray loop fails only with a grammar error |
| WsvRoundTrip.ArrayAtEnds | stenway/wsv.py:186-208 | _parseLineAsArray stops at a line end and reads no line feed |
| WsvRoundTrip.ParsedLineErrors | stenway/wsv.py:228-235 | parseLine fails with a grammar error or "Multiple WSV lines not allowed", the latter iff the line reads and the text has a line feed |
| WsvRoundTrip.ParsedLineArrayErrors | stenway/wsv.py:177-184 | the same for parseLineAsArray |
| WsvRoundTrip.LinesCount | stenway/wsv.py:274-290 | parseDocument reads one line per line feed plus one |
| WsvRoundTrip.LinesWellFormed | stenway/wsv.py:274-290 | every line parseDocument reads is well-formed |
| WsvRoundTrip.LinesErrors | stenway/wsv.py:274-290 | parseDocument fails only with a grammar error |
| WsvRoundTrip.RowsCount | stenway/wsv.py:211-226 | parseDocumentAsJaggedArray reads one row per line feed plus one |
| WsvRoundTrip.RowsErrors | stenway/wsv.py:211-226 | parseDocumentAsJaggedArray fails only with a grammar error |
| WsvRoundTrip.PlainLinesAreRows | stenway/wsv.py:296-313 | parseDocumentNonPreserving reads the jagged array's rows as lines without layout, and fails exactly as it does |
| WsvRoundTrip.ArrayLoopRoundTrip | stenway/wsv.py:189-203 | from value k on, the _parseLineAsArray loop reads single-space joined values back |
| WsvRoundTrip.ArrayRoundTrip | stenway/wsv.py:186-208 | values joined by single spaces and followed by a line end are read back by _parseLineAsArray |
| WsvRoundTrip.LineValuesRoundTrip | stenway/wsv.py:177-184 | parseLineAsArray(serializeLineValues(values)) is values |
| WsvRoundTrip.LineNonPreservingRoundTrip | stenway/wsv.py:292-294 | parseLineNonPreserving(serializeLineValues(values)) is the line of those values without layout |
| WsvRoundTrip.LinesRoundTrip | stenway/wsv.py:278-285 | from line k on, parseDocument's loop reads the written lines back |
| WsvRoundTrip.DocumentRoundTrip | stenway/wsv.py:437-448 | parseDocument(serializeDocument(lines)) is lines, for a non-empty list of well-formed lines |
| WsvRoundTrip.ParseDocumentRoundTrip | stenway/wsv.py:274-290 | a parsed document has one line per line feed plus one, and writing then reading it gives it back |
| WsvRoundTrip.LineRoundTrip | stenway/wsv.py:406-419 | parseLine(serializeLine(line)) is line for a well-formed line |
| WsvRoundTrip.RowsRoundTrip | stenway/wsv.py:215-222 | from row k on, parseDocumentAsJaggedArray's loop reads the written rows back |
| WsvRoundTrip.NonPreservingRoundTrip | stenway/wsv.py:450-461 | a values-only document reads back as its jagged array, and as its lines without layout |
| WsvRoundTrip.JaggedArrayFacts | stenway/wsv.py:211-226 | a jagged array has one row per line feed plus one; both values-only readers fail only with a grammar error |
| WsvReproduce.LoopPrefix | stenway/wsv.py:244-268 | the line _parseLine's loop returns extends the values and slots it has read so far |
| WsvReproduce.LoopText | stenway/wsv.py:244-268 | from a loop state over canonically written tokens, the last slot read and the text up to where the loop stops are what serializeLine writes from that value on |
| WsvReproduce.LineReproduces | stenway/wsv.py:237-272 | serializeLine writes a line that _parseLine read from canonically written tokens as exactly the text it read |
| WsvReproduce.LinesReproduce | stenway/wsv.py:278-285 | from a line start on, the lines parseDocument's loop reads from a canonically written text are written back by serializeDocument as that text |
| WsvReproduce.ParsedDocumentReproduces | stenway/wsv.py:437-448 | serializeDocument(parseDocument(t)) is t when every token of t is written canonically |
| WsvReproduce.ParsedLineReproduces | stenway/wsv.py:406-419 | serializeLine(parseLine(t)) is t when every token of t is written canonically |
| WsvReproduce.QuotedBareNotReproduced | stenway/wsv.py:324-348 | `"a"#c` is not canonical: it reads as the value `a` and the comment `c`, and is written back as `a#c` |
| WsvReproduce.BareCanonical | stenway/wsv.py:155-173 | a token that does not start with a quote is written by serializeValue exactly as it was read |
| WsvReproduce.UnquotedCanonical | stenway/wsv.py:244-268 | in a text without a double quote, every token from any index on is written canonically |
| WsvReproduce.UnquotedReproduces | stenway/wsv.py:274-290 | a text without a double quote is reproduced by parseDocument then serializeDocument, and by parseLine then serializeLine |
| Wsv.WellFormedValid | stenway/wsv.py:489-497 | a line as the parser reads it passes validateWhitespaces and validateComment |
| Wsv.WsvLine.constructor | stenway/wsv.py:465-471 | a line with values and neither layout nor comment is valid |
| Wsv.WsvLine.Create | stenway/wsv.py:465-471 | construction succeeds iff both validators pass, raising the whitespace error first; the new line holds what was given |
| Wsv.WsvLine.HasValues | stenway/wsv.py:473-474 | true iff the line has at least one value, which is also exactly when the values serialize to non-empty text |
| Wsv.WsvLine.ValidateWhitespaces | stenway/wsv.py:489-493 | passes iff every captured slot is empty or whitespace only |
| Wsv.WsvLine.ValidateComment | stenway/wsv.py:495-497 | passes iff the comment has no line feed |
| Wsv.WsvLine.SetWhitespaces | stenway/wsv.py:476-478 | installs the layout iff it is valid, changes nothing else, and leaves a valid line valid |
| Wsv.WsvLine.SetComment | stenway/wsv.py:480-482 | installs the comment iff it is valid, changes nothing else, and leaves a valid line valid |
| Wsv.WsvLine.SetValues | stenway/wsv.py:484-487 | replaces the values and keeps layout and comment |
| Wsv.WsvLine.Set | stenway/wsv.py:523-526 | installs all three parts without validation |
| Wsv.WsvLine.ToString | stenway/wsv.py:517-521 | writes the line; the values-only text reads back as the values, and a well-formed single-line text reads back as the line |
| Wsv.WsvLine.Parse | stenway/wsv.py:505-509 | yields a new valid line holding what the chosen parser reads, or its error, which is a grammar error or "Multiple WSV lines not allowed" |
| Wsv.WsvLine.ParseAsArray | stenway/wsv.py:511-512 | yields what parseLineAsArray reads; the values, written again, read back the same |
| Wsv.WsvDocument.constructor | stenway/wsv.py:530-535 | a new document has no lines |
| Wsv.WsvDocument.AddLine | stenway/wsv.py:543-544 | appends the line and leaves the other lines alone; a valid document stays valid when the added line is valid |
| Wsv.WsvDocument.ToString | stenway/wsv.py:549-553 | writes the document; a non-empty document of well-formed lines reads back whole, and the values-only text reads back as the jagged array |
| Wsv.WsvDocument.ToArray | stenway/wsv.py:555-559 | the loop collects each line's values in order |
| Wsv.WsvDocument.FromData | stenway/wsv.py:297-303 | builds a new document with new, distinct line objects, one per line, in order, as the loop of parseDocumentNonPreserving does and as parseDocument does at stenway/wsv.py:275-280 |
| Wsv.WsvDocument.Parse | stenway/wsv.py:566-570 | yields a new valid document of one line per line feed plus one, held in new, distinct line objects, or the chosen parser's error, which is a grammar error |
| Wsv.WsvDocument.ParseAsJaggedArray | stenway/wsv.py:579-580 | yields what parseDocumentAsJaggedArray reads: one row per line feed plus one, or a grammar error |

## Left out

- `WsvDocument.save` and `WsvDocument.load` (stenway/wsv.py:561-577): file I/O through ReliableTxt, which is not part of this model.
- The document's encoding, `setEncoding` and `getEncoding` (stenway/wsv.py:530-541): metadata for file I/O only.
- `StringUtil` conversions between strings and code points: text is a code-point sequence throughout.
- `ReliableTxtCharIterator` is not part of this model. Its primitives are modelled from their use in `WsvCharIterator`: `isEndOfText`, `isChar`, `tryReadChar` and `getLineInfo`.
- `__str__` of both classes: Python glue over `toString`.
- `getWhitespaces` and `getComment`: the fields are read directly.
- The `values == None` branches (stenway/wsv.py:362-365, 389-390, 474): the constructor replaces a missing list by `[]`, so the values are never None.
- `WsvDocument(lines)` with an initial list: documents start empty and grow by `AddLine`.
- Python lists are shared by reference. A line's values, its layout and the document's list of lines are values here, so aliasing between a caller's list and an object is not modelled.
- `WsvRoundTrip.LineRoundTrip`: stated for well-formed lines only. Other layouts (fewer slots than values, say) are written out but need not read back identically.
- `WsvRoundTrip.DocumentRoundTrip`: stated for non-empty documents. An empty document is written as empty text, which reads back as one empty line.
- `WsvRoundTrip.NonPreservingRoundTrip`: stated for non-empty documents, for the same reason as `DocumentRoundTrip`.
- `WsvRoundTrip.ParseDocumentRoundTrip`: reading a written document gives it back, but writing a read text need not give the text back. `WsvReproduce.ParsedDocumentReproduces` proves that it does when every token is written canonically, which includes every text without a double quote. `WsvReproduce.QuotedBareNotReproduced` shows the exception: `"a"#c` is written back as `a#c`.
- `WsvErrors.Render`: states the message prefix and closing parenthesis. The digits are covered by `WsvErrors.DecimalValue`, but the full format string is not restated.
- Validation errors are modelled as the two `ValidationError` kinds rather than as a generic exception with a message; `Message()` gives the source's texts.

## Findings

| source | as written | input that shows it | evidently intended | confidence | as-written member | corrected member |
|---|---|---|---|---|---|---|
| stenway/wsv.py:382 | `elif comment != None and len(line.Values) > 0` reads `line.Values`, which a WsvLine does not have. The branch therefore raises whenever the layout has no trailing slot and a comment is set. | `serializeLine` of a WsvLine with values `["a"]`, whitespaces `[None]` and comment `""` | `len(line.values) > 0`, as at line 401: one space before the comment when the line has values | not executed | WsvSerializer.AsWrittenRaises | WsvSerializer.BlankLayoutAgrees |

`WsvSerializer.ValuesWithWhitespaceAsWritten` models the code as written. The rest of the model uses the corrected `WsvSerializer.ValuesWithWhitespace`. `WsvLines.WellFormedAsWritten` shows that lines the parser produces never reach the raising branch, so every round trip holds for the original as well.
