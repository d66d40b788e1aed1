/** The line table of an Eclipse text document, as far as the folding code
    consults it: the number of lines, the total length, the line that holds an
    offset, and the offset and length of a line. A line's length counts its
    line delimiter, as IDocument.getLineLength does. */
module LineTable {

  import opened Wrappers

  /** The lengths of the document's lines, delimiters included. A document always
      has at least one line: the empty document is one empty line, and text that
      ends with a delimiter is followed by an empty last line. */
  type LineLengths = s: seq<nat> | |s| >= 1 witness [0]

  datatype Document = Document(lineLengths: LineLengths)

  function Sum(s: seq<nat>): nat
  {
    if s == [] then 0 else s[0] + Sum(s[1..])
  }

  /** IDocument.getNumberOfLines */
  function NumberOfLines(d: Document): (n: nat)
    ensures n >= 1
  {
    |d.lineLengths|
  }

  /** IDocument.getLength: the document ends where its last line ends. */
  function Length(d: Document): (len: nat)
    ensures len == LineOffset(d, NumberOfLines(d) - 1) + LineLength(d, NumberOfLines(d) - 1)
  {
    var s := d.lineLengths;
    PrefixSumStep(s, |s| - 1);
    assert s[..|s|] == s;
    Sum(s)
  }

  /** IDocument.getLineOffset: the offset of the first character of `line`. */
  function LineOffset(d: Document, line: nat): (offset: nat)
    requires line < NumberOfLines(d)
    ensures line == 0 ==> offset == 0
  {
    Sum(d.lineLengths[..line])
  }

  /** IDocument.getLineLength: the length of `line`, its delimiter included.
      Lines are contiguous: each one runs up to the start of the next. */
  function LineLength(d: Document, line: nat): (len: nat)
    requires line < NumberOfLines(d)
    ensures line + 1 < NumberOfLines(d) ==> LineOffset(d, line) + len == LineOffset(d, line + 1)
  {
    if line + 1 < NumberOfLines(d) then PrefixSumStep(d.lineLengths, line); d.lineLengths[line]
    else d.lineLengths[line]
  }

  /** The offset just past `line` and its delimiter. */
  function LineEnd(d: Document, line: nat): nat
    requires line < NumberOfLines(d)
  {
    LineOffset(d, line) + LineLength(d, line)
  }

  /** The line that holds `offset` among the lines `s`, counting from the first;
      an offset past every line belongs to the last one. */
  function LineIn(s: seq<nat>, offset: nat): (line: nat)
    requires |s| >= 1
    ensures line < |s|
  {
    if |s| == 1 || offset < s[0] then 0 else 1 + LineIn(s[1..], offset - s[0])
  }

  /** IDocument.getLineOfOffset: `None` stands for the BadLocationException it
      throws for an offset outside [0, getLength()]. The offset getLength() itself
      lies on the last line. */
  function LineOfOffset(d: Document, offset: int): (r: Option<nat>)
    ensures r.None? <==> offset < 0 || offset > Length(d)
    ensures r.Some? ==> r.value < NumberOfLines(d)
  {
    if offset < 0 || offset > Length(d) then None else Some(LineIn(d.lineLengths, offset))
  }

  lemma {:induction false} SumAppend(a: seq<nat>, b: seq<nat>)
    ensures Sum(a + b) == Sum(a) + Sum(b)
  {
    if a == [] {
      assert a + b == b;
    } else {
      assert (a + b)[1..] == a[1..] + b;
      SumAppend(a[1..], b);
    }
  }

  /** The lines before `line`, then `line` itself: the prefix sums grow by the line's length. */
  lemma PrefixSumStep(s: seq<nat>, line: nat)
    requires line < |s|
    ensures Sum(s[..line + 1]) == Sum(s[..line]) + s[line]
  {
    assert s[..line + 1] == s[..line] + [s[line]];
    SumAppend(s[..line], [s[line]]);
    assert [s[line]][1..] == [];
  }

  /** A line ends no later than any later line starts, and no later than the document ends. */
  lemma LineEndBefore(d: Document, line: nat, later: nat)
    requires line < later <= NumberOfLines(d)
    ensures LineEnd(d, line) <= (if later == NumberOfLines(d) then Length(d) else LineOffset(d, later))
  {
    var s := d.lineLengths;
    PrefixSumStep(s, line);
    assert s[..later] == s[..line + 1] + s[line + 1..later];
    SumAppend(s[..line + 1], s[line + 1..later]);
    assert s[..|s|] == s;
  }

  lemma LineEndWithinDocument(d: Document, line: nat)
    requires line < NumberOfLines(d)
    ensures LineEnd(d, line) <= Length(d)
  {
    LineEndBefore(d, line, NumberOfLines(d));
  }

  lemma {:induction false} LineInBounds(s: seq<nat>, offset: nat)
    requires |s| >= 1 && offset <= Sum(s)
    ensures Sum(s[..LineIn(s, offset)]) <= offset <= Sum(s[..LineIn(s, offset)]) + s[LineIn(s, offset)]
    ensures LineIn(s, offset) < |s| - 1 ==> offset < Sum(s[..LineIn(s, offset)]) + s[LineIn(s, offset)]
  {
    if |s| == 1 {
      assert s[1..] == [];
    } else if offset < s[0] {
    } else {
      var k := LineIn(s[1..], offset - s[0]);
      LineInBounds(s[1..], offset - s[0]);
      assert s[..k + 1][1..] == s[1..][..k];
      assert s[..k + 1][0] == s[0];
    }
  }

  /** The line LineOfOffset gives for an offset inside the document starts at or
      before the offset and ends at or after it; it ends strictly after it unless
      it is the last line. */
  lemma LineOfOffsetHolds(d: Document, offset: int)
    requires 0 <= offset <= Length(d)
    ensures LineOffset(d, LineOfOffset(d, offset).value) <= offset <= LineEnd(d, LineOfOffset(d, offset).value)
    ensures LineOfOffset(d, offset).value < NumberOfLines(d) - 1 ==> offset < LineEnd(d, LineOfOffset(d, offset).value)
  {
    LineInBounds(d.lineLengths, offset);
  }

  /** The converse: a line whose span [offset of the line, end of the line) holds
      `offset` is the line LineOfOffset gives, so the spans of the lines partition
      the document. */
  lemma LineOfOffsetUnique(d: Document, offset: int, line: nat)
    requires line < NumberOfLines(d)
    requires LineOffset(d, line) <= offset < LineEnd(d, line)
    ensures LineOfOffset(d, offset) == Some(line)
  {
    LineEndWithinDocument(d, line);
    LineOfOffsetHolds(d, offset);
    var k := LineOfOffset(d, offset).value;
    if k < line {
      LineEndBefore(d, k, line);
    } else if k > line {
      LineEndBefore(d, line, k);
    }
  }

  /** Offsets in order lie on lines in order. */
  lemma LineOfOffsetMonotone(d: Document, a: int, b: int)
    requires 0 <= a <= b <= Length(d)
    ensures LineOfOffset(d, a).value <= LineOfOffset(d, b).value
  {
    var la, lb := LineOfOffset(d, a).value, LineOfOffset(d, b).value;
    LineOfOffsetHolds(d, a);
    LineOfOffsetHolds(d, b);
    if lb < la {
      LineEndBefore(d, lb, la);
    }
  }

}
