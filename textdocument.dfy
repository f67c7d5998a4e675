/** The plain-text content of a `QTextEdit`, as its sequence of text blocks
    (lines), and the two cursor edits the bridge makes at the end of it:
    inserting text, and replacing the line under the cursor. Soft line
    wrapping is not modelled: a line is a whole block. */
module TextDocument {
  import opened Text

  /** A document has at least one block and no block holds a newline. */
  predicate WellFormed(blocks: seq<string>) {
    |blocks| >= 1 && forall i :: 0 <= i < |blocks| ==> '\n' !in blocks[i]
  }

  function LastLine(blocks: seq<string>): string
    requires |blocks| >= 1
  {
    blocks[|blocks| - 1]
  }

  /** `cursor.insertText(t)` with the cursor at the end: the first line of `t`
      extends the last block, every further line of `t` starts a new block. */
  function Insert(blocks: seq<string>, t: string): (r: seq<string>)
    requires WellFormed(blocks)
    ensures WellFormed(r)
  {
    var pieces := SplitNewline(t);
    blocks[..|blocks| - 1] + [LastLine(blocks) + pieces[0]] + pieces[1..]
  }

  /** Every newline of `t` adds one block. */
  lemma InsertLength(blocks: seq<string>, t: string)
    requires WellFormed(blocks)
    ensures |Insert(blocks, t)| == |blocks| + multiset(t)['\n']
  {
    SplitNewlineCount(t);
  }

  /** With the cursor at the end: `select(LineUnderCursor)`, `removeSelectedText()`,
      then `insertText(t)`. The last block is emptied and `t` is inserted there. */
  function ReplaceLast(blocks: seq<string>, t: string): (r: seq<string>)
    requires WellFormed(blocks)
    ensures WellFormed(r)
  {
    blocks[..|blocks| - 1] + SplitNewline(t)
  }

  /** Replacing the last line is emptying it and then inserting. */
  lemma ReplaceLastIsInsert(blocks: seq<string>, t: string)
    requires WellFormed(blocks)
    ensures WellFormed(blocks[..|blocks| - 1] + [""])
    ensures ReplaceLast(blocks, t) == Insert(blocks[..|blocks| - 1] + [""], t)
  {
    var init := blocks[..|blocks| - 1];
    var emptied := init + [""];
    forall i | 0 <= i < |emptied| ensures '\n' !in emptied[i] {
      if i < |init| { assert emptied[i] == blocks[i]; }
    }
    assert emptied[..|emptied| - 1] == init;
    assert LastLine(emptied) == "";
    var pieces := SplitNewline(t);
    assert "" + pieces[0] == pieces[0];
    assert pieces == [pieces[0]] + pieces[1..];
    assert Insert(emptied, t) == init + [pieces[0]] + pieces[1..];
  }

  lemma {:induction false} JoinConcat(xs: seq<string>, ys: seq<string>)
    requires |xs| >= 1 && |ys| >= 1
    ensures JoinNewline(xs + ys) == JoinNewline(xs) + "\n" + JoinNewline(ys)
  {
    if |xs| == 1 {
      assert (xs + ys)[1..] == ys;
    } else {
      assert (xs + ys)[1..] == xs[1..] + ys;
      JoinConcat(xs[1..], ys);
    }
  }

  lemma JoinExtendFirst(x: string, y: string, rest: seq<string>)
    ensures JoinNewline([x + y] + rest) == x + JoinNewline([y] + rest)
  {
    if rest != [] {
      assert ([x + y] + rest)[1..] == rest;
      assert ([y] + rest)[1..] == rest;
    }
  }

  lemma JoinAppendTail(init: seq<string>, tail: seq<string>, last: string, rest: string)
    requires |tail| >= 1 && JoinNewline(tail) == last + rest
    ensures JoinNewline(init + tail) == JoinNewline(init + [last]) + rest
  {
    if init == [] {
      assert init + tail == tail;
      assert init + [last] == [last];
    } else {
      JoinConcat(init, tail);
      JoinConcat(init, [last]);
    }
  }

  lemma JoinAfterLast(init: seq<string>, last: string, pieces: seq<string>)
    requires |pieces| >= 1
    ensures JoinNewline(init + ([last + pieces[0]] + pieces[1..])) == JoinNewline(init + [last]) + JoinNewline(pieces)
  {
    JoinExtendFirst(last, pieces[0], pieces[1..]);
    assert [pieces[0]] + pieces[1..] == pieces;
    JoinAppendTail(init, [last + pieces[0]] + pieces[1..], last, JoinNewline(pieces));
  }

  /** Inserting at the end appends the text to the document's plain text. */
  lemma InsertAppendsText(blocks: seq<string>, t: string)
    requires WellFormed(blocks)
    ensures JoinNewline(Insert(blocks, t)) == JoinNewline(blocks) + t
  {
    var pieces := SplitNewline(t);
    var init := blocks[..|blocks| - 1];
    JoinSplit(t);
    JoinAfterLast(init, LastLine(blocks), pieces);
    assert Insert(blocks, t) == init + ([LastLine(blocks) + pieces[0]] + pieces[1..]);
    assert init + [LastLine(blocks)] == blocks;
  }

  /** Replacing the last line keeps the text up to the last newline and puts `t` after it. */
  lemma ReplaceLastText(blocks: seq<string>, t: string)
    requires WellFormed(blocks)
    ensures JoinNewline(ReplaceLast(blocks, t)) == JoinNewline(blocks[..|blocks| - 1] + [""]) + t
  {
    ReplaceLastIsInsert(blocks, t);
    InsertAppendsText(blocks[..|blocks| - 1] + [""], t);
  }

  /** Inserting a newline followed by a newline-free `t` adds `t` as a new last line. */
  lemma InsertLine(blocks: seq<string>, t: string)
    requires WellFormed(blocks) && '\n' !in t
    ensures Insert(blocks, "\n" + t) == blocks + [t]
  {
    assert ("\n" + t)[0] == '\n';
    assert ("\n" + t)[1..] == t;
    SplitNoNewline(t);
    var pieces := SplitNewline("\n" + t);
    assert pieces == [""] + [t];
    assert pieces[1..] == [t];
    assert LastLine(blocks) + pieces[0] == LastLine(blocks);
    assert blocks[..|blocks| - 1] + [LastLine(blocks)] == blocks;
  }

  /** Replacing the last line with a newline-free `t` keeps the number of lines. */
  lemma ReplaceLine(blocks: seq<string>, t: string)
    requires WellFormed(blocks) && '\n' !in t
    ensures ReplaceLast(blocks, t) == blocks[..|blocks| - 1] + [t]
    ensures |ReplaceLast(blocks, t)| == |blocks|
  {
    SplitNoNewline(t);
  }

  /** A `QTextEdit` holding plain text. */
  class TextEdit {
    var blocks: seq<string>

    ghost predicate Valid()
      reads this
    {
      WellFormed(blocks)
    }

    /** A new, empty widget: one empty block. */
    constructor ()
      ensures Valid() && blocks == [""]
    {
      blocks := [""];
    }

    /** `toPlainText()`: the blocks joined by newlines. */
    function PlainText(): string
      reads this
    {
      JoinNewline(blocks)
    }

    /** `setText(t)` with plain text `t`. */
    method SetText(t: string)
      modifies this
      ensures Valid() && blocks == SplitNewline(t)
      ensures PlainText() == t
    {
      blocks := SplitNewline(t);
      JoinSplit(t);
    }

    /** The text of the last block, which `select(LineUnderCursor)` selects at the end. */
    method LastBlock() returns (line: string)
      requires Valid()
      ensures line == LastLine(blocks)
    {
      line := blocks[|blocks| - 1];
    }

    /** `insertText(t)` at the end. */
    method InsertText(t: string)
      requires Valid()
      modifies this
      ensures Valid() && blocks == Insert(old(blocks), t)
      ensures PlainText() == old(PlainText()) + t
    {
      InsertAppendsText(blocks, t);
      blocks := Insert(blocks, t);
    }

    /** With the cursor at the end: `select(LineUnderCursor)` and `removeSelectedText()`. */
    method RemoveLastLine()
      requires Valid()
      modifies this
      ensures Valid() && blocks == old(blocks[..|blocks| - 1]) + [""]
    {
      blocks := blocks[..|blocks| - 1] + [""];
      assert forall i :: 0 <= i < |blocks| - 1 ==> blocks[i] == old(blocks[i]);
    }

    /** Replace the line under the cursor at the end by `t`. */
    method ReplaceLastLine(t: string)
      requires Valid()
      modifies this
      ensures Valid() && blocks == ReplaceLast(old(blocks), t)
    {
      blocks := ReplaceLast(blocks, t);
    }
  }
}
