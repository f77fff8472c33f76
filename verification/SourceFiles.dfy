/** Byte offsets and line/column positions: src/analyzer/source_location.cpp. */
module SourceFiles {

  datatype LinePos = LinePos(line: nat, column: nat) {
    /** The defaulted comparison: by line, then by column. */
    predicate Less(other: LinePos) {
      line < other.line || (line == other.line && column < other.column)
    }

    predicate AtMost(other: LinePos) {
      this == other || Less(other)
    }
  }

  datatype SourceLocation = SourceLocation(fileName: string, offset: nat, line: nat, column: nat) {
    function Pos(): LinePos {
      LinePos(line, column)
    }
  }

  /** Number of newline bytes in a text. */
  function NewlineCount(text: string): nat {
    if text == "" then 0
    else NewlineCount(text[..|text| - 1]) + if text[|text| - 1] == '\n' then 1 else 0
  }

  /** Where the line that ends a text begins: just after its last newline byte. */
  function LineStart(text: string): (start: nat)
    ensures start <= |text|
  {
    if text == "" then 0
    else if text[|text| - 1] == '\n' then |text|
    else LineStart(text[..|text| - 1])
  }

  /** The position of an offset, read off the text before it. */
  function PositionOf(contents: string, offset: nat): LinePos
    requires offset <= |contents|
  {
    LinePos(NewlineCount(contents[..offset]), offset - LineStart(contents[..offset]))
  }

  /** The offsets before one at which a newline byte stands. */
  ghost function NewlinesBefore(contents: string, offset: nat): set<int>
    requires offset <= |contents|
  {
    set i | 0 <= i < offset && contents[i] == '\n'
  }

  /** A line is as many newlines as stand before the offset, counted from 0, and a column the distance from just
      after the last of them, or from the beginning. */
  ghost predicate IsPosition(contents: string, offset: nat, pos: LinePos)
    requires offset <= |contents|
  {
    && pos.line == |NewlinesBefore(contents, offset)|
    && pos.column <= offset
    && (pos.column < offset ==> contents[offset - pos.column - 1] == '\n')
    && forall i :: offset - pos.column <= i < offset ==> contents[i] != '\n'
  }

  /** Offsets of the newline bytes of a text, in order. */
  function NewlineOffsets(text: string): seq<nat> {
    if text == "" then []
    else NewlineOffsets(text[..|text| - 1]) + if text[|text| - 1] == '\n' then [|text| - 1] else []
  }

  class SourceFile {
    const fileName: string
    const contents: string
    var newlines: seq<nat>

    ghost predicate Valid()
      reads this
    {
      newlines == NewlineOffsets(contents) + [|contents|]
    }

    /** `make_source_file`. */
    constructor (fileName: string, contents: string)
      ensures Valid() && this.fileName == fileName && this.contents == contents
    {
      this.fileName := fileName;
      this.contents := contents;
      newlines := [];
      new;
      ParseNewLines();
    }

    /** The scan runs one past the end, where a C++ string holds a zero byte and never a newline. */
    method ParseNewLines()
      requires newlines == []
      modifies this
      ensures Valid()
    {
      var i := 0;
      while i < |contents|
        invariant i <= |contents|
        invariant newlines == NewlineOffsets(contents[..i])
      {
        assert contents[..i + 1][..i] == contents[..i];
        if contents[i] == '\n' {
          newlines := newlines + [i];
        }
        i := i + 1;
      }
      assert contents[..|contents|] == contents;
      newlines := newlines + [|contents|];
    }

    method OffsetToLineByte(offset: nat) returns (pos: LinePos)
      requires Valid() && offset <= |contents|
      ensures pos == PositionOf(contents, offset) && IsPosition(contents, offset, pos)
    {
      PositionIsCounted(contents, offset);
      ghost var offsets := NewlineOffsets(contents);
      var i := 0;
      while newlines[i] < offset
        invariant i < |newlines|
        invariant forall j :: 0 <= j < i ==> newlines[j] < offset
        decreases |newlines| - i
      {
        i := i + 1;
      }
      assert forall j :: 0 <= j < |offsets| ==> newlines[j] == offsets[j];
      NewlineOffsetsBefore(contents, offset, i);
      var startOfLine := if i == 0 then 0 else newlines[i - 1] + 1;
      pos := LinePos(i, offset - startOfLine);
    }

    /** `make_source_location`. */
    method MakeSourceLocation(offset: nat) returns (location: SourceLocation)
      requires Valid() && offset <= |contents|
      ensures location.fileName == fileName && location.offset == offset
      ensures location.Pos() == PositionOf(contents, offset) && IsPosition(contents, offset, location.Pos())
    {
      var pos := OffsetToLineByte(offset);
      location := SourceLocation(fileName, offset, pos.line, pos.column);
    }
  }

  /** The position of an offset counts the newlines before it and the bytes after the last of them. */
  lemma {:induction false} PositionIsCounted(contents: string, offset: nat)
    requires offset <= |contents|
    ensures IsPosition(contents, offset, PositionOf(contents, offset))
  {
    if offset > 0 {
      var k := offset - 1;
      PositionIsCounted(contents, k);
      assert contents[..offset][..k] == contents[..k];
      if contents[k] == '\n' {
        assert NewlinesBefore(contents, offset) == NewlinesBefore(contents, k) + {k};
      } else {
        assert NewlinesBefore(contents, offset) == NewlinesBefore(contents, k);
      }
    }
  }

  /** From each byte to the next: a newline begins the next line, any other byte the next column. */
  lemma PositionsAdvance(contents: string, offset: nat)
    requires offset < |contents|
    ensures PositionOf(contents, 0) == LinePos(0, 0)
    ensures var pos := PositionOf(contents, offset);
            PositionOf(contents, offset + 1) ==
            if contents[offset] == '\n' then LinePos(pos.line + 1, 0) else LinePos(pos.line, pos.column + 1)
  {
    assert contents[..offset + 1][..offset] == contents[..offset];
  }

  lemma {:induction false} NewlineOffsetsIncrease(text: string)
    ensures forall j :: 0 <= j < |NewlineOffsets(text)| ==> NewlineOffsets(text)[j] < |text|
    ensures forall j, k :: 0 <= j < k < |NewlineOffsets(text)| ==> NewlineOffsets(text)[j] < NewlineOffsets(text)[k]
    ensures |NewlineOffsets(text)| == NewlineCount(text)
    ensures LineStart(text) == if NewlineCount(text) == 0 then 0 else NewlineOffsets(text)[NewlineCount(text) - 1] + 1
  {
    if text != "" {
      NewlineOffsetsIncrease(text[..|text| - 1]);
    }
  }

  lemma {:induction false} NewlineOffsetsOfPrefix(text: string, n: nat)
    requires n <= |text|
    ensures NewlineOffsets(text[..n]) <= NewlineOffsets(text)
    ensures forall j :: |NewlineOffsets(text[..n])| <= j < |NewlineOffsets(text)| ==> NewlineOffsets(text)[j] >= n
  {
    if n < |text| {
      var init := text[..|text| - 1];
      assert init[..n] == text[..n];
      NewlineOffsetsOfPrefix(init, n);
    } else {
      assert text[..n] == text;
    }
  }

  /** The number of leading newline offsets below `offset` is the line, and the last of them ends the line before. */
  lemma NewlineOffsetsBefore(contents: string, offset: nat, line: nat)
    requires offset <= |contents| && line <= |NewlineOffsets(contents)|
    requires forall j :: 0 <= j < line ==> NewlineOffsets(contents)[j] < offset
    requires line < |NewlineOffsets(contents)| ==> NewlineOffsets(contents)[line] >= offset
    ensures line == NewlineCount(contents[..offset])
    ensures LineStart(contents[..offset]) == if line == 0 then 0 else NewlineOffsets(contents)[line - 1] + 1
  {
    NewlineOffsetsIncrease(contents[..offset]);
    NewlineOffsetsOfPrefix(contents, offset);
    var offsets, before := NewlineOffsets(contents), NewlineOffsets(contents[..offset]);
    var j := if line < |before| then line else |before|;
    if j < |offsets| {
      assert offsets[j] < offset <==> j < line;
      assert offsets[j] < offset <==> j < |before|;
    }
  }

  // ------------------------------------------------------------------
  // Offsets and positions are in order-preserving bijection
  // ------------------------------------------------------------------

  lemma {:induction false} LineStartIsFirst(text: string, k: nat)
    requires LineStart(text) <= k <= |text|
    ensures NewlineCount(text[..k]) == NewlineCount(text) && LineStart(text[..k]) == LineStart(text)
  {
    if k < |text| {
      var init := text[..|text| - 1];
      assert init[..k] == text[..k];
      LineStartIsFirst(init, k);
    } else {
      assert text[..k] == text;
    }
  }

  /** A text cut before its last line has fewer newlines. */
  lemma {:induction false} FewerNewlinesBefore(text: string, k: nat)
    requires k < LineStart(text)
    ensures NewlineCount(text[..k]) < NewlineCount(text)
  {
    var init := text[..|text| - 1];
    assert init[..k] == text[..k];
    if k < LineStart(init) {
      FewerNewlinesBefore(init, k);
    } else {
      LineStartIsFirst(init, k);
    }
  }

  /** The start of an offset's line, plus its column, gives the offset back; that start is itself a
      position in column 0 of the same line. */
  lemma LineStartPlusColumn(contents: string, offset: nat)
    requires offset <= |contents|
    ensures var start := LineStart(contents[..offset]);
            && start + PositionOf(contents, offset).column == offset
            && PositionOf(contents, start) == LinePos(PositionOf(contents, offset).line, 0)
  {
    var start := LineStart(contents[..offset]);
    LineStartIsFirst(contents[..offset], start);
    assert contents[..offset][..start] == contents[..start];
  }

  /** Offset order is position order. */
  lemma PositionOrder(contents: string, a: nat, b: nat)
    requires a <= |contents| && b <= |contents|
    ensures a < b <==> PositionOf(contents, a).Less(PositionOf(contents, b))
    ensures a == b <==> PositionOf(contents, a) == PositionOf(contents, b)
  {
    if a < b {
      PositionIncreases(contents, a, b);
    } else if b < a {
      PositionIncreases(contents, b, a);
    }
  }

  lemma PositionIncreases(contents: string, a: nat, b: nat)
    requires a < b <= |contents|
    ensures PositionOf(contents, a).Less(PositionOf(contents, b))
  {
    var text := contents[..b];
    assert text[..a] == contents[..a];
    if a < LineStart(text) {
      FewerNewlinesBefore(text, a);
    } else {
      LineStartIsFirst(text, a);
    }
  }
}
