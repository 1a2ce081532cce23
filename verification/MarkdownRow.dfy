/** The rows of the pipe tables cards are imported from: splitting at the pipes that are not escaped. */
module MarkdownRow {

  /** What str.strip removes: the ASCII separators and the Unicode spaces. */
  predicate IsSpace(c: char) {
    var n := c as int;
    || 9 <= n <= 13 || 28 <= n <= 32 || n == 0x85 || n == 0xA0 || n == 0x1680 || 0x2000 <= n <= 0x200A
    || n == 0x2028 || n == 0x2029 || n == 0x202F || n == 0x205F || n == 0x3000
  }

  predicate Trimmed(s: string) {
    s == "" || (!IsSpace(s[0]) && !IsSpace(s[|s| - 1]))
  }

  function StripLeft(s: string): (r: string)
    ensures r == "" || !IsSpace(r[0])
    ensures |r| <= |s|
  {
    if s != "" && IsSpace(s[0]) then StripLeft(s[1..]) else s
  }

  function StripRight(s: string): (r: string)
    ensures r == "" || !IsSpace(r[|r| - 1])
    ensures |r| <= |s| && (r != "" ==> r[0] == s[0])
  {
    if s != "" && IsSpace(s[|s| - 1]) then StripRight(s[..|s| - 1]) else s
  }

  function Strip(s: string): (r: string)
    ensures Trimmed(r)
  {
    StripRight(StripLeft(s))
  }

  /** A pipe right after a backslash does not end a cell. */
  predicate Escaped(s: string, i: nat)
    requires i < |s|
  {
    i > 0 && s[i - 1] == '\\'
  }

  /** No pipe of a cell would end it. */
  predicate Whole(cell: string) {
    forall i :: 0 <= i < |cell| && cell[i] == '|' ==> Escaped(cell, i)
  }

  /** The pieces with one more character: it ends the last piece or belongs to it. */
  function Extend(pieces: seq<string>, c: char, ends: bool): (r: seq<string>)
    requires pieces != []
    ensures r != []
  {
    var k := |pieces| - 1;
    if ends then pieces + [""] else pieces[..k] + [pieces[k] + [c]]
  }

  /** The last character of a string is a pipe that is not escaped. */
  predicate EndsCell(s: string)
    requires s != ""
  {
    s[|s| - 1] == '|' && !Escaped(s, |s| - 1)
  }

  /** The pieces between the pipes that are not escaped. */
  function Split(s: string): (r: seq<string>)
    ensures r != []
  {
    if s == "" then [""] else Extend(Split(s[..|s| - 1]), s[|s| - 1], EndsCell(s))
  }

  function DropLeading(s: string): string {
    if s != "" && s[0] == '|' then s[1..] else s
  }

  function DropTrailing(s: string): string {
    if s != "" && s[|s| - 1] == '|' then s[..|s| - 1] else s
  }

  function StripAll(cells: seq<string>): (r: seq<string>)
    ensures |r| == |cells| && forall i :: 0 <= i < |r| ==> r[i] == Strip(cells[i])
  {
    seq(|cells|, i requires 0 <= i < |cells| => Strip(cells[i]))
  }

  function SplitRow(line: string): seq<string> {
    StripAll(Split(DropTrailing(DropLeading(Strip(line)))))
  }

  // ----- rows and their cells -----

  function Pad(cell: string): string {
    " " + cell + " "
  }

  function Inner(cells: seq<string>): (r: string)
    ensures cells != [] ==> r != "" && r[|r| - 1] == ' '
  {
    if cells == [] then ""
    else
      var n := |cells| - 1;
      if n == 0 then Pad(cells[0]) else Inner(cells[..n]) + "|" + Pad(cells[n])
  }

  /** A row with its outer pipes. */
  function Row(cells: seq<string>): string {
    "|" + Inner(cells) + "|"
  }

  predicate Plain(cell: string) {
    Trimmed(cell) && Whole(cell)
  }

  lemma {:induction false} WholeIsOnePiece(s: string)
    requires Whole(s)
    ensures Split(s) == [s]
  {
    if s != "" {
      var front, c := s[..|s| - 1], s[|s| - 1];
      assert forall i :: 0 <= i < |front| ==> (Escaped(front, i) <==> Escaped(s, i));
      WholeIsOnePiece(front);
      assert s == front + [c];
    }
  }

  lemma ExtendAfter(x: seq<string>, y: seq<string>, c: char, ends: bool)
    requires y != []
    ensures Extend(x + y, c, ends) == x + Extend(y, c, ends)
  {
    assert (x + y)[..|x + y| - 1] == x + y[..|y| - 1];
  }

  lemma SplitSnoc(s: string, c: char)
    ensures Split(s + [c]) == Extend(Split(s), c, EndsCell(s + [c]))
  {
    assert (s + [c])[..|s|] == s;
  }

  lemma {:induction false} SplitAt(a: string, b: string)
    requires a == "" || a[|a| - 1] != '\\'
    ensures Split(a + "|" + b) == Split(a) + Split(b)
    decreases |b|
  {
    if b == "" {
      SplitSnoc(a, '|');
      assert a + "|" + b == a + ['|'];
    } else {
      var front, c := b[..|b| - 1], b[|b| - 1];
      SplitAt(a, front);
      SplitSnoc(a + "|" + front, c);
      SplitSnoc(front, c);
      assert b == front + [c] && a + "|" + b == a + "|" + front + [c];
      ExtendAfter(Split(a), Split(front), c, EndsCell(b));
    }
  }

  lemma StripKeeps(s: string)
    requires Trimmed(s)
    ensures Strip(s) == s
  {
  }

  lemma StripLeftSpace(s: string)
    ensures StripLeft(" " + s) == StripLeft(s)
  {
    assert (" " + s)[1..] == s;
  }

  lemma StripRightSpace(s: string)
    ensures StripRight(s + " ") == StripRight(s)
  {
    assert (s + " ")[..|s|] == s;
  }

  lemma StripPad(cell: string)
    requires Trimmed(cell)
    ensures Strip(Pad(cell)) == cell
  {
    assert Pad(cell) == " " + (cell + " ");
    StripLeftSpace(cell + " ");
    if cell == "" {
      StripLeftSpace("");
      assert cell + " " == " " + "";
    } else {
      StripRightSpace(cell);
    }
  }

  lemma PadIsWhole(cell: string)
    requires Whole(cell)
    ensures Whole(Pad(cell))
  {
    var s := Pad(cell);
    forall i | 0 <= i < |s| && s[i] == '|'
      ensures Escaped(s, i)
    {
      assert cell[i - 1] == '|' && Escaped(cell, i - 1);
    }
  }

  function Pads(cells: seq<string>): (r: seq<string>)
    ensures |r| == |cells| && forall i :: 0 <= i < |r| ==> r[i] == Pad(cells[i])
  {
    seq(|cells|, i requires 0 <= i < |cells| => Pad(cells[i]))
  }

  /** The pieces of a row of whole cells are its cells with their padding. */
  lemma {:induction false} PiecesOfInner(cells: seq<string>)
    requires cells != [] && forall i :: 0 <= i < |cells| ==> Whole(cells[i])
    ensures Split(Inner(cells)) == Pads(cells)
  {
    var front, last := cells[..|cells| - 1], cells[|cells| - 1];
    PadIsWhole(last);
    WholeIsOnePiece(Pad(last));
    assert Pads(cells) == Pads(front) + [Pad(last)];
    if front != [] {
      PiecesOfInner(front);
      SplitAt(Inner(front), Pad(last));
    }
  }

  /** The last piece is the end of the string, after its last unescaped pipe. */
  lemma {:induction false} LastPiece(s: string)
    ensures var last := Split(s)[|Split(s)| - 1];
      |last| <= |s| && last == s[|s| - |last|..] && (s != "" && !EndsCell(s) ==> last != "")
  {
    if s != "" {
      LastPiece(s[..|s| - 1]);
    }
  }

  lemma WholeSnoc(cell: string, c: char)
    requires Whole(cell) && (c == '|' ==> cell != "" && cell[|cell| - 1] == '\\')
    ensures Whole(cell + [c])
  {
    forall i | 0 <= i < |cell + [c]| && (cell + [c])[i] == '|'
      ensures Escaped(cell + [c], i)
    {
      if i < |cell| {
        assert Escaped(cell, i);
      }
    }
  }

  lemma {:induction false} PiecesAreWhole(s: string)
    ensures forall c :: c in Split(s) ==> Whole(c)
  {
    if s != "" {
      var front, c := s[..|s| - 1], s[|s| - 1];
      PiecesAreWhole(front);
      LastPiece(front);
      var last := Split(front)[|Split(front)| - 1];
      assert last in Split(front);
      if !EndsCell(s) {
        WholeSnoc(last, c);
      }
    }
  }

  lemma {:induction false} StripLeftWhole(s: string)
    requires Whole(s)
    ensures Whole(StripLeft(s))
  {
    if s != "" && IsSpace(s[0]) {
      forall i | 0 <= i < |s[1..]| && s[1..][i] == '|'
        ensures Escaped(s[1..], i)
      {
        assert s[i + 1] == '|' && Escaped(s, i + 1);
      }
      StripLeftWhole(s[1..]);
    }
  }

  lemma {:induction false} StripRightWhole(s: string)
    requires Whole(s)
    ensures Whole(StripRight(s))
  {
    if s != "" && IsSpace(s[|s| - 1]) {
      WholeFront(s);
      StripRightWhole(s[..|s| - 1]);
    }
  }

  /** Every cell of every row is trimmed and has no pipe that would end it. */
  lemma CellsArePlain(line: string)
    ensures SplitRow(line) != [] && forall i :: 0 <= i < |SplitRow(line)| ==> Plain(SplitRow(line)[i])
  {
    var pieces := Split(DropTrailing(DropLeading(Strip(line))));
    PiecesAreWhole(DropTrailing(DropLeading(Strip(line))));
    forall i | 0 <= i < |pieces|
      ensures Plain(Strip(pieces[i]))
    {
      StripLeftWhole(pieces[i]);
      StripRightWhole(StripLeft(pieces[i]));
    }
  }

  lemma OuterPipesGo(s: string)
    ensures DropTrailing(DropLeading(Strip("|" + s + "|"))) == s
  {
    var row := "|" + s + "|";
    StripKeeps(row);
    assert row[1..] == s + "|";
    assert (s + "|")[..|s|] == s;
  }

  lemma PadsStrip(cells: seq<string>)
    requires forall i :: 0 <= i < |cells| ==> Trimmed(cells[i])
    ensures StripAll(Pads(cells)) == cells
  {
    forall i | 0 <= i < |cells|
      ensures Strip(Pads(cells)[i]) == cells[i]
    {
      StripPad(cells[i]);
    }
  }

  lemma PlainRowReads(cells: seq<string>)
    requires cells != [] && forall i :: 0 <= i < |cells| ==> Plain(cells[i])
    ensures SplitRow(Row(cells)) == cells
  {
    OuterPipesGo(Inner(cells));
    PiecesOfInner(cells);
    PadsStrip(cells);
  }

  /** A row written with its outer pipes is split back into its cells if and only if every cell is plain. */
  lemma RowRoundTrip(cells: seq<string>)
    requires cells != []
    ensures SplitRow(Row(cells)) == cells <==> forall i :: 0 <= i < |cells| ==> Plain(cells[i])
  {
    CellsArePlain(Row(cells));
    if forall i :: 0 <= i < |cells| ==> Plain(cells[i]) {
      PlainRowReads(cells);
    }
  }

  /** Whatever line a row was read from, writing its cells as a row and reading them again changes nothing. */
  lemma ReadWriteRead(line: string)
    ensures SplitRow(Row(SplitRow(line))) == SplitRow(line)
  {
    CellsArePlain(line);
    RowRoundTrip(SplitRow(line));
  }

  lemma WholeStart(cell: string)
    requires Whole(cell)
    ensures DropLeading(cell) == cell
  {
    if cell != "" {
      assert !Escaped(cell, 0);
    }
  }

  lemma WholeFront(cell: string)
    requires Whole(cell) && cell != ""
    ensures Whole(cell[..|cell| - 1])
  {
    var cut := cell[..|cell| - 1];
    forall i | 0 <= i < |cut| && cut[i] == '|'
      ensures Escaped(cut, i)
    {
      assert Escaped(cell, i);
    }
  }

  /** What a plain cell reads as when it is alone in a row without outer pipes. */
  lemma BareCellReads(cell: string)
    requires Plain(cell)
    ensures SplitRow(cell) == [Strip(DropTrailing(cell))]
  {
    StripKeeps(cell);
    WholeStart(cell);
    if cell != "" {
      WholeFront(cell);
    }
    WholeIsOnePiece(DropTrailing(cell));
  }

  lemma StripShortens(s: string)
    ensures |Strip(s)| <= |s|
  {
  }

  /**
   Without outer pipes a cell alone in its row comes back if and only if it is plain and does not end in a pipe:
   the pipe at the end of a row is dropped even when it is escaped.
   */
  lemma BareCellExactly(cell: string)
    ensures SplitRow(cell) == [cell] <==> Plain(cell) && (cell == "" || cell[|cell| - 1] != '|')
  {
    CellsArePlain(cell);
    assert Plain(SplitRow(cell)[0]);
    if Plain(cell) {
      BareCellReads(cell);
      StripKeeps(cell);
      StripShortens(DropTrailing(cell));
    }
  }
}
