/** Rows without outer pipes: when they are split back into their cells. */
module MarkdownBareRow {
  import opened MarkdownRow

  function Cells(s: string): seq<string> {
    StripAll(Split(s))
  }

  // ----- white space around a row -----

  /** The pieces with one more character before the first. */
  function Prefixed(c: char, pieces: seq<string>): (r: seq<string>)
    requires pieces != []
    ensures r != []
  {
    [[c] + pieces[0]] + pieces[1..]
  }

  lemma ExtendPrefixed(c: char, pieces: seq<string>, d: char, ends: bool)
    requires pieces != []
    ensures Extend(Prefixed(c, pieces), d, ends) == Prefixed(c, Extend(pieces, d, ends))
  {
    if |pieces| == 1 {
      assert [c] + (pieces[0] + [d]) == [c] + pieces[0] + [d];
    }
  }

  lemma {:induction false} SplitAfterSpace(c: char, s: string)
    requires c != '|' && c != '\\'
    ensures Split([c] + s) == Prefixed(c, Split(s))
    decreases |s|
  {
    if s == "" {
      SplitSnoc("", c);
      assert [c] + s == "" + [c];
    } else {
      var front, d := s[..|s| - 1], s[|s| - 1];
      SplitAfterSpace(c, front);
      SplitSnoc(front, d);
      SplitSnoc([c] + front, d);
      assert s == front + [d] && [c] + s == [c] + front + [d];
      ExtendPrefixed(c, Split(front), d, EndsCell(s));
    }
  }

  lemma {:induction false} StripAfterSpace(c: char, s: string)
    requires IsSpace(c)
    ensures StripLeft([c] + s) == StripLeft(s)
  {
    assert ([c] + s)[1..] == s;
  }

  /** A character at the end is stripped, or it stays at the end. */
  lemma {:induction false} StripLeftSnoc(s: string, c: char)
    ensures StripLeft(s + [c]) == if StripLeft(s) == "" && IsSpace(c) then "" else StripLeft(s) + [c]
  {
    if s == "" {
      assert s + [c] == [c] && [c][1..] == "";
    } else if IsSpace(s[0]) {
      StripLeftSnoc(s[1..], c);
      assert (s + [c])[1..] == s[1..] + [c];
    }
  }

  lemma StripBeforeSpace(s: string, c: char)
    requires IsSpace(c)
    ensures Strip(s + [c]) == Strip(s)
  {
    StripLeftSnoc(s, c);
    var l := StripLeft(s);
    assert (l + [c])[..|l|] == l;
  }

  lemma CellsAfterSpace(c: char, s: string)
    requires IsSpace(c)
    ensures Cells([c] + s) == Cells(s)
  {
    SplitAfterSpace(c, s);
    StripAfterSpace(c, Split(s)[0]);
  }

  lemma CellsBeforeSpace(s: string, c: char)
    requires IsSpace(c)
    ensures Cells(s + [c]) == Cells(s)
  {
    SplitSnoc(s, c);
    var r := Split(s);
    StripBeforeSpace(r[|r| - 1], c);
  }

  lemma {:induction false} CellsOfLeft(s: string)
    ensures Cells(StripLeft(s)) == Cells(s)
  {
    if s != "" && IsSpace(s[0]) {
      CellsOfLeft(s[1..]);
      CellsAfterSpace(s[0], s[1..]);
      assert s == [s[0]] + s[1..];
    }
  }

  lemma {:induction false} CellsOfRight(s: string)
    ensures Cells(StripRight(s)) == Cells(s)
  {
    if s != "" && IsSpace(s[|s| - 1]) {
      var front, c := s[..|s| - 1], s[|s| - 1];
      CellsOfRight(front);
      CellsBeforeSpace(front, c);
      assert s == front + [c];
    }
  }

  /** White space around a row does not change its cells. */
  lemma CellsOfStripped(s: string)
    ensures Cells(Strip(s)) == Cells(s)
  {
    CellsOfLeft(s);
    CellsOfRight(StripLeft(s));
  }

  // ----- a pipe at an end of a row -----

  lemma LeadingPipeCounts(s: string)
    requires s != "" && s[0] == '|'
    ensures |Split(DropLeading(s))| == |Split(s)| - 1
  {
    SplitAt("", s[1..]);
    assert s == "" + "|" + s[1..];
  }

  lemma DroppingAddsNone(s: string)
    ensures |Split(DropTrailing(s))| <= |Split(s)|
  {
    if s != "" && s[|s| - 1] == '|' {
      SplitSnoc(s[..|s| - 1], '|');
      assert s == s[..|s| - 1] + ['|'];
    }
  }

  /** A pipe at the end is dropped, and the cells are no longer the same. */
  lemma TrailingPipeMatters(s: string)
    requires s != "" && s[|s| - 1] == '|'
    ensures Cells(DropTrailing(s)) != Cells(s)
  {
    var front := s[..|s| - 1];
    SplitSnoc(front, '|');
    assert s == front + ['|'];
    if !EndsCell(s) {
      var r := Split(front);
      var last := r[|r| - 1];
      StripLeftSnoc(last, '|');
      assert Cells(front)[|r| - 1] == Strip(last) && Cells(s)[|r| - 1] == Strip(last + ['|']);
    }
  }

  /** Dropping the pipes at the ends of a stripped row keeps its cells if and only if there are none. */
  lemma EndsExactly(s: string)
    ensures Cells(DropTrailing(DropLeading(s))) == Cells(s) <==>
      s == "" || (s[0] != '|' && s[|s| - 1] != '|')
  {
    if s != "" && s[0] == '|' {
      LeadingPipeCounts(s);
      DroppingAddsNone(DropLeading(s));
    } else if s != "" && s[|s| - 1] == '|' {
      TrailingPipeMatters(s);
    }
  }

  // ----- the ends of a row -----

  /** The row after its first cell: nothing, or a pipe and the other cells. */
  function AfterFirst(cells: seq<string>): (r: string)
    requires cells != []
    ensures if |cells| == 1 then r == "" else r != "" && r[0] == '|'
  {
    var n := |cells| - 1;
    if n == 0 then "" else AfterFirst(cells[..n]) + "|" + Pad(cells[n])
  }

  lemma Regroup(a: string, b: string, c: string, d: string)
    ensures a + b + c + d == a + (b + c + d)
  {
  }

  lemma {:induction false} InnerStarts(cells: seq<string>)
    requires cells != []
    ensures Inner(cells) == Pad(cells[0]) + AfterFirst(cells)
  {
    var n := |cells| - 1;
    if n > 0 {
      InnerStarts(cells[..n]);
      Regroup(Pad(cells[0]), AfterFirst(cells[..n]), "|", Pad(cells[n]));
    }
  }

  lemma VisibleStart(cell: string)
    requires Whole(cell) && cell != ""
    ensures cell[0] != '|'
  {
  }

  lemma StartOfPadded(cell: string, rest: string)
    requires Trimmed(cell)
    ensures StripLeft(Pad(cell) + rest) == if cell == "" then StripLeft(rest) else cell + " " + rest
  {
    assert Pad(cell) + rest == [' '] + (cell + " " + rest);
    StripAfterSpace(' ', cell + " " + rest);
    if cell == "" {
      assert cell + " " + rest == [' '] + rest;
      StripAfterSpace(' ', rest);
    }
  }

  lemma StartOfParts(cell: string, rest: string)
    requires Plain(cell) && (rest == "" || rest[0] == '|')
    ensures var t := StripLeft(Pad(cell) + rest); t != "" && t[0] == '|' <==> cell == "" && rest != ""
  {
    StartOfPadded(cell, rest);
    if cell != "" {
      VisibleStart(cell);
      assert (cell + " " + rest)[0] == cell[0];
    } else {
      assert StripLeft(rest) == rest;
    }
  }

  /** The first visible character of a bare row of plain cells. */
  lemma StartOfRow(cells: seq<string>)
    requires cells != [] && Plain(cells[0])
    ensures var t := StripLeft(Inner(cells));
      t != "" && t[0] == '|' <==> |cells| > 1 && cells[0] == ""
  {
    InnerStarts(cells);
    StartOfParts(cells[0], AfterFirst(cells));
  }

  lemma EndOfPadded(before: string, cell: string)
    requires Trimmed(cell)
    ensures StripRight(before + Pad(cell)) == if cell == "" then StripRight(before) else before + [' '] + cell
  {
    var body := before + [' '] + cell;
    assert before + Pad(cell) == body + " ";
    StripRightSpace(body);
    if cell == "" {
      assert body == before + " ";
      StripRightSpace(before);
    }
  }

  /** The last visible character of a bare row of plain cells. */
  lemma EndOfRow(cells: seq<string>)
    requires cells != [] && Plain(cells[|cells| - 1])
    ensures var t, last := StripRight(Inner(cells)), cells[|cells| - 1];
      t != "" && t[|t| - 1] == '|' <==> if last == "" then |cells| > 1 else last[|last| - 1] == '|'
  {
    var before := if |cells| == 1 then "" else Inner(cells[..|cells| - 1]) + "|";
    assert Inner(cells) == before + Pad(cells[|cells| - 1]);
    EndOfPadded(before, cells[|cells| - 1]);
  }

  /** Stripping on the left does not touch the last visible character, nor the other way round. */
  lemma {:induction false} StripBoth(s: string)
    ensures Strip(s) == "" <==> StripLeft(s) == ""
    ensures Strip(s) == "" <==> StripRight(s) == ""
    ensures Strip(s) != "" ==> Strip(s)[0] == StripLeft(s)[0]
    ensures Strip(s) != "" ==> Strip(s)[|Strip(s)| - 1] == StripRight(s)[|StripRight(s)| - 1]
  {
    if s != "" {
      var l := StripLeft(s);
      if IsSpace(s[0]) {
        StripBoth(s[1..]);
        StripRightAfter(s[0], s[1..]);
        assert s == [s[0]] + s[1..];
      } else {
        StripRightVisible(s);
      }
    }
  }

  lemma {:induction false} StripRightAfter(c: char, s: string)
    requires IsSpace(c)
    ensures StripRight([c] + s) == if StripRight(s) == "" then "" else [c] + StripRight(s)
  {
    if s == "" {
      assert [c] + s == [c] && [c][..0] == "";
    } else if IsSpace(s[|s| - 1]) {
      StripRightAfter(c, s[..|s| - 1]);
      assert ([c] + s)[..|s|] == [c] + s[..|s| - 1];
    }
  }

  lemma {:induction false} StripRightVisible(s: string)
    requires s != "" && !IsSpace(s[0])
    ensures StripRight(s) != ""
  {
    if IsSpace(s[|s| - 1]) {
      StripRightVisible(s[..|s| - 1]);
    }
  }

  /** No pipe at either end of the row: no empty cell there, unless it is the only one, and no pipe ends the last. */
  ghost predicate ClearEnds(cells: seq<string>)
    requires cells != []
  {
    var last := cells[|cells| - 1];
    && (|cells| > 1 ==> cells[0] != "" && last != "")
    && (last != "" ==> last[|last| - 1] != '|')
  }

  lemma ClearEndsExactly(cells: seq<string>)
    requires cells != [] && Plain(cells[0]) && Plain(cells[|cells| - 1])
    ensures var t := Strip(Inner(cells));
      (t == "" || (t[0] != '|' && t[|t| - 1] != '|')) <==> ClearEnds(cells)
  {
    StartOfRow(cells);
    EndOfRow(cells);
    StripBoth(Inner(cells));
  }

  /**
   A row without outer pipes is split back into its cells if and only if every cell is plain, the first and the last
   are not empty unless there is just one, and the last does not end in a pipe, which would be dropped even if escaped.
   */
  lemma BareRowExactly(cells: seq<string>)
    requires cells != []
    ensures SplitRow(Inner(cells)) == cells <==>
      (forall i :: 0 <= i < |cells| ==> Plain(cells[i])) && ClearEnds(cells)
  {
    CellsArePlain(Inner(cells));
    if forall i :: 0 <= i < |cells| ==> Plain(cells[i]) {
      PlainBareRow(cells);
      BareRowAt(cells, Strip(Inner(cells)));
    }
  }

  lemma BareRowAt(cells: seq<string>, t: string)
    requires cells != [] && Plain(cells[0]) && Plain(cells[|cells| - 1])
    requires t == Strip(Inner(cells)) && Cells(t) == cells
    ensures SplitRow(Inner(cells)) == cells <==> ClearEnds(cells)
  {
    EndsExactly(t);
    ClearEndsExactly(cells);
  }

  /** The cells of a bare row of plain cells, before its ends are looked at. */
  lemma PlainBareRow(cells: seq<string>)
    requires cells != [] && forall i :: 0 <= i < |cells| ==> Plain(cells[i])
    ensures Cells(Strip(Inner(cells))) == cells
  {
    PiecesOfInner(cells);
    PadsStrip(cells);
    CellsOfStripped(Inner(cells));
  }
}
