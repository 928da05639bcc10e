/** split_row of tools/check_parity.py and the table-row rendering it undoes. */
module TableRow {
  import Text

  const NUL: char := 0 as char

  /** line.replace("\\|", PIPE) */
  function ReplaceEscapes(s: string): string {
    if |s| < 2 then s
    else if s[0] == '\\' && s[1] == '|' then [NUL] + ReplaceEscapes(s[2..])
    else [s[0]] + ReplaceEscapes(s[1..])
  }

  /** s.strip("|") */
  function LStripPipes(s: string): string {
    if s != "" && s[0] == '|' then LStripPipes(s[1..]) else s
  }

  function RStripPipes(s: string): string {
    if s != "" && s[|s| - 1] == '|' then RStripPipes(s[..|s| - 1]) else s
  }

  /** c.replace(PIPE, "|") */
  function Unmark(s: string): string {
    if s == "" then "" else [if s[0] == NUL then '|' else s[0]] + Unmark(s[1..])
  }

  function Cell(piece: string): string {
    Text.Strip(Unmark(piece))
  }

  function Cells(pieces: seq<string>): seq<string> {
    if pieces == [] then [] else [Cell(pieces[0])] + Cells(pieces[1..])
  }

  function SplitRow(line: string): seq<string> {
    Cells(Text.Split(RStripPipes(LStripPipes(Text.Strip(ReplaceEscapes(line)))), '|'))
  }

  // ----- rendering

  function Escape(cell: string): string {
    if cell == "" then "" else (if cell[0] == '|' then "\\|" else [cell[0]]) + Escape(cell[1..])
  }

  /** `| a | b |`, pipes inside a cell escaped. */
  function RenderCells(cells: seq<string>): string {
    if cells == [] then "" else " " + Escape(cells[0]) + " |" + RenderCells(cells[1..])
  }

  function Render(cells: seq<string>): string {
    "|" + RenderCells(cells)
  }

  // ----- the round trip

  /** A cell with its pipes marked, as it looks between replacement and split. */
  function Marked(cell: string): string {
    if cell == "" then "" else [if cell[0] == '|' then NUL else cell[0]] + Marked(cell[1..])
  }

  function MarkedCells(cells: seq<string>): string {
    if cells == [] then "" else " " + Marked(cells[0]) + " |" + MarkedCells(cells[1..])
  }

  predicate PlainCell(cell: string) {
    Text.Trimmed(cell) && NUL !in cell
  }

  lemma NoPipeAhead(cell: string, rest: string)
    requires rest != "" && rest[0] == ' '
    ensures Escape(cell) + rest != "" && (Escape(cell) + rest)[0] != '|'
  {}

  lemma ReplaceStep(s: string, tail: string)
    ensures s == "\\|" + tail ==> ReplaceEscapes(s) == [NUL] + ReplaceEscapes(tail)
    ensures s != "" && s[1..] == tail && tail != "" && tail[0] != '|' ==> ReplaceEscapes(s) == [s[0]] + ReplaceEscapes(tail)
  {
    if s == "\\|" + tail { assert s[2..] == tail; }
  }

  /** Replacement inside a cell: the blank after the cell keeps a final backslash away
      from the pipe that ends the cell. */
  lemma {:induction false} ReplaceCell(cell: string, rest: string)
    requires rest != "" && rest[0] == ' '
    ensures ReplaceEscapes(Escape(cell) + rest) == Marked(cell) + ReplaceEscapes(rest)
  {
    if cell == "" {
      assert Escape(cell) + rest == rest;
    } else {
      ReplaceCell(cell[1..], rest);
      var s, tail := Escape(cell) + rest, Escape(cell[1..]) + rest;
      NoPipeAhead(cell[1..], rest);
      ReplaceStep(s, tail);
      if cell[0] == '|' {
        assert s == "\\|" + tail;
      } else {
        assert s == [cell[0]] + tail;
      }
    }
  }

  lemma {:induction false} ReplaceCells(cells: seq<string>)
    ensures ReplaceEscapes(RenderCells(cells)) == MarkedCells(cells)
  {
    if cells != [] {
      var rest := RenderCells(cells[1..]);
      var s := Escape(cells[0]) + (" |" + rest);
      assert RenderCells(cells) == " " + s;
      ReplaceCell(cells[0], " |" + rest);
      assert (" " + s)[1..] == s;
      var t := " |" + rest;
      assert t[1..] == "|" + rest && ("|" + rest)[1..] == rest;
      ReplaceCells(cells[1..]);
      assert ReplaceEscapes(t) == " " + ReplaceEscapes("|" + rest);
      ReplacePipe(rest);
    }
  }

  lemma ReplacePipe(rest: string)
    ensures ReplaceEscapes("|" + rest) == "|" + ReplaceEscapes(rest)
  {
    if rest == "" {
      assert "|" + rest == "|";
    } else {
      assert ("|" + rest)[1..] == rest;
    }
  }

  /** What is left when the outer pipes are stripped. */
  function Padded(cells: seq<string>): seq<string> {
    if cells == [] then [] else [" " + Marked(cells[0]) + " "] + Padded(cells[1..])
  }

  lemma {:induction false} MarkedIsJoined(cells: seq<string>)
    requires cells != []
    ensures MarkedCells(cells) == Text.Join(Padded(cells), "|") + "|"
  {
    if |cells| > 1 {
      MarkedIsJoined(cells[1..]);
      assert Padded(cells)[1..] == Padded(cells[1..]);
    } else {
      assert MarkedCells(cells) == " " + Marked(cells[0]) + " |" + "";
    }
  }

  lemma {:induction false} JoinedEnds(cells: seq<string>)
    requires cells != []
    ensures var j := Text.Join(Padded(cells), "|"); j != "" && j[0] == ' ' && j[|j| - 1] == ' '
  {
    if |cells| > 1 { JoinedEnds(cells[1..]); assert Padded(cells)[1..] == Padded(cells[1..]); }
  }

  lemma {:induction false} MarkedUnmarked(cell: string)
    requires NUL !in cell
    ensures Unmark(Marked(cell)) == cell && '|' !in Marked(cell)
  {
    if cell != "" {
      assert cell[0] in cell;
      assert forall c | c in cell[1..] :: c in cell;
      MarkedUnmarked(cell[1..]);
    }
  }

  lemma {:induction false} UnmarkAppend(a: string, b: string)
    ensures Unmark(a + b) == Unmark(a) + Unmark(b)
  {
    if a == "" {
      assert a + b == b;
    } else {
      assert (a + b)[1..] == a[1..] + b;
      UnmarkAppend(a[1..], b);
    }
  }

  lemma {:induction false} CellsUndone(cells: seq<string>)
    requires forall c | c in cells :: PlainCell(c)
    ensures Cells(Padded(cells)) == cells
    ensures forall p | p in Padded(cells) :: '|' !in p
  {
    if cells != [] {
      var c := cells[0];
      assert c in cells;
      MarkedUnmarked(c);
      UnmarkAppend(" " + Marked(c), " ");
      UnmarkAppend(" ", Marked(c));
      assert Unmark(" ") == " ";
      Text.StripPad(" ", c, " ");
      CellsUndone(cells[1..]);
      assert Padded(cells)[1..] == Padded(cells[1..]);
    }
  }

  /** Splitting a rendered row gives its cells back: empty cells, cells of backslashes
      and cells that hold pipes included. */
  lemma RowRoundTrip(cells: seq<string>)
    requires cells != [] && forall c | c in cells :: PlainCell(c)
    ensures SplitRow(Render(cells)) == cells
  {
    var body := MarkedCells(cells);
    var joined := Text.Join(Padded(cells), "|");
    ReplaceCells(cells);
    ReplacePipe(RenderCells(cells));
    MarkedIsJoined(cells);
    JoinedEnds(cells);
    var row := "|" + joined + "|";
    assert ReplaceEscapes(Render(cells)) == row;
    Text.StripTrimmed(row);
    assert LStripPipes(row) == joined + "|" by {
      assert row[1..] == joined + "|";
    }
    assert RStripPipes(joined + "|") == joined by {
      assert (joined + "|")[..|joined|] == joined;
    }
    CellsUndone(cells);
    assert Padded(cells) != [];
    Text.SplitJoin(Padded(cells), '|');
  }

  lemma {:induction false} UnmarkedIsFree(s: string)
    ensures NUL !in Unmark(s)
  {
    if s != "" { UnmarkedIsFree(s[1..]); }
  }

  lemma {:induction false} CellsArePlain(pieces: seq<string>)
    ensures |Cells(pieces)| == |pieces| && forall c | c in Cells(pieces) :: PlainCell(c)
  {
    if pieces != [] {
      UnmarkedIsFree(pieces[0]);
      Text.StripKeeps(Unmark(pieces[0]), NUL);
      Text.StripIsTrimmed(Unmark(pieces[0]));
      CellsArePlain(pieces[1..]);
    }
  }

  /** ... and that is the whole of it: no other list of cells survives. */
  lemma RoundTripExactly(cells: seq<string>)
    ensures SplitRow(Render(cells)) == cells <==> cells != [] && forall c | c in cells :: PlainCell(c)
  {
    CellsArePlain(Text.Split(RStripPipes(LStripPipes(Text.Strip(ReplaceEscapes(Render(cells))))), '|'));
    if cells != [] && forall c | c in cells :: PlainCell(c) { RowRoundTrip(cells); }
  }

  // ----- any row

  predicate AllPipes(s: string) {
    forall k | 0 <= k < |s| :: s[k] == '|'
  }

  lemma {:induction false} PipesGo(p: string, s: string)
    requires AllPipes(p) && (s == "" || s[0] != '|')
    ensures LStripPipes(p + s) == s
  {
    if p == "" {
      assert p + s == s;
    } else {
      assert (p + s)[1..] == p[1..] + s;
      PipesGo(p[1..], s);
    }
  }

  lemma {:induction false} PipesEnd(s: string, q: string)
    requires AllPipes(q) && (s == "" || s[|s| - 1] != '|')
    ensures RStripPipes(s + q) == s
  {
    if q == "" {
      assert s + q == s;
    } else {
      var n := |q| - 1;
      assert (s + q)[..|s + q| - 1] == s + q[..n];
      PipesEnd(s, q[..n]);
    }
  }

  lemma {:induction false} NothingEscaped(s: string)
    requires '\\' !in s
    ensures ReplaceEscapes(s) == s
  {
    if |s| >= 2 {
      assert s[0] in s;
      assert forall c | c in s[1..] :: c in s;
      NothingEscaped(s[1..]);
    }
  }

  lemma {:induction false} NothingMarked(s: string)
    requires NUL !in s
    ensures Unmark(s) == s
  {
    if s != "" {
      assert s[0] in s;
      assert forall c | c in s[1..] :: c in s;
      NothingMarked(s[1..]);
    }
  }

  lemma {:induction false} CellAt(pieces: seq<string>, k: nat)
    requires k < |pieces|
    ensures |Cells(pieces)| == |pieces| && Cells(pieces)[k] == Cell(pieces[k])
  {
    if k > 0 { CellAt(pieces[1..], k - 1); } else if |pieces| > 1 { CellAt(pieces[1..], 0); }
  }

  /** A row without escapes, however many pipes and blanks surround it: the pieces between
      its inner pipes, each stripped. */
  lemma PlainRow(left: string, p: string, core: string, q: string, right: string, k: nat)
    requires Text.AllSpace(left) && Text.AllSpace(right) && AllPipes(p) && AllPipes(q)
    requires core != "" && core[0] != '|' && core[|core| - 1] != '|' && Text.Trimmed(p + core + q)
    requires NUL !in core && '\\' !in core && k < |Text.Split(core, '|')|
    ensures var cells := SplitRow(left + (p + core + q) + right);
            |cells| == |Text.Split(core, '|')| && cells[k] == Text.Strip(Text.Split(core, '|')[k])
  {
    var pieces := Text.Split(core, '|');
    CoreFound(left, p, core, q, right);
    CellAt(pieces, k);
    PieceChars(core, k);
    NothingMarked(pieces[k]);
  }

  lemma CoreFound(left: string, p: string, core: string, q: string, right: string)
    requires Text.AllSpace(left) && Text.AllSpace(right) && AllPipes(p) && AllPipes(q)
    requires core != "" && core[0] != '|' && core[|core| - 1] != '|' && Text.Trimmed(p + core + q) && '\\' !in core
    ensures SplitRow(left + (p + core + q) + right) == Cells(Text.Split(core, '|'))
  {
    NoBackslash(left, p, core, q, right);
    NothingEscaped(left + (p + core + q) + right);
    Text.StripPad(left, p + core + q, right);
    PipesAround(p, core, q);
  }

  lemma NoBackslash(left: string, p: string, core: string, q: string, right: string)
    requires Text.AllSpace(left) && Text.AllSpace(right) && AllPipes(p) && AllPipes(q) && '\\' !in core
    ensures '\\' !in left + (p + core + q) + right
  {
    assert '\\' !in left && '\\' !in right;
    assert '\\' !in p && '\\' !in q;
  }

  lemma PipesAround(p: string, core: string, q: string)
    requires AllPipes(p) && AllPipes(q) && core != "" && core[0] != '|' && core[|core| - 1] != '|'
    ensures RStripPipes(LStripPipes(p + core + q)) == core
  {
    assert p + core + q == p + (core + q);
    PipesGo(p, core + q);
    PipesEnd(core, q);
  }

  lemma {:induction false} PieceChars(s: string, k: nat)
    requires k < |Text.Split(s, '|')| && NUL !in s
    ensures NUL !in Text.Split(s, '|')[k]
    decreases |s|
  {
    if s != "" {
      var rest := Text.Split(s[1..], '|');
      assert s[0] in s;
      assert forall c | c in s[1..] :: c in s;
      if s[0] == '|' {
        if k > 0 { PieceChars(s[1..], k - 1); }
      } else {
        PieceChars(s[1..], k);
      }
    }
  }

  /** A rendered row: its cells between pipes and single blanks, their own pipes escaped. */
  lemma RenderShape(cell: string, cells: seq<string>)
    ensures RenderCells([]) == "" && RenderCells([cell] + cells) == " " + Escape(cell) + " |" + RenderCells(cells)
  {
    assert ([cell] + cells)[1..] == cells;
  }

  lemma RenderSample()
    ensures Render(["a|b", ""]) == "| a\\|b |  |"
  {
    assert Escape("") == "" && Escape("b") == "b" && Escape("|b") == "\\|b" && Escape("a|b") == "a\\|b";
    assert ["a|b", ""][1..] == [""] && [""][1..] == [];
    assert RenderCells([""]) == "  |";
  }
}
