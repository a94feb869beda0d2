/** One line of a stats sheet split into cells, and the quoting it undoes. */
module CsvLine {

  const QUOTE: char := '"'
  const COMMA: char := ','

  /** The cells still to come: what is left of the line, the cell so far, and whether a quote is open. */
  function Scan(rest: string, cell: string, quoted: bool): (cells: seq<string>)
    ensures cells != []
  {
    if rest == [] then [cell]
    else if quoted && rest[0] == QUOTE && |rest| > 1 && rest[1] == QUOTE then Scan(rest[2..], cell + [QUOTE], true)
    else if quoted && rest[0] == QUOTE then Scan(rest[1..], cell, false)
    else if !quoted && rest[0] == QUOTE then Scan(rest[1..], cell, true)
    else if !quoted && rest[0] == COMMA then [cell] + Scan(rest[1..], [], false)
    else Scan(rest[1..], cell + [rest[0]], quoted)
  }

  function Split(line: string): seq<string> { Scan(line, [], false) }

  /** The character loop, which skips its own index past the second quote of a doubled one. */
  method SplitCsvLine(line: string) returns (cells: seq<string>)
    ensures cells == Split(line)
  {
    cells := [];
    var cell: string := [];
    var quoted := false;
    var i := 0;
    while i < |line|
      invariant 0 <= i <= |line|
      invariant cells + Scan(line[i..], cell, quoted) == Split(line)
    {
      var c := line[i];
      assert line[i..][1..] == line[i + 1..];
      if quoted {
        if c == QUOTE && i + 1 < |line| && line[i + 1] == QUOTE {
          assert line[i..][2..] == line[i + 2..];
          cell := cell + [QUOTE];
          i := i + 1;
        } else if c == QUOTE {
          quoted := false;
        } else {
          cell := cell + [c];
        }
      } else if c == QUOTE {
        quoted := true;
      } else if c == COMMA {
        cells := cells + [cell];
        cell := [];
      } else {
        cell := cell + [c];
      }
      i := i + 1;
    }
    cells := cells + [cell];
  }

  // ---------------------------------------------------------------- rendering

  /** Every quote doubled. */
  function Doubled(cell: string): string {
    if cell == [] then []
    else if cell[0] == QUOTE then [QUOTE, QUOTE] + Doubled(cell[1..])
    else [cell[0]] + Doubled(cell[1..])
  }

  predicate Bareable(cell: string) { QUOTE !in cell && COMMA !in cell }

  /** A cell as it may be written: in quotes, or bare. */
  function RenderCell(cell: string, bare: bool): string {
    if bare then cell else [QUOTE] + Doubled(cell) + [QUOTE]
  }

  /** Section 2 of RFC 4180, rules 5 to 7: cells quoted or bare, joined with commas. */
  function Render(cells: seq<string>, bare: seq<bool>): string
    requires |cells| == |bare| > 0
  {
    if |cells| == 1 then RenderCell(cells[0], bare[0])
    else RenderCell(cells[0], bare[0]) + [COMMA] + Render(cells[1..], bare[1..])
  }

  /** Reading a quoted cell back, up to whatever follows its closing quote. */
  lemma {:induction false} ScanQuoted(s: string, cell: string, rest: string)
    requires rest == [] || rest[0] != QUOTE
    ensures Scan(Doubled(s) + [QUOTE] + rest, cell, true) == Scan(rest, cell + s, false)
    decreases |s|
  {
    var line := Doubled(s) + [QUOTE] + rest;
    if s == [] {
      assert line == [QUOTE] + rest && line[1..] == rest;
      assert cell + s == cell;
    } else {
      var tail := Doubled(s[1..]) + [QUOTE] + rest;
      ScanQuoted(s[1..], cell + [s[0]], rest);
      assert cell + [s[0]] + s[1..] == cell + s;
      if s[0] == QUOTE {
        assert line == [QUOTE, QUOTE] + tail && line[2..] == tail;
      } else {
        assert line == [s[0]] + tail && line[1..] == tail;
      }
    }
  }

  lemma {:induction false} ScanBare(s: string, cell: string, rest: string)
    requires Bareable(s)
    ensures Scan(s + rest, cell, false) == Scan(rest, cell + s, false)
    decreases |s|
  {
    if s == [] {
      assert s + rest == rest && cell + s == cell;
    } else {
      ScanBare(s[1..], cell + [s[0]], rest);
      assert (s + rest)[1..] == s[1..] + rest;
      assert cell + [s[0]] + s[1..] == cell + s;
    }
  }

  lemma ScanCell(cell: string, bare: bool, rest: string)
    requires bare ==> Bareable(cell)
    requires rest == [] || rest[0] != QUOTE
    ensures Scan(RenderCell(cell, bare) + rest, [], false) == Scan(rest, cell, false)
  {
    if bare {
      ScanBare(cell, [], rest);
    } else {
      ScanQuoted(cell, [], rest);
      var line := RenderCell(cell, bare) + rest;
      assert line[1..] == Doubled(cell) + [QUOTE] + rest;
    }
    assert [] + cell == cell;
  }

  /** The bare cells need no quotes. */
  ghost predicate Renderable(cells: seq<string>, bare: seq<bool>) {
    |cells| == |bare| > 0 && forall i :: 0 <= i < |cells| && bare[i] ==> Bareable(cells[i])
  }

  lemma RenderSplits(cells: seq<string>, bare: seq<bool>)
    requires |cells| == |bare| > 1
    ensures Render(cells, bare) == RenderCell(cells[0], bare[0]) + ([COMMA] + Render(cells[1..], bare[1..]))
  {
  }

  /** Splitting undoes rendering, for any cells at all, so long as the bare ones need no quotes. */
  lemma {:induction false} SplitUndoesRender(cells: seq<string>, bare: seq<bool>)
    requires Renderable(cells, bare)
    ensures Split(Render(cells, bare)) == cells
    decreases |cells|
  {
    assert bare[0] ==> Bareable(cells[0]);
    if |cells| == 1 {
      ScanCell(cells[0], bare[0], []);
      assert RenderCell(cells[0], bare[0]) + [] == RenderCell(cells[0], bare[0]);
    } else {
      hide Renderable, RenderCell, Scan, Bareable, Render;
      var tail := Render(cells[1..], bare[1..]);
      RenderSplits(cells, bare);
      ScanCell(cells[0], bare[0], [COMMA] + tail);
      SplitUndoesRender(cells[1..], bare[1..]);
      assert cells == [cells[0]] + cells[1..];
    }
  }

  // ---------------------------------------------------------------- when quotes are needed

  function Letters(cells: seq<string>): nat {
    if cells == [] then 0 else |cells[0]| + Letters(cells[1..])
  }

  /** No character is invented, and a quote or a separating comma is never kept. */
  lemma {:induction false} ScanKeepsNoMore(rest: string, cell: string, quoted: bool)
    ensures Letters(Scan(rest, cell, quoted)) <= |cell| + |rest|
    ensures !quoted && !Bareable(rest) ==> Letters(Scan(rest, cell, quoted)) < |cell| + |rest|
    decreases |rest|
  {
    if rest == [] {
    } else if quoted && rest[0] == QUOTE && |rest| > 1 && rest[1] == QUOTE {
      ScanKeepsNoMore(rest[2..], cell + [QUOTE], true);
    } else if quoted && rest[0] == QUOTE {
      ScanKeepsNoMore(rest[1..], cell, false);
    } else if !quoted && rest[0] == QUOTE {
      ScanKeepsNoMore(rest[1..], cell, true);
    } else if !quoted && rest[0] == COMMA {
      ScanKeepsNoMore(rest[1..], [], false);
      assert ([cell] + Scan(rest[1..], [], false))[1..] == Scan(rest[1..], [], false);
    } else {
      ScanKeepsNoMore(rest[1..], cell + [rest[0]], quoted);
    }
  }

  /** A lone cell survives bare exactly when it holds neither a quote nor a comma. */
  lemma BareCellSurvives(cell: string)
    ensures Split(cell) == [cell] <==> Bareable(cell)
  {
    ScanKeepsNoMore(cell, [], false);
    assert Letters([cell]) == |cell| by { assert [cell][1..] == []; }
    if Bareable(cell) {
      ScanBare(cell, [], []);
      assert cell + [] == cell && [] + cell == cell;
    }
  }

  // ---------------------------------------------------------------- any line at all

  function Quotes(s: string): nat {
    if s == [] then 0 else Quotes(s[..|s| - 1]) + (if s[|s| - 1] == QUOTE then 1 else 0)
  }

  /** A comma with an even number of quotes before it ends a cell. */
  predicate Cuts(line: string, i: nat)
    requires i < |line|
  {
    line[i] == COMMA && Quotes(line[..i]) % 2 == 0
  }

  /** A quote counts for itself when it follows another and has an even number of them before it. */
  predicate Stays(line: string, i: nat)
    requires i < |line|
  {
    line[i] != QUOTE || (i > 0 && line[i - 1] == QUOTE && Quotes(line[..i]) % 2 == 0)
  }

  /** The cells of a line's first `n` characters, each character judged by the quotes before it. */
  function ByParity(line: string, n: nat): (cells: seq<string>)
    requires n <= |line|
    ensures cells != []
  {
    if n == 0 then [[]]
    else
      var before := ByParity(line, n - 1);
      if Cuts(line, n - 1) then before + [[]]
      else if Stays(line, n - 1) then before[|before| - 1 := before[|before| - 1] + [line[n - 1]]]
      else before
  }

  lemma QuotesOneMore(line: string, i: nat)
    requires i < |line|
    ensures Quotes(line[..i + 1]) == Quotes(line[..i]) + (if line[i] == QUOTE then 1 else 0)
  {
    assert line[..i + 1][..i] == line[..i];
  }

  /** What one character does, by the quotes before it. */
  lemma OneCharacter(line: string, i: nat, done: seq<string>, cell: string, odd: bool)
    requires i < |line| && ByParity(line, i) == done + [cell] && (odd <==> Quotes(line[..i]) % 2 == 1)
    ensures ByParity(line, i + 1)
            == if line[i] == COMMA && !odd then done + [cell] + [[]]
               else if line[i] != QUOTE || (i > 0 && line[i - 1] == QUOTE && !odd) then done + [cell + [line[i]]]
               else done + [cell]
    ensures (if line[i] == QUOTE then !odd else odd) <==> Quotes(line[..i + 1]) % 2 == 1
  {
    QuotesOneMore(line, i);
    hide Quotes;
    assert (done + [cell])[|done| := cell + [line[i]]] == done + [cell + [line[i]]];
  }

  /** From any point of the line on, the scan gives what the quotes before each character say. */
  lemma {:induction false} ScanIsByParity(line: string, i: nat, done: seq<string>, cell: string, quoted: bool)
    requires i <= |line| && ByParity(line, i) == done + [cell]
    requires quoted <==> Quotes(line[..i]) % 2 == 1
    requires !quoted && 0 < i < |line| && line[i - 1] == QUOTE ==> line[i] != QUOTE
    ensures done + Scan(line[i..], cell, quoted) == ByParity(line, |line|)
    decreases |line| - i
  {
    if i < |line| {
      hide Quotes, ByParity;
      var rest := line[i..];
      assert rest[1..] == line[i + 1..];
      OneCharacter(line, i, done, cell, quoted);
      if quoted && rest[0] == QUOTE && |rest| > 1 && rest[1] == QUOTE {
        assert rest[2..] == line[i + 2..];
        OneCharacter(line, i + 1, done, cell, false);
        ScanIsByParity(line, i + 2, done, cell + [QUOTE], true);
      } else if rest[0] == QUOTE {
        ScanIsByParity(line, i + 1, done, cell, !quoted);
      } else if !quoted && rest[0] == COMMA {
        ScanIsByParity(line, i + 1, done + [cell], [], false);
        assert done + [cell] + Scan(rest[1..], [], false) == done + ([cell] + Scan(rest[1..], [], false));
      } else {
        ScanIsByParity(line, i + 1, done, cell + [rest[0]], quoted);
      }
    } else {
      assert line[i..] == [];
    }
  }

  /** Whatever the line, well formed or not, it is split where commas have an even number of quotes before them. */
  lemma SplitIsByParity(line: string)
    ensures Split(line) == ByParity(line, |line|)
  {
    ScanIsByParity(line, 0, [], [], false);
    assert line[0..] == line && [] + Scan(line, [], false) == Scan(line, [], false);
  }
}
