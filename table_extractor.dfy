/** The table row extractor: `RankingTableParser`, a state machine driven by
    the tokeniser's start-tag, data and end-tag events, and
    `parse_rankings_from_table`, which turns its rows into entries. */
module TableExtractor {
  import opened PyText
  import opened Ranking

  /** The parser's six fields, as one value. */
  datatype TableState = TableState(
    inTable: bool,
    inRow: bool,
    inCell: bool,
    currentCell: seq<string>,
    currentRow: seq<string>,
    rows: seq<seq<string>>)

  /** The state of a newly constructed parser. */
  const Fresh := TableState(false, false, false, [], [], [])

  /** The text of a finished cell: its data chunks joined by a space, then
      whitespace-collapsed. */
  function CellText(chunks: seq<string>): string
  {
    Collapse(Join(" ", chunks))
  }

  /** `handle_starttag`: the first `<table>` opens the table; outside a table
      every other start tag is ignored; inside, `<tr>` opens a fresh row and
      `<td>` opens a fresh cell when a row is open. */
  function OnStartTag(s: TableState, tag: string): TableState
  {
    if tag == "table" && !s.inTable then s.(inTable := true)
    else if !s.inTable then s
    else if tag == "tr" then s.(inRow := true, currentRow := [])
    else if tag == "td" && s.inRow then s.(inCell := true, currentCell := [])
    else s
  }

  /** `handle_data`: a chunk is kept only inside a table, a row and a cell. */
  function OnData(s: TableState, data: string): TableState
  {
    if s.inTable && s.inRow && s.inCell then s.(currentCell := s.currentCell + [data]) else s
  }

  /** `handle_endtag`: `</td>` closes an open cell and appends its text to the
      row; `</tr>` closes an open row and keeps it if it has a cell;
      `</table>` closes the table. */
  function OnEndTag(s: TableState, tag: string): TableState
  {
    if tag == "td" && s.inCell then
      s.(currentRow := s.currentRow + [CellText(s.currentCell)], currentCell := [], inCell := false)
    else if tag == "tr" && s.inRow then
      s.(rows := if s.currentRow != [] then s.rows + [s.currentRow] else s.rows, currentRow := [], inRow := false)
    else if tag == "table" && s.inTable then
      s.(inTable := false)
    else s
  }

  function Step(s: TableState, e: Event): TableState
  {
    match e
    case StartTag(t) => OnStartTag(s, t)
    case EndTag(t) => OnEndTag(s, t)
    case Data(d) => OnData(s, d)
  }

  /** The state after the handlers have seen `events`, in order. */
  function Run(s: TableState, events: seq<Event>): TableState
  {
    RunWith(Step, s, events)
  }

  /** The rows the parser holds after being fed `events`. */
  function TableRows(events: seq<Event>): seq<seq<string>>
  {
    Run(Fresh, events).rows
  }

  /** The parser of ranking_watcher.py, with the same six fields. */
  class RankingTableParser {
    var inTable: bool
    var inRow: bool
    var inCell: bool
    var currentCell: seq<string>
    var currentRow: seq<string>
    var rows: seq<seq<string>>

    function State(): TableState
      reads this
    {
      TableState(inTable, inRow, inCell, currentCell, currentRow, rows)
    }

    constructor ()
      ensures State() == Fresh
    {
      inTable, inRow, inCell := false, false, false;
      currentCell, currentRow, rows := [], [], [];
    }

    method HandleStartTag(tag: string)
      modifies this
      ensures State() == OnStartTag(old(State()), tag)
    {
      if tag == "table" && !inTable {
        inTable := true;
        return;
      }
      if !inTable {
        return;
      }
      if tag == "tr" {
        inRow := true;
        currentRow := [];
      } else if tag == "td" && inRow {
        inCell := true;
        currentCell := [];
      }
    }

    method HandleData(data: string)
      modifies this
      ensures State() == OnData(old(State()), data)
    {
      if inTable && inRow && inCell {
        currentCell := currentCell + [data];
      }
    }

    method HandleEndTag(tag: string)
      modifies this
      ensures State() == OnEndTag(old(State()), tag)
    {
      if tag == "td" && inCell {
        var cellText := Collapse(Join(" ", currentCell));
        currentRow := currentRow + [cellText];
        currentCell := [];
        inCell := false;
        return;
      }
      if tag == "tr" && inRow {
        if currentRow != [] {
          rows := rows + [currentRow];
        }
        currentRow := [];
        inRow := false;
        return;
      }
      if tag == "table" && inTable {
        inTable := false;
      }
    }

    /** `feed`: hands every event to its handler, in order. */
    method Feed(events: seq<Event>)
      modifies this
      ensures State() == Run(old(State()), events)
    {
      for i := 0 to |events|
        invariant State() == Run(old(State()), events[..i])
      {
        assert events[..i + 1] == events[..i] + [events[i]];
        RunWithSnoc(Step, old(State()), events[..i], events[i]);
        match events[i] {
          case StartTag(t) => HandleStartTag(t);
          case EndTag(t) => HandleEndTag(t);
          case Data(d) => HandleData(d);
        }
      }
      assert events[..|events|] == events;
    }
  }

  /** Cells 0, 1 and 2 of a row as position, name and points. */
  function EntryOfRow(row: seq<string>): RankingEntry
    requires |row| >= 3
  {
    RankingEntry(row[0], row[1], row[2])
  }

  /** The entries of `rows`: one per row with at least three cells. */
  function RowsToEntries(rows: seq<seq<string>>): seq<RankingEntry>
    decreases |rows|
  {
    if rows == [] then []
    else
      var last := rows[|rows| - 1];
      RowsToEntries(rows[..|rows| - 1]) + (if |last| >= 3 then [EntryOfRow(last)] else [])
  }

  /** `parse_rankings_from_table`: feeds a fresh parser, then keeps the rows
      with at least three cells. */
  method ParseRankingsFromTable(events: seq<Event>) returns (entries: seq<RankingEntry>)
    ensures entries == RowsToEntries(TableRows(events))
  {
    var parser := new RankingTableParser();
    parser.Feed(events);
    var rows := parser.rows;
    entries := [];
    for i := 0 to |rows|
      invariant entries == RowsToEntries(rows[..i])
    {
      assert rows[..i + 1][..i] == rows[..i];
      var row := rows[i];
      if |row| < 3 {
        continue;
      }
      entries := entries + [RankingEntry(row[0], row[1], row[2])];
    }
    assert rows[..|rows|] == rows;
  }

  // ---------------------------------------------------------------------
  // Properties of the row-to-entry mapping

  /** The mapping works row by row: the entries of `a + b` are those of `a`
      followed by those of `b`, so rows keep their order. */
  lemma {:induction false} RowsToEntriesAppend(a: seq<seq<string>>, b: seq<seq<string>>)
    ensures RowsToEntries(a + b) == RowsToEntries(a) + RowsToEntries(b)
    decreases |b|
  {
    if b != [] {
      var ab := a + b;
      assert ab[..|ab| - 1] == a + b[..|b| - 1];
      assert ab[|ab| - 1] == b[|b| - 1];
      RowsToEntriesAppend(a, b[..|b| - 1]);
    } else {
      assert a + b == a;
    }
  }

  /** A single row yields its entry when it has at least three cells and
      nothing otherwise; cells beyond the third are ignored. */
  lemma RowToEntry(row: seq<string>)
    ensures |row| >= 3 ==> RowsToEntries([row]) == [RankingEntry(row[0], row[1], row[2])]
    ensures |row| < 3 ==> RowsToEntries([row]) == []
  {
    assert [row][..0] == [];
  }

  /** An entry comes out exactly when some row with at least three cells
      carries it in cells 0, 1 and 2. */
  lemma {:induction false} RowsToEntriesMember(rows: seq<seq<string>>, e: RankingEntry)
    ensures e in RowsToEntries(rows) <==>
      exists i :: 0 <= i < |rows| && |rows[i]| >= 3 && e == RankingEntry(rows[i][0], rows[i][1], rows[i][2])
    decreases |rows|
  {
    if rows != [] {
      var init := rows[..|rows| - 1];
      RowsToEntriesMember(init, e);
      if e in RowsToEntries(init) {
        var i :| 0 <= i < |init| && |init[i]| >= 3 && e == RankingEntry(init[i][0], init[i][1], init[i][2]);
        assert rows[i] == init[i];
      }
      if exists i :: 0 <= i < |rows| && |rows[i]| >= 3 && e == RankingEntry(rows[i][0], rows[i][1], rows[i][2]) {
        var i :| 0 <= i < |rows| && |rows[i]| >= 3 && e == RankingEntry(rows[i][0], rows[i][1], rows[i][2]);
        if i < |rows| - 1 {
          assert init[i] == rows[i];
        }
      }
    }
  }

  // ---------------------------------------------------------------------
  // Properties of the state machine

  /** What the parser holds is always well formed: every kept row has at
      least one cell, and every cell text, in a kept row or in the open row,
      has no leading, trailing or doubled whitespace. */
  ghost predicate WellFormed(s: TableState)
  {
    && (forall i :: 0 <= i < |s.rows| ==> s.rows[i] != [])
    && (forall i, j :: 0 <= i < |s.rows| && 0 <= j < |s.rows[i]| ==> Collapsed(s.rows[i][j]))
    && (forall j :: 0 <= j < |s.currentRow| ==> Collapsed(s.currentRow[j]))
  }

  lemma StepWellFormed(s: TableState, e: Event)
    requires WellFormed(s)
    ensures WellFormed(Step(s, e))
    ensures Step(s, e).rows == s.rows || Step(s, e).rows == s.rows + [s.currentRow]
  {
    var s' := Step(s, e);
    if e.EndTag? && e.name == "td" && s.inCell {
      var c := CellText(s.currentCell);
      CollapseSpec(Join(" ", s.currentCell));
      assert s' == s.(currentRow := s.currentRow + [c], currentCell := [], inCell := false);
      forall j | 0 <= j < |s'.currentRow|
        ensures Collapsed(s'.currentRow[j])
      {
        if j < |s.currentRow| {
          assert s'.currentRow[j] == s.currentRow[j];
        }
      }
    } else if e.EndTag? && e.name == "tr" && s.inRow {
      assert s'.currentRow == [];
      if s.currentRow != [] {
        assert s'.rows == s.rows + [s.currentRow];
        forall i, j | 0 <= i < |s'.rows| && 0 <= j < |s'.rows[i]|
          ensures Collapsed(s'.rows[i][j])
        {
          if i < |s.rows| {
            assert s'.rows[i] == s.rows[i];
          }
        }
      } else {
        assert s'.rows == s.rows;
      }
    } else {
      assert s'.rows == s.rows;
      assert s'.currentRow == s.currentRow || s'.currentRow == [];
    }
  }

  /** Rows are only ever appended, and every run from a well-formed state
      (the fresh state is one) stays well formed. */
  lemma {:induction false} RunWellFormed(s: TableState, events: seq<Event>)
    requires WellFormed(s)
    ensures WellFormed(Run(s, events))
    ensures |s.rows| <= |Run(s, events).rows| && Run(s, events).rows[..|s.rows|] == s.rows
    decreases |events|
  {
    if events != [] {
      var s' := Step(s, events[0]);
      StepWellFormed(s, events[0]);
      RunWellFormed(s', events[1..]);
      var r := Run(s', events[1..]).rows;
      assert r[..|s.rows|] == r[..|s'.rows|][..|s.rows|];
      assert (s.rows + [s.currentRow])[..|s.rows|] == s.rows;
    }
  }

  /** Every table row the extractor reports is non-empty and its cells are
      whitespace-collapsed. */
  lemma TableRowsWellFormed(events: seq<Event>)
    ensures forall i :: 0 <= i < |TableRows(events)| ==> TableRows(events)[i] != []
    ensures forall i, j :: 0 <= i < |TableRows(events)| && 0 <= j < |TableRows(events)[i]| ==>
      Collapsed(TableRows(events)[i][j])
  {
    RunWellFormed(Fresh, events);
  }

  /** A parser outside any table, row and cell: nothing it sees changes it
      until a `<table>` start tag arrives. In particular a `<tr>` outside any
      table contributes nothing. */
  predicate Idle(s: TableState)
  {
    !s.inTable && !s.inRow && !s.inCell
  }

  lemma {:induction false} IdleUntilTable(s: TableState, events: seq<Event>)
    requires Idle(s)
    requires forall k :: 0 <= k < |events| ==> events[k] != StartTag("table")
    ensures Run(s, events) == s
    decreases |events|
  {
    if events != [] {
      assert events[0] != StartTag("table");
      assert Step(s, events[0]) == s;
      IdleUntilTable(s, events[1..]);
    }
  }

  // ---------------------------------------------------------------------
  // What the extractor recovers from a regular table

  /** The events a tokeniser reports for `<td>c</td>`, each cell preceded
      by the text `gap` (typically indentation). With `gap == ""` this
      includes an empty data event, which `html.parser` never reports; the
      parser treats it like any other chunk outside a cell, by ignoring it. */
  function RenderCells(cells: seq<string>, gap: string): seq<Event>
  {
    if cells == [] then []
    else [Data(gap), StartTag("td"), Data(cells[0]), EndTag("td")] + RenderCells(cells[1..], gap)
  }

  /** `<tr>` cells `</tr>`, preceded by the text `gap`. */
  function RenderRow(row: seq<string>, gap: string): seq<Event>
  {
    [Data(gap), StartTag("tr")] + RenderCells(row, gap) + [EndTag("tr")]
  }

  function RenderRows(rows: seq<seq<string>>, gap: string): seq<Event>
  {
    if rows == [] then [] else RenderRow(rows[0], gap) + RenderRows(rows[1..], gap)
  }

  /** `<table><tbody>` rows `</tbody></table>`, with `gap` text between tags. */
  function RenderTable(rows: seq<seq<string>>, gap: string): seq<Event>
  {
    [StartTag("table"), StartTag("tbody")] + RenderRows(rows, gap) + [EndTag("tbody"), EndTag("table")]
  }

  /** Each cell whitespace-collapsed. */
  function CollapseAll(cells: seq<string>): seq<string>
  {
    seq(|cells|, i requires 0 <= i < |cells| => Collapse(cells[i]))
  }

  lemma CollapseAllCons(cells: seq<string>)
    requires cells != []
    ensures CollapseAll(cells) == [Collapse(cells[0])] + CollapseAll(cells[1..])
  {
    var r := [Collapse(cells[0])] + CollapseAll(cells[1..]);
    forall i | 0 <= i < |cells|
      ensures CollapseAll(cells)[i] == r[i]
    {
      if i > 0 {
        assert cells[1..][i - 1] == cells[i];
      }
    }
  }

  /** What one rendered row adds: nothing for a row without cells, else
      the row with its cells collapsed. */
  function Kept(row: seq<string>): seq<seq<string>>
  {
    if row != [] then [CollapseAll(row)] else []
  }

  /** The rows a regular table yields: each non-empty row, its cells collapsed. */
  function ExtractedRows(rows: seq<seq<string>>): seq<seq<string>>
  {
    if rows == [] then [] else Kept(rows[0]) + ExtractedRows(rows[1..])
  }

  function TableOpen(rows: seq<seq<string>>): TableState
  {
    TableState(true, false, false, [], [], rows)
  }

  function RowOpen(rows: seq<seq<string>>, current: seq<string>): TableState
  {
    TableState(true, true, false, [], current, rows)
  }

  /** Four events are four steps. */
  lemma RunFour(s: TableState, a: Event, b: Event, c: Event, d: Event, rest: seq<Event>)
    ensures Run(s, [a, b, c, d] + rest) == Run(Step(Step(Step(Step(s, a), b), c), d), rest)
  {
    assert [a, b, c, d] + rest == [a] + ([b] + ([c] + ([d] + rest)));
    RunWithCons(Step, s, a, [b] + ([c] + ([d] + rest)));
    RunWithCons(Step, Step(s, a), b, [c] + ([d] + rest));
    RunWithCons(Step, Step(Step(s, a), b), c, [d] + rest);
    RunWithCons(Step, Step(Step(Step(s, a), b), c), d, rest);
  }

  lemma CellSteps(rows: seq<seq<string>>, current: seq<string>, c: string, gap: string)
    ensures Step(Step(Step(Step(RowOpen(rows, current), Data(gap)), StartTag("td")), Data(c)), EndTag("td"))
         == RowOpen(rows, current + [Collapse(c)])
  {
    var s := RowOpen(rows, current);
    var s1 := TableState(true, true, true, [], current, rows);
    var s2 := s1.(currentCell := [c]);
    assert Step(s, Data(gap)) == s;
    assert Step(s, StartTag("td")) == s1;
    assert Step(s1, Data(c)) == s2;
    assert Join(" ", [c]) == c;
    assert CellText([c]) == Collapse(c);
  }

  /** One `<td>c</td>`, after its gap text, appends the collapsed `c`. */
  lemma CellRun(rows: seq<seq<string>>, current: seq<string>, c: string, gap: string, rest: seq<Event>)
    ensures Run(RowOpen(rows, current), [Data(gap), StartTag("td"), Data(c), EndTag("td")] + rest)
         == Run(RowOpen(rows, current + [Collapse(c)]), rest)
  {
    RunFour(RowOpen(rows, current), Data(gap), StartTag("td"), Data(c), EndTag("td"), rest);
    CellSteps(rows, current, c, gap);
  }

  lemma {:induction false} CellsRun(rows: seq<seq<string>>, current: seq<string>, cells: seq<string>, gap: string)
    ensures Run(RowOpen(rows, current), RenderCells(cells, gap)) == RowOpen(rows, current + CollapseAll(cells))
    decreases |cells|
  {
    if cells == [] {
      assert current + [] == current;
    } else {
      CellRun(rows, current, cells[0], gap, RenderCells(cells[1..], gap));
      CellsRun(rows, current + [Collapse(cells[0])], cells[1..], gap);
      CollapseAllCons(cells);
      assert current + [Collapse(cells[0])] + CollapseAll(cells[1..]) == current + ([Collapse(cells[0])] + CollapseAll(cells[1..]));
    }
  }

  /** One `<tr>` row, after its gap text, keeps the row of collapsed cells
      when it has a cell. */
  lemma RowRun(kept: seq<seq<string>>, row: seq<string>, gap: string, rest: seq<Event>)
    ensures Run(TableOpen(kept), RenderRow(row, gap) + rest) == Run(TableOpen(kept + Kept(row)), rest)
  {
    var s := TableOpen(kept);
    var open := [Data(gap), StartTag("tr")];
    var body := RenderCells(row, gap);
    assert RenderRow(row, gap) + rest == open + (body + ([EndTag("tr")] + rest));
    RunWithAppend(Step, s, open, body + ([EndTag("tr")] + rest));
    OpenRow(kept, gap);
    RunWithAppend(Step, RowOpen(kept, []), body, [EndTag("tr")] + rest);
    CellsRun(kept, [], row, gap);
    assert [] + CollapseAll(row) == CollapseAll(row);
    assert Step(RowOpen(kept, CollapseAll(row)), EndTag("tr")) == TableOpen(kept + Kept(row));
    RunWithCons(Step, RowOpen(kept, CollapseAll(row)), EndTag("tr"), rest);
  }

  lemma OpenRow(kept: seq<seq<string>>, gap: string)
    ensures Run(TableOpen(kept), [Data(gap), StartTag("tr")]) == RowOpen(kept, [])
  {
    var s := TableOpen(kept);
    RunWithCons(Step, s, Data(gap), [StartTag("tr")]);
    RunWithCons(Step, s, StartTag("tr"), []);
    assert [StartTag("tr")] + [] == [StartTag("tr")];
  }

  lemma KeptThenExtracted(kept: seq<seq<string>>, rows: seq<seq<string>>)
    requires rows != []
    ensures kept + Kept(rows[0]) + ExtractedRows(rows[1..]) == kept + ExtractedRows(rows)
  {
    AppendAssoc(kept, Kept(rows[0]), ExtractedRows(rows[1..]));
  }


  lemma {:induction false} RowsRun(kept: seq<seq<string>>, rows: seq<seq<string>>, gap: string)
    ensures Run(TableOpen(kept), RenderRows(rows, gap)) == TableOpen(kept + ExtractedRows(rows))
    decreases |rows|
  {
    if rows == [] {
      assert kept + [] == kept;
    } else {
      var rest := RenderRows(rows[1..], gap);
      var kept' := kept + Kept(rows[0]);
      RowRun(kept, rows[0], gap, rest);
      RowsRun(kept', rows[1..], gap);
      KeptThenExtracted(kept, rows);
    }
  }

  function IdleWith(rows: seq<seq<string>>): TableState
  {
    TableState(false, false, false, [], [], rows)
  }

  /** A regular table read by an idle parser adds exactly its non-empty rows,
      in document order and with collapsed cells, and leaves the parser idle
      again. */
  lemma TableRun(kept: seq<seq<string>>, rows: seq<seq<string>>, gap: string)
    ensures Run(IdleWith(kept), RenderTable(rows, gap)) == IdleWith(kept + ExtractedRows(rows))
  {
    var s := IdleWith(kept);
    var pre := [StartTag("table"), StartTag("tbody")];
    var post := [EndTag("tbody"), EndTag("table")];
    var body := RenderRows(rows, gap);
    RunWithAppend(Step, s, pre + body, post);
    RunWithAppend(Step, s, pre, body);
    RunWithCons(Step, s, StartTag("table"), [StartTag("tbody")]);
    RunWithCons(Step, TableOpen(kept), StartTag("tbody"), []);
    assert [StartTag("tbody")] + [] == [StartTag("tbody")];
    assert Run(s, pre) == TableOpen(kept);
    RowsRun(kept, rows, gap);
    var t := TableOpen(kept + ExtractedRows(rows));
    RunWithCons(Step, t, EndTag("tbody"), [EndTag("table")]);
    RunWithCons(Step, t, EndTag("table"), []);
    assert [EndTag("table")] + [] == [EndTag("table")];
  }

  /** For a regular table whose every row has at least three cells, there is
      one entry per row, in order, with collapsed cells 0, 1 and 2. */
  lemma {:induction false} RegularTableEntries(rows: seq<seq<string>>, gap: string)
    requires forall i :: 0 <= i < |rows| ==> |rows[i]| >= 3
    ensures var es := RowsToEntries(TableRows(RenderTable(rows, gap)));
      && |es| == |rows|
      && forall i :: 0 <= i < |rows| ==>
        es[i] == RankingEntry(Collapse(rows[i][0]), Collapse(rows[i][1]), Collapse(rows[i][2]))
  {
    TableRun([], rows, gap);
    assert [] + ExtractedRows(rows) == ExtractedRows(rows);
    ExtractedEntries(rows);
  }

  lemma {:induction false} ExtractedEntries(rows: seq<seq<string>>)
    requires forall i :: 0 <= i < |rows| ==> |rows[i]| >= 3
    ensures var es := RowsToEntries(ExtractedRows(rows));
      && |es| == |rows|
      && forall i :: 0 <= i < |rows| ==>
        es[i] == RankingEntry(Collapse(rows[i][0]), Collapse(rows[i][1]), Collapse(rows[i][2]))
  {
    if rows != [] {
      var head := CollapseAll(rows[0]);
      ExtractedEntries(rows[1..]);
      RowsToEntriesAppend([head], ExtractedRows(rows[1..]));
      RowToEntry(head);
    }
  }

  /** The `<table>` test of `handle_starttag` only asks whether a table is
      open, so after `</table>` the parser opens again on the next table:
      two tables in a row yield the rows of both. */
  lemma TwoTablesBothExtracted(t1: seq<seq<string>>, t2: seq<seq<string>>, gap: string)
    ensures TableRows(RenderTable(t1, gap) + RenderTable(t2, gap)) == ExtractedRows(t1) + ExtractedRows(t2)
  {
    RunWithAppend(Step, Fresh, RenderTable(t1, gap), RenderTable(t2, gap));
    TableRun([], t1, gap);
    assert [] + ExtractedRows(t1) == ExtractedRows(t1);
    TableRun(ExtractedRows(t1), t2, gap);
  }

  /** A nested `<table>` start tag is ignored, and the nested table's own
      rows are collected as if they were the outer table's; its `</table>`
      closes the outer table, and from then on no new cell or chunk is taken
      until the next `<table>`. Here no row is open at that point, so nothing
      more is collected at all. */
  lemma NestedTableEndsExtraction(rest: seq<Event>)
    requires forall k :: 0 <= k < |rest| ==> rest[k] != StartTag("table")
    ensures TableRows([StartTag("table"), StartTag("table"), EndTag("table")] + rest) == []
  {
    var open := Fresh.(inTable := true);
    assert [StartTag("table"), StartTag("table"), EndTag("table")] + rest
        == [StartTag("table")] + ([StartTag("table")] + ([EndTag("table")] + rest));
    RunWithCons(Step, Fresh, StartTag("table"), [StartTag("table")] + ([EndTag("table")] + rest));
    RunWithCons(Step, open, StartTag("table"), [EndTag("table")] + rest);
    RunWithCons(Step, open, EndTag("table"), rest);
    IdleUntilTable(Fresh, rest);
  }

  /** A nested table met inside an open cell does not lose that cell or its
      row: `</td>` and `</tr>` do not ask whether a table is open, so they
      still close the cell and keep the row. */
  lemma NestedTableInCell(s: TableState)
    requires s.inTable && s.inRow && s.inCell
    ensures Run(s, [StartTag("table"), EndTag("table"), EndTag("td"), EndTag("tr")])
         == s.(inTable := false, inRow := false, inCell := false, currentCell := [], currentRow := [],
               rows := s.rows + [s.currentRow + [CellText(s.currentCell)]])
  {
    RunFour(s, StartTag("table"), EndTag("table"), EndTag("td"), EndTag("tr"), []);
    assert [StartTag("table"), EndTag("table"), EndTag("td"), EndTag("tr")] + []
        == [StartTag("table"), EndTag("table"), EndTag("td"), EndTag("tr")];
  }

  /** A nested table's `<tr>` opens a fresh row over the outer one: the
      outer row's cells so far are discarded, and a nested `<td>` discards
      the open cell's chunks. */
  lemma NestedRowDiscardsOuter(s: TableState)
    requires s.inTable && s.inRow
    ensures Run(s, [StartTag("table"), StartTag("tr"), StartTag("td")])
         == s.(inCell := true, currentCell := [], currentRow := [])
  {
    var outerless := s.(currentRow := []);
    RunWithCons(Step, s, StartTag("table"), [StartTag("tr"), StartTag("td")]);
    RunWithCons(Step, s, StartTag("tr"), [StartTag("td")]);
    RunWithCons(Step, outerless, StartTag("td"), []);
  }

  /** After a nested `</table>` met with a row open, no new cell or chunk is
      taken: the row keeps only the cells it already held, and the next
      `</tr>` keeps it when it has any. */
  lemma ClosedTableTakesNoCell(s: TableState, x: string)
    requires s.inTable && s.inRow && !s.inCell
    ensures Run(s, [StartTag("table"), EndTag("table"), StartTag("td"), Data(x), EndTag("td"), EndTag("tr")])
         == s.(inTable := false, inRow := false, currentRow := [],
               rows := s.rows + (if s.currentRow != [] then [s.currentRow] else []))
  {
    var closed := s.(inTable := false);
    RunFour(s, StartTag("table"), EndTag("table"), StartTag("td"), Data(x), [EndTag("td"), EndTag("tr")]);
    assert [StartTag("table"), EndTag("table"), StartTag("td"), Data(x), EndTag("td"), EndTag("tr")]
        == [StartTag("table"), EndTag("table"), StartTag("td"), Data(x)] + [EndTag("td"), EndTag("tr")];
    RunWithCons(Step, closed, EndTag("td"), [EndTag("tr")]);
    RunWithCons(Step, closed, EndTag("tr"), []);
  }
}
