/**
  The league table of a gameweek as a fixed-width text block
  (print_table.py): team name -> season total (or optimal season total)
  from each team's saved record, sorted best first and laid out in three
  columns (position, team, points) inside a code fence.
 */
module PrintTable {
  import opened PyLib
  import opened Sorting
  import opened GameweekStats
  import WaiverReport

  // ---------------------------------------------------------------------------
  // get_league_tables

  /** (table, optimal_table) from the records of the teams in order; None as
      soon as a team has no saved record (the function prints an error and
      returns nothing). A name seen twice keeps its first position and the
      later team's totals. */
  function TablesOf(teams: seq<int>, records: map<int, GwRecord>): Option<(Dict<string, int>, Dict<string, int>)>
  {
    if |teams| == 0 then Some(([], []))
    else match TablesOf(teams[..|teams| - 1], records)
      case None => None
      case Some(tables) =>
        var t := teams[|teams| - 1];
        if t !in records then None
        else
          var rec := records[t];
          Some((Assign(tables.0, rec.teamName, rec.totalPoints), Assign(tables.1, rec.teamName, rec.totalOptimalPoints)))
  }

  method GetLeagueTables(teams: seq<int>, records: map<int, GwRecord>)
    returns (r: Option<(Dict<string, int>, Dict<string, int>)>)
    ensures r == TablesOf(teams, records)
  {
    var table: Dict<string, int> := [];
    var optimalTable: Dict<string, int> := [];
    for k := 0 to |teams|
      invariant TablesOf(teams[..k], records) == Some((table, optimalTable))
    {
      assert teams[..k + 1][..k] == teams[..k];
      if teams[k] !in records {
        TablesStop(teams, records, k + 1);
        return None;
      }
      var rec := records[teams[k]];
      table := Assign(table, rec.teamName, rec.totalPoints);
      optimalTable := Assign(optimalTable, rec.teamName, rec.totalOptimalPoints);
    }
    assert teams[..|teams|] == teams;
    return Some((table, optimalTable));
  }

  /** Once a prefix of the teams fails, all of them do. */
  lemma {:induction false} TablesStop(teams: seq<int>, records: map<int, GwRecord>, k: nat)
    requires k <= |teams| && TablesOf(teams[..k], records).None?
    ensures TablesOf(teams, records).None?
    decreases |teams| - k
  {
    if k < |teams| {
      assert teams[..k + 1][..k] == teams[..k];
      TablesStop(teams, records, k + 1);
    } else {
      assert teams[..k] == teams;
    }
  }

  /** Some team of the list has no saved record. */
  predicate Missing(teams: seq<int>, records: map<int, GwRecord>)
  {
    exists k :: 0 <= k < |teams| && teams[k] !in records
  }

  /** Nothing is returned exactly when some team has no saved record. */
  lemma {:induction false} TablesFail(teams: seq<int>, records: map<int, GwRecord>)
    ensures TablesOf(teams, records).None? <==> Missing(teams, records)
    decreases |teams|
  {
    if |teams| > 0 {
      var init := teams[..|teams| - 1];
      var t := teams[|teams| - 1];
      TablesFail(init, records);
      MissingSnoc(teams, records);
      assert TablesOf(teams, records).None? <==> TablesOf(init, records).None? || t !in records;
    }
  }

  lemma MissingSnoc(teams: seq<int>, records: map<int, GwRecord>)
    requires |teams| > 0
    ensures Missing(teams, records)
        <==> Missing(teams[..|teams| - 1], records) || teams[|teams| - 1] !in records
  {
    var init := teams[..|teams| - 1];
    if Missing(init, records) {
      var k :| 0 <= k < |init| && init[k] !in records;
      assert teams[k] == init[k];
    }
    if Missing(teams, records) {
      var k :| 0 <= k < |teams| && teams[k] !in records;
      if k < |init| {
        assert init[k] == teams[k];
      }
    }
  }

  /** The record of the last team in the list that carries the name. */
  function LastNamed(teams: seq<int>, records: map<int, GwRecord>, name: string): Option<GwRecord>
  {
    if |teams| == 0 then None
    else
      var t := teams[|teams| - 1];
      if t in records && records[t].teamName == name then Some(records[t])
      else LastNamed(teams[..|teams| - 1], records, name)
  }

  /** Both tables list the same names in the same order; each name maps to
      the total, and in the optimal table to the optimal total, of the last
      team carrying it. */
  lemma {:induction false} TablesLookup(teams: seq<int>, records: map<int, GwRecord>, name: string)
    requires TablesOf(teams, records).Some?
    ensures var (table, optimalTable) := TablesOf(teams, records).value;
      && Keys(table) == Keys(optimalTable)
      && DistinctKeys(table)
      && Lookup(table, name) == (match LastNamed(teams, records, name)
                                   case None => None case Some(rec) => Some(rec.totalPoints))
      && Lookup(optimalTable, name) == (match LastNamed(teams, records, name)
                                          case None => None case Some(rec) => Some(rec.totalOptimalPoints))
    decreases |teams|
  {
    if |teams| > 0 {
      var init := teams[..|teams| - 1];
      TablesLookup(init, records, name);
      var (table, optimalTable) := TablesOf(init, records).value;
      var rec := records[teams[|teams| - 1]];
      AssignLookup(table, rec.teamName, rec.totalPoints, name);
      AssignLookup(optimalTable, rec.teamName, rec.totalOptimalPoints, name);
      AssignDistinct(table, rec.teamName, rec.totalPoints);
    }
  }

  /** When every team has a record, the points table is the league table
      the waiver report builds. */
  lemma {:induction false} TableIsLeagueTable(teams: seq<int>, records: map<int, GwRecord>)
    requires TablesOf(teams, records).Some?
    ensures TablesOf(teams, records).value.0 == WaiverReport.LeagueTableOf(teams, records)
    decreases |teams|
  {
    if |teams| > 0 {
      TableIsLeagueTable(teams[..|teams| - 1], records);
    }
  }

  // ---------------------------------------------------------------------------
  // print_tables: the layout

  /** The length of the longest string of the list, 0 for none. */
  function Longest(strs: seq<string>): (w: nat)
    ensures forall k :: 0 <= k < |strs| ==> |strs[k]| <= w
    ensures |strs| > 0 ==> exists k :: 0 <= k < |strs| && |strs[k]| == w
  {
    if |strs| == 0 then 0
    else
      var w := Longest(strs[..|strs| - 1]);
      assert forall k :: 0 <= k < |strs| - 1 ==> strs[..|strs| - 1][k] == strs[k];
      Max(w, |strs[|strs| - 1]|)
  }

  /** The printed totals, row by row. */
  function PointTexts(rows: Dict<string, int>): (texts: seq<string>)
    ensures |texts| == |rows| && forall k :: 0 <= k < |rows| ==> texts[k] == IntStr(rows[k].1)
  {
    seq(|rows|, k requires 0 <= k < |rows| => IntStr(rows[k].1))
  }

  /** The longest team name. */
  function NameWidth(rows: Dict<string, int>): nat
  {
    Longest(Keys(rows))
  }

  /** The longest printed total. */
  function PointsWidth(rows: Dict<string, int>): nat
  {
    Longest(PointTexts(rows))
  }

  /** The position column is four wide. */
  const PosWidth: int := 4

  /** Three cells separated by single spaces, ending the line. */
  function Cells(pos: string, team: string, points: string): string
  {
    pos + " " + team + " " + points + "\n"
  }

  /** Where each cell sits in its line. */
  lemma CellsLayout(pos: string, team: string, points: string)
    ensures var line := Cells(pos, team, points);
      && |line| == |pos| + 1 + |team| + 1 + |points| + 1
      && line[..|pos|] == pos
      && line[|pos| + 1..|pos| + 1 + |team|] == team
      && line[|pos| + 1 + |team| + 1..|pos| + 1 + |team| + 1 + |points|] == points
  {
    var line := Cells(pos, team, points);
    assert line == pos + (" " + team + " " + points + "\n");
    assert line == (pos + " ") + team + (" " + points + "\n");
    assert line == (pos + " " + team + " ") + points + "\n";
  }

  function HeaderLine(nameW: int, pointsW: int): string
  {
    Cells(PadRight("Pos", PosWidth), PadRight("Team", nameW), PadLeft("Points", pointsW))
  }

  function SeparatorLine(nameW: int, pointsW: int): string
  {
    Cells(Fill('-', PosWidth), Fill('-', nameW), Fill('-', pointsW))
  }

  /** One row: position left-aligned, name left-aligned, total right-aligned. */
  function RowLine(pos: int, row: (string, int), nameW: int, pointsW: int): string
  {
    Cells(PadRight(IntStr(pos), PosWidth), PadRight(row.0, nameW), PadLeft(IntStr(row.1), pointsW))
  }

  /** The row lines, numbered from 1. */
  function RowLines(rows: Dict<string, int>, nameW: int, pointsW: int): (lines: seq<string>)
    ensures |lines| == |rows|
  {
    seq(|rows|, k requires 0 <= k < |rows| => RowLine(k + 1, rows[k], nameW, pointsW))
  }

  lemma RowLineAt(rows: Dict<string, int>, nameW: int, pointsW: int, k: nat)
    requires k < |rows|
    ensures RowLines(rows, nameW, pointsW)[k] == RowLine(k + 1, rows[k], nameW, pointsW)
  {
  }

  /** ''.join(lines). */
  function Join(lines: seq<string>): string
  {
    if |lines| == 0 then "" else Join(lines[..|lines| - 1]) + lines[|lines| - 1]
  }

  lemma JoinThree(lines: seq<string>)
    requires |lines| >= 3
    ensures Join(lines[..3]) == lines[0] + lines[1] + lines[2]
  {
    JoinStep(lines, 0);
    JoinStep(lines, 1);
    JoinStep(lines, 2);
    assert lines[..0] == [];
  }

  lemma JoinStep(lines: seq<string>, k: nat)
    requires k < |lines|
    ensures Join(lines[..k + 1]) == Join(lines[..k]) + lines[k]
  {
    assert lines[..k + 1][..k] == lines[..k];
  }

  function Title(gw: int, optimal: bool): string
  {
    if optimal then "**Gameweek " + IntStr(gw) + " Optimal Table**\n```\n"
    else "**Gameweek " + IntStr(gw) + " Table**\n```\n"
  }

  /** Corrected column widths: each column is as wide as its longest entry
      and its heading (print_tables itself uses NameWidth and PointsWidth). */
  function TeamColumn(rows: Dict<string, int>): int { Max(4, NameWidth(rows)) }
  function PointsColumn(rows: Dict<string, int>): int { Max(6, PointsWidth(rows)) }

  /** The header, the separator and the rows, at the given widths. */
  function Layout(rows: Dict<string, int>, nameW: int, pointsW: int): (lines: seq<string>)
    ensures |lines| == |rows| + 2
  {
    [HeaderLine(nameW, pointsW), SeparatorLine(nameW, pointsW)] + RowLines(rows, nameW, pointsW)
  }

  /** Indexing into [a, b] + m + [z], for any element type. */
  lemma Framed<T>(a: T, b: T, m: seq<T>, z: T, k: nat)
    requires k < |m|
    ensures ([a, b] + m)[0] == a && ([a, b] + m)[1] == b && ([a, b] + m)[k + 2] == m[k]
    ensures ([a] + m + [z])[0] == a && ([a] + m + [z])[|m| + 1] == z && ([a] + m + [z])[k + 1] == m[k]
  {
  }

  /** Line k + 2 of the layout is row k. */
  lemma LayoutRow(rows: Dict<string, int>, nameW: int, pointsW: int, k: nat)
    requires k < |rows|
    ensures Layout(rows, nameW, pointsW)[k + 2] == RowLine(k + 1, rows[k], nameW, pointsW)
  {
    RowLineAt(rows, nameW, pointsW, k);
    Framed(HeaderLine(nameW, pointsW), SeparatorLine(nameW, pointsW), RowLines(rows, nameW, pointsW), "", k);
  }

  /** Everything print_tables appends, in order: the title with the opening
      fence, the layout at the widths it computes (the longest name, the
      longest printed total), the closing fence. */
  function Pieces(gw: int, rows: Dict<string, int>, optimal: bool): (pieces: seq<string>)
    ensures |pieces| == |rows| + 4
  {
    [Title(gw, optimal)] + Layout(rows, NameWidth(rows), PointsWidth(rows)) + ["```"]
  }

  /** Piece k + 3 is row k. */
  lemma PieceRow(gw: int, rows: Dict<string, int>, optimal: bool, k: nat)
    requires k < |rows|
    ensures Pieces(gw, rows, optimal)[k + 3] == RowLine(k + 1, rows[k], NameWidth(rows), PointsWidth(rows))
  {
    var nameW, pointsW := NameWidth(rows), PointsWidth(rows);
    var layout := Layout(rows, nameW, pointsW);
    LayoutRow(rows, nameW, pointsW, k);
    Framed(Title(gw, optimal), "", layout, "```", k + 2);
  }

  /** The pieces around the rows, one lemma each. */
  lemma PieceTitle(gw: int, rows: Dict<string, int>, optimal: bool)
    ensures Pieces(gw, rows, optimal)[0] == Title(gw, optimal)
  {
  }

  lemma PieceHeader(gw: int, rows: Dict<string, int>, optimal: bool)
    ensures Pieces(gw, rows, optimal)[1] == HeaderLine(NameWidth(rows), PointsWidth(rows))
  {
  }

  lemma PieceSeparator(gw: int, rows: Dict<string, int>, optimal: bool)
    ensures Pieces(gw, rows, optimal)[2] == SeparatorLine(NameWidth(rows), PointsWidth(rows))
  {
  }

  lemma PieceFence(gw: int, rows: Dict<string, int>, optimal: bool)
    ensures Pieces(gw, rows, optimal)[|rows| + 3] == "```"
  {
  }

  /** The printed block for a non-empty table. */
  function TableText(gw: int, table: Dict<string, int>, optimal: bool): string
  {
    Join(Pieces(gw, Standings(table), optimal))
  }

  /** print_tables: nothing when a record is missing (the unpacking of the
      missing tables fails) or the chosen table is empty (max() of no
      names fails); otherwise the block. */
  method PrintTables(teams: seq<int>, records: map<int, GwRecord>, gw: int, optimal: bool)
    returns (output: Option<string>)
    ensures TablesOf(teams, records).None? ==> output.None?
    ensures TablesOf(teams, records).Some? ==>
      var chosen := if optimal then TablesOf(teams, records).value.1 else TablesOf(teams, records).value.0;
      output == if |chosen| == 0 then None else Some(TableText(gw, chosen, optimal))
  {
    var tables := GetLeagueTables(teams, records);
    if tables.None? {
      return None;
    }
    var chosen := if optimal then tables.value.1 else tables.value.0;
    var rows := Standings(chosen);
    if |rows| == 0 {
      return None;
    }
    var text := RenderTable(gw, rows, optimal);
    return Some(text);
  }

  /** The block for the sorted rows: title and opening fence, header,
      separator, the rows, the closing fence. */
  method RenderTable(gw: int, rows: Dict<string, int>, optimal: bool) returns (text: string)
    ensures text == Join(Pieces(gw, rows, optimal))
  {
    var nameW := Longest(Keys(rows));
    var pointsW := Longest(PointTexts(rows));
    ghost var pieces := Pieces(gw, rows, optimal);
    text := Heading(gw, rows, optimal, nameW, pointsW);
    PieceRows(gw, rows, optimal, pieces);
    text := AppendRows(text, rows, nameW, pointsW, pieces);
    PieceFence(gw, rows, optimal);
    FenceJoin(pieces, |rows|, text);
    text := text + "```";
  }

  /** Appending the closing fence completes the join. */
  lemma FenceJoin(pieces: seq<string>, n: nat, text: string)
    requires |pieces| == n + 4 && text == Join(pieces[..n + 3]) && pieces[n + 3] == "```"
    ensures text + "```" == Join(pieces)
  {
    JoinStep(pieces, n + 3);
    assert pieces[..n + 4] == pieces;
  }

  /** The title with the opening fence, the header and the separator. */
  method Heading(gw: int, rows: Dict<string, int>, optimal: bool, nameW: int, pointsW: int) returns (text: string)
    requires nameW == NameWidth(rows) && pointsW == PointsWidth(rows)
    ensures text == Join(Pieces(gw, rows, optimal)[..3])
  {
    PieceTitle(gw, rows, optimal);
    PieceHeader(gw, rows, optimal);
    PieceSeparator(gw, rows, optimal);
    JoinThree(Pieces(gw, rows, optimal));
    text := Title(gw, optimal);
    text := text + HeaderLine(nameW, pointsW);
    text := text + SeparatorLine(nameW, pointsW);
  }

  /** Pieces 3.. are the row lines. */
  lemma PieceRows(gw: int, rows: Dict<string, int>, optimal: bool, pieces: seq<string>)
    requires pieces == Pieces(gw, rows, optimal)
    ensures forall k :: 0 <= k < |rows| ==> pieces[k + 3] == RowLine(k + 1, rows[k], NameWidth(rows), PointsWidth(rows))
  {
    forall k | 0 <= k < |rows|
      ensures pieces[k + 3] == RowLine(k + 1, rows[k], NameWidth(rows), PointsWidth(rows))
    {
      PieceRow(gw, rows, optimal, k);
    }
  }

  /** The rows loop of print_tables: one line per team, numbered from 1. */
  method AppendRows(text0: string, rows: Dict<string, int>, nameW: int, pointsW: int, ghost pieces: seq<string>)
    returns (text: string)
    requires |pieces| == |rows| + 4 && text0 == Join(pieces[..3])
    requires forall k :: 0 <= k < |rows| ==> pieces[k + 3] == RowLine(k + 1, rows[k], nameW, pointsW)
    ensures text == Join(pieces[..|rows| + 3])
  {
    text := text0;
    for k := 0 to |rows|
      invariant text == Join(pieces[..k + 3])
    {
      JoinStep(pieces, k + 3);
      text := text + RowLine(k + 1, rows[k], nameW, pointsW);
    }
  }

  /** The rows are the table's entries, best total first. */
  lemma RowsRanked(table: Dict<string, int>, k: nat)
    requires k < |table|
    ensures NonIncreasing(Standings(table), PairValue)
    ensures Standings(table)[k] in table
  {
    SortByOrdered(table, PairValue);
    StandingsKey(table, k);
  }

  /** Row k of a layout begins with position k + 1: positions run from 1 to
      the number of rows. */
  lemma RowPosition(rows: Dict<string, int>, nameW: int, pointsW: int, k: nat)
    requires k < |rows|
    ensures var line := Layout(rows, nameW, pointsW)[k + 2];
      |IntStr(k + 1)| <= |line| && line[..|IntStr(k + 1)|] == IntStr(k + 1)
  {
    RowStart(k + 1, rows[k], nameW, pointsW);
    LayoutRow(rows, nameW, pointsW, k);
  }

  /** A row line begins with its position. */
  lemma RowStart(pos: int, row: (string, int), nameW: int, pointsW: int)
    ensures |IntStr(pos)| <= |RowLine(pos, row, nameW, pointsW)|
    ensures RowLine(pos, row, nameW, pointsW)[..|IntStr(pos)|] == IntStr(pos)
  {
    var cell := PadRight(IntStr(pos), PosWidth);
    CellsLayout(cell, PadRight(row.0, nameW), PadLeft(IntStr(row.1), pointsW));
    assert RowLine(pos, row, nameW, pointsW)[..|IntStr(pos)|] == cell[..|IntStr(pos)|];
  }

  /** The widths hold every name and printed total. */
  ghost predicate EntriesFit(rows: Dict<string, int>, nameW: int, pointsW: int)
  {
    forall k :: 0 <= k < |rows| ==> |Keys(rows)[k]| <= nameW && |PointTexts(rows)[k]| <= pointsW
  }

  /** The widths hold both headings as well. */
  ghost predicate Fits(rows: Dict<string, int>, nameW: int, pointsW: int)
  {
    nameW >= 4 && pointsW >= 6 && EntriesFit(rows, nameW, pointsW)
  }

  /** The widths print_tables computes hold every entry, the longest of each
      column filling it; the corrected widths hold the headings too. */
  lemma ColumnsFit(rows: Dict<string, int>)
    ensures EntriesFit(rows, NameWidth(rows), PointsWidth(rows))
    ensures Fits(rows, TeamColumn(rows), PointsColumn(rows))
    ensures |rows| > 0 ==>
              && (exists k :: 0 <= k < |rows| && |rows[k].0| == NameWidth(rows))
              && (exists k :: 0 <= k < |rows| && |IntStr(rows[k].1)| == PointsWidth(rows))
  {
    if |rows| > 0 {
      var i :| 0 <= i < |rows| && |Keys(rows)[i]| == NameWidth(rows);
      var j :| 0 <= j < |rows| && |PointTexts(rows)[j]| == PointsWidth(rows);
      assert |rows[i].0| == NameWidth(rows);
      assert |IntStr(rows[j].1)| == PointsWidth(rows);
    }
  }

  /** A row line of the given widths: the name starts at column 5, followed
      by spaces up to the end of the team column, and the total ends where
      the points column ends. */
  ghost predicate Aligned(line: string, name: string, points: string, nameW: int, pointsW: int)
  {
    && 0 <= |name| <= nameW && 0 <= |points| <= pointsW
    && |line| == PosWidth + 1 + nameW + 1 + pointsW + 1
    && line[PosWidth + 1..PosWidth + 1 + |name|] == name
    && (forall i :: PosWidth + 1 + |name| <= i < PosWidth + 1 + nameW ==> line[i] == ' ')
    && line[PosWidth + 1 + nameW + 1 + pointsW - |points|..PosWidth + 1 + nameW + 1 + pointsW] == points
  }

  /** At widths that hold every entry, such as print_tables' own, every row
      (of fewer than 10000) is aligned. */
  lemma RowAlignment(rows: Dict<string, int>, nameW: int, pointsW: int, k: nat)
    requires EntriesFit(rows, nameW, pointsW) && k < |rows| < 10000
    ensures Aligned(Layout(rows, nameW, pointsW)[k + 2], rows[k].0, IntStr(rows[k].1), nameW, pointsW)
  {
    assert Keys(rows)[k] == rows[k].0 && PointTexts(rows)[k] == IntStr(rows[k].1);
    CellAlignment(k + 1, rows[k], nameW, pointsW);
    LayoutRow(rows, nameW, pointsW, k);
  }

  /** The alignment of one row whose cells fit their widths. */
  lemma CellAlignment(pos: nat, row: (string, int), nameW: int, pointsW: int)
    requires pos < 10000 && |row.0| <= nameW && |IntStr(row.1)| <= pointsW
    ensures Aligned(RowLine(pos, row, nameW, pointsW), row.0, IntStr(row.1), nameW, pointsW)
  {
    var name, points := row.0, IntStr(row.1);
    NatStrShort(pos);
    var posCell := PadRight(IntStr(pos), PosWidth);
    var nameCell := PadRight(name, nameW);
    var pointsCell := PadLeft(points, pointsW);
    CellsLayout(posCell, nameCell, pointsCell);
    var line := RowLine(pos, row, nameW, pointsW);
    assert |posCell| == PosWidth && |nameCell| == nameW && |pointsCell| == pointsW;
    var a := PosWidth + 1;
    var b := PosWidth + 1 + nameW + 1;
    assert line[a..a + nameW] == nameCell;
    assert line[b..b + pointsW] == pointsCell;
    assert line[a..a + |name|] == nameCell[..|name|];
    assert line[b + pointsW - |points|..b + pointsW] == pointsCell[pointsW - |points|..];
    forall i | a + |name| <= i < a + nameW
      ensures line[i] == ' '
    {
      assert line[i] == nameCell[i - a];
      assert nameCell == name + Fill(' ', nameW - |name|);
    }
  }

  /** At widths that hold the headings, the header and the separator are
      as long as a row. */
  lemma HeadingWidths(nameW: int, pointsW: int)
    requires nameW >= 4 && pointsW >= 6
    ensures |HeaderLine(nameW, pointsW)| == PosWidth + 1 + nameW + 1 + pointsW + 1
    ensures |SeparatorLine(nameW, pointsW)| == PosWidth + 1 + nameW + 1 + pointsW + 1
  {
    CellsLayout(PadRight("Pos", PosWidth), PadRight("Team", nameW), PadLeft("Points", pointsW));
    CellsLayout(Fill('-', PosWidth), Fill('-', nameW), Fill('-', pointsW));
  }

  /** At widths that fit, the header, the separator and every row (for
      fewer than 10000 rows) are equally long. */
  lemma LayoutEven(rows: Dict<string, int>, nameW: int, pointsW: int)
    requires Fits(rows, nameW, pointsW) && |rows| < 10000
    ensures forall i :: 0 <= i < |rows| + 2 ==>
      |Layout(rows, nameW, pointsW)[i]| == PosWidth + 1 + nameW + 1 + pointsW + 1
  {
    HeadingWidths(nameW, pointsW);
    var layout := Layout(rows, nameW, pointsW);
    assert layout[0] == HeaderLine(nameW, pointsW) && layout[1] == SeparatorLine(nameW, pointsW);
    forall i | 2 <= i < |rows| + 2
      ensures |layout[i]| == PosWidth + 1 + nameW + 1 + pointsW + 1
    {
      RowWidth(rows, nameW, pointsW, i - 2);
    }
  }

  lemma RowWidth(rows: Dict<string, int>, nameW: int, pointsW: int, k: nat)
    requires EntriesFit(rows, nameW, pointsW) && k < |rows| < 10000
    ensures |Layout(rows, nameW, pointsW)[k + 2]| == PosWidth + 1 + nameW + 1 + pointsW + 1
  {
    RowAlignment(rows, nameW, pointsW, k);
  }

  /** With the corrected widths every line of the table, header and
      separator included, is as long as the first (for fewer than 10000
      rows). */
  lemma TableEven(rows: Dict<string, int>)
    requires |rows| < 10000
    ensures var layout := Layout(rows, TeamColumn(rows), PointsColumn(rows));
      forall i :: 0 <= i < |layout| ==> |layout[i]| == |layout[0]|
  {
    ColumnsFit(rows);
    LayoutEven(rows, TeamColumn(rows), PointsColumn(rows));
  }

  /** The table print_tables prints (for fewer than 10000 rows): the
      separator and every row are as long as columns as wide as the longest
      name and the longest total, while the header is as long as those
      columns widened to hold "Team" and "Points". */
  lemma PrintedLayout(rows: Dict<string, int>)
    requires |rows| < 10000
    ensures var layout := Layout(rows, NameWidth(rows), PointsWidth(rows));
      && (forall i :: 1 <= i < |layout| ==>
            |layout[i]| == PosWidth + 1 + NameWidth(rows) + 1 + PointsWidth(rows) + 1)
      && |layout[0]| == PosWidth + 1 + TeamColumn(rows) + 1 + PointsColumn(rows) + 1
  {
    ColumnsFit(rows);
    LayoutWidths(rows, NameWidth(rows), PointsWidth(rows));
  }

  /** At widths that hold every entry, the separator and the rows are as
      long as the columns and the header as long as the columns widened to
      hold the headings. */
  lemma LayoutWidths(rows: Dict<string, int>, nameW: nat, pointsW: nat)
    requires EntriesFit(rows, nameW, pointsW) && |rows| < 10000
    ensures var layout := Layout(rows, nameW, pointsW);
      && (forall i :: 1 <= i < |layout| ==> |layout[i]| == PosWidth + 1 + nameW + 1 + pointsW + 1)
      && |layout[0]| == PosWidth + 1 + Max(4, nameW) + 1 + Max(6, pointsW) + 1
  {
    var layout := Layout(rows, nameW, pointsW);
    HeaderWidth(nameW, pointsW);
    SeparatorWidth(nameW, pointsW);
    assert layout[0] == HeaderLine(nameW, pointsW) && layout[1] == SeparatorLine(nameW, pointsW);
    forall i | 2 <= i < |layout|
      ensures |layout[i]| == PosWidth + 1 + nameW + 1 + pointsW + 1
    {
      RowWidth(rows, nameW, pointsW, i - 2);
    }
  }

  /** Every row print_tables prints (of fewer than 10000) has the name
      left-aligned and the total right-aligned in columns as wide as the
      longest name and the longest total. */
  lemma PrintedRowsAligned(rows: Dict<string, int>, k: nat)
    requires k < |rows| < 10000
    ensures Aligned(Layout(rows, NameWidth(rows), PointsWidth(rows))[k + 2], rows[k].0, IntStr(rows[k].1),
                    NameWidth(rows), PointsWidth(rows))
  {
    ColumnsFit(rows);
    RowAlignment(rows, NameWidth(rows), PointsWidth(rows), k);
  }

  /** The header is as long as columns widened to hold their headings. */
  lemma HeaderWidth(nameW: nat, pointsW: nat)
    ensures |HeaderLine(nameW, pointsW)| == PosWidth + 1 + Max(4, nameW) + 1 + Max(6, pointsW) + 1
  {
    CellsLayout(PadRight("Pos", PosWidth), PadRight("Team", nameW), PadLeft("Points", pointsW));
  }

  /** The separator is exactly as long as the columns. */
  lemma SeparatorWidth(nameW: nat, pointsW: nat)
    ensures |SeparatorLine(nameW, pointsW)| == PosWidth + 1 + nameW + 1 + pointsW + 1
  {
    CellsLayout(Fill('-', PosWidth), Fill('-', nameW), Fill('-', pointsW));
  }

  /** With a three-digit total the "Points" heading overhangs its column: a
      one-team table with total 523 is printed with a header three
      characters longer than its separator and its row. */
  lemma HeaderOverhang()
    ensures var rows := [("Team A", 523)];
      var layout := Layout(rows, NameWidth(rows), PointsWidth(rows));
      |layout[0]| == 19 && |layout[1]| == 16 && |layout[2]| == 16
  {
    var rows := [("Team A", 523)];
    assert NatStr(523) == "523";
    assert NameWidth(rows) == 6;
    assert PointsWidth(rows) == 3;
    LayoutRow(rows, 6, 3, 0);
  }
}
