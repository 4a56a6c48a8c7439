/**
 The bounded view of a query result that an answer is generated from: at most 20 rows, cells of
 text at most 100 characters, and a flag that says when something was cut.
 */
module AnswerContexts {
  import opened Numerals
  import opened Options

  const MAX_ROWS_IN_CONTEXT := 20
  const MAX_CELL_LENGTH := 100
  const ELLIPSIS := "..."

  // A cell of a query result: missing, text, or a value known by how it prints.
  datatype Cell = Missing | Text(text: string) | Printed(shown: string)

  type Cells = seq<Cell>

  // What the caller knows beside the rows; passed through as it stands.
  datatype Source = Source(
    userInput: string, resultId: string, modelKey: string, columns: seq<string>,
    rowCount: int, truncated: bool, sourceMode: string, topN: Option<int>)

  datatype AnswerContext = AnswerContext(source: Source, rows: seq<Cells>, inputTruncated: bool)

  datatype Built = Built(context: AnswerContext) | Invalid

  // The field constraints of the context model.
  predicate Admissible(source: Source) {
    && source.userInput != "" && source.resultId != "" && source.modelKey != ""
    && (source.topN.Some? ==> source.topN.value >= 1)
  }

  predicate TooLong(cell: Cell) {
    cell.Text? && |cell.text| > MAX_CELL_LENGTH
  }

  function Fit(cell: Cell): Cell {
    if TooLong(cell) then Text(cell.text[..MAX_CELL_LENGTH] + ELLIPSIS) else cell
  }

  function FitRow(row: Cells): Cells {
    seq(|row|, j requires 0 <= j < |row| => Fit(row[j]))
  }

  function Shown(rows: seq<Cells>): seq<Cells> {
    if |rows| > MAX_ROWS_IN_CONTEXT then rows[..MAX_ROWS_IN_CONTEXT] else rows
  }

  function FitRows(rows: seq<Cells>): seq<Cells> {
    seq(|Shown(rows)|, i requires 0 <= i < |Shown(rows)| => FitRow(Shown(rows)[i]))
  }

  predicate LongCell(row: Cells) {
    exists j :: 0 <= j < |row| && TooLong(row[j])
  }

  predicate SomeCellCut(rows: seq<Cells>) {
    exists i :: 0 <= i < |rows| && LongCell(rows[i])
  }

  /** The rows are the fitted ones, and the flag is up exactly when a row or a cell was cut. */
  method Build(source: Source, rows: seq<Cells>) returns (built: Built)
    ensures built.Invalid? <==> !Admissible(source)
    ensures built.Built? ==>
              && built.context.source == source
              && built.context.rows == FitRows(rows)
              && (built.context.inputTruncated <==> |rows| > MAX_ROWS_IN_CONTEXT || SomeCellCut(Shown(rows)))
  {
    var inputTruncated := false;
    var safeRows := rows;
    if |safeRows| > MAX_ROWS_IN_CONTEXT {
      safeRows := safeRows[..MAX_ROWS_IN_CONTEXT];
      inputTruncated := true;
    }
    var truncatedRows: seq<Cells> := [];
    for i := 0 to |safeRows|
      invariant truncatedRows == FitRows(rows)[..i]
      invariant inputTruncated <==> |rows| > MAX_ROWS_IN_CONTEXT || SomeCellCut(safeRows[..i])
    {
      var row, safeRow: Cells := safeRows[i], [];
      ghost var before := inputTruncated;
      for j := 0 to |row|
        invariant safeRow == FitRow(row)[..j]
        invariant inputTruncated <==> before || LongCell(row[..j])
      {
        assert row[..j + 1] == row[..j] + [row[j]];
        if TooLong(row[j]) {
          safeRow := safeRow + [Text(row[j].text[..MAX_CELL_LENGTH] + ELLIPSIS)];
          inputTruncated := true;
          assert row[..j + 1][j] == row[j];
        } else {
          safeRow := safeRow + [row[j]];
          LongCellStep(row, j);
        }
      }
      assert row[..|row|] == row && FitRow(row)[..|row|] == FitRow(row);
      truncatedRows := truncatedRows + [safeRow];
      SomeCellCutStep(safeRows, i);
    }
    assert safeRows[..|safeRows|] == safeRows && FitRows(rows)[..|safeRows|] == FitRows(rows);
    built := if Admissible(source) then Built(AnswerContext(source, truncatedRows, inputTruncated)) else Invalid;
  }

  lemma LongCellStep(row: Cells, j: nat)
    requires j < |row|
    ensures LongCell(row[..j + 1]) <==> LongCell(row[..j]) || TooLong(row[j])
  {
    var before, after := row[..j], row[..j + 1];
    if k :| 0 <= k < j && TooLong(before[k]) {
      assert TooLong(after[k]);
    }
    if k :| 0 <= k < j + 1 && TooLong(after[k]) {
      assert k < j ==> TooLong(before[k]);
    }
    assert after[j] == row[j];
  }

  lemma SomeCellCutStep(rows: seq<Cells>, i: nat)
    requires i < |rows|
    ensures SomeCellCut(rows[..i + 1]) <==> SomeCellCut(rows[..i]) || LongCell(rows[i])
  {
    var before, after := rows[..i], rows[..i + 1];
    if k :| 0 <= k < i && LongCell(before[k]) {
      assert LongCell(after[k]);
    }
    if k :| 0 <= k < i + 1 && LongCell(after[k]) {
      assert k < i ==> LongCell(before[k]);
    }
    assert after[i] == rows[i];
  }

  /** The context has the first 20 rows, or all of fewer. A text of more than 100 characters is
      replaced by its first 100 and three dots; every other cell is as it was. */
  lemma RowsArePrefixes(rows: seq<Cells>)
    ensures |FitRows(rows)| == if |rows| < 20 then |rows| else 20
    ensures forall i :: 0 <= i < |FitRows(rows)| ==> |FitRows(rows)[i]| == |rows[i]|
    ensures forall i, j :: 0 <= i < |FitRows(rows)| && 0 <= j < |rows[i]| ==>
              FitRows(rows)[i][j] ==
                if rows[i][j].Text? && |rows[i][j].text| > 100 then Text(rows[i][j].text[..100] + "...") else rows[i][j]
  {
  }

  /** And the flag is up exactly when there were more rows than that or such a text among them. */
  lemma FlagIs(rows: seq<Cells>)
    ensures |rows| > MAX_ROWS_IN_CONTEXT || SomeCellCut(Shown(rows)) <==>
              || |rows| > 20
              || exists i, j :: 0 <= i < |rows| && 0 <= j < |rows[i]| && rows[i][j].Text? && |rows[i][j].text| > 100
  {
    if |rows| <= 20 {
      assert Shown(rows) == rows;
      if SomeCellCut(rows) {
        var i :| 0 <= i < |rows| && LongCell(rows[i]);
        var j :| 0 <= j < |rows[i]| && TooLong(rows[i][j]);
      }
      if i, j :| 0 <= i < |rows| && 0 <= j < |rows[i]| && rows[i][j].Text? && |rows[i][j].text| > 100 {
        assert TooLong(rows[i][j]) && LongCell(rows[i]);
      }
    }
  }

  /** Building again from the context's own rows gives those rows, with the flag up again exactly
      when a cell was cut the first time: a cut cell is longer than the limit it was cut to. */
  lemma RebuildKeepsRows(rows: seq<Cells>)
    ensures FitRows(FitRows(rows)) == FitRows(rows)
    ensures |FitRows(rows)| <= MAX_ROWS_IN_CONTEXT
    ensures SomeCellCut(Shown(FitRows(rows))) <==> SomeCellCut(Shown(rows))
  {
    var fitted, shown := FitRows(rows), Shown(rows);
    assert Shown(fitted) == fitted;
    forall i | 0 <= i < |fitted|
      ensures FitRow(fitted[i]) == fitted[i] && LongCell(fitted[i]) == LongCell(shown[i])
    {
      RefitRow(shown[i]);
    }
    assert FitRows(fitted) == fitted;
  }

  lemma RefitRow(row: Cells)
    ensures FitRow(FitRow(row)) == FitRow(row)
    ensures LongCell(FitRow(row)) == LongCell(row)
  {
    forall j | 0 <= j < |row| ensures Fit(Fit(row[j])) == Fit(row[j]) && TooLong(Fit(row[j])) == TooLong(row[j]) {
      if TooLong(row[j]) {
        assert Fit(row[j]).text[..MAX_CELL_LENGTH] == row[j].text[..MAX_CELL_LENGTH];
      }
    }
    assert FitRow(FitRow(row)) == FitRow(row);
    if j :| 0 <= j < |row| && TooLong(row[j]) {
      assert TooLong(FitRow(row)[j]);
    }
  }

  // --- Rendering ---

  function Show(cell: Cell): string {
    match cell
    case Missing => "null"
    case Text(text) => text
    case Printed(shown) => shown
  }

  function Join(parts: seq<string>, separator: string): string {
    if parts == [] then ""
    else if |parts| == 1 then parts[0]
    else parts[0] + separator + Join(parts[1..], separator)
  }

  // What comes before and after the part at k.
  function JoinBefore(parts: seq<string>, separator: string, k: nat): string
    requires k < |parts|
  {
    if k == 0 then "" else Join(parts[..k], separator) + separator
  }

  function JoinAfter(parts: seq<string>, separator: string, k: nat): string
    requires k < |parts|
  {
    if k == |parts| - 1 then "" else separator + Join(parts[k + 1..], separator)
  }

  lemma JoinCons(first: string, rest: seq<string>, separator: string)
    requires rest != []
    ensures Join([first] + rest, separator) == first + separator + Join(rest, separator)
  {
    assert ([first] + rest)[1..] == rest;
  }

  /** Every part stands in the joined text, between its separators and the others' joined texts. */
  lemma {:induction false} PartStandsInJoin(parts: seq<string>, separator: string, k: nat)
    requires k < |parts|
    ensures Join(parts, separator) == JoinBefore(parts, separator, k) + parts[k] + JoinAfter(parts, separator, k)
    decreases |parts|
  {
    if k > 0 {
      var first, rest := parts[0], parts[1..];
      PartStandsInJoin(rest, separator, k - 1);
      assert parts == [first] + rest;
      JoinCons(first, rest, separator);
      NeighboursCons(first, rest, separator, k);
      hide Join, JoinBefore, JoinAfter;
      var before, after := JoinBefore(rest, separator, k - 1), JoinAfter(rest, separator, k - 1);
      assert first + separator + (before + parts[k] + after) == (first + separator + before) + parts[k] + after;
    }
  }

  lemma NeighboursCons(first: string, rest: seq<string>, separator: string, k: nat)
    requires 0 < k <= |rest|
    ensures JoinBefore([first] + rest, separator, k) == first + separator + JoinBefore(rest, separator, k - 1)
    ensures JoinAfter([first] + rest, separator, k) == JoinAfter(rest, separator, k - 1)
  {
    var parts := [first] + rest;
    assert rest[k..] == parts[k + 1..];
    if k == 1 {
      assert parts[..1] == [first];
      assert first + separator + "" == first + separator;
    } else {
      assert parts[..k] == [first] + rest[..k - 1];
      JoinCons(first, rest[..k - 1], separator);
      hide Join;
      assert first + separator + Join(rest[..k - 1], separator) + separator ==
             first + separator + (Join(rest[..k - 1], separator) + separator);
    }
  }

  function RowLine(i: nat, row: Cells): string {
    "  [" + Digits(i) + "] " + Join(seq(|row|, j requires 0 <= j < |row| => Show(row[j])), ", ")
  }

  function OverflowLine(total: nat, limit: nat): string {
    "  ...（共 " + Digits(total) + " 行，仅显示前 " + Digits(limit) + " 行）"
  }

  // One line for every row there is.
  function RowLines(rows: seq<Cells>): seq<string> {
    seq(|rows|, i requires 0 <= i < |rows| => RowLine(i, rows[i]))
  }

  /** Rows up to the limit are printed in order; only more rows than that bring the overflow line. */
  method RenderRows(rows: seq<Cells>, maxDisplay: nat) returns (text: string)
    ensures rows == [] ==> text == "（无数据行）"
    ensures 0 < |rows| <= maxDisplay ==> text == Join(RowLines(rows), "\n")
    ensures |rows| > maxDisplay ==>
              text == Join(RowLines(rows[..maxDisplay]) + [OverflowLine(|rows|, maxDisplay)], "\n")
  {
    if rows == [] {
      return "（无数据行）";
    }
    var shown := if |rows| <= maxDisplay then rows else rows[..maxDisplay];
    var lines: seq<string> := [];
    for i := 0 to |shown|
      invariant lines == RowLines(shown)[..i]
    {
      var cells: seq<string> := [];
      for j := 0 to |shown[i]|
        invariant |cells| == j && forall k :: 0 <= k < j ==> cells[k] == Show(shown[i][k])
      {
        cells := cells + [Show(shown[i][j])];
      }
      assert cells == seq(|shown[i]|, j requires 0 <= j < |shown[i]| => Show(shown[i][j]));
      lines := lines + ["  [" + Digits(i) + "] " + Join(cells, ", ")];
    }
    assert RowLines(shown)[..|shown|] == RowLines(shown);
    if |rows| > maxDisplay {
      lines := lines + [OverflowLine(|rows|, maxDisplay)];
    }
    text := Join(lines, "\n");
  }

  /** The prompt of a built context shows every one of its rows; the overflow line is never reached. */
  method RenderContext(source: Source, rows: seq<Cells>) returns (text: string)
    requires Admissible(source)
    ensures text == if rows == [] then "（无数据行）" else Join(RowLines(FitRows(rows)), "\n")
  {
    var built := Build(source, rows);
    RowsArePrefixes(rows);
    text := RenderRows(built.context.rows, 20);
  }
}
