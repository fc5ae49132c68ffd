/** A sheet as the extractor reads it: a header-less grid of optional text cells.
    `None` is a cell pandas reports as missing (`pd.notna` is false); rows may be
    shorter than others, which reads the same as being padded with missing cells. */
module Sheets {
  import opened Text
  import opened Classifier

  datatype Option<T> = None | Some(value: T)

  type Cell = Option<string>
  type Row = seq<Cell>
  type Sheet = seq<Row>

  function Min(a: int, b: int): int { if a <= b then a else b }

  /** A cell is blank when it is missing or its stripped text is empty. */
  predicate IsBlankCell(c: Cell) {
    c.None? || Strip(c.value) == []
  }

  predicate IsBlankRow(row: Row) {
    forall j :: 0 <= j < |row| ==> IsBlankCell(row[j])
  }

  /** A present cell whose stripped text the strict classifier accepts. */
  predicate IsClassifiedCell(c: Cell) {
    c.Some? && IsValidFilename(Strip(c.value))
  }

  /** The stripped texts of the classified cells, in column order. */
  function ClassifiedTexts(cells: seq<Cell>): (r: seq<string>)
    ensures forall x :: x in r ==> IsValidFilename(x)
    decreases |cells|
  {
    if |cells| == 0 then []
    else
      var r := ClassifiedTexts(cells[..|cells| - 1]);
      var c := cells[|cells| - 1];
      if IsClassifiedCell(c) then r + [Strip(c.value)] else r
  }

  /** Cell `j` of `cells` is classified and its stripped text is `x`. */
  predicate ClassifiedAt(cells: seq<Cell>, j: int, x: string) {
    0 <= j < |cells| && IsClassifiedCell(cells[j]) && Strip(cells[j].value) == x
  }

  /** One more cell adds its stripped text when it is classified. */
  lemma ClassifiedTextsStep(cells: seq<Cell>)
    requires |cells| > 0
    ensures var c := cells[|cells| - 1];
      ClassifiedTexts(cells) == ClassifiedTexts(cells[..|cells| - 1]) + (if IsClassifiedCell(c) then [Strip(c.value)] else [])
  {
  }

  /** Every text ClassifiedTexts holds comes from a classified cell. */
  lemma {:induction false} ClassifiedTextsFromCells(cells: seq<Cell>, x: string)
    requires x in ClassifiedTexts(cells)
    ensures exists j :: ClassifiedAt(cells, j, x)
    decreases |cells|
  {
    var n := |cells| - 1;
    var init := cells[..n];
    ClassifiedTextsStep(cells);
    if x in ClassifiedTexts(init) {
      ClassifiedTextsFromCells(init, x);
      var j :| ClassifiedAt(init, j, x);
      assert init[j] == cells[j];
      assert ClassifiedAt(cells, j, x);
    } else {
      assert ClassifiedAt(cells, n, x);
    }
  }

  /** Every classified cell's stripped text is in ClassifiedTexts. */
  lemma {:induction false} CellsAreClassifiedTexts(cells: seq<Cell>, j: int, x: string)
    requires ClassifiedAt(cells, j, x)
    ensures x in ClassifiedTexts(cells)
    decreases |cells|
  {
    var n := |cells| - 1;
    var init := cells[..n];
    ClassifiedTextsStep(cells);
    if j < n {
      assert init[j] == cells[j];
      assert ClassifiedAt(init, j, x);
      CellsAreClassifiedTexts(init, j, x);
    }
  }

  /** ClassifiedTexts holds exactly the stripped texts of the classified cells. */
  lemma ClassifiedTextsMembers(cells: seq<Cell>, x: string)
    ensures x in ClassifiedTexts(cells) <==> exists j :: ClassifiedAt(cells, j, x)
  {
    if x in ClassifiedTexts(cells) {
      ClassifiedTextsFromCells(cells, x);
    }
    if exists j :: ClassifiedAt(cells, j, x) {
      var j :| ClassifiedAt(cells, j, x);
      CellsAreClassifiedTexts(cells, j, x);
    }
  }
}
