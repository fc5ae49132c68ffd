/** `extract_all_files_from_sheet` (ar3.java:216-227): the fallback that collects
    every classified cell of a sheet, row by row, without looking at sections. */
module SheetSweep {
  import opened Text
  import opened Seqs
  import opened Classifier
  import opened Sheets

  /** The classified texts of rows [0, n), in row-major order, repeats kept. */
  function AllTexts(sheet: Sheet, n: nat): seq<string>
    requires n <= |sheet|
    decreases n
  {
    if n == 0 then [] else AllTexts(sheet, n - 1) + ClassifiedTexts(sheet[n - 1])
  }

  /** What the sweep returns: the distinct classified texts in first-seen order. */
  function Sweep(sheet: Sheet): seq<string> {
    Dedup(AllTexts(sheet, |sheet|))
  }

  /** Cell (r, c) of the sheet is classified and its stripped text is `x`. */
  predicate ClassifiedCellAt(sheet: Sheet, r: int, c: int, x: string) {
    0 <= r < |sheet| && ClassifiedAt(sheet[r], c, x)
  }

  lemma {:induction false} AllTextsMembers(sheet: Sheet, n: nat, x: string)
    requires n <= |sheet|
    ensures x in AllTexts(sheet, n) <==> exists r, c :: r < n && ClassifiedCellAt(sheet, r, c, x)
    decreases n
  {
    if n > 0 {
      AllTextsMembers(sheet, n - 1, x);
      ClassifiedTextsMembers(sheet[n - 1], x);
      assert AllTexts(sheet, n) == AllTexts(sheet, n - 1) + ClassifiedTexts(sheet[n - 1]);
      if x in AllTexts(sheet, n) {
        if x in AllTexts(sheet, n - 1) {
          var r, c :| r < n - 1 && ClassifiedCellAt(sheet, r, c, x);
          assert r < n && ClassifiedCellAt(sheet, r, c, x);
        } else {
          var c :| ClassifiedAt(sheet[n - 1], c, x);
          assert ClassifiedCellAt(sheet, n - 1, c, x);
        }
      }
      if exists r, c :: r < n && ClassifiedCellAt(sheet, r, c, x) {
        var r, c :| r < n && ClassifiedCellAt(sheet, r, c, x);
        if r == n - 1 {
          assert ClassifiedAt(sheet[n - 1], c, x);
        } else {
          assert r < n - 1 && ClassifiedCellAt(sheet, r, c, x);
        }
      }
    }
  }

  /** The sweep returns each text of a classified cell exactly once, and nothing
      else. */
  lemma SweepMembers(sheet: Sheet, x: string)
    ensures x in Sweep(sheet) <==> exists r, c :: ClassifiedCellAt(sheet, r, c, x)
    ensures NoDup(Sweep(sheet))
  {
    AllTextsMembers(sheet, |sheet|, x);
  }

  /** Every swept text is a stripped text that the strict classifier accepts. */
  lemma SweepAccepted(sheet: Sheet, x: string)
    requires x in Sweep(sheet)
    ensures IsValidFilename(x) && Strip(x) == x
  {
    SweepMembers(sheet, x);
    var r, c :| ClassifiedCellAt(sheet, r, c, x);
    StripIdempotent(sheet[r][c].value);
  }

  /** `extract_all_files_from_sheet`: visit every cell in row-major order and append
      each classified text not collected yet. */
  method ExtractAllFiles(sheet: Sheet) returns (files: seq<string>)
    ensures files == Sweep(sheet)
  {
    files := [];
    var i := 0;
    while i < |sheet|
      invariant 0 <= i <= |sheet|
      invariant files == Dedup(AllTexts(sheet, i))
    {
      var row := sheet[i];
      var j := 0;
      assert AllTexts(sheet, i) + ClassifiedTexts(row[..0]) == AllTexts(sheet, i);
      while j < |row|
        invariant 0 <= j <= |row|
        invariant files == Dedup(AllTexts(sheet, i) + ClassifiedTexts(row[..j]))
      {
        ghost var before := AllTexts(sheet, i) + ClassifiedTexts(row[..j]);
        assert row[..j + 1][..j] == row[..j];
        if row[j].Some? {
          var cell := Strip(row[j].value);
          if IsValidFilename(cell) {
            assert ClassifiedTexts(row[..j + 1]) == ClassifiedTexts(row[..j]) + [cell];
            assert before + [cell] == AllTexts(sheet, i) + ClassifiedTexts(row[..j + 1]);
            DedupSnoc(before, cell);
          }
          if IsValidFilename(cell) && cell !in files {
            files := files + [cell];
          }
        }
        j := j + 1;
      }
      assert row[..j] == row;
      i := i + 1;
    }
  }
}
