/** `find_files_in_section` (ar3.java:68-131): the row scan that finds a section
    header such as "FILES IN" and collects the filenames below it until another
    section starts or the list runs into blank rows. */
module SectionScanner {
  import opened Text
  import opened Seqs
  import opened Classifier
  import opened Sheets
  import opened SheetSweep

  /** Headers whose appearance inside a section ends it. */
  const SectionKeywords: seq<string> := ["FILES OUT", "FILES IN", "TABLES", "EXECUTION", "BATCH DETAILS"]

  // ---------------------------------------------------------------------------
  // Cell tests
  // ---------------------------------------------------------------------------

  /** A present cell whose stripped, upper-cased text contains the upper-cased
      section name. */
  predicate NamesSection(c: Cell, name: string) {
    c.Some? && Contains(Upper(Strip(c.value)), Upper(name))
  }

  predicate RowNamesSection(row: Row, name: string) {
    exists j :: 0 <= j < |row| && NamesSection(row[j], name)
  }

  /** A present cell naming one of the section keywords but not the section being
      collected: the start of another section. */
  predicate IsSiblingHeader(c: Cell, name: string) {
    c.Some? &&
    var u := Upper(Strip(c.value));
    (exists k :: 0 <= k < |SectionKeywords| && Contains(u, SectionKeywords[k])) &&
    !Contains(u, Upper(name))
  }

  /** The mapping and conversion columns the scan skips. */
  predicate IsMarker(t: string) {
    var u := Upper(t);
    Contains(u, "MAPPED_TO") || Contains(u, "CONVERT REQUIRED") || u in ["Y/N/?", "Y", "N"]
  }

  // ---------------------------------------------------------------------------
  // One row
  // ---------------------------------------------------------------------------

  /** The column of the first sibling header at or after `j`, or |row| if none. */
  function FirstStop(row: Row, name: string, j: nat): (k: nat)
    requires j <= |row|
    ensures j <= k <= |row|
    decreases |row| - j
  {
    if j == |row| then j
    else if IsSiblingHeader(row[j], name) then j
    else FirstStop(row, name, j + 1)
  }

  /** FirstStop finds the first sibling header at or after `j`. */
  lemma {:induction false} FirstStopIsFirst(row: Row, name: string, j: nat)
    requires j <= |row|
    ensures var k := FirstStop(row, name, j);
      (forall m :: j <= m < k ==> !IsSiblingHeader(row[m], name)) &&
      (k < |row| ==> IsSiblingHeader(row[k], name))
    decreases |row| - j
  {
    if j < |row| && !IsSiblingHeader(row[j], name) {
      FirstStopIsFirst(row, name, j + 1);
    }
  }

  /** A sibling header occurs in the row. */
  predicate RowStops(row: Row, name: string) {
    FirstStop(row, name, 0) < |row|
  }

  /** The files a section row yields: the classified cells left of its first
      sibling header. The source also skips marker cells (MAPPED_TO, CONVERT
      REQUIRED, Y, N, Y/N/?) before classifying; MarkersAreNeverFiles shows that
      skip changes nothing, and CollectRow performs it. */
  function RowFiles(row: Row, name: string): seq<string> {
    ClassifiedTexts(row[..FirstStop(row, name, 0)])
  }

  // ---------------------------------------------------------------------------
  // The whole scan
  // ---------------------------------------------------------------------------

  /** The first row at or after `i` that names the section. */
  function HeaderFrom(sheet: Sheet, name: string, i: nat): (r: Option<nat>)
    requires i <= |sheet|
    ensures r.Some? ==> i <= r.value < |sheet|
    decreases |sheet| - i
  {
    if i == |sheet| then None
    else if RowNamesSection(sheet[i], name) then Some(i)
    else HeaderFrom(sheet, name, i + 1)
  }

  /** HeaderFrom finds the first row at or after `i` naming the section. */
  lemma {:induction false} HeaderFromIsFirst(sheet: Sheet, name: string, i: nat)
    requires i <= |sheet|
    ensures var r := HeaderFrom(sheet, name, i);
      (r.Some? ==> RowNamesSection(sheet[r.value], name)) &&
      (r.Some? ==> forall k :: i <= k < r.value ==> !RowNamesSection(sheet[k], name)) &&
      (r.None? ==> forall k :: i <= k < |sheet| ==> !RowNamesSection(sheet[k], name))
    decreases |sheet| - i
  {
    if i < |sheet| && !RowNamesSection(sheet[i], name) {
      HeaderFromIsFirst(sheet, name, i + 1);
    }
  }

  function HeaderRow(sheet: Sheet, name: string): Option<nat> {
    HeaderFrom(sheet, name, 0)
  }

  /** The number of blank rows among rows [lo, hi). */
  function BlankCount(sheet: Sheet, lo: nat, hi: nat): (n: nat)
    requires lo <= hi <= |sheet|
    ensures n <= hi - lo
    decreases hi
  {
    if hi == lo then 0
    else BlankCount(sheet, lo, hi - 1) + (if IsBlankRow(sheet[hi - 1]) then 1 else 0)
  }

  /** At least two of row `i` and the two rows after it are blank. */
  predicate BlankRunAt(sheet: Sheet, i: nat)
    requires i < |sheet|
  {
    BlankCount(sheet, i, Min(i + 3, |sheet|)) >= 2
  }

  /** The section ends at row `i` (given whether files were collected before it):
      the row holds a sibling header, or it yields no file after some file was
      collected and a blank run starts at it. */
  predicate EndsAt(sheet: Sheet, name: string, i: nat, seen: bool)
    requires i < |sheet|
  {
    RowStops(sheet[i], name) || (RowFiles(sheet[i], name) == [] && seen && BlankRunAt(sheet, i))
  }

  /** The first row at or after `i` at which the section ends, or |sheet|. */
  function EndRow(sheet: Sheet, name: string, i: nat, seen: bool): (e: nat)
    requires i <= |sheet|
    ensures i <= e <= |sheet|
    decreases |sheet| - i
  {
    if i == |sheet| then i
    else if EndsAt(sheet, name, i, seen) then i
    else EndRow(sheet, name, i + 1, seen || RowFiles(sheet[i], name) != [])
  }

  /** The row files of rows [lo, hi), concatenated. */
  function Contributions(sheet: Sheet, name: string, lo: nat, hi: nat): (r: seq<string>)
    requires lo <= hi <= |sheet|
    decreases hi
  {
    if hi == lo then []
    else Contributions(sheet, name, lo, hi - 1) + RowFiles(sheet[hi - 1], name)
  }

  /** Contributions split at their first row. */
  lemma {:induction false} ContributionsFront(sheet: Sheet, name: string, lo: nat, hi: nat)
    requires lo < hi <= |sheet|
    ensures Contributions(sheet, name, lo, hi) ==
      RowFiles(sheet[lo], name) + Contributions(sheet, name, lo + 1, hi)
    decreases hi
  {
    if hi > lo + 1 {
      ContributionsFront(sheet, name, lo, hi - 1);
    }
  }

  /** Whether some file was collected before row `r`, reading from row `i`. */
  predicate SeenBefore(sheet: Sheet, name: string, i: nat, seen: bool, r: nat)
    requires i <= r <= |sheet|
  {
    seen || Contributions(sheet, name, i, r) != []
  }

  /** EndRow is the first row at or after `i` at which the section ends, given
      what was collected before that row. */
  lemma {:induction false} EndRowIsFirst(sheet: Sheet, name: string, i: nat, seen: bool)
    requires i <= |sheet|
    ensures var e := EndRow(sheet, name, i, seen);
      (forall r :: i <= r < e ==> !EndsAt(sheet, name, r, SeenBefore(sheet, name, i, seen, r))) &&
      (e < |sheet| ==> EndsAt(sheet, name, e, SeenBefore(sheet, name, i, seen, e)))
    decreases |sheet| - i
  {
    if i < |sheet| && !EndsAt(sheet, name, i, seen) {
      var seen' := seen || RowFiles(sheet[i], name) != [];
      EndRowIsFirst(sheet, name, i + 1, seen');
      var e := EndRow(sheet, name, i, seen);
      assert e == EndRow(sheet, name, i + 1, seen');
      forall r | i + 1 <= r <= e && r < |sheet|
        ensures SeenBefore(sheet, name, i, seen, r) == SeenBefore(sheet, name, i + 1, seen', r)
      {
        ContributionsFront(sheet, name, i, r);
      }
      assert SeenBefore(sheet, name, i, seen, i) == seen;
    }
  }

  /** What `find_files_in_section` returns: nothing without a header row; else the
      distinct row files, in first-seen order, of the rows after the header up to
      and including the row at which the section ends. */
  function Scan(sheet: Sheet, name: string): seq<string> {
    match HeaderRow(sheet, name)
    case None => []
    case Some(h) => Dedup(Contributions(sheet, name, h + 1, SectionEnd(sheet, name, h)))
  }

  lemma ScanWithHeader(sheet: Sheet, name: string, h: nat)
    requires HeaderRow(sheet, name) == Some(h)
    ensures h < |sheet| && Scan(sheet, name) == Dedup(Contributions(sheet, name, h + 1, SectionEnd(sheet, name, h)))
  {
  }

  /** One past the last row read for a section whose header is row `h`. */
  function SectionEnd(sheet: Sheet, name: string, h: nat): (e: nat)
    requires h < |sheet|
    ensures h + 1 <= e <= |sheet|
  {
    var e := EndRow(sheet, name, h + 1, false);
    if e < |sheet| then e + 1 else |sheet|
  }

  // ---------------------------------------------------------------------------
  // What the scan returns
  // ---------------------------------------------------------------------------

  /** Cell (r, c), in a row of [lo, hi) and left of that row's first sibling
      header, is a classified cell whose stripped text is `x`. */
  predicate RowsCollectedAt(sheet: Sheet, name: string, lo: nat, hi: nat, r: int, c: int, x: string) {
    lo <= r < hi <= |sheet| && c < FirstStop(sheet[r], name, 0) && ClassifiedAt(sheet[r], c, x)
  }

  lemma RowFilesMembers(row: Row, name: string, x: string)
    ensures x in RowFiles(row, name) <==> exists c :: c < FirstStop(row, name, 0) && ClassifiedAt(row, c, x)
  {
    var k := FirstStop(row, name, 0);
    ClassifiedTextsMembers(row[..k], x);
    if x in RowFiles(row, name) {
      var c :| ClassifiedAt(row[..k], c, x);
      assert row[..k][c] == row[c];
      assert ClassifiedAt(row, c, x);
    }
    if exists c :: c < k && ClassifiedAt(row, c, x) {
      var c :| c < k && ClassifiedAt(row, c, x);
      assert ClassifiedAt(row, c, x);
      assert 0 <= c;
      assert c < k;
      assert row[..k][c] == row[c];
      assert ClassifiedAt(row[..k], c, x);
    }
  }

  /** A text is contributed by rows [lo, hi) iff it comes from the rows before
      the last or from the last row. */
  lemma ContributionsStep(sheet: Sheet, name: string, lo: nat, hi: nat, x: string)
    requires lo < hi <= |sheet|
    ensures x in Contributions(sheet, name, lo, hi) <==>
      x in Contributions(sheet, name, lo, hi - 1) || x in RowFiles(sheet[hi - 1], name)
  {
    assert Contributions(sheet, name, lo, hi) ==
      Contributions(sheet, name, lo, hi - 1) + RowFiles(sheet[hi - 1], name);
  }

  /** Every contributed text comes from a collected cell. */
  lemma {:induction false} ContributionsFromCells(sheet: Sheet, name: string, lo: nat, hi: nat, x: string)
    requires lo <= hi <= |sheet| && x in Contributions(sheet, name, lo, hi)
    ensures exists r, c :: RowsCollectedAt(sheet, name, lo, hi, r, c, x)
    decreases hi
  {
    ContributionsStep(sheet, name, lo, hi, x);
    if x in Contributions(sheet, name, lo, hi - 1) {
      ContributionsFromCells(sheet, name, lo, hi - 1, x);
      var r, c :| RowsCollectedAt(sheet, name, lo, hi - 1, r, c, x);
      assert RowsCollectedAt(sheet, name, lo, hi, r, c, x);
    } else {
      RowFilesMembers(sheet[hi - 1], name, x);
      var c :| c < FirstStop(sheet[hi - 1], name, 0) && ClassifiedAt(sheet[hi - 1], c, x);
      assert RowsCollectedAt(sheet, name, lo, hi, hi - 1, c, x);
    }
  }

  /** Every collected cell's text is contributed. */
  lemma {:induction false} CellsContribute(sheet: Sheet, name: string, lo: nat, hi: nat, r: int, c: int, x: string)
    requires RowsCollectedAt(sheet, name, lo, hi, r, c, x)
    ensures x in Contributions(sheet, name, lo, hi)
    decreases hi
  {
    ContributionsStep(sheet, name, lo, hi, x);
    if r < hi - 1 {
      assert RowsCollectedAt(sheet, name, lo, hi - 1, r, c, x);
      CellsContribute(sheet, name, lo, hi - 1, r, c, x);
    } else {
      RowFilesMembers(sheet[hi - 1], name, x);
      assert c < FirstStop(sheet[hi - 1], name, 0) && ClassifiedAt(sheet[hi - 1], c, x);
    }
  }

  lemma ContributionsMembers(sheet: Sheet, name: string, lo: nat, hi: nat, x: string)
    requires lo <= hi <= |sheet|
    ensures x in Contributions(sheet, name, lo, hi) <==> exists r, c :: RowsCollectedAt(sheet, name, lo, hi, r, c, x)
  {
    if x in Contributions(sheet, name, lo, hi) {
      ContributionsFromCells(sheet, name, lo, hi, x);
    }
    if exists r, c :: RowsCollectedAt(sheet, name, lo, hi, r, c, x) {
      var r, c :| RowsCollectedAt(sheet, name, lo, hi, r, c, x);
      CellsContribute(sheet, name, lo, hi, r, c, x);
    }
  }

  /** Cell (r, c) is collected for the section whose header is row `h`. */
  predicate InSection(sheet: Sheet, name: string, h: nat, r: int, c: int, x: string) {
    h < |sheet| && RowsCollectedAt(sheet, name, h + 1, SectionEnd(sheet, name, h), r, c, x)
  }

  /** A scan finds nothing without a header row. */
  lemma ScanWithoutHeader(sheet: Sheet, name: string)
    requires HeaderRow(sheet, name).None?
    ensures Scan(sheet, name) == []
  {
  }

  /** With a header row `h`, a scan returns, once each, exactly the texts of the
      section files in the rows after `h` up to the section's end, each left of its
      row's first sibling header. */
  lemma ScanMembers(sheet: Sheet, name: string, h: nat, x: string)
    requires HeaderRow(sheet, name) == Some(h)
    ensures x in Scan(sheet, name) <==> exists r, c :: InSection(sheet, name, h, r, c, x)
    ensures NoDup(Scan(sheet, name))
  {
    ScanWithHeader(sheet, name, h);
    var e := SectionEnd(sheet, name, h);
    ContributionsMembers(sheet, name, h + 1, e, x);
    if x in Scan(sheet, name) {
      var r, c :| RowsCollectedAt(sheet, name, h + 1, e, r, c, x);
      assert InSection(sheet, name, h, r, c, x);
    }
    if exists r, c :: InSection(sheet, name, h, r, c, x) {
      var r, c :| InSection(sheet, name, h, r, c, x);
      assert RowsCollectedAt(sheet, name, h + 1, e, r, c, x);
    }
  }

  /** Every file the section scan finds, the whole-sheet sweep finds too. */
  lemma ScanWithinSweep(sheet: Sheet, name: string, x: string)
    requires x in Scan(sheet, name)
    ensures x in Sweep(sheet)
  {
    var h := HeaderRow(sheet, name).value;
    ScanMembers(sheet, name, h, x);
    var r, c :| InSection(sheet, name, h, r, c, x);
    assert ClassifiedCellAt(sheet, r, c, x);
    SweepMembers(sheet, x);
  }

  // ---------------------------------------------------------------------------
  // The marker skip adds nothing to the classifier
  // ---------------------------------------------------------------------------

  lemma LowerMarkerWords(p: string, q: string)
    requires (p == "MAPPED_TO" && q == "mapped_to") || (p == "CONVERT REQUIRED" && q == "convert required")
      || (p == "Y/N/?" && q == "y/n/?")
    ensures Lower(p) == q
  {
  }

  /** Every cell text the scan skips as a mapping or conversion marker is one the
      classifier refuses anyway. */
  lemma MarkersAreDenied(s: string)
    requires IsMarker(s)
    ensures IsDenied(s) || |s| < 3
  {
    var u := Upper(s);
    LowerOfUpper(s);
    if Contains(u, "MAPPED_TO") {
      ContainsLowered(u, "MAPPED_TO");
      LowerMarkerWords("MAPPED_TO", "mapped_to");
    } else if Contains(u, "CONVERT REQUIRED") {
      ContainsLowered(u, "CONVERT REQUIRED");
      LowerMarkerWords("CONVERT REQUIRED", "convert required");
    } else if u == "Y/N/?" {
      LowerMarkerWords("Y/N/?", "y/n/?");
      assert Lower(s) == StrictDenylist[6];
    } else {
      assert |s| == |u| == 1;
    }
  }

  lemma MarkersAreNeverFiles(v: string)
    requires IsMarker(Strip(v))
    ensures !IsValidFilename(v) && !IsValidFilename(Strip(v))
  {
    ClassifierIgnoresSurroundingSpace(v);
    MarkersAreDenied(Strip(v));
  }

  // ---------------------------------------------------------------------------
  // The scan as the source runs it
  // ---------------------------------------------------------------------------

  method RowHasSection(row: Row, name: string) returns (found: bool)
    ensures found == RowNamesSection(row, name)
  {
    found := false;
    var j := 0;
    while j < |row|
      invariant 0 <= j <= |row|
      invariant forall m :: 0 <= m < j ==> !NamesSection(row[m], name)
    {
      if row[j].Some? && Contains(Upper(Strip(row[j].value)), Upper(name)) {
        found := true;
        break;
      }
      j := j + 1;
    }
  }

  /** One section row: collect classified, non-marker cells left to right and stop
      at the first sibling header. */
  method CollectRow(row: Row, name: string) returns (rowFiles: seq<string>, stopped: bool)
    ensures rowFiles == RowFiles(row, name)
    ensures stopped == RowStops(row, name)
  {
    rowFiles := [];
    stopped := false;
    var j := 0;
    while j < |row|
      invariant 0 <= j <= |row|
      invariant FirstStop(row, name, j) == FirstStop(row, name, 0)
      invariant rowFiles == ClassifiedTexts(row[..j])
    {
      var c := row[j];
      if c.Some? {
        var cell := Strip(c.value);
        if IsSiblingHeader(c, name) {
          stopped := true;
          break;
        }
        if IsMarker(cell) {
          MarkersAreNeverFiles(c.value);
        } else if IsValidFilename(cell) {
          rowFiles := rowFiles + [cell];
        }
      }
      assert row[..j + 1][..j] == row[..j];
      j := j + 1;
    }
  }

  method RowHasContent(row: Row) returns (has: bool)
    ensures has == !IsBlankRow(row)
  {
    has := false;
    var j := 0;
    while j < |row|
      invariant 0 <= j <= |row|
      invariant forall m :: 0 <= m < j ==> IsBlankCell(row[m])
    {
      if row[j].Some? && Strip(row[j].value) != [] {
        has := true;
        break;
      }
      j := j + 1;
    }
  }

  method CountBlankRows(sheet: Sheet, lo: nat, hi: nat) returns (n: nat)
    requires lo <= hi <= |sheet|
    ensures n == BlankCount(sheet, lo, hi)
  {
    n := 0;
    var k := lo;
    while k < hi
      invariant lo <= k <= hi
      invariant n == BlankCount(sheet, lo, k)
    {
      var has := RowHasContent(sheet[k]);
      if !has {
        n := n + 1;
      }
      k := k + 1;
    }
  }

  /** One row inside the section: add its files, then decide whether the section
      ends here. */
  method ScanSectionRow(sheet: Sheet, name: string, ghost h: nat, i: nat, files: seq<string>)
      returns (files': seq<string>, ends: bool)
    requires h < i < |sheet|
    requires files == Dedup(Contributions(sheet, name, h + 1, i))
    ensures files' == Dedup(Contributions(sheet, name, h + 1, i + 1))
    ensures ends == EndsAt(sheet, name, i, files != [])
    ensures ends ==> EndRow(sheet, name, i, files != []) == i
    ensures !ends ==> EndRow(sheet, name, i, files != []) == EndRow(sheet, name, i + 1, files' != [])
  {
    ghost var before := Contributions(sheet, name, h + 1, i);
    var rowFiles, stopped := CollectRow(sheet[i], name);
    files' := AppendUnseen(files, rowFiles, before);
    DedupEmpty(before);
    DedupEmpty(before + rowFiles);
    ends := stopped;
    if rowFiles == [] && files' != [] {
      var blanks := CountBlankRows(sheet, i, Min(i + 3, |sheet|));
      if blanks >= 2 {
        ends := true;
      }
    }
  }

  /** The scan's result once the section has ended at row `i`. */
  lemma ScanEndingAt(sheet: Sheet, name: string, h: nat, i: nat)
    requires h < i < |sheet| && HeaderRow(sheet, name) == Some(h)
    requires EndRow(sheet, name, h + 1, false) == i
    ensures Scan(sheet, name) == Dedup(Contributions(sheet, name, h + 1, i + 1))
  {
    ScanWithHeader(sheet, name, h);
    assert SectionEnd(sheet, name, h) == i + 1;
  }

  /** The scan's result when the section runs to the last row. */
  lemma ScanRunningOut(sheet: Sheet, name: string, h: nat, seen: bool)
    requires h < |sheet| && HeaderRow(sheet, name) == Some(h)
    requires EndRow(sheet, name, h + 1, false) == EndRow(sheet, name, |sheet|, seen)
    ensures Scan(sheet, name) == Dedup(Contributions(sheet, name, h + 1, |sheet|))
  {
    ScanWithHeader(sheet, name, h);
    assert SectionEnd(sheet, name, h) == |sheet|;
  }

  /** `find_files_in_section`: one pass over the rows with the source's two flags. */
  method FindFilesInSection(sheet: Sheet, name: string) returns (files: seq<string>)
    ensures files == Scan(sheet, name)
  {
    files := [];
    var found := false;
    var ended := false;
    ghost var h: nat := 0;
    var i := 0;
    while i < |sheet|
      invariant 0 <= i <= |sheet|
      invariant !found ==> files == [] && !ended && HeaderRow(sheet, name) == HeaderFrom(sheet, name, i)
      invariant found ==> h < i && HeaderRow(sheet, name) == Some(h)
      invariant found && !ended ==>
        files == Dedup(Contributions(sheet, name, h + 1, i)) &&
        EndRow(sheet, name, h + 1, false) == EndRow(sheet, name, i, files != [])
      invariant found && ended ==> files == Scan(sheet, name)
    {
      if !found {
        found := RowHasSection(sheet[i], name);
        if found {
          h := i;
        }
      } else if !ended {
        files, ended := ScanSectionRow(sheet, name, h, i, files);
        if ended {
          ScanEndingAt(sheet, name, h, i);
        }
      }
      i := i + 1;
    }
    if found && !ended {
      ScanRunningOut(sheet, name, h, files != []);
    }
  }
}
