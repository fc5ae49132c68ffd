/** The placement arithmetic of `create_clean_output_excel` (ar3.java:229-272) and
    the top of `parse_and_transform_excel` (ar3.java:285-310). The worksheet is a
    map from 1-based (row, column) to the text written there; fonts, widths and
    saving the workbook are not modelled. */
module Report {
  import opened Sheets
  import opened JobRecords

  type Grid = map<(int, int), string>

  const JobIdColumn := 1
  const FilesInColumn := 2
  const FilesOutColumn := 3
  const FirstJobRow := 2
  /** Empty rows left after each job's block. */
  const Spacing := 2

  function Max(a: int, b: int): int { if a >= b then a else b }

  /** Rows a job's block takes: its longer list, and at least the job-id row. */
  function Height(job: JobRecord): (h: nat)
    ensures h >= 1 && h >= |job.filesIn| && h >= |job.filesOut|
  {
    Max(Max(|job.filesIn|, |job.filesOut|), 1)
  }

  /** The row at which job `k` starts (the value of `current_row` before it). */
  function BlockStart(jobs: seq<JobRecord>, k: nat): nat
    requires k <= |jobs|
    decreases k
  {
    if k == 0 then FirstJobRow else BlockStart(jobs, k - 1) + Height(jobs[k - 1]) + Spacing
  }

  function Headers(): Grid {
    map[(1, JobIdColumn) := "Job ID", (1, FilesInColumn) := "Files IN", (1, FilesOutColumn) := "Files OUT"]
  }

  /** Write `files[i]` at (start + i, col) for each i, in order. */
  function PlaceColumn(grid: Grid, start: int, col: int, files: seq<string>): Grid
    decreases |files|
  {
    if |files| == 0 then grid
    else PlaceColumn(grid, start, col, files[..|files| - 1])[(start + |files| - 1, col) := files[|files| - 1]]
  }

  /** One job's writes: the id at its first row, IN down column 2, OUT down column 3. */
  function PlaceJob(grid: Grid, job: JobRecord, start: int): Grid {
    PlaceColumn(PlaceColumn(grid[(start, JobIdColumn) := job.jobId], start, FilesInColumn, job.filesIn),
                start, FilesOutColumn, job.filesOut)
  }

  /** The sheet after the headers and the first `n` jobs. */
  function ReportGrid(jobs: seq<JobRecord>, n: nat): Grid
    requires n <= |jobs|
    decreases n
  {
    if n == 0 then Headers() else PlaceJob(ReportGrid(jobs, n - 1), jobs[n - 1], BlockStart(jobs, n - 1))
  }

  // ---------------------------------------------------------------------------
  // Properties
  // ---------------------------------------------------------------------------

  /** A column write touches exactly the cells (start .. start + |files| - 1, col). */
  lemma {:induction false} PlaceColumnCell(grid: Grid, start: int, col: int, files: seq<string>, r: int, c: int)
    ensures (r, c) in PlaceColumn(grid, start, col, files) <==>
      (r, c) in grid || (c == col && start <= r < start + |files|)
    ensures c == col && start <= r < start + |files| ==>
      PlaceColumn(grid, start, col, files)[(r, c)] == files[r - start]
    ensures !(c == col && start <= r < start + |files|) && (r, c) in grid ==>
      PlaceColumn(grid, start, col, files)[(r, c)] == grid[(r, c)]
    decreases |files|
  {
    if |files| > 0 {
      var init := files[..|files| - 1];
      PlaceColumnCell(grid, start, col, init, r, c);
      if c == col && start <= r < start + |init| {
        assert init[r - start] == files[r - start];
      }
    }
  }

  /** A job's writes touch exactly the cells of its block. */
  lemma PlaceJobCell(grid: Grid, job: JobRecord, start: int, r: int, c: int)
    ensures (r, c) in PlaceJob(grid, job, start) <==> (r, c) in grid || InBlock(job, start, r, c)
    ensures !InBlock(job, start, r, c) && (r, c) in grid ==> PlaceJob(grid, job, start)[(r, c)] == grid[(r, c)]
    ensures r == start && c == JobIdColumn ==> PlaceJob(grid, job, start)[(r, c)] == job.jobId
    ensures c == FilesInColumn && start <= r < start + |job.filesIn| ==>
      PlaceJob(grid, job, start)[(r, c)] == job.filesIn[r - start]
    ensures c == FilesOutColumn && start <= r < start + |job.filesOut| ==>
      PlaceJob(grid, job, start)[(r, c)] == job.filesOut[r - start]
  {
    var g0 := grid[(start, JobIdColumn) := job.jobId];
    var g1 := PlaceColumn(g0, start, FilesInColumn, job.filesIn);
    PlaceColumnCell(g0, start, FilesInColumn, job.filesIn, r, c);
    PlaceColumnCell(g1, start, FilesOutColumn, job.filesOut, r, c);
  }

  /** Cell (r, c) may be written by a job whose block starts at `start`. */
  predicate InBlock(job: JobRecord, start: int, r: int, c: int) {
    (r == start && c == JobIdColumn) ||
    (c == FilesInColumn && start <= r < start + |job.filesIn|) ||
    (c == FilesOutColumn && start <= r < start + |job.filesOut|)
  }

  /** Blocks follow one another with `Spacing` empty rows between them. */
  lemma {:induction false} BlocksAreSeparated(jobs: seq<JobRecord>, k: nat, m: nat)
    requires k < m <= |jobs|
    ensures BlockStart(jobs, k) + Height(jobs[k]) + Spacing <= BlockStart(jobs, m)
    decreases m
  {
    if m > k + 1 {
      BlocksAreSeparated(jobs, k, m - 1);
    }
  }

  /** The cell a job writes is still there once every later job is placed. */
  lemma {:induction false} LaterJobsKeepCell(jobs: seq<JobRecord>, k: nat, n: nat, r: int, c: int)
    requires k < n <= |jobs|
    requires BlockStart(jobs, k) <= r < BlockStart(jobs, k) + Height(jobs[k])
    requires (r, c) in ReportGrid(jobs, k + 1)
    ensures (r, c) in ReportGrid(jobs, n) && ReportGrid(jobs, n)[(r, c)] == ReportGrid(jobs, k + 1)[(r, c)]
    decreases n
  {
    if n > k + 1 {
      LaterJobsKeepCell(jobs, k, n - 1, r, c);
      BlocksAreSeparated(jobs, k, n - 1);
      PlaceJobCell(ReportGrid(jobs, n - 1), jobs[n - 1], BlockStart(jobs, n - 1), r, c);
    }
  }

  /** Every cell of job `k`'s block keeps, in the finished sheet, the value that
      job wrote. */
  lemma ReportKeepsBlock(jobs: seq<JobRecord>, k: nat, r: int, c: int)
    requires k < |jobs| && InBlock(jobs[k], BlockStart(jobs, k), r, c)
    ensures (r, c) in ReportGrid(jobs, k + 1) && (r, c) in ReportGrid(jobs, |jobs|)
    ensures ReportGrid(jobs, |jobs|)[(r, c)] == ReportGrid(jobs, k + 1)[(r, c)]
  {
    PlaceJobCell(ReportGrid(jobs, k), jobs[k], BlockStart(jobs, k), r, c);
    assert ReportGrid(jobs, k + 1) == PlaceJob(ReportGrid(jobs, k), jobs[k], BlockStart(jobs, k));
    LaterJobsKeepCell(jobs, k, |jobs|, r, c);
  }

  /** Each job's id sits in column 1 of the first row of its block. */
  lemma ReportShowsJobId(jobs: seq<JobRecord>, k: nat)
    requires k < |jobs|
    ensures var s := BlockStart(jobs, k);
      (s, JobIdColumn) in ReportGrid(jobs, |jobs|) && ReportGrid(jobs, |jobs|)[(s, JobIdColumn)] == jobs[k].jobId
  {
    var s := BlockStart(jobs, k);
    ReportKeepsBlock(jobs, k, s, JobIdColumn);
    PlaceJobCell(ReportGrid(jobs, k), jobs[k], s, s, JobIdColumn);
  }

  /** Input `i` of job `k` sits in column 2, `i` rows below the job's first row. */
  lemma ReportShowsFileIn(jobs: seq<JobRecord>, k: nat, i: nat)
    requires k < |jobs| && i < |jobs[k].filesIn|
    ensures var r := BlockStart(jobs, k) + i;
      (r, FilesInColumn) in ReportGrid(jobs, |jobs|) && ReportGrid(jobs, |jobs|)[(r, FilesInColumn)] == jobs[k].filesIn[i]
  {
    var s := BlockStart(jobs, k);
    ReportKeepsBlock(jobs, k, s + i, FilesInColumn);
    PlaceJobCell(ReportGrid(jobs, k), jobs[k], s, s + i, FilesInColumn);
  }

  /** Output `i` of job `k` sits in column 3, `i` rows below the job's first row. */
  lemma ReportShowsFileOut(jobs: seq<JobRecord>, k: nat, i: nat)
    requires k < |jobs| && i < |jobs[k].filesOut|
    ensures var r := BlockStart(jobs, k) + i;
      (r, FilesOutColumn) in ReportGrid(jobs, |jobs|) && ReportGrid(jobs, |jobs|)[(r, FilesOutColumn)] == jobs[k].filesOut[i]
  {
    var s := BlockStart(jobs, k);
    ReportKeepsBlock(jobs, k, s + i, FilesOutColumn);
    PlaceJobCell(ReportGrid(jobs, k), jobs[k], s, s + i, FilesOutColumn);
  }

  /** Nothing else is written: every cell is a header or lies in some job's block. */
  lemma {:induction false} ReportHasNoStrayCells(jobs: seq<JobRecord>, n: nat, r: int, c: int)
    requires n <= |jobs|
    requires (r, c) in ReportGrid(jobs, n)
    ensures (r == 1 && JobIdColumn <= c <= FilesOutColumn) ||
      exists k :: 0 <= k < n && InBlock(jobs[k], BlockStart(jobs, k), r, c)
    decreases n
  {
    if n > 0 {
      PlaceJobCell(ReportGrid(jobs, n - 1), jobs[n - 1], BlockStart(jobs, n - 1), r, c);
      if (r, c) in ReportGrid(jobs, n - 1) {
        ReportHasNoStrayCells(jobs, n - 1, r, c);
      }
    }
  }

  /** The headers survive every job: job rows start at row 2. */
  lemma {:induction false} HeadersKept(jobs: seq<JobRecord>, n: nat)
    requires n <= |jobs|
    ensures forall c :: c in [JobIdColumn, FilesInColumn, FilesOutColumn] ==>
      (1, c) in ReportGrid(jobs, n) && ReportGrid(jobs, n)[(1, c)] == Headers()[(1, c)]
    decreases n
  {
    if n > 0 {
      HeadersKept(jobs, n - 1);
      forall c | c in [JobIdColumn, FilesInColumn, FilesOutColumn]
        ensures (1, c) in ReportGrid(jobs, n) && ReportGrid(jobs, n)[(1, c)] == Headers()[(1, c)]
      {
        PlaceJobCell(ReportGrid(jobs, n - 1), jobs[n - 1], BlockStart(jobs, n - 1), 1, c);
      }
    }
  }

  // ---------------------------------------------------------------------------
  // The writer as the source runs it
  // ---------------------------------------------------------------------------

  /** Write `files` down column `col` from row `start`. */
  method WriteColumn(grid: Grid, start: int, col: int, files: seq<string>) returns (g: Grid)
    ensures g == PlaceColumn(grid, start, col, files)
  {
    g := grid;
    var i := 0;
    while i < |files|
      invariant 0 <= i <= |files|
      invariant g == PlaceColumn(grid, start, col, files[..i])
    {
      assert files[..i + 1][..i] == files[..i];
      g := g[(start + i, col) := files[i]];
      i := i + 1;
    }
    assert files[..i] == files;
  }

  /** `create_clean_output_excel` without formatting: the headers, then each job's
      block, advancing `currentRow` past the block and the spacing. */
  method CreateReport(jobs: seq<JobRecord>) returns (grid: Grid, currentRow: int)
    ensures grid == ReportGrid(jobs, |jobs|)
    ensures currentRow == BlockStart(jobs, |jobs|)
  {
    grid := Headers();
    currentRow := FirstJobRow;
    var k := 0;
    while k < |jobs|
      invariant 0 <= k <= |jobs|
      invariant grid == ReportGrid(jobs, k) && currentRow == BlockStart(jobs, k)
    {
      var job := jobs[k];
      grid := grid[(currentRow, JobIdColumn) := job.jobId];
      grid := WriteColumn(grid, currentRow, FilesInColumn, job.filesIn);
      grid := WriteColumn(grid, currentRow, FilesOutColumn, job.filesOut);
      var maxFiles := Max(Max(|job.filesIn|, |job.filesOut|), 1);
      currentRow := currentRow + maxFiles + Spacing;
      k := k + 1;
    }
  }

  /** `parse_and_transform_excel` after reading: no report when no sheet is kept. */
  method ParseAndTransform(sheets: seq<(string, Sheet)>, cfg: Config) returns (report: Option<Grid>)
    ensures report.None? <==> KeptJobs(sheets, cfg) == []
    ensures report.Some? ==> report.value == ReportGrid(KeptJobs(sheets, cfg), |KeptJobs(sheets, cfg)|)
  {
    var jobs := ParseSheets(sheets, cfg);
    if jobs == [] {
      return None;
    }
    var grid, _ := CreateReport(jobs);
    report := Some(grid);
  }
}
