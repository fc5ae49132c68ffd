/** `extract_job_data_from_sheet` (ar3.java:168-214) and the sheet loop of
    `parse_and_transform_excel` (ar3.java:296-304): one job record per sheet, kept
    when it lists some file.

    Two behaviours from other fragments of the file are configuration options: the
    mapping-style fallback of the fragment at ar3.java:5-57 (lines 37-57) and the
    removal from the input list of the files that are also outputs (ar3.java:728-733). */
module JobRecords {
  import opened Text
  import opened Seqs
  import opened Classifier
  import opened Sheets
  import opened SheetSweep
  import opened SectionScanner

  datatype JobRecord = JobRecord(jobId: string, filesIn: seq<string>, filesOut: seq<string>)

  predicate HasFiles(job: JobRecord) {
    job.filesIn != [] || job.filesOut != []
  }

  /** What happens when neither section yields a file. */
  datatype Fallback =
    | SplitSweep    // the sweep's list, first half IN and second half OUT (ar3.java:203-211)
    | MappingRows   // column 0 job id, column 1 IN, column 2 OUT (ar3.java:37-57)

  datatype Config = Config(fallback: Fallback, crossDedup: bool)

  /** The behaviour of the canonical copy. */
  const Canonical := Config(SplitSweep, false)

  // ---------------------------------------------------------------------------
  // Job id (ar3.java:183-197)
  // ---------------------------------------------------------------------------

  /** Only the first rows are searched for a job id. */
  const IdSearchRows := 20

  /** A present cell whose stripped text has a job-id shape. */
  predicate IsIdCell(c: Cell) {
    c.Some? && IsJobIdShape(Strip(c.value))
  }

  /** The first id cell of `row` at or after column `j`. */
  function IdInRow(row: Row, j: nat): Option<string>
    requires j <= |row|
    decreases |row| - j
  {
    if j == |row| then None
    else if IsIdCell(row[j]) then Some(Strip(row[j].value))
    else IdInRow(row, j + 1)
  }

  /** The first id cell, row-major, of rows [i, n). */
  function IdInRows(sheet: Sheet, i: nat, n: nat): Option<string>
    requires i <= n <= |sheet|
    decreases n - i
  {
    if i == n then None
    else match IdInRow(sheet[i], 0)
      case Some(x) => Some(x)
      case None => IdInRows(sheet, i + 1, n)
  }

  function DefaultJobId(name: string): string {
    if name == [] then "UNKNOWN_JOB" else Upper(name)
  }

  function JobId(sheet: Sheet, name: string): string {
    match IdInRows(sheet, 0, Min(IdSearchRows, |sheet|))
    case Some(x) => x
    case None => DefaultJobId(name)
  }

  /** Cell (r, c) is an id cell. */
  predicate IdCellAt(sheet: Sheet, r: int, c: int) {
    0 <= r < |sheet| && 0 <= c < |sheet[r]| && IsIdCell(sheet[r][c])
  }

  /** Column `c` holds the first id cell of `row` at or after column `j`. */
  predicate IsFirstIdInRow(row: Row, j: int, c: int) {
    0 <= j <= c < |row| && IsIdCell(row[c]) && forall c' :: j <= c' < c ==> !IsIdCell(row[c'])
  }

  lemma {:induction false} IdInRowIsFirst(row: Row, j: nat)
    requires j <= |row|
    ensures IdInRow(row, j).None? ==> forall c :: j <= c < |row| ==> !IsIdCell(row[c])
    ensures IdInRow(row, j).Some? ==>
      exists c :: IsFirstIdInRow(row, j, c) && IdInRow(row, j).value == Strip(row[c].value)
    decreases |row| - j
  {
    if j < |row| {
      if IsIdCell(row[j]) {
        assert IsFirstIdInRow(row, j, j);
      } else {
        IdInRowIsFirst(row, j + 1);
        if IdInRow(row, j).Some? {
          var c :| IsFirstIdInRow(row, j + 1, c) && IdInRow(row, j + 1).value == Strip(row[c].value);
          assert IsFirstIdInRow(row, j, c);
        }
      }
    }
  }

  /** Cell (r, c) is the first id cell, in row-major order, from row `i` on. */
  ghost predicate IsFirstIdCell(sheet: Sheet, i: int, r: int, c: int) {
    i <= r && IdCellAt(sheet, r, c) &&
    (forall r', c' :: i <= r' < r ==> !IdCellAt(sheet, r', c')) &&
    (forall c' :: 0 <= c' < c ==> !IdCellAt(sheet, r, c'))
  }

  lemma {:induction false} IdInRowsIsFirst(sheet: Sheet, i: nat, n: nat)
    requires i <= n <= |sheet|
    ensures IdInRows(sheet, i, n).None? ==> forall r, c :: i <= r < n ==> !IdCellAt(sheet, r, c)
    ensures IdInRows(sheet, i, n).Some? ==>
      exists r, c :: r < n && IsFirstIdCell(sheet, i, r, c) && IdInRows(sheet, i, n).value == Strip(sheet[r][c].value)
    decreases n - i
  {
    if i < n {
      IdInRowIsFirst(sheet[i], 0);
      if IdInRow(sheet[i], 0).Some? {
        var c :| IsFirstIdInRow(sheet[i], 0, c) && IdInRow(sheet[i], 0).value == Strip(sheet[i][c].value);
        assert IsFirstIdCell(sheet, i, i, c);
      } else {
        IdInRowsIsFirst(sheet, i + 1, n);
        assert forall c :: !IdCellAt(sheet, i, c);
        if IdInRows(sheet, i, n).Some? {
          var r, c :| r < n && IsFirstIdCell(sheet, i + 1, r, c) &&
            IdInRows(sheet, i + 1, n).value == Strip(sheet[r][c].value);
          assert IsFirstIdCell(sheet, i, r, c);
        }
      }
    }
  }

  /** The job id is the first id cell, in row-major order, of the first twenty rows;
      without one it is the default built from the sheet name. */
  lemma JobIdIsFirstMatch(sheet: Sheet, name: string)
    ensures (forall r, c :: 0 <= r < Min(IdSearchRows, |sheet|) ==> !IdCellAt(sheet, r, c)) ==>
      JobId(sheet, name) == DefaultJobId(name)
    ensures (exists r, c :: 0 <= r < Min(IdSearchRows, |sheet|) && IdCellAt(sheet, r, c)) ==>
      exists r, c :: r < Min(IdSearchRows, |sheet|) && IsFirstIdCell(sheet, 0, r, c) &&
        JobId(sheet, name) == Strip(sheet[r][c].value)
  {
    IdInRowsIsFirst(sheet, 0, Min(IdSearchRows, |sheet|));
  }

  /** The job id is never empty. */
  lemma JobIdNeverEmpty(sheet: Sheet, name: string)
    ensures |JobId(sheet, name)| > 0
  {
    var n := Min(IdSearchRows, |sheet|);
    IdInRowsIsFirst(sheet, 0, n);
    if IdInRows(sheet, 0, n).Some? {
      var r, c :| r < n && IsFirstIdCell(sheet, 0, r, c) && IdInRows(sheet, 0, n).value == Strip(sheet[r][c].value);
      JobIdShapesAreLong(Strip(sheet[r][c].value));
    }
  }

  /** A sheet named "Tab7" without an id cell in its first twenty rows gets the
      job id "TAB7". */
  lemma DefaultJobIdExample(sheet: Sheet, name: string)
    requires name == "Tab7"
    requires forall r, c :: 0 <= r < Min(IdSearchRows, |sheet|) ==> !IdCellAt(sheet, r, c)
    ensures JobId(sheet, name) == "TAB7"
  {
    JobIdIsFirstMatch(sheet, name);
    assert Upper(name)[0] == 'T' && Upper(name)[1] == 'A' && Upper(name)[2] == 'B' && Upper(name)[3] == '7';
  }

  // ---------------------------------------------------------------------------
  // Mapping-style rows (ar3.java:37-57)
  // ---------------------------------------------------------------------------

  /** Column `col` of a row; a missing column reads as a missing cell. */
  function CellAt(row: Row, col: nat): Cell {
    if col < |row| then row[col] else None
  }

  /** Column `col` of the sheet, top to bottom. */
  function Column(sheet: Sheet, col: nat): (cells: seq<Cell>)
    ensures |cells| == |sheet|
  {
    seq(|sheet|, r requires 0 <= r < |sheet| => CellAt(sheet[r], col))
  }

  /** The classified texts of column `col`, top to bottom, repeats kept. */
  function MappingColumn(sheet: Sheet, col: nat): seq<string> {
    ClassifiedTexts(Column(sheet, col))
  }

  predicate IsMappingIdCell(c: Cell) {
    c.Some? && IsMappingJobIdShape(Strip(c.value))
  }

  /** The stripped text of the last column-0 cell among rows [0, n) with the
      mapping job-id shape: every match overwrites the previous one. */
  function MappingId(sheet: Sheet, n: nat): Option<string>
    requires n <= |sheet|
    decreases n
  {
    if n == 0 then None
    else if IsMappingIdCell(CellAt(sheet[n - 1], 0)) then Some(Strip(CellAt(sheet[n - 1], 0).value))
    else MappingId(sheet, n - 1)
  }

  /** Row `r` is the last of rows [0, n) whose column-0 cell has the mapping shape. */
  predicate IsLastMappingId(sheet: Sheet, n: int, r: int) {
    0 <= r < n <= |sheet| && IsMappingIdCell(CellAt(sheet[r], 0)) &&
    forall r' :: r < r' < n ==> !IsMappingIdCell(CellAt(sheet[r'], 0))
  }

  /** MappingId is the last match. */
  lemma {:induction false} MappingIdIsLast(sheet: Sheet, n: nat)
    requires n <= |sheet|
    ensures MappingId(sheet, n).None? ==> forall r :: 0 <= r < n ==> !IsMappingIdCell(CellAt(sheet[r], 0))
    ensures MappingId(sheet, n).Some? ==>
      exists r :: IsLastMappingId(sheet, n, r) && MappingId(sheet, n).value == Strip(CellAt(sheet[r], 0).value)
    decreases n
  {
    if n > 0 && !IsMappingIdCell(CellAt(sheet[n - 1], 0)) {
      MappingIdIsLast(sheet, n - 1);
      if MappingId(sheet, n).Some? {
        var r :| IsLastMappingId(sheet, n - 1, r) && MappingId(sheet, n - 1).value == Strip(CellAt(sheet[r], 0).value);
        assert IsLastMappingId(sheet, n, r);
      }
    } else if n > 0 {
      assert IsLastMappingId(sheet, n, n - 1);
    }
  }

  // ---------------------------------------------------------------------------
  // The record
  // ---------------------------------------------------------------------------

  /** The record before any fallback: the job id and the two section scans. */
  function SectionJob(sheet: Sheet, name: string): JobRecord {
    JobRecord(JobId(sheet, name), Scan(sheet, "FILES IN"), Scan(sheet, "FILES OUT"))
  }

  /** When neither section yields a file, fill the record from the fallback. */
  function WithFallback(sheet: Sheet, job: JobRecord, fallback: Fallback): JobRecord {
    if HasFiles(job) then job
    else match fallback
      case SplitSweep =>
        var sw := Sweep(sheet);
        var mid := |sw| / 2;
        job.(filesIn := sw[..mid], filesOut := sw[mid..])
      case MappingRows =>
        var id := match MappingId(sheet, |sheet|) case Some(x) => x case None => job.jobId;
        JobRecord(id, MappingColumn(sheet, 1), MappingColumn(sheet, 2))
  }

  /** The post-pass of ar3.java:728-733: both lists de-duplicated, and the outputs
      removed from the inputs. */
  function CrossDedup(job: JobRecord): (r: JobRecord)
    ensures r.jobId == job.jobId
    ensures NoDup(r.filesIn) && NoDup(r.filesOut)
    ensures forall x :: x in r.filesIn <==> x in job.filesIn && x !in job.filesOut
    ensures forall x :: x in r.filesOut <==> x in job.filesOut
  {
    var outs := Dedup(job.filesOut);
    job.(filesIn := Without(Dedup(job.filesIn), outs), filesOut := outs)
  }

  function BuildJob(sheet: Sheet, name: string, cfg: Config): JobRecord {
    var job := WithFallback(sheet, SectionJob(sheet, name), cfg.fallback);
    if cfg.crossDedup then CrossDedup(job) else job
  }

  /** The sheets whose records list some file, in sheet order (ar3.java:296-304). */
  function KeptJobs(sheets: seq<(string, Sheet)>, cfg: Config): seq<JobRecord>
    decreases |sheets|
  {
    if |sheets| == 0 then []
    else
      var kept := KeptJobs(sheets[..|sheets| - 1], cfg);
      var (name, sheet) := sheets[|sheets| - 1];
      var job := BuildJob(sheet, name, cfg);
      if HasFiles(job) then kept + [job] else kept
  }

  // ---------------------------------------------------------------------------
  // Properties of the record
  // ---------------------------------------------------------------------------

  /** Whatever the configuration, the record's job id is never empty. */
  lemma BuiltJobIdNeverEmpty(sheet: Sheet, name: string, cfg: Config)
    ensures |BuildJob(sheet, name, cfg).jobId| > 0
  {
    JobIdNeverEmpty(sheet, name);
    MappingIdIsLast(sheet, |sheet|);
    if MappingId(sheet, |sheet|).Some? {
      var r :| IsLastMappingId(sheet, |sheet|, r) &&
        MappingId(sheet, |sheet|).value == Strip(CellAt(sheet[r], 0).value);
      JobIdShapesAreLong(Strip(CellAt(sheet[r], 0).value));
    }
  }

  /** Without section files, the canonical record splits the sweep's list at its
      midpoint: IN is the first half (rounded down), OUT the rest. */
  lemma FallbackSplitsSweep(sheet: Sheet, name: string)
    requires Scan(sheet, "FILES IN") == [] && Scan(sheet, "FILES OUT") == []
    ensures var job := BuildJob(sheet, name, Canonical);
      job.filesIn + job.filesOut == Sweep(sheet) && |job.filesIn| == |Sweep(sheet)| / 2
  {
    var sw := Sweep(sheet);
    assert sw[..|sw| / 2] + sw[|sw| / 2..] == sw;
  }

  /** On the split fallback the IN-minus-OUT post-pass changes nothing: the two
      halves of a duplicate-free list share no file. */
  lemma CrossDedupKeepsSplit(sheet: Sheet, name: string)
    requires Scan(sheet, "FILES IN") == [] && Scan(sheet, "FILES OUT") == []
    ensures BuildJob(sheet, name, Config(SplitSweep, true)) == BuildJob(sheet, name, Canonical)
  {
    var sw := Sweep(sheet);
    var mid := |sw| / 2;
    SweepMembers(sheet, "");
    var ins, outs := sw[..mid], sw[mid..];
    assert NoDup(ins) && NoDup(outs);
    DedupOfNoDup(ins);
    DedupOfNoDup(outs);
    forall x | x in ins
      ensures x !in outs
    {
      var i :| 0 <= i < mid && sw[i] == x;
    }
    WithoutDisjoint(ins, outs);
  }

  /** The post-pass never drops a record: a record with files keeps some. */
  lemma CrossDedupKeepsFiles(job: JobRecord)
    ensures HasFiles(CrossDedup(job)) == HasFiles(job)
  {
    if job.filesOut != [] {
      assert job.filesOut[0] in CrossDedup(job).filesOut;
    } else if job.filesIn != [] {
      assert job.filesIn[0] in CrossDedup(job).filesIn;
    }
  }

  /** With the split fallback, a sheet is kept exactly when some cell of it is
      classified as a filename. */
  lemma KeptIffSomeClassifiedCell(sheet: Sheet, name: string, crossDedup: bool)
    ensures HasFiles(BuildJob(sheet, name, Config(SplitSweep, crossDedup))) <==>
      exists r, c, x :: ClassifiedCellAt(sheet, r, c, x)
  {
    var job := WithFallback(sheet, SectionJob(sheet, name), SplitSweep);
    CrossDedupKeepsFiles(job);
    var ins, outs := Scan(sheet, "FILES IN"), Scan(sheet, "FILES OUT");
    if ins != [] {
      ScanWithinSweep(sheet, "FILES IN", ins[0]);
      SweepMembers(sheet, ins[0]);
    } else if outs != [] {
      ScanWithinSweep(sheet, "FILES OUT", outs[0]);
      SweepMembers(sheet, outs[0]);
    } else {
      var sw := Sweep(sheet);
      assert sw[..|sw| / 2] + sw[|sw| / 2..] == sw;
      if sw != [] {
        SweepMembers(sheet, sw[0]);
      }
      if exists r, c, x :: ClassifiedCellAt(sheet, r, c, x) {
        var r, c, x :| ClassifiedCellAt(sheet, r, c, x);
        SweepMembers(sheet, x);
      }
    }
  }

  /** The mapping fallback's lists are the classified cells of columns 1 and 2. */
  lemma MappingColumnMembers(sheet: Sheet, col: nat, x: string)
    ensures x in MappingColumn(sheet, col) <==>
      exists r :: 0 <= r < |sheet| && IsClassifiedCell(CellAt(sheet[r], col)) && Strip(CellAt(sheet[r], col).value) == x
  {
    var cells := Column(sheet, col);
    ClassifiedTextsMembers(cells, x);
    if x in MappingColumn(sheet, col) {
      var r :| ClassifiedAt(cells, r, x);
      assert cells[r] == CellAt(sheet[r], col);
    }
    if exists r :: 0 <= r < |sheet| && IsClassifiedCell(CellAt(sheet[r], col)) && Strip(CellAt(sheet[r], col).value) == x {
      var r :| 0 <= r < |sheet| && IsClassifiedCell(CellAt(sheet[r], col)) && Strip(CellAt(sheet[r], col).value) == x;
      assert ClassifiedAt(cells, r, x);
    }
  }

  /** Every kept record lists some file, and there is at most one per sheet. */
  lemma {:induction false} KeptJobsHaveFiles(sheets: seq<(string, Sheet)>, cfg: Config)
    ensures |KeptJobs(sheets, cfg)| <= |sheets|
    ensures forall k :: 0 <= k < |KeptJobs(sheets, cfg)| ==> HasFiles(KeptJobs(sheets, cfg)[k])
    decreases |sheets|
  {
    if |sheets| > 0 {
      KeptJobsHaveFiles(sheets[..|sheets| - 1], cfg);
    }
  }

  /** The record built from sheet `i`, kept because it lists some file. */
  predicate KeptFrom(sheets: seq<(string, Sheet)>, cfg: Config, i: int, job: JobRecord)
  {
    0 <= i < |sheets| && job == BuildJob(sheets[i].1, sheets[i].0, cfg) && HasFiles(job)
  }

  /** One step of the sheet loop: the last sheet's record is appended when it lists
      some file. */
  lemma KeptJobsStep(sheets: seq<(string, Sheet)>, cfg: Config, job: JobRecord)
    requires |sheets| > 0
    ensures job in KeptJobs(sheets, cfg) <==>
      job in KeptJobs(sheets[..|sheets| - 1], cfg) || KeptFrom(sheets, cfg, |sheets| - 1, job)
  {
  }

  /** A record is kept exactly when it is built from some sheet and lists some file. */
  lemma {:induction false} KeptJobsMembers(sheets: seq<(string, Sheet)>, cfg: Config, job: JobRecord)
    ensures job in KeptJobs(sheets, cfg) <==> exists i :: KeptFrom(sheets, cfg, i, job)
    decreases |sheets|
  {
    if |sheets| > 0 {
      var n := |sheets| - 1;
      var front := sheets[..n];
      KeptJobsMembers(front, cfg, job);
      KeptJobsStep(sheets, cfg, job);
      if job in KeptJobs(front, cfg) {
        var i :| KeptFrom(front, cfg, i, job);
        assert front[i] == sheets[i];
        assert KeptFrom(sheets, cfg, i, job);
      }
      if exists i :: KeptFrom(sheets, cfg, i, job) {
        var i :| KeptFrom(sheets, cfg, i, job);
        if i < n {
          assert front[i] == sheets[i];
          assert KeptFrom(front, cfg, i, job);
        }
      }
    }
  }

  // ---------------------------------------------------------------------------
  // The record as the source builds it
  // ---------------------------------------------------------------------------

  /** The job-id search: the first id cell of the first twenty rows, with the
      default from the sheet name. */
  method FindJobId(sheet: Sheet, name: string) returns (id: string)
    ensures id == JobId(sheet, name)
  {
    var found: Option<string> := None;
    var n := Min(IdSearchRows, |sheet|);
    var i := 0;
    while i < n
      invariant 0 <= i <= n
      invariant found.None? && IdInRows(sheet, 0, n) == IdInRows(sheet, i, n)
    {
      var row := sheet[i];
      var j := 0;
      while j < |row|
        invariant 0 <= j <= |row|
        invariant found.None? && IdInRow(row, 0) == IdInRow(row, j)
      {
        if row[j].Some? {
          var cell := Strip(row[j].value);
          if IsJobIdShape(cell) {
            found := Some(cell);
            break;
          }
        }
        j := j + 1;
      }
      if found.Some? {
        break;
      }
      i := i + 1;
    }
    if found.Some? {
      id := found.value;
    } else if name != [] {
      id := Upper(name);
    } else {
      id := "UNKNOWN_JOB";
    }
  }

  /** One more row of a mapping column. */
  lemma MappingColumnStep(sheet: Sheet, col: nat, i: nat)
    requires i < |sheet|
    ensures ClassifiedTexts(Column(sheet, col)[..i + 1]) ==
      ClassifiedTexts(Column(sheet, col)[..i]) +
      (if IsClassifiedCell(CellAt(sheet[i], col)) then [Strip(CellAt(sheet[i], col).value)] else [])
  {
    assert Column(sheet, col)[..i + 1][..i] == Column(sheet, col)[..i];
  }

  /** The mapping-style pass over all rows: the last column-0 id, and the
      classified cells of columns 1 and 2 appended as they come. */
  method ExtractMappingRows(sheet: Sheet) returns (id: Option<string>, ins: seq<string>, outs: seq<string>)
    ensures id == MappingId(sheet, |sheet|)
    ensures ins == MappingColumn(sheet, 1) && outs == MappingColumn(sheet, 2)
  {
    id := None;
    ins := [];
    outs := [];
    var i := 0;
    while i < |sheet|
      invariant 0 <= i <= |sheet|
      invariant id == MappingId(sheet, i)
      invariant ins == ClassifiedTexts(Column(sheet, 1)[..i])
      invariant outs == ClassifiedTexts(Column(sheet, 2)[..i])
    {
      var row := sheet[i];
      if |row| > 0 && row[0].Some? {
        var jobId := Strip(row[0].value);
        if IsMappingJobIdShape(jobId) {
          id := Some(jobId);
        }
      }
      MappingColumnStep(sheet, 1, i);
      MappingColumnStep(sheet, 2, i);
      if |row| > 1 && row[1].Some? && IsValidFilename(Strip(row[1].value)) {
        ins := ins + [Strip(row[1].value)];
      }
      if |row| > 2 && row[2].Some? && IsValidFilename(Strip(row[2].value)) {
        outs := outs + [Strip(row[2].value)];
      }
      i := i + 1;
    }
    assert Column(sheet, 1)[..i] == Column(sheet, 1);
    assert Column(sheet, 2)[..i] == Column(sheet, 2);
  }

  /** `extract_job_data_from_sheet`. */
  method ExtractJobData(sheet: Sheet, name: string, cfg: Config) returns (job: JobRecord)
    ensures job == BuildJob(sheet, name, cfg)
  {
    var id := FindJobId(sheet, name);
    var ins := FindFilesInSection(sheet, "FILES IN");
    var outs := FindFilesInSection(sheet, "FILES OUT");
    if ins == [] && outs == [] {
      match cfg.fallback
      case SplitSweep =>
        var all := ExtractAllFiles(sheet);
        var mid := |all| / 2;
        ins, outs := all[..mid], all[mid..];
      case MappingRows =>
        var mappedId, mappedIns, mappedOuts := ExtractMappingRows(sheet);
        if mappedId.Some? {
          id := mappedId.value;
        }
        ins, outs := mappedIns, mappedOuts;
    }
    job := JobRecord(id, ins, outs);
    if cfg.crossDedup {
      job := CrossDedup(job);
    }
  }

  /** The sheet loop: build each sheet's record and keep those with files. */
  method ParseSheets(sheets: seq<(string, Sheet)>, cfg: Config) returns (jobs: seq<JobRecord>)
    ensures jobs == KeptJobs(sheets, cfg)
  {
    jobs := [];
    var k := 0;
    while k < |sheets|
      invariant 0 <= k <= |sheets|
      invariant jobs == KeptJobs(sheets[..k], cfg)
    {
      assert sheets[..k + 1][..k] == sheets[..k];
      var (name, sheet) := sheets[k];
      var job := ExtractJobData(sheet, name, cfg);
      if HasFiles(job) {
        jobs := jobs + [job];
      }
      k := k + 1;
    }
    assert sheets[..k] == sheets;
  }
}
