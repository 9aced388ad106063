/**
 * Importing spreadsheet files into the store: the change check
 * (`is_file_changed`), file metadata, the rows written for each sheet
 * (`insert_excel_data`), one file's import (`process_single_file`) and the batch
 * loop with its counters (`batch_import_excel_files_with_options`).
 *
 * The database is a `Store` object holding the `files` table (keyed by path)
 * and the `excel_data` rows. A failing database statement is injected through a
 * file's set of faulty steps.
 */
module Importing {
  import opened Wrappers
  import opened Text
  import opened Entities
  import opened RowCleaning
  import opened SheetReading

  /** The database statements of one file's import that can fail. */
  datatype Step = ChangeLookup | MetadataWrite | RowDelete | FieldOrderWrite | SheetInsert(index: nat)

  /**
   * One scanned file: its path, its bytes (None when it cannot be read), its
   * sheets (None when the workbook cannot be opened) and the statements that
   * fail while it is imported.
   */
  datatype FileEnv = FileEnv(
    path: string,
    content: Option<seq<bv8>>,
    workbook: Option<seq<Sheet>>,
    faults: set<Step>)

  datatype ImportError = MetadataFailed | DeleteFailed | ReadFailed | SheetFailed(sheet: string)

  /** `Ok(())` of `process_single_file`: either skipped as unchanged, or imported. */
  datatype Outcome = Unchanged | Imported

  // ---------------------------------------------------------------- file names

  /** The text of `s` after its last `c` (all of `s` when there is none). */
  function AfterLast(s: string, c: char): (r: string)
    ensures IsAfterLast(s, c, r)
    decreases |s|
  {
    if s == [] then []
    else if s[|s| - 1] == c then []
    else
      var r := AfterLast(s[..|s| - 1], c);
      AfterLastStep(s, c, r);
      r + [s[|s| - 1]]
  }

  /**
   * `r` is what follows the last `c` of `s`: a suffix of `s` without `c`, preceded
   * in `s` by a `c` unless it is all of `s`.
   */
  predicate IsAfterLast(s: string, c: char, r: string) {
    && c !in r
    && |r| <= |s| && r == s[|s| - |r|..]
    && (|r| < |s| ==> s[|s| - |r| - 1] == c)
  }

  /** A last character other than `c` extends what follows the last `c`. */
  lemma AfterLastStep(s: string, c: char, r: string)
    requires s != [] && s[|s| - 1] != c && IsAfterLast(s[..|s| - 1], c, r)
    ensures IsAfterLast(s, c, r + [s[|s| - 1]])
  {
    var prefix := s[..|s| - 1];
    assert prefix[|prefix| - |r|..] + [s[|s| - 1]] == s[|s| - |r| - 1..];
  }

  /** `Path::file_name` for a scanned file path: the text after the last '/'. */
  function FileName(path: string): (name: string)
    ensures '/' !in name
  {
    AfterLast(path, '/')
  }

  /**
   * `Path::extension`: the text after the last '.' of the file name; a name with
   * no dot, or whose only dot starts it, has none.
   */
  function Extension(path: string): (ext: Option<string>)
    ensures ext.Some? ==> '.' !in ext.value && '/' !in ext.value
    ensures ext.Some? ==> (|ext.value| + 1 < |FileName(path)| &&
      FileName(path) == FileName(path)[..|FileName(path)| - |ext.value| - 1] + "." + ext.value)
    ensures ext.None? <==> HasNoExtension(FileName(path))
  {
    var name := FileName(path);
    var e := AfterLast(name, '.');
    if |e| + 1 >= |name| then
      LastDotLeads(name, e);
      None
    else
      SplitAtLastDot(name, e);
      LastDotLeads(name, e);
      Some(e)
  }

  /** A file name without an extension: it has no dot, or only a leading one (".profile"). */
  predicate HasNoExtension(name: string) {
    '.' !in name || (name[0] == '.' && '.' !in name[1..])
  }

  /** A name has no text before its last dot exactly when it has no extension. */
  lemma LastDotLeads(name: string, e: string)
    requires IsAfterLast(name, '.', e)
    ensures |e| + 1 >= |name| <==> HasNoExtension(name)
  {
    if |e| == |name| {
      assert e == name;
    } else if |e| + 1 == |name| {
      assert name[1..] == e;
    } else {
      var cut := |name| - |e| - 1;
      assert name[cut] == '.' && name[1..][cut - 1] == '.';
    }
  }

  /** What follows the last dot of a file name that has text before that dot splits the name around it. */
  lemma SplitAtLastDot(name: string, e: string)
    requires '/' !in name && IsAfterLast(name, '.', e) && |e| + 1 < |name|
    ensures '.' !in e && '/' !in e
    ensures name == name[..|name| - |e| - 1] + "." + e
  {
    var cut := |name| - |e| - 1;
    assert name == name[..cut] + [name[cut]] + name[cut + 1..];
    assert forall x | x in e :: x in name;
  }

  // ------------------------------------------------------------ change check

  /**
   * `is_file_changed`: an error when the file cannot be hashed or the lookup
   * fails; otherwise whether the file has no stored record or a stored hash that
   * differs from the current one.
   */
  function ChangeCheck(files: map<string, FileRecord>, env: FileEnv, digest: seq<bv8> -> string): (r: Result<bool, ImportError>)
    ensures r.Err? <==> env.content.None? || ChangeLookup in env.faults
    ensures r == Ok(false) <==>
      env.content.Some? && ChangeLookup !in env.faults &&
      env.path in files && files[env.path].hash == digest(env.content.value)
  {
    if env.content.None? || ChangeLookup in env.faults then Err(MetadataFailed)
    else Ok(env.path !in files || files[env.path].hash != digest(env.content.value))
  }

  /** The batch's decision: forced, or changed, or the check failed. */
  predicate NeedsUpdate(force: bool, check: Result<bool, ImportError>) {
    force || match check { case Ok(changed) => changed case Err(_) => true }
  }

  /** A file is skipped exactly when it is not forced and its stored hash is its current hash. */
  lemma SkipOnlyWhenHashMatches(files: map<string, FileRecord>, env: FileEnv, force: bool, digest: seq<bv8> -> string)
    ensures !NeedsUpdate(force, ChangeCheck(files, env, digest)) <==>
      !force && env.content.Some? && ChangeLookup !in env.faults &&
      env.path in files && files[env.path].hash == digest(env.content.value)
  {
  }

  /** The files the batch queues, in scan order. */
  function Queue(scanned: seq<FileEnv>, force: bool, files: map<string, FileRecord>, digest: seq<bv8> -> string): (q: seq<FileEnv>)
    ensures |q| <= |scanned|
    ensures forall f | f in q :: f in scanned
    ensures forall f | f in scanned && NeedsUpdate(force, ChangeCheck(files, f, digest)) :: f in q
    ensures forall f | f in q :: NeedsUpdate(force, ChangeCheck(files, f, digest))
    ensures force ==> q == scanned
    decreases |scanned|
  {
    if scanned == [] then []
    else
      var n := |scanned| - 1;
      var prev := Queue(scanned[..n], force, files, digest);
      assert forall f | f in scanned[..n] :: f in scanned;
      assert scanned == scanned[..n] + [scanned[n]];
      if NeedsUpdate(force, ChangeCheck(files, scanned[n], digest)) then prev + [scanned[n]] else prev
  }

  /**
   * The scan loop of the batch: each file is either queued (`total` grows) or
   * skipped (`skipped` grows), so the two counts add up to the files scanned.
   */
  method PlanImport(scanned: seq<FileEnv>, force: bool, files: map<string, FileRecord>, digest: seq<bv8> -> string)
    returns (queue: seq<FileEnv>, total: nat, skipped: nat)
    ensures queue == Queue(scanned, force, files, digest)
    ensures total == |queue| && total + skipped == |scanned|
  {
    queue, total, skipped := [], 0, 0;
    for i := 0 to |scanned|
      invariant queue == Queue(scanned[..i], force, files, digest)
      invariant total == |queue| && total + skipped == i
    {
      assert scanned[..i + 1][..i] == scanned[..i];
      var needsUpdate := if force then true else
        match ChangeCheck(files, scanned[i], digest) {
          case Ok(changed) => changed
          case Err(_) => true
        };
      if needsUpdate {
        queue := queue + [scanned[i]];
        total := total + 1;
      } else {
        skipped := skipped + 1;
      }
    }
    assert scanned[..|scanned|] == scanned;
  }

  // ------------------------------------------------------------ chunks

  /** `slice::chunks(size)`: consecutive pieces of `size` elements, the last one possibly shorter. */
  function Chunks<T>(s: seq<T>, size: nat): (cs: seq<seq<T>>)
    requires size >= 1
    ensures forall c | c in cs :: 1 <= |c| <= size
    ensures forall i | 0 <= i < |cs| - 1 :: |cs[i]| == size
    ensures Flatten(cs) == s
    decreases |s|
  {
    if s == [] then []
    else if |s| <= size then [s]
    else
      var rest := Chunks(s[size..], size);
      assert s == s[..size] + s[size..];
      [s[..size]] + rest
  }

  function Flatten<T>(cs: seq<seq<T>>): seq<T> {
    if cs == [] then [] else cs[0] + Flatten(cs[1..])
  }

  /** `max(1, max_concurrent_files)`. */
  function ChunkSize(maxConcurrentFiles: nat): (n: nat)
    ensures n >= 1 && n >= maxConcurrentFiles
    ensures maxConcurrentFiles >= 1 ==> n == maxConcurrentFiles
  {
    if maxConcurrentFiles < 1 then 1 else maxConcurrentFiles
  }

  // ------------------------------------------------------------ rows written

  /** The text a value contributes to a row's search text; `render` prints a number. */
  function RenderValue(v: Value, render: string -> string): string {
    match v
    case Str(s) => s
    case Number(t) => render(t)
    case Bool(b) => if b then "true" else "false"
    case Null => ""
  }

  /** `order` lists every key of `row` exactly once. */
  predicate IsKeyOrder(row: Row, order: seq<string>) {
    && (forall i | 0 <= i < |order| :: order[i] in row)
    && (forall k | k in row :: k in order)
    && (forall i, j | 0 <= i < j < |order| :: order[i] != order[j])
  }

  function Rendered(row: Row, order: seq<string>, render: string -> string): (parts: seq<string>)
    requires forall i | 0 <= i < |order| :: order[i] in row
    ensures |parts| == |order|
    ensures forall i | 0 <= i < |order| :: parts[i] == RenderValue(row[order[i]], render)
  {
    seq(|order|, i requires 0 <= i < |order| && order[i] in row => RenderValue(row[order[i]], render))
  }

  /** `text` is the rendered values of `row` joined by single spaces, in some key order. */
  ghost predicate IsSearchTextOf(row: Row, text: string, render: string -> string) {
    exists order | IsKeyOrder(row, order) :: text == Join(Rendered(row, order, render), " ")
  }

  /** The search-text construction of `insert_excel_data`: values in the row's iteration order, joined by " ". */
  method BuildSearchText(row: Row, render: string -> string) returns (text: string)
    ensures IsSearchTextOf(row, text, render)
  {
    var rest := row.Keys;
    ghost var order: seq<string> := [];
    var parts: seq<string> := [];
    while rest != {}
      invariant rest <= row.Keys
      invariant forall i | 0 <= i < |order| :: order[i] in row && order[i] !in rest
      invariant forall k | k in row && k !in rest :: k in order
      invariant forall i, j | 0 <= i < j < |order| :: order[i] != order[j]
      invariant parts == Rendered(row, order, render)
      decreases |rest|
    {
      var key :| key in rest;
      parts := parts + [RenderValue(row[key], render)];
      order := order + [key];
      rest := rest - {key};
    }
    text := Join(parts, " ");
    assert IsKeyOrder(row, order);
  }

  /** Every value's rendering occurs in the search text, so a search for it finds the row. */
  lemma SearchTextHasValues(row: Row, text: string, render: string -> string, k: string)
    requires IsSearchTextOf(row, text, render) && k in row
    ensures Contains(text, RenderValue(row[k], render))
  {
    var order :| IsKeyOrder(row, order) && text == Join(Rendered(row, order, render), " ");
    var i :| 0 <= i < |order| && order[i] == k;
    JoinContainsPart(Rendered(row, order, render), " ", i);
  }

  /**
   * One stored record: the cleaning of a source row, with its search text, the
   * sheet it came from, its 1-based position among that sheet's rows and the
   * import time.
   */
  ghost predicate IsRecordOf(path: string, sheet: string, number: int, source: Row, now: int,
                             render: string -> string, rec: DataRow) {
    && rec.path == path && rec.sheet == sheet
    && rec.rowNumber == number && rec.importTime == now
    && IsCleaningOf(source, rec.data)
    && IsSearchTextOf(rec.data, rec.searchText, render)
  }

  /** The records `insert_excel_data` writes for one sheet: one per row, in order, numbered from 1. */
  ghost predicate IsSheetRecords(path: string, d: SheetData, now: int, render: string -> string, recs: seq<DataRow>) {
    && |recs| == |d.rows|
    && forall i | 0 <= i < |recs| :: IsRecordOf(path, d.name, i + 1, d.rows[i], now, render, recs[i])
  }

  /**
   * The insert of sheet `j` fails: it has rows (an empty sheet is answered `Ok`
   * without opening a transaction) and its transaction fails.
   */
  predicate SheetFails(faults: set<Step>, data: seq<SheetData>, j: nat)
    requires j < |data|
  {
    data[j].rows != [] && SheetInsert(j) in faults
  }

  /** The index of the first sheet whose insert fails, or the number of sheets when none does. */
  function FirstSheetFault(faults: set<Step>, data: seq<SheetData>): (k: nat)
    ensures k <= |data|
    ensures forall j | 0 <= j < k :: !SheetFails(faults, data, j)
    ensures k < |data| ==> SheetFails(faults, data, k)
    decreases |data|
  {
    if data == [] then 0
    else
      var n := |data| - 1;
      var p := FirstSheetFault(faults, data[..n]);
      assert forall j | 0 <= j < n :: SheetFails(faults, data[..n], j) == SheetFails(faults, data, j);
      if p < n then p else if SheetFails(faults, data, n) then n else n + 1
  }

  /** `cs` holds the records of the first `|cs|` sheets of `data`, one sequence per sheet. */
  ghost predicate AllSheetRecords(path: string, data: seq<SheetData>, now: int, render: string -> string,
                                  cs: seq<seq<DataRow>>) {
    && |cs| <= |data|
    && forall j | 0 <= j < |cs| :: IsSheetRecords(path, data[j], now, render, cs[j])
  }

  /** The records of the next sheet extend those of the sheets before it. */
  lemma AllSheetRecordsSnoc(path: string, data: seq<SheetData>, now: int, render: string -> string,
                            cs: seq<seq<DataRow>>, recs: seq<DataRow>)
    requires |cs| < |data| && AllSheetRecords(path, data, now, render, cs)
    requires IsSheetRecords(path, data[|cs|], now, render, recs)
    ensures AllSheetRecords(path, data, now, render, cs + [recs])
  {
    var all := cs + [recs];
    forall j | 0 <= j < |cs| + 1 ensures IsSheetRecords(path, data[j], now, render, all[j]) {
      if j < |cs| {
        assert all[j] == cs[j];
      } else {
        assert all[j] == recs;
      }
    }
  }

  /**
   * The state of the sheet loop after `k` sheets: none of them failed, `committed`
   * holds their records, and the store holds those records after the initial rows.
   */
  ghost predicate SheetsSoFar(path: string, data: seq<SheetData>, now: int, faults: set<Step>,
                              render: string -> string, initial: seq<DataRow>, k: nat,
                              committed: seq<seq<DataRow>>, rows: seq<DataRow>) {
    && k <= |data| && |committed| == k
    && (forall j | 0 <= j < k :: !SheetFails(faults, data, j))
    && AllSheetRecords(path, data, now, render, committed)
    && rows == initial + Flatten(committed)
  }

  /** A sheet that does not fail and whose records are appended extends the loop state. */
  lemma SheetsSoFarStep(path: string, data: seq<SheetData>, now: int, faults: set<Step>,
                        render: string -> string, initial: seq<DataRow>, k: nat,
                        committed: seq<seq<DataRow>>, records: seq<DataRow>)
    requires k < |data| && SheetsSoFar(path, data, now, faults, render, initial, k, committed, initial + Flatten(committed))
    requires !SheetFails(faults, data, k) && IsSheetRecords(path, data[k], now, render, records)
    ensures SheetsSoFar(path, data, now, faults, render, initial, k + 1, committed + [records],
                        initial + Flatten(committed) + records)
  {
    AllSheetRecordsSnoc(path, data, now, render, committed, records);
    CommitSheet(initial, committed, records);
  }

  /** A failing sheet after sheets that do not fail is the first failing one. */
  lemma FirstSheetFaultAt(faults: set<Step>, data: seq<SheetData>, k: nat)
    requires k <= |data| && forall j | 0 <= j < k :: !SheetFails(faults, data, j)
    requires k < |data| ==> SheetFails(faults, data, k)
    ensures FirstSheetFault(faults, data) == k
  {
  }

  /** The rows of `rows` that do not belong to `path`. */
  function Without(rows: seq<DataRow>, path: string): (r: seq<DataRow>)
    ensures forall x | x in r :: x in rows && x.path != path
    ensures forall x | x in rows && x.path != path :: x in r
  {
    if rows == [] then []
    else if rows[0].path == path then Without(rows[1..], path)
    else [rows[0]] + Without(rows[1..], path)
  }

  /** The record `get_or_create_file_metadata` writes: size, hash and update time refreshed, or a new record. */
  function UpdatedRecord(stored: Option<FileRecord>, path: string, content: seq<bv8>, now: int,
                         digest: seq<bv8> -> string): (f: FileRecord)
    ensures f.hash == digest(content) && f.size == |content| && f.updatedAt == now
    ensures stored.Some? ==> f.name == stored.value.name && f.fieldOrder == stored.value.fieldOrder
                             && f.createdAt == stored.value.createdAt
    ensures stored.None? ==> f.name == FileName(path) && f.fieldOrder == None && f.createdAt == now
  {
    match stored
    case Some(prev) => prev.(size := |content|, hash := digest(content), updatedAt := now)
    case None => FileRecord(FileName(path), |content|, digest(content), None, now, now)
  }

  function Lookup(files: map<string, FileRecord>, path: string): Option<FileRecord> {
    if path in files then Some(files[path]) else None
  }

  /** `process_single_file` returns early: not forced, and the change check says unchanged. */
  predicate Skips(files: map<string, FileRecord>, env: FileEnv, force: bool, digest: seq<bv8> -> string) {
    !force && ChangeCheck(files, env, digest) == Ok(false)
  }

  /** The metadata step succeeds: the file can be read and the write goes through. */
  predicate MetadataWritten(env: FileEnv) {
    env.content.Some? && MetadataWrite !in env.faults
  }

  // ------------------------------------------------------------ the store

  /** The two tables of the store at one moment. */
  datatype Snapshot = Snapshot(files: map<string, FileRecord>, rows: seq<DataRow>)

  /**
   * What `process_single_file` does to the store, from `before` to `after`, with
   * result `res` and the records of the sheets it committed. Unless forced, an
   * unchanged file is skipped. Then the metadata record is written, the file's
   * rows are deleted, the workbook is read, the field order is stored (a failure
   * there is ignored), and the sheets are inserted one by one, each in its own
   * transaction: a failing sheet stops the import and leaves the sheets before it
   * in the store. The metadata, with the new hash, is kept whatever happens after
   * it was written.
   */
  ghost predicate ImportsFile(env: FileEnv, force: bool, now: int, digest: seq<bv8> -> string,
                              roundTrips: string -> bool, render: string -> string,
                              before: Snapshot, after: Snapshot, res: Result<Outcome, ImportError>,
                              committed: seq<seq<DataRow>>)
  {
    && (Skips(before.files, env, force, digest) ==>
          res == Ok(Unchanged) && after == before)
    && (!Skips(before.files, env, force, digest) && !MetadataWritten(env) ==>
          res == Err(MetadataFailed) && after == before)
    && (!Skips(before.files, env, force, digest) && MetadataWritten(env) ==>
          && after.files.Keys == before.files.Keys + {env.path}
          && (forall p | p in before.files && p != env.path :: after.files[p] == before.files[p])
          && after.files[env.path].hash == digest(env.content.value)
          && after.files[env.path].size == |env.content.value|)
    && (!Skips(before.files, env, force, digest) && MetadataWritten(env) && RowDelete in env.faults ==>
          res == Err(DeleteFailed) && after.rows == before.rows)
    && (!Skips(before.files, env, force, digest) && MetadataWritten(env) && RowDelete !in env.faults &&
        env.workbook.None? ==>
          res == Err(ReadFailed) && after.rows == Without(before.rows, env.path))
    && (!Skips(before.files, env, force, digest) && MetadataWritten(env) && RowDelete !in env.faults &&
        env.workbook.Some? ==>
          && after.rows == Without(before.rows, env.path) + Flatten(committed)
          && |committed| == FirstSheetFault(env.faults, SheetsData(env.workbook.value, roundTrips))
          && (forall j | 0 <= j < |committed| ::
                IsSheetRecords(env.path, SheetsData(env.workbook.value, roundTrips)[j], now, render, committed[j]))
          && res == (if |committed| < |SheetsData(env.workbook.value, roundTrips)|
                     then Err(SheetFailed(SheetsData(env.workbook.value, roundTrips)[|committed|].name))
                     else Ok(Imported))
          && (FieldOrderWrite !in env.faults ==>
                after.files[env.path].fieldOrder == Some(FieldOrder(env.workbook.value, roundTrips))))
  }

  /**
   * A run of `process_single_file` over `queue`, one file after another: `trace`
   * holds the store before each file and after the last, `outcomes` and `commits`
   * what each call returned.
   */
  ghost predicate IsRun(queue: seq<FileEnv>, force: bool, now: int, digest: seq<bv8> -> string,
                        roundTrips: string -> bool, render: string -> string,
                        trace: seq<Snapshot>, outcomes: seq<Result<Outcome, ImportError>>,
                        commits: seq<seq<seq<DataRow>>>)
  {
    && |trace| == |queue| + 1 && |outcomes| == |queue| && |commits| == |queue|
    && forall i | 0 <= i < |queue| ::
         ImportsFile(queue[i], force, now, digest, roundTrips, render, trace[i], trace[i + 1], outcomes[i], commits[i])
  }

  /** The number of successful outcomes. */
  function CountOk(outcomes: seq<Result<Outcome, ImportError>>): (n: nat)
    ensures n <= |outcomes|
  {
    if outcomes == [] then 0
    else CountOk(outcomes[..|outcomes| - 1]) + (if outcomes[|outcomes| - 1].Ok? then 1 else 0)
  }

  lemma {:induction false} CountOkAppend(a: seq<Result<Outcome, ImportError>>, b: seq<Result<Outcome, ImportError>>)
    ensures CountOk(a + b) == CountOk(a) + CountOk(b)
    decreases |b|
  {
    if b != [] {
      var n := |b| - 1;
      assert (a + b)[..|a + b| - 1] == a + b[..n] && (a + b)[|a + b| - 1] == b[n];
      CountOkAppend(a, b[..n]);
      assert CountOk(b) == CountOk(b[..n]) + (if b[n].Ok? then 1 else 0);
    } else {
      assert a + b == a;
    }
  }

  /** A run extended by one more call. */
  lemma RunSnoc(queue: seq<FileEnv>, force: bool, now: int, digest: seq<bv8> -> string,
                roundTrips: string -> bool, render: string -> string,
                trace: seq<Snapshot>, outcomes: seq<Result<Outcome, ImportError>>, commits: seq<seq<seq<DataRow>>>,
                env: FileEnv, after: Snapshot, res: Result<Outcome, ImportError>, committed: seq<seq<DataRow>>)
    requires IsRun(queue, force, now, digest, roundTrips, render, trace, outcomes, commits)
    requires ImportsFile(env, force, now, digest, roundTrips, render, trace[|queue|], after, res, committed)
    ensures IsRun(queue + [env], force, now, digest, roundTrips, render, trace + [after], outcomes + [res],
                  commits + [committed])
  {
    var t2 := [trace[|queue|], after];
    assert IsRun([env], force, now, digest, roundTrips, render, t2, [res], [committed]);
    RunAppend(queue, [env], force, now, digest, roundTrips, render, trace, outcomes, commits, t2, [res], [committed]);
    assert t2[1..] == [after];
  }

  /** A run followed by the run of the next chunk: the trace, outcomes and count of both together. */
  lemma RunThen(q1: seq<FileEnv>, q2: seq<FileEnv>, force: bool, now: int, digest: seq<bv8> -> string,
                roundTrips: string -> bool, render: string -> string,
                t1: seq<Snapshot>, o1: seq<Result<Outcome, ImportError>>, c1: seq<seq<seq<DataRow>>>,
                t2: seq<Snapshot>, o2: seq<Result<Outcome, ImportError>>, c2: seq<seq<seq<DataRow>>>)
    requires IsRun(q1, force, now, digest, roundTrips, render, t1, o1, c1)
    requires IsRun(q2, force, now, digest, roundTrips, render, t2, o2, c2)
    requires t1[|q1|] == t2[0]
    ensures IsRun(q1 + q2, force, now, digest, roundTrips, render, t1 + t2[1..], o1 + o2, c1 + c2)
    ensures (t1 + t2[1..])[0] == t1[0] && (t1 + t2[1..])[|q1 + q2|] == t2[|q2|]
    ensures CountOk(o1 + o2) == CountOk(o1) + CountOk(o2)
  {
    RunAppend(q1, q2, force, now, digest, roundTrips, render, t1, o1, c1, t2, o2, c2);
    CountOkAppend(o1, o2);
  }

  /** Two runs, the second starting where the first ended, form one run over both queues. */
  lemma RunAppend(q1: seq<FileEnv>, q2: seq<FileEnv>, force: bool, now: int, digest: seq<bv8> -> string,
                  roundTrips: string -> bool, render: string -> string,
                  t1: seq<Snapshot>, o1: seq<Result<Outcome, ImportError>>, c1: seq<seq<seq<DataRow>>>,
                  t2: seq<Snapshot>, o2: seq<Result<Outcome, ImportError>>, c2: seq<seq<seq<DataRow>>>)
    requires IsRun(q1, force, now, digest, roundTrips, render, t1, o1, c1)
    requires IsRun(q2, force, now, digest, roundTrips, render, t2, o2, c2)
    requires t1[|q1|] == t2[0]
    ensures IsRun(q1 + q2, force, now, digest, roundTrips, render, t1 + t2[1..], o1 + o2, c1 + c2)
  {
    var q, t, o, c := q1 + q2, t1 + t2[1..], o1 + o2, c1 + c2;
    forall i | 0 <= i < |q|
      ensures ImportsFile(q[i], force, now, digest, roundTrips, render, t[i], t[i + 1], o[i], c[i])
    {
      if i < |q1| {
        assert ImportsFile(q1[i], force, now, digest, roundTrips, render, t1[i], t1[i + 1], o1[i], c1[i]);
        assert q[i] == q1[i] && t[i] == t1[i] && t[i + 1] == t1[i + 1] && o[i] == o1[i] && c[i] == c1[i];
      } else {
        var k := i - |q1|;
        assert ImportsFile(q2[k], force, now, digest, roundTrips, render, t2[k], t2[k + 1], o2[k], c2[k]);
        assert q[i] == q2[k] && t[i] == t2[k] && t[i + 1] == t2[k + 1] && o[i] == o2[k] && c[i] == c2[k];
      }
    }
  }

  class Store {
    var files: map<string, FileRecord>
    var rows: seq<DataRow>

    /** Every data row belongs to a stored file (the foreign key of `excel_data`). */
    ghost predicate Valid()
      reads this
    {
      forall r | r in rows :: r.path in files
    }

    constructor ()
      ensures Valid() && files == map[] && rows == []
    {
      files := map[];
      rows := [];
    }

    /** `get_or_create_file_metadata`: fails when the file cannot be read or the write fails. */
    method GetOrCreateFileMetadata(env: FileEnv, now: int, digest: seq<bv8> -> string) returns (ok: bool)
      requires Valid()
      modifies this`files
      ensures Valid()
      ensures ok <==> env.content.Some? && MetadataWrite !in env.faults
      ensures ok ==> files == old(files)[env.path := UpdatedRecord(Lookup(old(files), env.path), env.path, env.content.value, now, digest)]
      ensures !ok ==> files == old(files)
    {
      if env.content.None? || MetadataWrite in env.faults {
        return false;
      }
      files := files[env.path := UpdatedRecord(Lookup(files, env.path), env.path, env.content.value, now, digest)];
      ok := true;
    }

    /** `delete_file_data`: removes every row of the file, or nothing when the statement fails. */
    method DeleteFileData(path: string, faults: set<Step>) returns (ok: bool)
      requires Valid()
      modifies this`rows
      ensures Valid()
      ensures ok == (RowDelete !in faults)
      ensures rows == if ok then Without(old(rows), path) else old(rows)
    {
      if RowDelete in faults {
        return false;
      }
      rows := Without(rows, path);
      ok := true;
    }

    /** `update_file_field_order`: a failure is only logged by the caller. */
    method UpdateFileFieldOrder(path: string, order: seq<string>, faults: set<Step>, now: int)
      requires Valid()
      modifies this`files
      ensures Valid()
      ensures files == if FieldOrderWrite !in faults && path in old(files)
                       then old(files)[path := old(files)[path].(fieldOrder := Some(order), updatedAt := now)]
                       else old(files)
    {
      if FieldOrderWrite !in faults && path in files {
        files := files[path := files[path].(fieldOrder := Some(order), updatedAt := now)];
      }
    }

    /**
     * `insert_excel_data` for the sheet at `index`: the records are built first and
     * inserted in one transaction, which either commits all of them or none.
     */
    method InsertExcelData(path: string, index: nat, d: SheetData, now: int, faults: set<Step>,
                           render: string -> string) returns (ok: bool, records: seq<DataRow>)
      requires Valid() && path in files
      modifies this`rows
      ensures Valid()
      ensures IsSheetRecords(path, d, now, render, records)
      ensures ok == (d.rows == [] || SheetInsert(index) !in faults)
      ensures rows == if ok then old(rows) + records else old(rows)
    {
      records := BuildSheetRecords(path, d, now, render);
      if d.rows != [] && SheetInsert(index) in faults {
        return false, records;
      }
      SheetRecordsBelongTo(path, d, now, render, records);
      rows := rows + records;
      ok := true;
    }

    /**
     * The sheet loop of `process_single_file`: sheets are inserted in order until
     * one fails; the ones before it stay committed.
     */
    method ImportSheets(path: string, data: seq<SheetData>, now: int, faults: set<Step>, render: string -> string)
      returns (committed: seq<seq<DataRow>>, failedAt: nat)
      requires Valid() && path in files
      modifies this`rows
      ensures Valid()
      ensures failedAt == FirstSheetFault(faults, data)
      ensures |committed| == failedAt
      ensures forall j | 0 <= j < failedAt :: IsSheetRecords(path, data[j], now, render, committed[j])
      ensures rows == old(rows) + Flatten(committed)
    {
      committed := [];
      var k := 0;
      while k < |data|
        invariant SheetsSoFar(path, data, now, faults, render, old(rows), k, committed, rows)
        invariant Valid() && path in files
      {
        var ok, records := InsertExcelData(path, k, data[k], now, faults, render);
        if !ok {
          FirstSheetFaultAt(faults, data, k);
          return committed, k;
        }
        SheetsSoFarStep(path, data, now, faults, render, old(rows), k, committed, records);
        committed := committed + [records];
        k := k + 1;
      }
      FirstSheetFaultAt(faults, data, k);
      failedAt := k;
    }

    /** `process_single_file`: the store changes as `ImportsFile` describes. */
    method ProcessSingleFile(env: FileEnv, force: bool, now: int, digest: seq<bv8> -> string,
                             roundTrips: string -> bool, render: string -> string)
      returns (res: Result<Outcome, ImportError>, committed: seq<seq<DataRow>>)
      requires Valid()
      modifies this
      ensures Valid()
      ensures ImportsFile(env, force, now, digest, roundTrips, render, Snapshot(old(files), old(rows)),
                          Snapshot(files, rows), res, committed)
    {
      committed := [];
      if !force {
        var check := ChangeCheck(files, env, digest);
        if check == Ok(false) {
          return Ok(Unchanged), committed;
        }
      }
      var ok := GetOrCreateFileMetadata(env, now, digest);
      if !ok {
        return Err(MetadataFailed), committed;
      }
      ok := DeleteFileData(env.path, env.faults);
      if !ok {
        return Err(DeleteFailed), committed;
      }
      if env.workbook.None? {
        return Err(ReadFailed), committed;
      }
      var data, fieldOrder := ReadWorkbook(env.workbook.value, roundTrips);
      UpdateFileFieldOrder(env.path, fieldOrder, env.faults, now);
      var failedAt;
      committed, failedAt := ImportSheets(env.path, data, now, env.faults, render);
      if failedAt < |data| {
        return Err(SheetFailed(data[failedAt].name)), committed;
      }
      res := Ok(Imported);
    }

    /**
     * `batch_import_excel_files_with_options` after the scan: the queue is decided
     * against the store as it was before any file is processed, then processed in
     * chunks of `max(1, max_concurrent_files)` files; every processed file counts
     * once as a success or a failure.
     */
    method BatchImport(scanned: seq<FileEnv>, force: bool, maxConcurrentFiles: nat, now: int,
                       digest: seq<bv8> -> string, roundTrips: string -> bool, render: string -> string)
      returns (stats: ImportStats, ghost trace: seq<Snapshot>,
               ghost outcomes: seq<Result<Outcome, ImportError>>, ghost commits: seq<seq<seq<DataRow>>>)
      requires Valid()
      modifies this
      ensures Valid()
      ensures stats.total == |Queue(scanned, force, old(files), digest)|
      ensures stats.total + stats.skipped == |scanned|
      ensures IsRun(Queue(scanned, force, old(files), digest), force, now, digest, roundTrips, render,
                    trace, outcomes, commits)
      ensures trace[0] == Snapshot(old(files), old(rows)) && trace[stats.total] == Snapshot(files, rows)
      ensures stats.success == CountOk(outcomes) && stats.success + stats.failed == stats.total
    {
      var queue, total, skipped := PlanImport(scanned, force, files, digest);
      stats := ImportStats(0, 0, total, skipped);
      trace, outcomes, commits := [Snapshot(files, rows)], [], [];
      if |queue| == 0 {
        return;
      }
      var success, failed;
      success, failed, trace, outcomes, commits := ProcessQueue(queue, force, maxConcurrentFiles, now, digest, roundTrips, render);
      stats := stats.(success := success, failed := failed);
    }

    /**
     * The queue processed chunk by chunk: a run of `process_single_file` over the
     * whole queue, in order, with every file counted once, as a success exactly
     * when its call returned `Ok`.
     */
    method ProcessQueue(queue: seq<FileEnv>, force: bool, maxConcurrentFiles: nat, now: int,
                        digest: seq<bv8> -> string, roundTrips: string -> bool, render: string -> string)
      returns (success: nat, failed: nat, ghost trace: seq<Snapshot>,
               ghost outcomes: seq<Result<Outcome, ImportError>>, ghost commits: seq<seq<seq<DataRow>>>)
      requires Valid()
      modifies this
      ensures Valid()
      ensures IsRun(queue, force, now, digest, roundTrips, render, trace, outcomes, commits)
      ensures trace[0] == Snapshot(old(files), old(rows)) && trace[|queue|] == Snapshot(files, rows)
      ensures success == CountOk(outcomes) && success + failed == |queue|
    {
      success, failed := 0, 0;
      trace, outcomes, commits := [Snapshot(files, rows)], [], [];
      var chunks := Chunks(queue, ChunkSize(maxConcurrentFiles));
      ghost var done: seq<FileEnv> := [];
      for c := 0 to |chunks|
        invariant Valid()
        invariant done == Flatten(chunks[..c])
        invariant IsRun(done, force, now, digest, roundTrips, render, trace, outcomes, commits)
        invariant trace[0] == Snapshot(old(files), old(rows)) && trace[|done|] == Snapshot(files, rows)
        invariant success == CountOk(outcomes) && success + failed == |done|
      {
        FlattenPrefix(chunks, c);
        var s, f, t, o, cm := ProcessChunk(chunks[c], force, now, digest, roundTrips, render);
        RunThen(done, chunks[c], force, now, digest, roundTrips, render, trace, outcomes, commits, t, o, cm);
        trace, outcomes, commits := trace + t[1..], outcomes + o, commits + cm;
        done := done + chunks[c];
        success, failed := success + s, failed + f;
      }
      assert chunks[..|chunks|] == chunks;
    }

    /**
     * One chunk of the batch: each file is processed, and counted as a success
     * exactly when its call returned `Ok`.
     */
    method ProcessChunk(chunk: seq<FileEnv>, force: bool, now: int, digest: seq<bv8> -> string,
                        roundTrips: string -> bool, render: string -> string)
      returns (success: nat, failed: nat, ghost trace: seq<Snapshot>,
               ghost outcomes: seq<Result<Outcome, ImportError>>, ghost commits: seq<seq<seq<DataRow>>>)
      requires Valid()
      modifies this
      ensures Valid()
      ensures IsRun(chunk, force, now, digest, roundTrips, render, trace, outcomes, commits)
      ensures trace[0] == Snapshot(old(files), old(rows)) && trace[|chunk|] == Snapshot(files, rows)
      ensures success == CountOk(outcomes) && success + failed == |chunk|
    {
      success, failed := 0, 0;
      trace, outcomes, commits := [Snapshot(files, rows)], [], [];
      for i := 0 to |chunk|
        invariant Valid()
        invariant IsRun(chunk[..i], force, now, digest, roundTrips, render, trace, outcomes, commits)
        invariant trace[0] == Snapshot(old(files), old(rows)) && trace[i] == Snapshot(files, rows)
        invariant success == CountOk(outcomes) && success + failed == i
      {
        var res, committed := ProcessSingleFile(chunk[i], force, now, digest, roundTrips, render);
        RunSnoc(chunk[..i], force, now, digest, roundTrips, render, trace, outcomes, commits,
                chunk[i], Snapshot(files, rows), res, committed);
        assert chunk[..i] + [chunk[i]] == chunk[..i + 1];
        assert (outcomes + [res])[..i] == outcomes;
        trace, outcomes, commits := trace + [Snapshot(files, rows)], outcomes + [res], commits + [committed];
        if res.Ok? {
          success := success + 1;
        } else {
          failed := failed + 1;
        }
      }
      assert chunk[..|chunk|] == chunk;
    }
  }

  /** The record-building loop of `insert_excel_data`: clean each row, build its search text, number it from 1. */
  method BuildSheetRecords(path: string, d: SheetData, now: int, render: string -> string)
    returns (records: seq<DataRow>)
    ensures IsSheetRecords(path, d, now, render, records)
  {
    records := [];
    for i := 0 to |d.rows|
      invariant |records| == i && IsSheetRecordsUpTo(path, d, now, render, records)
    {
      var cleaned := CleanRowData(d.rows[i]);
      var text := BuildSearchText(cleaned, render);
      var record := DataRow(path, d.name, i + 1, cleaned, text, now);
      assert IsRecordOf(path, d.name, i + 1, d.rows[i], now, render, record);
      SheetRecordsSnoc(path, d, now, render, records, record);
      records := records + [record];
    }
  }

  /** The records of the first `|recs|` rows of the sheet. */
  ghost predicate IsSheetRecordsUpTo(path: string, d: SheetData, now: int, render: string -> string, recs: seq<DataRow>) {
    && |recs| <= |d.rows|
    && forall i | 0 <= i < |recs| :: IsRecordOf(path, d.name, i + 1, d.rows[i], now, render, recs[i])
  }

  /** The record of the next row extends the records of the rows before it. */
  lemma SheetRecordsSnoc(path: string, d: SheetData, now: int, render: string -> string,
                         recs: seq<DataRow>, rec: DataRow)
    requires |recs| < |d.rows| && IsSheetRecordsUpTo(path, d, now, render, recs)
    requires IsRecordOf(path, d.name, |recs| + 1, d.rows[|recs|], now, render, rec)
    ensures IsSheetRecordsUpTo(path, d, now, render, recs + [rec])
  {
    var n := |recs|;
    var all := recs + [rec];
    forall i | 0 <= i < n + 1
      ensures IsRecordOf(path, d.name, i + 1, d.rows[i], now, render, all[i])
    {
      if i < n {
        assert all[i] == recs[i];
      } else {
        assert all[i] == rec;
      }
    }
  }

  /** Every record of a sheet of `path` belongs to `path`. */
  lemma SheetRecordsBelongTo(path: string, d: SheetData, now: int, render: string -> string, records: seq<DataRow>)
    requires IsSheetRecords(path, d, now, render, records)
    ensures forall r | r in records :: r.path == path
  {
    forall r | r in records ensures r.path == path {
      var j :| 0 <= j < |records| && records[j] == r;
      assert IsRecordOf(path, d.name, j + 1, d.rows[j], now, render, records[j]);
    }
  }

  /** One more committed sheet: its records follow those of the sheets before it. */
  lemma CommitSheet(initial: seq<DataRow>, committed: seq<seq<DataRow>>, records: seq<DataRow>)
    ensures initial + Flatten(committed) + records == initial + Flatten(committed + [records])
  {
    FlattenSnoc(committed, records);
  }

  /** The flattening of one more chunk of a prefix. */
  lemma FlattenPrefix<T>(cs: seq<seq<T>>, c: nat)
    requires c < |cs|
    ensures Flatten(cs[..c + 1]) == Flatten(cs[..c]) + cs[c]
  {
    assert cs[..c + 1] == cs[..c] + [cs[c]];
    FlattenSnoc(cs[..c], cs[c]);
  }

  lemma {:induction false} FlattenSnoc<T>(cs: seq<seq<T>>, c: seq<T>)
    ensures Flatten(cs + [c]) == Flatten(cs) + c
  {
    if cs != [] {
      assert (cs + [c])[1..] == cs[1..] + [c];
      FlattenSnoc(cs[1..], c);
    } else {
      assert [c][1..] == [];
    }
  }

  /**
   * A file whose import failed after its metadata was written keeps the new hash,
   * so the next batch that is not forced skips it, although its rows are missing
   * or incomplete.
   */
  lemma FailedImportIsSkippedNextTime(files: map<string, FileRecord>, env: FileEnv, digest: seq<bv8> -> string)
    requires env.content.Some? && ChangeLookup !in env.faults
    requires env.path in files && files[env.path].hash == digest(env.content.value)
    ensures !NeedsUpdate(false, ChangeCheck(files, env, digest))
  {
  }
}
