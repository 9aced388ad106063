/**
 * Export of search results to a workbook (`export_search_results`): the ranked
 * hits are grouped by file name, each group becomes one sheet whose columns are
 * the sorted union of its data keys plus two synthetic columns, and sheet names
 * are cleaned by `sanitize_sheet_name`.
 */
module Exporting {
  import opened Wrappers
  import opened Text
  import opened Entities
  import opened SheetReading
  import opened Searching

  // ------------------------------------------------------------ sheet names

  /** The characters a sheet name may not hold: `\ / ? * [ ] :`. */
  predicate Forbidden(c: char) {
    c == '\\' || c == '/' || c == '?' || c == '*' || c == '[' || c == ']' || c == ':'
  }

  /** The name of a sheet whose cleaned name is empty. */
  const DEFAULT_SHEET_NAME: string := "Sheet1"

  /** The name with every forbidden character removed, the others kept in order. */
  function DropForbidden(name: string): (r: string)
    ensures |r| <= |name|
    ensures forall c | c in r :: c in name && !Forbidden(c)
    ensures forall c | c in name && !Forbidden(c) :: c in r
    ensures (forall c | c in name :: !Forbidden(c)) ==> r == name
    decreases |name|
  {
    if name == [] then []
    else
      assert name == [name[0]] + name[1..];
      (if Forbidden(name[0]) then [] else [name[0]]) + DropForbidden(name[1..])
  }

  lemma ByteLenPrefix(s: string, j: nat)
    requires 0 < j <= |s|
    ensures ByteLen(s[..j]) == Utf8Len(s[0]) + ByteLen(s[1..][..j - 1])
  {
    assert s[..j][1..] == s[1..][..j - 1];
  }

  /**
   * The number of leading characters of `s` that take exactly `b` bytes, or None
   * when byte offset `b` is not a character boundary of `s`.
   */
  function BoundaryIndex(s: string, b: nat): (k: Option<nat>)
    ensures k.Some? ==> k.value <= |s| && ByteLen(s[..k.value]) == b
    decreases |s|
  {
    if b == 0 then Some(0)
    else if s == [] || Utf8Len(s[0]) > b then None
    else
      match BoundaryIndex(s[1..], b - Utf8Len(s[0]))
      case None => None
      case Some(k) =>
        ByteLenPrefix(s, k + 1);
        Some(k + 1)
  }

  /** None exactly when no prefix of `s` is `b` bytes long. */
  lemma {:induction false} BoundaryIndexNone(s: string, b: nat)
    ensures BoundaryIndex(s, b).None? <==> forall j | 0 <= j <= |s| :: ByteLen(s[..j]) != b
    decreases |s|
  {
    if BoundaryIndex(s, b).None? {
      forall j | 0 <= j <= |s| ensures ByteLen(s[..j]) != b {
        if j > 0 {
          ByteLenPrefix(s, j);
          if Utf8Len(s[0]) <= b {
            BoundaryIndexNone(s[1..], b - Utf8Len(s[0]));
          }
        }
      }
    }
  }

  /**
   * `sanitize_sheet_name` as written: forbidden characters are removed; a result
   * longer than 31 BYTES is cut with `String::truncate(28)`, which panics (None
   * here) when byte 28 falls inside a character, and gets "..." appended; an
   * empty result becomes "Sheet1".
   */
  function SanitizeSheetNameAsWritten(name: string): (r: Option<string>)
    ensures r.None? <==> ByteLen(DropForbidden(name)) > 31 && BoundaryIndex(DropForbidden(name), 28).None?
    ensures r.Some? ==> r.value != [] && ByteLen(r.value) <= 31 && forall c | c in r.value :: !Forbidden(c)
    ensures DropForbidden(name) == [] ==> r == Some(DEFAULT_SHEET_NAME)
    ensures DropForbidden(name) != [] && ByteLen(DropForbidden(name)) <= 31 ==> r == Some(DropForbidden(name))
    ensures ByteLen(DropForbidden(name)) > 31 && BoundaryIndex(DropForbidden(name), 28).Some? ==>
      r == Some(DropForbidden(name)[..BoundaryIndex(DropForbidden(name), 28).value] + "...")
  {
    var s := DropForbidden(name);
    if ByteLen(s) > 31 then
      match BoundaryIndex(s, 28)
      case None => None
      case Some(k) =>
        TruncatedFits(s, k);
        Some(s[..k] + "...")
    else if s == [] then
      DefaultNameFits();
      Some(DEFAULT_SHEET_NAME)
    else Some(s)
  }

  /** The default name "Sheet1" is six bytes long and holds no forbidden character. */
  lemma DefaultNameFits()
    ensures ByteLen(DEFAULT_SHEET_NAME) == 6 && forall c | c in DEFAULT_SHEET_NAME :: !Forbidden(c)
  {
  }

  /** The cut at a 28-byte boundary plus "..." is 31 bytes and holds no forbidden character. */
  lemma TruncatedFits(s: string, k: nat)
    requires (forall c | c in s :: !Forbidden(c)) && BoundaryIndex(s, 28) == Some(k)
    ensures ByteLen(s[..k] + "...") <= 31 && forall c | c in s[..k] + "..." :: !Forbidden(c)
  {
    ByteLenConcat(s[..k], "...");
    assert ByteLen("...") == 3;
    assert forall c | c in s[..k] :: c in s;
  }

  /** A byte offset that falls inside the character after `k` three-byte ones is no boundary. */
  lemma {:induction false} BoundaryInsideChar(s: string, k: nat, b: nat)
    requires k < |s| && forall i | 0 <= i < k :: Utf8Len(s[i]) == 3
    requires 3 * k < b < 3 * k + Utf8Len(s[k])
    ensures BoundaryIndex(s, b) == None
    decreases k
  {
    if k > 0 {
      BoundaryInsideChar(s[1..], k - 1, b - 3);
    }
  }

  lemma {:induction false} ByteLenWide(s: string)
    requires forall i | 0 <= i < |s| :: Utf8Len(s[i]) == 3
    ensures ByteLen(s) == 3 * |s|
    decreases |s|
  {
    if s != [] {
      ByteLenWide(s[1..]);
    }
  }

  /**
   * A name of ten three-byte characters and ".xlsx" is 35 bytes long, and byte
   * 28 lies inside its tenth character: the as-written truncation panics.
   */
  lemma AsWrittenPanicsOnWideNames(w: string)
    requires |w| == 10 && forall i | 0 <= i < |w| :: Utf8Len(w[i]) == 3 && !Forbidden(w[i])
    ensures SanitizeSheetNameAsWritten(w + ".xlsx").None?
  {
    var ext := ".xlsx";
    var s := w + ext;
    assert forall i | 0 <= i < |s| :: !Forbidden(s[i]) by {
      forall i | 0 <= i < |s| ensures !Forbidden(s[i]) {
        if i >= |w| {
          assert s[i] == ext[i - |w|];
        }
      }
    }
    assert DropForbidden(s) == s;
    ByteLenWide(w);
    assert ByteLen(ext) == 5;
    ByteLenConcat(w, ext);
    assert forall i | 0 <= i < 9 :: s[i] == w[i];
    BoundaryInsideChar(s, 9, 28);
  }

  /** The file name "销售数据统计报表汇总.xlsx" (a sales summary report) cannot be exported. */
  lemma AsWrittenPanicsOnSalesReport()
    ensures SanitizeSheetNameAsWritten("销售数据统计报表汇总.xlsx") == None
  {
    var w := "销售数据统计报表汇总";
    assert forall i | 0 <= i < |w| :: Utf8Len(w[i]) == 3 && !Forbidden(w[i]);
    AsWrittenPanicsOnWideNames(w);
    assert w + ".xlsx" == "销售数据统计报表汇总.xlsx";
  }

  /**
   * `sanitize_sheet_name` as its comment intends (at most 31 characters): forbidden
   * characters are removed, a longer result is cut to 28 characters plus "...",
   * and an empty result becomes "Sheet1".
   */
  function SanitizeSheetName(name: string): (r: string)
    ensures r != [] && |r| <= 31
    ensures forall c | c in r :: !Forbidden(c)
    ensures DropForbidden(name) == [] ==> r == DEFAULT_SHEET_NAME
    ensures DropForbidden(name) != [] && |DropForbidden(name)| <= 31 ==> r == DropForbidden(name)
    ensures |DropForbidden(name)| > 31 ==> r == DropForbidden(name)[..28] + "..."
  {
    var s := DropForbidden(name);
    if |s| > 31 then
      assert forall c | c in s[..28] :: c in s;
      s[..28] + "..."
    else if s == [] then DEFAULT_SHEET_NAME
    else s
  }

  /** A cleaned name is left as it is: cleaning twice is cleaning once. */
  lemma SanitizeIdempotent(name: string)
    ensures SanitizeSheetName(SanitizeSheetName(name)) == SanitizeSheetName(name)
  {
    var r := SanitizeSheetName(name);
    assert DropForbidden(r) == r;
  }

  predicate IsAscii(s: string) {
    forall i | 0 <= i < |s| :: s[i] as int < 0x80
  }

  lemma {:induction false} ByteLenAscii(s: string)
    requires IsAscii(s)
    ensures ByteLen(s) == |s|
    decreases |s|
  {
    if s != [] {
      ByteLenAscii(s[1..]);
    }
  }

  lemma {:induction false} BoundaryAscii(s: string, b: nat)
    requires IsAscii(s) && b <= |s|
    ensures BoundaryIndex(s, b) == Some(b)
    decreases |s|
  {
    if b > 0 {
      BoundaryAscii(s[1..], b - 1);
    }
  }

  /** On ASCII names the as-written function never panics and agrees with the intended one. */
  lemma AsWrittenAgreesOnAscii(name: string)
    requires IsAscii(name)
    ensures SanitizeSheetNameAsWritten(name) == Some(SanitizeSheetName(name))
  {
    var s := DropForbidden(name);
    assert IsAscii(s) by {
      forall i | 0 <= i < |s| ensures s[i] as int < 0x80 {
        assert s[i] in s;
        var j :| 0 <= j < |name| && name[j] == s[i];
      }
    }
    ByteLenAscii(s);
    if |s| > 31 {
      BoundaryAscii(s, 28);
    }
  }

  // ------------------------------------------------------------ columns

  const RowNumberColumn: string := "行号"
  const ImportTimeColumn: string := "导入时间"

  /** Ascending and without repetition, as a `BTreeSet<String>` iterates. */
  predicate StrictlySorted(s: seq<string>) {
    forall i, j | 0 <= i < j < |s| :: LexLess(s[i], s[j])
  }

  /** The columns of a group's sheet: the two synthetic ones and every data key of its rows. */
  function ColumnSet(group: seq<DataRow>): (cs: set<string>)
    ensures RowNumberColumn in cs && ImportTimeColumn in cs
  {
    {RowNumberColumn, ImportTimeColumn} + set r, k | r in group && k in r.data :: k
  }

  lemma ColumnSetSnoc(group: seq<DataRow>, i: nat)
    requires i < |group|
    ensures ColumnSet(group[..i + 1]) == ColumnSet(group[..i]) + group[i].data.Keys
  {
    var g, g' := group[..i], group[..i + 1];
    assert g' == g + [group[i]];
    forall k | k in ColumnSet(g') ensures k in ColumnSet(g) + group[i].data.Keys {
      if k != RowNumberColumn && k != ImportTimeColumn {
        var r :| r in g' && k in r.data;
        if r != group[i] {
          assert r in g;
        }
      }
    }
    forall k | k in group[i].data.Keys ensures k in ColumnSet(g') {
      assert group[i] in g';
    }
  }

  /** `BTreeSet::insert`: `k` added to a strictly sorted sequence at its place. */
  function InsertSorted(s: seq<string>, k: string): (r: seq<string>)
    ensures forall x :: x in r <==> x in s || x == k
    decreases |s|
  {
    if s == [] then [k]
    else if k == s[0] then s
    else if LexLess(k, s[0]) then [k] + s
    else
      assert s == [s[0]] + s[1..];
      [s[0]] + InsertSorted(s[1..], k)
  }

  lemma {:induction false} InsertSortedSorted(s: seq<string>, k: string)
    requires StrictlySorted(s)
    ensures StrictlySorted(InsertSorted(s, k))
    decreases |s|
  {
    if s == [] || k == s[0] {
    } else if LexLess(k, s[0]) {
      forall j | 0 < j < |s| ensures LexLess(k, s[j]) {
        LexLessTrans(k, s[0], s[j]);
      }
    } else {
      LexLessTotal(k, s[0]);
      InsertSortedSorted(s[1..], k);
      var rest := InsertSorted(s[1..], k);
      forall j | 0 <= j < |rest| ensures LexLess(s[0], rest[j]) {
        assert rest[j] in rest;
        if rest[j] != k {
          var m :| 0 <= m < |s[1..]| && s[1..][m] == rest[j];
          assert s[m + 1] == rest[j];
        }
      }
    }
  }

  lemma LexLessAsym(a: string, b: string)
    requires LexLess(a, b)
    ensures !LexLess(b, a)
  {
    if LexLess(b, a) {
      LexLessTrans(a, b, a);
      LexLessIrreflexive(a);
    }
  }

  /** Two sequences with the same elements are empty together. */
  lemma SameMembersEmpty(a: seq<string>, b: seq<string>)
    requires forall x :: x in a <==> x in b
    ensures a == [] <==> b == []
  {
    if a != [] {
      assert a[0] in b;
    }
    if b != [] {
      assert b[0] in a;
    }
  }

  /**
   * A strictly sorted sequence is determined by its elements: the column order
   * does not depend on the order in which keys are inserted.
   */
  lemma {:induction false} SortedUnique(a: seq<string>, b: seq<string>)
    requires StrictlySorted(a) && StrictlySorted(b)
    requires forall x :: x in a <==> x in b
    ensures a == b
    decreases |a|
  {
    if a == [] {
      SameMembersEmpty(a, b);
    } else {
      assert b != [] by {
        assert a[0] in a;
      }
      assert a[0] in b;
      var j :| 0 <= j < |b| && b[j] == a[0];
      assert b[0] in a;
      var i :| 0 <= i < |a| && a[i] == b[0];
      if j > 0 {
        if i > 0 {
          LexLessAsym(b[0], b[j]);
        } else {
          LexLessIrreflexive(b[0]);
        }
      }
      forall x ensures x in a[1..] <==> x in b[1..] {
        if x in a[1..] {
          var m :| 0 <= m < |a[1..]| && a[1..][m] == x;
          assert LexLess(a[0], a[m + 1]);
          LexLessIrreflexive(x);
          assert x in b;
          assert x != b[0];
          assert b == [b[0]] + b[1..];
        }
        if x in b[1..] {
          var m :| 0 <= m < |b[1..]| && b[1..][m] == x;
          assert LexLess(b[0], b[m + 1]);
          LexLessIrreflexive(x);
          assert x in a;
          assert x != a[0];
          assert a == [a[0]] + a[1..];
        }
      }
      SortedUnique(a[1..], b[1..]);
      assert a == [a[0]] + a[1..] && b == [b[0]] + b[1..];
    }
  }

  /**
   * The column loop of one group: both synthetic columns, then every key of every
   * row (keys taken in map order), inserted into a sorted set.
   */
  method Columns(group: seq<DataRow>) returns (cols: seq<string>)
    ensures StrictlySorted(cols)
    ensures forall c :: c in cols <==> c in ColumnSet(group)
  {
    cols := InsertSorted([], RowNumberColumn);
    InsertSortedSorted(cols, ImportTimeColumn);
    cols := InsertSorted(cols, ImportTimeColumn);
    for i := 0 to |group|
      invariant StrictlySorted(cols)
      invariant forall c :: c in cols <==> c in ColumnSet(group[..i])
    {
      ColumnSetSnoc(group, i);
      var keys := group[i].data.Keys;
      ghost var done: set<string> := {};
      while keys != {}
        invariant keys + done == group[i].data.Keys
        invariant StrictlySorted(cols)
        invariant forall c :: c in cols <==> c in ColumnSet(group[..i]) || c in done
        decreases keys
      {
        var k :| k in keys;
        InsertSortedSorted(cols, k);
        cols := InsertSorted(cols, k);
        keys := keys - {k};
        done := done + {k};
      }
    }
    assert group[..|group|] == group;
  }

  // ------------------------------------------------------------ cells

  /** `i32::to_string`. */
  function IntToString(n: int): (r: string)
    ensures r != []
  {
    if n < 0 then "-" + NatToString(-n) else NatToString(n)
  }

  /**
   * The text written for `row` under `column`. The synthetic columns take the
   * row number and the formatted import time even when the row's data has a key
   * of the same name; a data key gives its string as is, a number as `display`
   * prints it, a boolean as "true"/"false", and null or a missing key the empty
   * string.
   */
  function CellText(row: DataRow, column: string, display: string -> string, formatTime: int -> string): (r: string)
    ensures column == RowNumberColumn ==> r == IntToString(row.rowNumber)
    ensures column == ImportTimeColumn ==> r == formatTime(row.importTime)
    ensures column != RowNumberColumn && column != ImportTimeColumn ==>
      (column !in row.data || row.data[column] == Null ==> r == []) &&
      (column in row.data && row.data[column].Str? ==> r == row.data[column].s) &&
      (column in row.data && row.data[column].Number? ==> r == display(row.data[column].text)) &&
      (column in row.data && row.data[column].Bool? ==> r == if row.data[column].b then "true" else "false")
  {
    if column == RowNumberColumn then IntToString(row.rowNumber)
    else if column == ImportTimeColumn then formatTime(row.importTime)
    else if column !in row.data then ""
    else
      match row.data[column]
      case Str(s) => s
      case Number(t) => display(t)
      case Bool(b) => if b then "true" else "false"
      case Null => ""
  }

  /** One data line of a sheet: a cell per column. */
  function RowCells(row: DataRow, columns: seq<string>, display: string -> string, formatTime: int -> string): (cells: seq<string>)
    ensures |cells| == |columns|
    ensures forall j | 0 <= j < |columns| :: cells[j] == CellText(row, columns[j], display, formatTime)
  {
    seq(|columns|, j requires 0 <= j < |columns| => CellText(row, columns[j], display, formatTime))
  }

  // ------------------------------------------------------------ grouping

  /** The rows of the ranking whose file is named `name`, in ranking order. */
  function GroupRows(ranked: seq<Scored>, name: string): (g: seq<DataRow>)
    ensures |g| <= |ranked|
    ensures forall r | r in g :: exists x | x in ranked :: x.hit.row == r && x.hit.file.Some? && x.hit.file.value.name == name
    decreases |ranked|
  {
    if ranked == [] then []
    else
      var n := |ranked| - 1;
      var x := ranked[n];
      var prev := GroupRows(ranked[..n], name);
      assert forall y | y in ranked[..n] :: y in ranked;
      if x.hit.file.Some? && x.hit.file.value.name == name then prev + [x.hit.row] else prev
  }

  /** The names of the files of the ranked hits; hits without a file are not exported. */
  function FileNames(ranked: seq<Scored>): set<string> {
    set x | x in ranked && x.hit.file.Some? :: x.hit.file.value.name
  }

  /** No ranked hit that has a file is lost: it lands in the group of its file's name. */
  lemma {:induction false} GroupRowsComplete(ranked: seq<Scored>)
    ensures forall x | x in ranked && x.hit.file.Some? :: x.hit.row in GroupRows(ranked, x.hit.file.value.name)
    decreases |ranked|
  {
    if ranked != [] {
      var n := |ranked| - 1;
      GroupRowsComplete(ranked[..n]);
      forall x | x in ranked && x.hit.file.Some? ensures x.hit.row in GroupRows(ranked, x.hit.file.value.name) {
        if x != ranked[n] {
          assert ranked == ranked[..n] + [ranked[n]];
          assert x in ranked[..n];
        }
      }
    }
  }

  /** A file name gets a group exactly when some ranked hit has a file of that name. */
  lemma GroupRowsEmpty(ranked: seq<Scored>, name: string)
    ensures GroupRows(ranked, name) == [] <==> name !in FileNames(ranked)
  {
    GroupRowsComplete(ranked);
    var g := GroupRows(ranked, name);
    if g != [] {
      assert g[0] in g;
    }
    if name in FileNames(ranked) {
      var x :| x in ranked && x.hit.file.Some? && x.hit.file.value.name == name;
      assert x.hit.row in g;
    }
  }

  /** The groups of a ranking: every file name with its rows in ranking order. */
  function Groups(ranked: seq<Scored>): (groups: map<string, seq<DataRow>>)
    ensures groups.Keys == FileNames(ranked)
    ensures forall n | n in groups :: groups[n] != []
  {
    forall n | n in FileNames(ranked) ensures GroupRows(ranked, n) != [] {
      GroupRowsEmpty(ranked, n);
    }
    map n | n in FileNames(ranked) :: GroupRows(ranked, n)
  }

  lemma GroupsSnoc(ranked: seq<Scored>, i: nat)
    requires i < |ranked|
    ensures var g, x := Groups(ranked[..i]), ranked[i];
      Groups(ranked[..i + 1]) ==
        if x.hit.file.None? then g
        else g[x.hit.file.value.name := (if x.hit.file.value.name in g then g[x.hit.file.value.name] else []) + [x.hit.row]]
  {
    var pre, x := ranked[..i], ranked[i];
    assert ranked[..i + 1][..i] == pre;
    assert ranked[..i + 1] == pre + [x];
    var g, g' := Groups(pre), Groups(ranked[..i + 1]);
    if x.hit.file.Some? {
      var name := x.hit.file.value.name;
      GroupRowsEmpty(pre, name);
    }
  }

  /**
   * The grouping loop: `grouped_data.entry(file_name).or_insert_with(Vec::new).push(...)`
   * for every ranked hit that has a file.
   */
  method GroupByFile(ranked: seq<Scored>) returns (groups: map<string, seq<DataRow>>)
    ensures groups == Groups(ranked)
  {
    groups := map[];
    assert ranked[..0] == [];
    assert Groups(ranked[..0]) == map[];
    for i := 0 to |ranked|
      invariant groups == Groups(ranked[..i])
    {
      GroupsSnoc(ranked, i);
      var x := ranked[i];
      if x.hit.file.Some? {
        var name := x.hit.file.value.name;
        var prev := if name in groups then groups[name] else [];
        groups := groups[name := prev + [x.hit.row]];
      }
    }
    assert ranked[..|ranked|] == ranked;
  }

  // ------------------------------------------------------------ the export

  /** One sheet of the exported workbook: its name, header row and data lines. */
  datatype ExportSheet = ExportSheet(name: string, columns: seq<string>, cells: seq<seq<string>>)

  datatype ExportError = EmptyQuery | NoMatches

  /** `sheet` is what the export writes for the rows `group` of the file named `fileName`. */
  ghost predicate IsSheetOf(sheet: ExportSheet, fileName: string, group: seq<DataRow>,
                      display: string -> string, formatTime: int -> string)
  {
    && sheet.name == SanitizeSheetName(fileName)
    && StrictlySorted(sheet.columns)
    && (forall c :: c in sheet.columns <==> c in ColumnSet(group))
    && |sheet.cells| == |group|
    && forall i | 0 <= i < |group| :: sheet.cells[i] == RowCells(group[i], sheet.columns, display, formatTime)
  }

  /** The body of the per-file loop: header row, then one line per row of the group. */
  method BuildSheet(fileName: string, group: seq<DataRow>, display: string -> string, formatTime: int -> string)
    returns (sheet: ExportSheet)
    ensures IsSheetOf(sheet, fileName, group, display, formatTime)
  {
    var name := SanitizeSheetName(fileName);
    var columns := Columns(group);
    var cells := [];
    for i := 0 to |group|
      invariant |cells| == i
      invariant forall k | 0 <= k < i :: cells[k] == RowCells(group[k], columns, display, formatTime)
    {
      cells := cells + [RowCells(group[i], columns, display, formatTime)];
    }
    sheet := ExportSheet(name, columns, cells);
  }

  /**
   * The sheets are one per group, each written from its group, in some order
   * (the iteration order of a `HashMap`).
   */
  ghost predicate IsSheetsOf(sheets: seq<ExportSheet>, groups: map<string, seq<DataRow>>,
                             display: string -> string, formatTime: int -> string)
  {
    exists order: seq<string> ::
      && |order| == |sheets|
      && NoDup(order)
      && (forall n :: n in order <==> n in groups)
      && forall i | 0 <= i < |sheets| :: IsSheetOf(sheets[i], order[i], groups[order[i]], display, formatTime)
  }

  /** The per-file loop: a sheet for each group, in map order. */
  method WriteSheets(groups: map<string, seq<DataRow>>, display: string -> string, formatTime: int -> string)
    returns (sheets: seq<ExportSheet>)
    ensures IsSheetsOf(sheets, groups, display, formatTime)
  {
    sheets := [];
    ghost var order: seq<string> := [];
    var remaining := groups.Keys;
    while remaining != {}
      invariant remaining <= groups.Keys
      invariant |order| == |sheets|
      invariant NoDup(order)
      invariant forall n :: n in order <==> n in groups && n !in remaining
      invariant forall i | 0 <= i < |sheets| ::
        order[i] in groups && IsSheetOf(sheets[i], order[i], groups[order[i]], display, formatTime)
      decreases remaining
    {
      var name :| name in remaining;
      var sheet := BuildSheet(name, groups[name], display, formatTime);
      sheets := sheets + [sheet];
      order := order + [name];
      remaining := remaining - {name};
    }
  }

  /**
   * `export_search_results`: a blank query and a query without matches are
   * errors; otherwise the ranking (as for a search) is grouped by file name and
   * each group is written to its own sheet.
   */
  method ExportSearchResults(rows: seq<DataRow>, files: map<string, FileRecord>, query: string,
                             display: string -> string, formatTime: int -> string)
    returns (r: Result<seq<ExportSheet>, ExportError>)
    ensures Keywords(query) == [] ==> r == Err(EmptyQuery)
    ensures Keywords(query) != [] && MatchingHits(rows, files, Keywords(query)) == [] ==> r == Err(NoMatches)
    ensures Keywords(query) != [] && MatchingHits(rows, files, Keywords(query)) != [] ==>
      r.Ok? && IsSheetsOf(r.value, Groups(Ranked(rows, files, query)), display, formatTime)
  {
    var keywords := Keywords(query);
    if keywords == [] {
      return Err(EmptyQuery);
    }
    var hits := MatchingHits(rows, files, keywords);
    if hits == [] {
      return Err(NoMatches);
    }
    var scored := ScoreAll(hits, query, keywords);
    var ranked := RankScored(scored);
    assert ranked == Ranked(rows, files, query);
    var groups := GroupByFile(ranked);
    var sheets := WriteSheets(groups, display, formatTime);
    r := Ok(sheets);
  }

  /** Every exported data row is a stored row that matches some keyword of the query. */
  lemma ExportedRowsMatch(rows: seq<DataRow>, files: map<string, FileRecord>, query: string, name: string)
    ensures forall r | r in GroupRows(Ranked(rows, files, query), name) ::
      r in rows && Matches(r.searchText, Keywords(query))
  {
    var ranked := Ranked(rows, files, query);
    RankedFromMatching(rows, files, query);
    forall r | r in GroupRows(ranked, name) ensures r in rows && Matches(r.searchText, Keywords(query)) {
      var x :| x in ranked && x.hit.row == r && x.hit.file.Some? && x.hit.file.value.name == name;
    }
  }

  /** Every ranked hit is a stored row that matches the query. */
  lemma RankedFromMatching(rows: seq<DataRow>, files: map<string, FileRecord>, query: string)
    ensures forall x | x in Ranked(rows, files, query) :: x.hit.row in rows && Matches(x.hit.row.searchText, Keywords(query))
  {
    var kws := Keywords(query);
    var hits := MatchingHits(rows, files, kws);
    var scored := ScoreAll(hits, query, kws);
    RankSortPermutes(scored);
    forall x | x in RankSort(scored) ensures x.hit.row in rows && Matches(x.hit.row.searchText, kws) {
      assert x in multiset(RankSort(scored));
      assert x in multiset(scored);
      var k :| 0 <= k < |scored| && scored[k] == x;
      assert hits[k] in hits;
    }
  }
}
