/**
 * Reading a workbook into rows (`read_excel_file`): header naming, cell type
 * coercion, row assembly and the union of header names across sheets.
 */
module SheetReading {
  import opened Wrappers
  import opened Entities
  import opened Sequences

  /** A worksheet by name; `cells` is None when its range cannot be read. */
  datatype Sheet = Sheet(name: string, cells: Option<seq<seq<string>>>)

  /** A sheet that produced data: its name, header row and non-empty rows. */
  datatype SheetData = SheetData(name: string, headers: seq<string>, rows: seq<Row>)

  /** Only ASCII digits and `. - +`: the text may be a plain number. */
  predicate NumericLooking(s: string) {
    forall c | c in s :: ('0' <= c <= '9') || c == '.' || c == '-' || c == '+'
  }

  /** More than one character, a leading '0' and no '.': an identifier such as "0012345". */
  predicate LeadingZeroId(s: string) {
    |s| > 1 && s[0] == '0' && '.' !in s
  }

  /**
   * The coercion of one cell's text. `roundTrips(s)` stands for "`s` parses as an
   * f64 and printing that number gives `s` back (directly, or with '.0' removed
   * from an integral value)". The order of decisions: empty is Null; text that is
   * not number-like, longer than 15 characters or an identifier with a leading
   * zero stays a string; otherwise it becomes a number only when the round trip
   * reproduces it. The cell's text is never altered.
   */
  function CoerceCell(cell: string, roundTrips: string -> bool): (v: Value)
    ensures v == Null <==> cell == []
    ensures v.Number? <==>
      cell != [] && NumericLooking(cell) && |cell| <= 15 && !LeadingZeroId(cell) && roundTrips(cell)
    ensures v.Number? ==> v.text == cell
    ensures v.Str? ==> v.s == cell
    ensures !v.Bool?
  {
    if cell == [] then Null
    else if NumericLooking(cell) then
      // only ASCII characters here, so the byte length is the character count
      if |cell| > 15 || LeadingZeroId(cell) then Str(cell)
      else if roundTrips(cell) then Number(cell)
      else Str(cell)
    else Str(cell)
  }

  /** Identifiers with a leading zero stay text, whatever the float parser would do. */
  lemma LeadingZeroStaysText(roundTrips: string -> bool)
    ensures CoerceCell("0012345", roundTrips) == Str("0012345")
  {
    assert LeadingZeroId("0012345");
  }

  /** More than 15 digits (an ID card or account number) stays text. */
  lemma LongDigitsStayText(roundTrips: string -> bool)
    ensures CoerceCell("1234567890123456", roundTrips) == Str("1234567890123456")
  {
    assert |"1234567890123456"| == 16;
  }

  /** A header cell: an empty one is named "EMPTY". */
  function HeaderName(cell: string): (h: string)
    ensures h != []
    ensures cell != [] ==> h == cell
  {
    if cell == [] then "EMPTY" else cell
  }

  /** The header row: one name per cell, none of them empty; an empty cell is named "EMPTY". */
  function HeaderRow(cells: seq<string>): (hs: seq<string>)
    ensures |hs| == |cells|
    ensures forall i | 0 <= i < |hs| :: hs[i] != []
    ensures forall i | 0 <= i < |cells| && cells[i] != [] :: hs[i] == cells[i]
    ensures forall i | 0 <= i < |cells| && cells[i] == [] :: hs[i] == "EMPTY"
  {
    seq(|cells|, i requires 0 <= i < |cells| => HeaderName(cells[i]))
  }

  /**
   * The row built from one line of cells: each cell whose column has a header is
   * inserted under that header, left to right, so for a repeated header the
   * rightmost column wins; cells beyond the header row are dropped.
   */
  function BuildRow(headers: seq<string>, cells: seq<string>, roundTrips: string -> bool): (r: Row)
    ensures IsRowOf(headers, cells, roundTrips, r)
    decreases |cells|
  {
    if cells == [] then map[]
    else
      var n := |cells| - 1;
      var m := BuildRow(headers, cells[..n], roundTrips);
      BuildRowStep(headers, cells, roundTrips, m);
      if n < |headers| then m[headers[n] := CoerceCell(cells[n], roundTrips)] else m
  }

  /**
   * `r` is the row of `cells` under `headers`: every column with a header has an
   * entry, and each entry is the coerced cell of the last column with that header.
   */
  ghost predicate IsRowOf(headers: seq<string>, cells: seq<string>, roundTrips: string -> bool, r: Row) {
    && (forall j | 0 <= j < |cells| && j < |headers| :: headers[j] in r)
    && (forall k | k in r :: exists j | 0 <= j < |cells| && j < |headers| ::
          headers[j] == k && r[k] == CoerceCell(cells[j], roundTrips) &&
          forall j' | j < j' < |cells| && j' < |headers| :: headers[j'] != k)
  }

  /** One more cell keeps the row property. */
  lemma BuildRowStep(headers: seq<string>, cells: seq<string>, roundTrips: string -> bool, m: Row)
    requires cells != [] && IsRowOf(headers, cells[..|cells| - 1], roundTrips, m)
    ensures var n := |cells| - 1;
      IsRowOf(headers, cells, roundTrips, if n < |headers| then m[headers[n] := CoerceCell(cells[n], roundTrips)] else m)
  {
    var n := |cells| - 1;
    var prefix := cells[..n];
    var r := if n < |headers| then m[headers[n] := CoerceCell(cells[n], roundTrips)] else m;
    forall j | 0 <= j < |cells| && j < |headers| ensures headers[j] in r {
      if j < n {
        assert j < |prefix|;
      }
    }
    forall k | k in r
      ensures exists j | 0 <= j < |cells| && j < |headers| ::
        headers[j] == k && r[k] == CoerceCell(cells[j], roundTrips) &&
        forall j' | j < j' < |cells| && j' < |headers| :: headers[j'] != k
    {
      if n < |headers| && k == headers[n] {
        assert headers[n] == k && r[k] == CoerceCell(cells[n], roundTrips);
      } else {
        assert k in m;
        var j :| 0 <= j < |prefix| && j < |headers| &&
          headers[j] == k && m[k] == CoerceCell(prefix[j], roundTrips) &&
          forall j' | j < j' < |prefix| && j' < |headers| :: headers[j'] != k;
        assert prefix[j] == cells[j];
        assert r[k] == m[k];
      }
    }
  }

  /** The row of one data line, kept only when it is not empty. */
  function NonEmptyRow(headers: seq<string>, roundTrips: string -> bool): seq<string> -> Option<Row> {
    cells => var row := BuildRow(headers, cells, roundTrips); if row != map[] then Some(row) else None
  }

  /**
   * The non-empty rows built from the data lines of a sheet: one per line whose
   * row is not empty, in the order of the lines.
   */
  function DataRows(headers: seq<string>, lines: seq<seq<string>>, roundTrips: string -> bool): (rows: seq<Row>)
    ensures |rows| <= |lines|
    ensures forall r | r in rows :: r != map[]
    decreases |lines|
  {
    if lines == [] then []
    else
      var n := |lines| - 1;
      var prev := DataRows(headers, lines[..n], roundTrips);
      var row := BuildRow(headers, lines[n], roundTrips);
      if row != map[] then prev + [row] else prev
  }

  /** The data rows are exactly the non-empty rows of the lines, one per such line, in order. */
  lemma {:induction false} DataRowsInOrder(headers: seq<string>, lines: seq<seq<string>>, roundTrips: string -> bool)
    ensures IsFilterMap(DataRows(headers, lines, roundTrips), lines, NonEmptyRow(headers, roundTrips))
    decreases |lines|
  {
    DataRowsIsFilterMap(headers, lines, roundTrips);
    FilterMapIsFilterMap(lines, NonEmptyRow(headers, roundTrips));
  }

  lemma {:induction false} DataRowsIsFilterMap(headers: seq<string>, lines: seq<seq<string>>, roundTrips: string -> bool)
    ensures DataRows(headers, lines, roundTrips) == FilterMap(lines, NonEmptyRow(headers, roundTrips))
    decreases |lines|
  {
    var f := NonEmptyRow(headers, roundTrips);
    if lines != [] {
      var n := |lines| - 1;
      assert lines[..n] + [lines[n]] == lines;
      DataRowsIsFilterMap(headers, lines[..n], roundTrips);
      var row := BuildRow(headers, lines[n], roundTrips);
      assert f(lines[n]) == if row != map[] then Some(row) else None;
      FilterMapLast(lines[..n], lines[n], f);
    }
  }

  /**
   * What one sheet contributes: nothing when its range cannot be read, it has no
   * lines, or none of its data lines gives a non-empty row; otherwise its header
   * row (from the first line) and its rows.
   */
  function ReadSheet(sheet: Sheet, roundTrips: string -> bool): (r: Option<SheetData>)
    ensures r.Some? ==> r.value.name == sheet.name && r.value.rows != []
  {
    match sheet.cells
    case None => None
    case Some(lines) =>
      if lines == [] then None
      else
        var headers := HeaderRow(lines[0]);
        var rows := DataRows(headers, lines[1..], roundTrips);
        if rows == [] then None else Some(SheetData(sheet.name, headers, rows))
  }

  /**
   * `hs` appended to `acc`, skipping every name already present; the names
   * added follow the order in which they are first seen in `hs` (`AddNewFirstSeen`).
   */
  function AddNew(acc: seq<string>, hs: seq<string>): (r: seq<string>)
    ensures |acc| <= |r| && r[..|acc|] == acc
    ensures NoDup(acc) ==> NoDup(r)
    ensures forall h | h in r :: h in acc || h in hs
    ensures forall h | h in acc || h in hs :: h in r
    decreases |hs|
  {
    if hs == [] then acc
    else
      var n := |hs| - 1;
      var prev := AddNew(acc, hs[..n]);
      assert forall h | h in hs[..n] :: h in hs;
      if hs[n] in prev then prev else prev + [hs[n]]
  }

  /** The names `AddNew` adds come from `hs`, in the order of their first occurrence there. */
  lemma {:induction false} AddNewFirstSeen(acc: seq<string>, hs: seq<string>)
    ensures forall i | |acc| <= i < |AddNew(acc, hs)| :: AddNew(acc, hs)[i] in hs && AddNew(acc, hs)[i] !in acc
    ensures forall i, j | |acc| <= i < j < |AddNew(acc, hs)| ::
      FirstIndex(hs, AddNew(acc, hs)[i]) < FirstIndex(hs, AddNew(acc, hs)[j])
    decreases |hs|
  {
    if hs != [] {
      var n := |hs| - 1;
      var prev := AddNew(acc, hs[..n]);
      AddNewFirstSeen(acc, hs[..n]);
      assert forall h | h in acc :: h in prev by {
        assert prev[..|acc|] == acc;
      }
      assert forall h | h in hs[..n] :: h in hs;
      AddNewStep(acc, hs, prev);
    }
  }

  /** One more name of `hs` keeps the added names in first-seen order. */
  lemma AddNewStep(acc: seq<string>, hs: seq<string>, prev: seq<string>)
    requires hs != [] && |acc| <= |prev|
    requires forall h | h in hs[..|hs| - 1] :: h in prev
    requires forall i | |acc| <= i < |prev| :: prev[i] in hs[..|hs| - 1] && prev[i] !in acc
    requires forall h | h in acc :: h in prev
    requires forall i, j | |acc| <= i < j < |prev| ::
      FirstIndex(hs[..|hs| - 1], prev[i]) < FirstIndex(hs[..|hs| - 1], prev[j])
    ensures var r := if hs[|hs| - 1] in prev then prev else prev + [hs[|hs| - 1]];
      && (forall i | |acc| <= i < |r| :: r[i] in hs && r[i] !in acc)
      && (forall i, j | |acc| <= i < j < |r| :: FirstIndex(hs, r[i]) < FirstIndex(hs, r[j]))
  {
    var n := |hs| - 1;
    var init, last := hs[..n], hs[n];
    assert hs == init + [last];
    forall i | |acc| <= i < |prev|
      ensures prev[i] in hs && FirstIndex(hs, prev[i]) == FirstIndex(init, prev[i])
    {
      FirstIndexAppend(init, [last], prev[i]);
    }
    if last !in prev {
      FirstIndexAfter(init, [last], last);
      var r := prev + [last];
      forall i, j | |acc| <= i < j < |r|
        ensures FirstIndex(hs, r[i]) < FirstIndex(hs, r[j])
      {
        if j == |prev| {
          assert r[i] == prev[i];
        } else {
          assert r[i] == prev[i] && r[j] == prev[j];
        }
      }
    }
  }

  /** `AddNew` over two runs of names is `AddNew` over their concatenation. */
  lemma {:induction false} AddNewAppend(acc: seq<string>, a: seq<string>, b: seq<string>)
    ensures AddNew(AddNew(acc, a), b) == AddNew(acc, a + b)
    decreases |b|
  {
    if b == [] {
      assert a + b == a;
    } else {
      var m := |b| - 1;
      AddNewAppend(acc, a, b[..m]);
      assert (a + b)[..|a + b| - 1] == a + b[..m];
      assert (a + b)[|a + b| - 1] == b[m];
    }
  }

  predicate NoDup(s: seq<string>) {
    forall i, j | 0 <= i < j < |s| :: s[i] != s[j]
  }

  /** Reading one sheet, as a function of the sheet alone. */
  function SheetReader(roundTrips: string -> bool): Sheet -> Option<SheetData> {
    sheet => ReadSheet(sheet, roundTrips)
  }

  /** The data of the sheets that produced some: one per such sheet, in workbook order. */
  function SheetsData(sheets: seq<Sheet>, roundTrips: string -> bool): (r: seq<SheetData>)
    ensures |r| <= |sheets|
    decreases |sheets|
  {
    if sheets == [] then []
    else
      var n := |sheets| - 1;
      var prev := SheetsData(sheets[..n], roundTrips);
      match ReadSheet(sheets[n], roundTrips)
      case None => prev
      case Some(d) => prev + [d]
  }

  /** The sheet data are exactly the data of the sheets that produced some, one per such sheet, in order. */
  lemma {:induction false} SheetsDataInOrder(sheets: seq<Sheet>, roundTrips: string -> bool)
    ensures IsFilterMap(SheetsData(sheets, roundTrips), sheets, SheetReader(roundTrips))
    decreases |sheets|
  {
    SheetsDataIsFilterMap(sheets, roundTrips);
    FilterMapIsFilterMap(sheets, SheetReader(roundTrips));
  }

  lemma {:induction false} SheetsDataIsFilterMap(sheets: seq<Sheet>, roundTrips: string -> bool)
    ensures SheetsData(sheets, roundTrips) == FilterMap(sheets, SheetReader(roundTrips))
    decreases |sheets|
  {
    var f := SheetReader(roundTrips);
    if sheets != [] {
      var n := |sheets| - 1;
      assert sheets[..n] + [sheets[n]] == sheets;
      SheetsDataLast(sheets, roundTrips);
      SheetsDataIsFilterMap(sheets[..n], roundTrips);
      assert f(sheets[n]) == ReadSheet(sheets[n], roundTrips);
      FilterMapLast(sheets[..n], sheets[n], f);
    }
  }

  lemma SheetsDataLast(sheets: seq<Sheet>, roundTrips: string -> bool)
    requires sheets != []
    ensures var n := |sheets| - 1;
      SheetsData(sheets, roundTrips) == SheetsData(sheets[..n], roundTrips) + OptionSeq(ReadSheet(sheets[n], roundTrips))
  {
  }

  /** The header names of `ds`, sheet after sheet. */
  function AllHeaders(ds: seq<SheetData>): (hs: seq<string>)
    ensures forall h :: h in hs <==> exists d | d in ds :: h in d.headers
    decreases |ds|
  {
    if ds == [] then []
    else
      var n := |ds| - 1;
      var prev := AllHeaders(ds[..n]);
      assert forall d | d in ds :: d in ds[..n] || d == ds[n];
      prev + ds[n].headers
  }

  /** The field order of a workbook: header names of the sheets that produced data, first-seen. */
  function FieldOrder(sheets: seq<Sheet>, roundTrips: string -> bool): (r: seq<string>)
    decreases |sheets|
  {
    if sheets == [] then []
    else
      var n := |sheets| - 1;
      var prev := FieldOrder(sheets[..n], roundTrips);
      match ReadSheet(sheets[n], roundTrips)
      case None => prev
      case Some(d) => AddNew(prev, d.headers)
  }

  /**
   * The field order has no duplicates and holds exactly the header names of the
   * sheets that produced at least one row.
   */
  lemma {:induction false} FieldOrderIsHeaderUnion(sheets: seq<Sheet>, roundTrips: string -> bool)
    ensures NoDup(FieldOrder(sheets, roundTrips))
    ensures forall h | h in FieldOrder(sheets, roundTrips) ::
      exists d | d in SheetsData(sheets, roundTrips) :: h in d.headers
    ensures forall d, h | d in SheetsData(sheets, roundTrips) && h in d.headers ::
      h in FieldOrder(sheets, roundTrips)
    decreases |sheets|
  {
    if sheets != [] {
      var n := |sheets| - 1;
      FieldOrderIsHeaderUnion(sheets[..n], roundTrips);
      var prevData := SheetsData(sheets[..n], roundTrips);
      match ReadSheet(sheets[n], roundTrips)
      case None =>
      case Some(d) =>
        assert SheetsData(sheets, roundTrips) == prevData + [d];
        forall h | h in FieldOrder(sheets, roundTrips)
          ensures exists d' | d' in SheetsData(sheets, roundTrips) :: h in d'.headers
        {
          if h !in d.headers {
            var d' :| d' in prevData && h in d'.headers;
            assert d' in SheetsData(sheets, roundTrips);
          }
        }
    }
  }

  /**
   * The field order is the header names of the sheets that produced data, taken
   * sheet after sheet, without repeats, in the order each is first seen.
   */
  lemma {:induction false} FieldOrderFirstSeen(sheets: seq<Sheet>, roundTrips: string -> bool)
    ensures FieldOrder(sheets, roundTrips) == AddNew([], AllHeaders(SheetsData(sheets, roundTrips)))
    ensures forall i, j | 0 <= i < j < |FieldOrder(sheets, roundTrips)| ::
      FirstIndex(AllHeaders(SheetsData(sheets, roundTrips)), FieldOrder(sheets, roundTrips)[i])
        < FirstIndex(AllHeaders(SheetsData(sheets, roundTrips)), FieldOrder(sheets, roundTrips)[j])
    decreases |sheets|
  {
    FieldOrderIsAddNew(sheets, roundTrips);
    AddNewFirstSeen([], AllHeaders(SheetsData(sheets, roundTrips)));
  }

  /** `FieldOrder` merges the headers sheet by sheet into one `AddNew` over all of them. */
  lemma {:induction false} FieldOrderIsAddNew(sheets: seq<Sheet>, roundTrips: string -> bool)
    ensures FieldOrder(sheets, roundTrips) == AddNew([], AllHeaders(SheetsData(sheets, roundTrips)))
    decreases |sheets|
  {
    if sheets != [] {
      var n := |sheets| - 1;
      FieldOrderIsAddNew(sheets[..n], roundTrips);
      var prevData := SheetsData(sheets[..n], roundTrips);
      match ReadSheet(sheets[n], roundTrips)
      case None =>
      case Some(d) =>
        assert (prevData + [d])[..|prevData|] == prevData;
        AddNewAppend([], AllHeaders(prevData), d.headers);
    }
  }

  /**
   * `read_excel_file` after the workbook is opened: every sheet is read in turn,
   * rows are collected, and the header names of sheets that produced rows are
   * merged into the field order.
   */
  method ReadWorkbook(sheets: seq<Sheet>, roundTrips: string -> bool)
    returns (data: seq<SheetData>, fieldOrder: seq<string>)
    ensures data == SheetsData(sheets, roundTrips)
    ensures fieldOrder == FieldOrder(sheets, roundTrips)
  {
    data, fieldOrder := [], [];
    for i := 0 to |sheets|
      invariant data == SheetsData(sheets[..i], roundTrips)
      invariant fieldOrder == FieldOrder(sheets[..i], roundTrips)
    {
      assert sheets[..i + 1][..i] == sheets[..i];
      var sheet := sheets[i];
      if sheet.cells.None? {
        continue;
      }
      var lines := sheet.cells.value;
      if |lines| == 0 {
        continue;
      }
      var headers := HeaderRow(lines[0]);
      var rows := ReadRows(headers, lines[1..], roundTrips);
      if rows != [] {
        data := data + [SheetData(sheet.name, headers, rows)];
        fieldOrder := MergeHeaders(fieldOrder, headers);
      }
    }
    assert sheets[..|sheets|] == sheets;
  }

  /** The data-line loop of one sheet. */
  method ReadRows(headers: seq<string>, lines: seq<seq<string>>, roundTrips: string -> bool)
    returns (rows: seq<Row>)
    ensures rows == DataRows(headers, lines, roundTrips)
  {
    rows := [];
    for i := 0 to |lines|
      invariant rows == DataRows(headers, lines[..i], roundTrips)
    {
      assert lines[..i + 1][..i] == lines[..i];
      var row := ReadRow(headers, lines[i], roundTrips);
      if row != map[] {
        rows := rows + [row];
      }
    }
    assert lines[..|lines|] == lines;
  }

  /** The cell loop of one data line. */
  method ReadRow(headers: seq<string>, cells: seq<string>, roundTrips: string -> bool)
    returns (row: Row)
    ensures row == BuildRow(headers, cells, roundTrips)
  {
    row := map[];
    for j := 0 to |cells|
      invariant row == BuildRow(headers, cells[..j], roundTrips)
    {
      assert cells[..j + 1][..j] == cells[..j];
      if j < |headers| {
        row := row[headers[j] := CoerceCell(cells[j], roundTrips)];
      }
    }
    assert cells[..|cells|] == cells;
  }

  /** The header-merging loop: `if !all_headers.contains(&header) { all_headers.push(header) }`. */
  method MergeHeaders(acc: seq<string>, hs: seq<string>) returns (r: seq<string>)
    ensures r == AddNew(acc, hs)
  {
    r := acc;
    for i := 0 to |hs|
      invariant r == AddNew(acc, hs[..i])
    {
      assert hs[..i + 1][..i] == hs[..i];
      if hs[i] !in r {
        r := r + [hs[i]];
      }
    }
    assert hs[..|hs|] == hs;
  }
}
