/**
 * Keyword search over the stored rows (`search_data`): keyword extraction,
 * matching, relevance scoring, the in-place stable sort by score and import
 * time, and offset/limit paging. The ranking part is shared with the export.
 */
module Searching {
  import opened Wrappers
  import opened Text
  import opened Entities
  import opened Sequences

  // ------------------------------------------------------------ keywords

  /**
   * `query.trim().split_whitespace()`: the words of the query. There are none
   * exactly when the query is blank, and every keyword is a non-empty run of
   * non-whitespace that occurs in the query.
   */
  function Keywords(query: string): (kws: seq<string>)
    ensures kws == [] <==> forall i | 0 <= i < |query| :: IsWhitespace(query[i])
    ensures forall k | k in kws :: IsWordOf(query, k)
  {
    var t := Trim(query);
    TrimContained(query);
    SplitWhitespaceWords(t);
    forall k | k in SplitWhitespace(t) ensures IsWordOf(query, k) {
      ContainsTrans(query, t, k);
    }
    TrimmedBlankIsEmpty(t);
    SplitWhitespace(t)
  }

  /** The keywords are exactly the maximal runs of non-whitespace of the query, in order. */
  lemma KeywordsAreRuns(query: string)
    ensures IsRunsOf(query, Keywords(query))
  {
    TrimExact(query);
    var i: nat :| PaddedAt(query, Trim(query), i);
    RunsPadded(query, Trim(query), i);
  }

  lemma TrimmedBlankIsEmpty(t: string)
    requires IsTrimmed(t)
    ensures (forall i | 0 <= i < |t| :: IsWhitespace(t[i])) <==> t == []
  {
  }

  // ------------------------------------------------------------ matching and scoring

  /** The row filter: some keyword occurs in the search text (ANY-keyword match). */
  predicate Matches(text: string, kws: seq<string>) {
    exists i | 0 <= i < |kws| :: Contains(text, kws[i])
  }

  /** The number of keywords (counted with repetition) that occur in `text`. */
  function CountContained(text: string, kws: seq<string>): (n: nat)
    ensures n <= |kws|
    ensures n > 0 <==> Matches(text, kws)
    decreases |kws|
  {
    if kws == [] then 0
    else
      var rest := CountContained(text, kws[1..]);
      assert Matches(text, kws[1..]) ==> Matches(text, kws) by {
        if Matches(text, kws[1..]) {
          var i :| 0 <= i < |kws| - 1 && Contains(text, kws[1..][i]);
          assert kws[1..][i] == kws[i + 1];
        }
      }
      assert Matches(text, kws) ==> Contains(text, kws[0]) || Matches(text, kws[1..]) by {
        if Matches(text, kws) && !Contains(text, kws[0]) {
          var i :| 0 <= i < |kws| && Contains(text, kws[i]);
          assert kws[1..][i - 1] == kws[i];
        }
      }
      (if Contains(text, kws[0]) then 1 else 0) + rest
  }

  /**
   * The relevance score of a row: one point per keyword found, plus the number
   * of keywords when the whole query string (as typed, not trimmed) is found.
   */
  function Score(text: string, query: string, kws: seq<string>): int {
    CountContained(text, kws) + if Contains(text, query) then |kws| else 0
  }

  /**
   * For a non-blank query, a row scores above zero exactly when it matches, and
   * every score lies between 1 and twice the number of keywords: the whole
   * query contains each keyword, so finding it finds them all.
   */
  lemma ScoreRange(text: string, query: string)
    requires Keywords(query) != []
    ensures var kws := Keywords(query);
      && (Score(text, query, kws) > 0 <==> Matches(text, kws))
      && (Matches(text, kws) ==> 1 <= Score(text, query, kws) <= 2 * |kws|)
  {
    var kws := Keywords(query);
    if Contains(text, query) {
      assert IsWordOf(query, kws[0]);
      ContainsTrans(text, query, kws[0]);
    }
  }

  // ------------------------------------------------------------ ranking

  /** A row found by the search, joined with its file record when there is one. */
  datatype Hit = Hit(row: DataRow, file: Option<FileRecord>)

  datatype Scored = Scored(hit: Hit, score: int)

  /** `x` sorts strictly before `y`: higher score, or equal score and later import. */
  predicate Before(x: Scored, y: Scored) {
    x.score > y.score || (x.score == y.score && x.hit.row.importTime > y.hit.row.importTime)
  }

  /** No element sorts strictly before one to its left. */
  predicate Ordered(s: seq<Scored>) {
    forall i, j | 0 <= i < j < |s| :: !Before(s[j], s[i])
  }

  /** `x` inserted after every element it does not sort strictly before. */
  function Insert(s: seq<Scored>, x: Scored): (r: seq<Scored>)
    ensures |r| == |s| + 1
    decreases |s|
  {
    if s == [] || !Before(x, s[|s| - 1]) then s + [x]
    else
      var init := s[..|s| - 1];
      assert s == init + [s[|s| - 1]];
      Insert(init, x) + [s[|s| - 1]]
  }

  /**
   * The stable sort by `Before` (`slice::sort_by` is stable): elements are
   * inserted left to right, each after the equal-ranked ones already placed.
   */
  function RankSort(s: seq<Scored>): (r: seq<Scored>)
    ensures |r| == |s|
    decreases |s|
  {
    if s == [] then []
    else
      var init := s[..|s| - 1];
      assert s == init + [s[|s| - 1]];
      Insert(RankSort(init), s[|s| - 1])
  }

  /** Inserting adds exactly `x`. */
  lemma {:induction false} InsertPermutes(s: seq<Scored>, x: Scored)
    ensures multiset(Insert(s, x)) == multiset(s) + multiset{x}
    decreases |s|
  {
    if s != [] && Before(x, s[|s| - 1]) {
      var init := s[..|s| - 1];
      InsertPermutes(init, x);
      assert s == init + [s[|s| - 1]];
    }
  }

  /** The ranking is a permutation of its input. */
  lemma {:induction false} RankSortPermutes(s: seq<Scored>)
    ensures multiset(RankSort(s)) == multiset(s)
    decreases |s|
  {
    if s != [] {
      var init := s[..|s| - 1];
      RankSortPermutes(init);
      InsertPermutes(RankSort(init), s[|s| - 1]);
      assert s == init + [s[|s| - 1]];
    }
  }

  lemma {:induction false} InsertOrdered(s: seq<Scored>, x: Scored)
    requires Ordered(s)
    ensures Ordered(Insert(s, x))
    decreases |s|
  {
    if s != [] && Before(x, s[|s| - 1]) {
      var init := s[..|s| - 1];
      var last := s[|s| - 1];
      InsertOrdered(init, x);
      var r := Insert(init, x);
      InsertPermutes(init, x);
      forall i | 0 <= i < |r| ensures !Before(last, r[i]) {
        assert r[i] in multiset(r);
        if r[i] != x {
          assert r[i] in multiset(init);
          var k :| 0 <= k < |init| && init[k] == r[i];
          assert s[k] == r[i];
        }
      }
      assert Insert(s, x) == r + [last];
    }
    else {
      forall i | 0 <= i < |s| ensures !Before(x, s[i]) {
        if s != [] && i < |s| - 1 {
          assert !Before(s[|s| - 1], s[i]);
        }
      }
    }
  }

  /** The ranking is ordered by score, then import time, both descending. */
  lemma {:induction false} RankSortOrdered(s: seq<Scored>)
    ensures Ordered(RankSort(s))
    decreases |s|
  {
    if s != [] {
      RankSortOrdered(s[..|s| - 1]);
      InsertOrdered(RankSort(s[..|s| - 1]), s[|s| - 1]);
    }
  }

  /** `x` and `y` tie: neither sorts strictly before the other. */
  predicate Ties(x: Scored, y: Scored) {
    x.score == y.score && x.hit.row.importTime == y.hit.row.importTime
  }

  /** The elements of `s` that tie with `x`, in their order in `s`. */
  function TiesWith(s: seq<Scored>, x: Scored): seq<Scored>
    decreases |s|
  {
    if s == [] then []
    else
      var last := s[|s| - 1];
      TiesWith(s[..|s| - 1], x) + (if Ties(last, x) then [last] else [])
  }

  lemma {:induction false} TiesWithAppend(a: seq<Scored>, b: seq<Scored>, x: Scored)
    ensures TiesWith(a + b, x) == TiesWith(a, x) + TiesWith(b, x)
    decreases |b|
  {
    if b == [] {
      assert a + b == a;
    } else {
      var m := |b| - 1;
      TiesWithAppend(a, b[..m], x);
      assert (a + b)[..|a + b| - 1] == a + b[..m];
    }
  }

  /** Inserting moves `y` only past elements it does not tie with. */
  lemma {:induction false} InsertKeepsTies(s: seq<Scored>, y: Scored, x: Scored)
    ensures TiesWith(Insert(s, y), x) == TiesWith(s, x) + TiesWith([y], x)
    decreases |s|
  {
    if s == [] || !Before(y, s[|s| - 1]) {
      TiesWithAppend(s, [y], x);
    } else {
      var init, last := s[..|s| - 1], s[|s| - 1];
      InsertKeepsTies(init, y, x);
      assert s == init + [last];
      assert Insert(s, y) == Insert(init, y) + [last];
      InsertTiesStep(init, last, y, x);
    }
  }

  lemma InsertTiesStep(init: seq<Scored>, last: Scored, y: Scored, x: Scored)
    requires Before(y, last)
    requires TiesWith(Insert(init, y), x) == TiesWith(init, x) + TiesWith([y], x)
    ensures TiesWith(Insert(init, y) + [last], x) == TiesWith(init + [last], x) + TiesWith([y], x)
  {
    TiesWithAppend(Insert(init, y), [last], x);
    TiesWithAppend(init, [last], x);
    var a, ty, tl := TiesWith(init, x), TiesWith([y], x), TiesWith([last], x);
    OrderedPairTies(y, last, x);
    if ty == [] {
      assert (a + ty) + tl == a + tl == (a + tl) + ty;
    } else {
      assert (a + ty) + tl == a + ty == (a + tl) + ty;
    }
  }

  /** Two elements one of which sorts strictly before the other cannot both tie with `x`. */
  lemma OrderedPairTies(y: Scored, z: Scored, x: Scored)
    requires Before(y, z)
    ensures TiesWith([y], x) == [] || TiesWith([z], x) == []
  {
    assert [y][..0] == [] && [z][..0] == [];
  }

  /**
   * The sort is stable: the elements that tie with any given one come out in
   * the order they went in.
   */
  lemma {:induction false} RankSortStable(s: seq<Scored>, x: Scored)
    ensures TiesWith(RankSort(s), x) == TiesWith(s, x)
    decreases |s|
  {
    if s != [] {
      var init, last := s[..|s| - 1], s[|s| - 1];
      RankSortStable(init, x);
      InsertKeepsTies(RankSort(init), last, x);
      TiesWithAppend(init, [last], x);
      assert s == init + [last];
    }
  }

  /** Sorting a sequence that is already ordered leaves it as it is (the sort is stable). */
  lemma {:induction false} RankSortKeepsOrdered(s: seq<Scored>)
    requires Ordered(s)
    ensures RankSort(s) == s
    decreases |s|
  {
    if s != [] {
      var init := s[..|s| - 1];
      assert Ordered(init);
      RankSortKeepsOrdered(init);
      if |init| > 0 {
        assert !Before(s[|s| - 1], init[|init| - 1]);
      }
      assert init + [s[|s| - 1]] == s;
    }
  }

  /** `scored_results.sort_by(...)`: a stable in-place insertion sort of the array. */
  method SortByRelevance(a: array<Scored>)
    modifies a
    ensures a[..] == RankSort(old(a[..]))
  {
    ghost var input := a[..];
    for i := 0 to a.Length
      invariant a[..i] == RankSort(input[..i])
      invariant forall k | i <= k < a.Length :: a[k] == input[k]
    {
      RankSortSnoc(input, i);
      InsertInPlace(a, i);
    }
    assert input[..a.Length] == input;
  }

  lemma RankSortSnoc(s: seq<Scored>, i: nat)
    requires i < |s|
    ensures RankSort(s[..i + 1]) == Insert(RankSort(s[..i]), s[i])
  {
    assert s[..i + 1][..i] == s[..i];
  }

  /** One step of the sort: `a[i]` moves left past the elements it sorts strictly before. */
  method InsertInPlace(a: array<Scored>, i: nat)
    requires i < a.Length
    modifies a
    ensures a[..i + 1] == Insert(old(a[..i]), old(a[i]))
    ensures forall k | i < k < a.Length :: a[k] == old(a[k])
  {
    var x := a[i];
    ghost var orig := a[..];
    ghost var pre := a[..i];
    var j := i;
    ShiftStart(orig, x, i);
    while j > 0 && Before(x, a[j - 1])
      invariant ShiftedUpTo(a[..], orig, pre, x, i, j)
    {
      InsertStep(pre, j, x);
      ShiftStep(a[..], orig, pre, x, i, j);
      a[j] := a[j - 1];
      j := j - 1;
    }
    ghost var s := a[..];
    a[j] := x;
    assert a[..] == s[j := x];
    InsertPlaced(pre, x, j, a[..i + 1]);
  }

  /** The shifting loop's state: `pre[j..i)` moved one place up, the rest as it was. */
  ghost predicate ShiftedUpTo(s: seq<Scored>, orig: seq<Scored>, pre: seq<Scored>, x: Scored, i: nat, j: nat) {
    && |s| == |orig| && i < |s| && pre == orig[..i] && j <= i
    && (forall k | 0 <= k < j :: s[k] == pre[k])
    && (forall k | j < k <= i :: s[k] == pre[k - 1])
    && (forall k | i < k < |s| :: s[k] == orig[k])
    && Insert(pre, x) == Insert(pre[..j], x) + pre[j..]
  }

  /** Before the first shift nothing has moved. */
  lemma ShiftStart(orig: seq<Scored>, x: Scored, i: nat)
    requires i < |orig|
    ensures ShiftedUpTo(orig, orig, orig[..i], x, i, i)
  {
    assert orig[..i][..i] == orig[..i];
  }

  /** One shift of the loop keeps its state. */
  lemma ShiftStep(s: seq<Scored>, orig: seq<Scored>, pre: seq<Scored>, x: Scored, i: nat, j: nat)
    requires ShiftedUpTo(s, orig, pre, x, i, j) && 0 < j && Before(x, s[j - 1])
    requires Insert(pre[..j], x) + pre[j..] == Insert(pre[..j - 1], x) + pre[j - 1..]
    ensures ShiftedUpTo(s[j := s[j - 1]], orig, pre, x, i, j - 1)
  {
  }

  /** The array contents after the shifting loop: `pre` with `x` placed at the stopping index. */
  lemma InsertPlaced(pre: seq<Scored>, x: Scored, j: nat, b: seq<Scored>)
    requires j <= |pre| && |b| == |pre| + 1
    requires j == 0 || !Before(x, pre[j - 1])
    requires Insert(pre, x) == Insert(pre[..j], x) + pre[j..]
    requires forall k | 0 <= k < j :: b[k] == pre[k]
    requires b[j] == x
    requires forall k | j < k <= |pre| :: b[k] == pre[k - 1]
    ensures b == Insert(pre, x)
  {
    var r := pre[..j] + [x] + pre[j..];
    assert Insert(pre[..j], x) == pre[..j] + [x];
    forall k | 0 <= k <= |pre| ensures b[k] == r[k] {
      if k < j {
        assert r[k] == pre[k];
      } else if j < k {
        assert r[k] == pre[k - 1];
      }
    }
  }

  lemma InsertStep(pre: seq<Scored>, j: nat, x: Scored)
    requires 0 < j <= |pre| && Before(x, pre[j - 1])
    ensures Insert(pre[..j], x) + pre[j..] == Insert(pre[..j - 1], x) + pre[j - 1..]
  {
    assert pre[..j][..j - 1] == pre[..j - 1];
    assert pre[j - 1..] == [pre[j - 1]] + pre[j..];
  }

  // ------------------------------------------------------------ paging

  /** `skip(offset).take(limit)`. */
  function Page<T>(s: seq<T>, offset: nat, limit: nat): (p: seq<T>)
    ensures |p| <= limit
    ensures offset >= |s| ==> p == []
    ensures forall i | 0 <= i < |p| :: offset + i < |s| && p[i] == s[offset + i]
    ensures offset + limit <= |s| ==> |p| == limit
  {
    var from := if offset < |s| then offset else |s|;
    var to := if offset + limit < |s| then offset + limit else |s|;
    s[from..to]
  }

  /** Consecutive pages join up: no row is skipped or shown twice between them. */
  lemma PagesJoin<T>(s: seq<T>, offset: nat, l1: nat, l2: nat)
    ensures Page(s, offset, l1) + Page(s, offset + l1, l2) == Page(s, offset, l1 + l2)
  {
    var a, b, c := Page(s, offset, l1), Page(s, offset + l1, l2), Page(s, offset, l1 + l2);
    if offset + l1 >= |s| {
      assert b == [];
    } else {
      assert |a| == l1;
      assert a + b == c;
    }
  }

  // ------------------------------------------------------------ the search

  /** The rows the database filter returns (every keyword condition OR-ed), with their files. */
  function MatchingHits(rows: seq<DataRow>, files: map<string, FileRecord>, kws: seq<string>): (hits: seq<Hit>)
    ensures |hits| <= |rows|
    ensures forall h | h in hits :: h.row in rows && Matches(h.row.searchText, kws)
    ensures forall h | h in hits :: h.file == (if h.row.path in files then Some(files[h.row.path]) else None)
    ensures forall r | r in rows && Matches(r.searchText, kws) :: exists h | h in hits :: h.row == r
    decreases |rows|
  {
    if rows == [] then []
    else
      var rest := MatchingHits(rows[1..], files, kws);
      assert forall r | r in rows[1..] :: r in rows;
      var r := rows[0];
      if Matches(r.searchText, kws)
      then [Hit(r, if r.path in files then Some(files[r.path]) else None)] + rest
      else rest
  }

  /** The hit a row gives when it matches a keyword, joined with its file record. */
  function HitOf(files: map<string, FileRecord>, kws: seq<string>): DataRow -> Option<Hit> {
    (r: DataRow) => if Matches(r.searchText, kws) then Some(Hit(r, if r.path in files then Some(files[r.path]) else None)) else None
  }

  /** The hits are exactly the matching rows, each once, in the order of the store. */
  lemma MatchingHitsInOrder(rows: seq<DataRow>, files: map<string, FileRecord>, kws: seq<string>)
    ensures IsFilterMap(MatchingHits(rows, files, kws), rows, HitOf(files, kws))
  {
    MatchingHitsIsFilterMap(rows, files, kws);
    FilterMapIsFilterMap(rows, HitOf(files, kws));
  }

  lemma {:induction false} MatchingHitsIsFilterMap(rows: seq<DataRow>, files: map<string, FileRecord>, kws: seq<string>)
    ensures MatchingHits(rows, files, kws) == FilterMap(rows, HitOf(files, kws))
    decreases |rows|
  {
    if rows != [] {
      MatchingHitsIsFilterMap(rows[1..], files, kws);
      var r := rows[0];
      assert HitOf(files, kws)(r)
        == if Matches(r.searchText, kws) then Some(Hit(r, if r.path in files then Some(files[r.path]) else None)) else None;
    }
  }

  /** Each hit with its score (an iterator `map`). */
  function ScoreAll(hits: seq<Hit>, query: string, kws: seq<string>): (s: seq<Scored>)
    ensures |s| == |hits|
    ensures forall i | 0 <= i < |hits| :: s[i].hit == hits[i] && s[i].score == Score(hits[i].row.searchText, query, kws)
  {
    seq(|hits|, i requires 0 <= i < |hits| => Scored(hits[i], Score(hits[i].row.searchText, query, kws)))
  }

  /** The response record of one hit. */
  function ToExcelData(s: Scored): ExcelData {
    ExcelData(s.hit.row,
              if s.hit.file.Some? then Some(s.hit.file.value.name) else None,
              if s.hit.file.Some? then s.hit.file.value.fieldOrder else None)
  }

  function ToResults(page: seq<Scored>): (r: seq<ExcelData>)
    ensures |r| == |page| && forall i | 0 <= i < |page| :: r[i] == ToExcelData(page[i])
  {
    seq(|page|, i requires 0 <= i < |page| => ToExcelData(page[i]))
  }

  /** The ranked hits of a query: matched, scored and stably sorted. */
  function Ranked(rows: seq<DataRow>, files: map<string, FileRecord>, query: string): seq<Scored> {
    var kws := Keywords(query);
    RankSort(ScoreAll(MatchingHits(rows, files, kws), query, kws))
  }

  /** The scored hits in a buffer, sorted there by relevance. */
  method RankScored(scored: seq<Scored>) returns (ranked: seq<Scored>)
    ensures ranked == RankSort(scored)
  {
    var a := new Scored[|scored|](i requires 0 <= i < |scored| => scored[i]);
    assert a[..] == scored;
    SortByRelevance(a);
    ranked := a[..];
  }

  /**
   * `search_data`: a blank query gives no results and a total of 0; otherwise
   * the total counts every matching row and the results are the requested page
   * of the ranking.
   */
  method SearchData(rows: seq<DataRow>, files: map<string, FileRecord>, query: string, limit: nat, offset: nat)
    returns (resp: SearchResponse)
    ensures resp.limit == limit && resp.offset == offset
    ensures Keywords(query) == [] ==> resp.results == [] && resp.total == 0
    ensures Keywords(query) != [] ==>
      && resp.total == |MatchingHits(rows, files, Keywords(query))|
      && resp.results == ToResults(Page(Ranked(rows, files, query), offset, limit))
    ensures |resp.results| <= limit
  {
    var keywords := Keywords(query);
    if keywords == [] {
      return SearchResponse([], 0, limit, offset);
    }
    var hits := MatchingHits(rows, files, keywords);
    var total := |hits|;
    var scored := ScoreAll(hits, query, keywords);
    var ranked := RankScored(scored);
    assert ranked == Ranked(rows, files, query);
    var page := Page(ranked, offset, limit);
    resp := SearchResponse(ToResults(page), total, limit, offset);
  }

  /**
   * Every result of a search is a stored row that matches at least one keyword,
   * carrying that row's relevance score, which is then between 1 and twice the
   * number of keywords.
   */
  lemma ResultsMatch(rows: seq<DataRow>, files: map<string, FileRecord>, query: string, offset: nat, limit: nat)
    ensures forall x | x in Page(Ranked(rows, files, query), offset, limit) ::
      && Matches(x.hit.row.searchText, Keywords(query)) && x.hit.row in rows
      && x.score == Score(x.hit.row.searchText, query, Keywords(query))
      && 1 <= x.score <= 2 * |Keywords(query)|
  {
    var kws := Keywords(query);
    var hits := MatchingHits(rows, files, kws);
    var scored := ScoreAll(hits, query, kws);
    var ranked := RankSort(scored);
    forall x | x in Page(ranked, offset, limit)
      ensures Matches(x.hit.row.searchText, kws) && x.hit.row in rows
      ensures x.score == Score(x.hit.row.searchText, query, kws) && 1 <= x.score <= 2 * |kws|
    {
      var i :| 0 <= i < |Page(ranked, offset, limit)| && Page(ranked, offset, limit)[i] == x;
      assert x == ranked[offset + i];
      RankSortPermutes(scored);
      assert x in multiset(ranked);
      assert x in multiset(scored);
      var k :| 0 <= k < |scored| && scored[k] == x;
      assert hits[k] in hits;
      if kws != [] {
        ScoreRange(x.hit.row.searchText, query);
      }
    }
  }
}
