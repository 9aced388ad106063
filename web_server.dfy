/**
 * The HTTP layer's own logic: the five-minute statistics cache, the cache flow
 * of the statistics endpoint, and the query checks and `limit`/`offset`
 * normalisation of the search and export endpoints.
 */
module WebServer {
  import opened Wrappers
  import opened Entities
  import opened Searching
  import opened Exporting

  /** An error answer: HTTP status code and message. */
  datatype HttpError = HttpError(status: int, message: string)

  const BAD_REQUEST: int := 400
  const INTERNAL_SERVER_ERROR: int := 500
  const EMPTY_QUERY_MESSAGE: string := "查询参数不能为空"

  /** `Instant::elapsed`: the time since `since`, zero when the clock reads earlier. */
  function Elapsed(since: int, now: int): (d: nat)
    ensures d == 0 <==> now <= since
    ensures now >= since ==> d == now - since
  {
    if now > since then now - since else 0
  }

  /**
   * `StatsCache`: the last statistics, when they were stored, and how long they
   * stay valid (300 seconds). Instants are seconds on a monotonic clock.
   */
  class StatsCache {
    var data: Option<StatsResponse>
    var lastUpdated: Option<int>
    const cacheDuration: nat

    /** Data and time are stored together. */
    ghost predicate Valid()
      reads this
    {
      data.Some? <==> lastUpdated.Some?
    }

    /** `StatsCache::new`: empty, with a five-minute duration. */
    constructor ()
      ensures Valid()
      ensures data == None && lastUpdated == None && cacheDuration == 300
    {
      data := None;
      lastUpdated := None;
      cacheDuration := 300;
    }

    /** `is_expired`: never updated, or more than the duration has passed since. */
    predicate IsExpired(now: int)
      reads this
    {
      match lastUpdated
      case None => true
      case Some(t) => Elapsed(t, now) > cacheDuration
    }

    /** `update`: the data and the current time are stored; the duration is kept. */
    method Update(d: StatsResponse, now: int)
      modifies this`data, this`lastUpdated
      ensures Valid()
      ensures data == Some(d) && lastUpdated == Some(now)
    {
      data := Some(d);
      lastUpdated := Some(now);
    }

    /**
     * `get`: the stored data exactly when it was stored at some time `t` and no
     * more than the duration has passed since.
     */
    function Get(now: int): (r: Option<StatsResponse>)
      requires Valid()
      reads this
      ensures r.Some? <==> lastUpdated.Some? && Elapsed(lastUpdated.value, now) <= cacheDuration
      ensures r.Some? ==> r == data
    {
      if IsExpired(now) then None else data
    }

    /** After an update at `at`, `get` answers the new data up to the duration later, and nothing after. */
    lemma GetAfterUpdate(d: StatsResponse, at: int, now: int)
      requires data == Some(d) && lastUpdated == Some(at)
      ensures Valid()
      ensures now <= at + cacheDuration ==> Get(now) == Some(d)
      ensures now > at + cacheDuration ==> Get(now) == None
    {
      if now <= at + cacheDuration {
        assert Elapsed(at, now) <= cacheDuration;
      } else {
        assert Elapsed(at, now) == now - at;
      }
    }
  }

  /** A fresh cache answers nothing, whatever the time. */
  method FreshCacheIsEmpty(now: int) returns (r: Option<StatsResponse>)
    ensures r == None
  {
    var cache := new StatsCache();
    r := cache.Get(now);
  }

  /**
   * `stats_handler`: a cache hit is answered from the cache; on a miss the
   * statistics are fetched (`fetch`, the database query) and, when that succeeds,
   * stored at `fetchedAt`; a failed fetch leaves the cache as it was.
   */
  method StatsHandler(cache: StatsCache, now: int, fetch: Result<StatsResponse, string>, fetchedAt: int)
    returns (r: Result<StatsResponse, HttpError>)
    requires cache.Valid()
    modifies cache`data, cache`lastUpdated
    ensures cache.Valid()
    ensures old(cache.Get(now)).Some? ==>
      r == Ok(old(cache.Get(now)).value) && cache.data == old(cache.data) && cache.lastUpdated == old(cache.lastUpdated)
    ensures old(cache.Get(now)).None? && fetch.Ok? ==>
      r == Ok(fetch.value) && cache.data == Some(fetch.value) && cache.lastUpdated == Some(fetchedAt)
    ensures old(cache.Get(now)).None? && fetch.Err? ==>
      r.Err? && r.error.status == INTERNAL_SERVER_ERROR &&
      cache.data == old(cache.data) && cache.lastUpdated == old(cache.lastUpdated)
  {
    var cached := cache.Get(now);
    if cached.Some? {
      return Ok(cached.value);
    }
    match fetch
    case Ok(stats) =>
      cache.Update(stats, fetchedAt);
      r := Ok(stats);
    case Err(e) =>
      r := Err(HttpError(INTERNAL_SERVER_ERROR, "获取统计信息失败: " + e));
  }

  // ------------------------------------------------------------ query parameters

  const I64_MIN: int := -0x8000_0000_0000_0000
  const I64_MAX: int := 0x7fff_ffff_ffff_ffff

  type I64 = x: int | I64_MIN <= x <= I64_MAX

  /** `params.limit.unwrap_or(20).max(1).min(100)`. */
  function ClampLimit(limit: Option<I64>): (r: nat)
    ensures 1 <= r <= 100
    ensures limit.None? ==> r == 20
    ensures limit.Some? && 1 <= limit.value <= 100 ==> r == limit.value
    ensures limit.Some? && limit.value < 1 ==> r == 1
    ensures limit.Some? && limit.value > 100 ==> r == 100
  {
    var x := if limit.Some? then limit.value else 20;
    var lower := if x < 1 then 1 else x;
    if lower > 100 then 100 else lower
  }

  /** `params.offset.unwrap_or(0).max(0)`. */
  function ClampOffset(offset: Option<I64>): (r: nat)
    ensures offset.None? ==> r == 0
    ensures offset.Some? && offset.value >= 0 ==> r == offset.value
    ensures offset.Some? && offset.value < 0 ==> r == 0
  {
    if offset.Some? && offset.value > 0 then offset.value else 0
  }

  /**
   * `search_handler`: an absent or empty `q` is a bad request; otherwise the
   * search runs with the normalised limit and offset. A `q` of spaces only is
   * not rejected here: the search answers it with no results, before any
   * database query. `dbError` stands for a failing query, which only a query
   * with keywords reaches.
   */
  method SearchHandler(rows: seq<DataRow>, files: map<string, FileRecord>,
                       q: Option<string>, limit: Option<I64>, offset: Option<I64>, dbError: Option<string>)
    returns (r: Result<SearchResponse, HttpError>)
    ensures (q.None? || q.value == []) ==> r == Err(HttpError(BAD_REQUEST, EMPTY_QUERY_MESSAGE))
    ensures q.Some? && Keywords(q.value) != [] && dbError.Some? ==> r.Err? && r.error.status == INTERNAL_SERVER_ERROR
    ensures q.Some? && q.value != [] && Keywords(q.value) == [] ==>
      r.Ok? && r.value.results == [] && r.value.total == 0 &&
      r.value.limit == ClampLimit(limit) && r.value.offset == ClampOffset(offset)
    ensures q.Some? && Keywords(q.value) != [] && dbError.None? ==>
      && r.Ok?
      && r.value.limit == ClampLimit(limit) && r.value.offset == ClampOffset(offset)
      && |r.value.results| <= ClampLimit(limit)
      && r.value.total == |MatchingHits(rows, files, Keywords(q.value))|
      && r.value.results == ToResults(Page(Ranked(rows, files, q.value), ClampOffset(offset), ClampLimit(limit)))
  {
    var queryText := if q.Some? then q.value else "";
    var l := ClampLimit(limit);
    var o := ClampOffset(offset);
    if queryText == [] {
      return Err(HttpError(BAD_REQUEST, EMPTY_QUERY_MESSAGE));
    }
    if dbError.Some? && Keywords(queryText) != [] {
      return Err(HttpError(INTERNAL_SERVER_ERROR, "搜索失败: " + dbError.value));
    }
    var resp := SearchData(rows, files, queryText, l, o);
    r := Ok(resp);
  }

  /** The text of an export error, as the processor words it. */
  function ExportErrorText(e: ExportError): string {
    match e
    case EmptyQuery => "搜索关键词不能为空"
    case NoMatches => "没有找到匹配的数据"
  }

  /**
   * `export_handler`: an absent or empty `q` is a bad request; otherwise the
   * export runs and its errors become internal server errors — including a `q`
   * of spaces only, which passes the check here and is refused by the export.
   * `dbError` stands for a failing database query, which the export passes on.
   */
  method ExportHandler(rows: seq<DataRow>, files: map<string, FileRecord>, q: Option<string>,
                       display: string -> string, formatTime: int -> string, dbError: Option<string>)
    returns (r: Result<seq<ExportSheet>, HttpError>)
    ensures (q.None? || q.value == []) ==> r == Err(HttpError(BAD_REQUEST, EMPTY_QUERY_MESSAGE))
    ensures q.Some? && q.value != [] && Keywords(q.value) != [] && dbError.Some? ==>
      r == Err(HttpError(INTERNAL_SERVER_ERROR, "导出失败: " + dbError.value))
    ensures q.Some? && q.value != [] && Keywords(q.value) == [] ==>
      r == Err(HttpError(INTERNAL_SERVER_ERROR, "导出失败: " + ExportErrorText(EmptyQuery)))
    ensures q.Some? && q.value != [] && Keywords(q.value) != [] && dbError.None? && MatchingHits(rows, files, Keywords(q.value)) == [] ==>
      r == Err(HttpError(INTERNAL_SERVER_ERROR, "导出失败: " + ExportErrorText(NoMatches)))
    ensures q.Some? && q.value != [] && Keywords(q.value) != [] && dbError.None? && MatchingHits(rows, files, Keywords(q.value)) != [] ==>
      r.Ok? && IsSheetsOf(r.value, Groups(Ranked(rows, files, q.value)), display, formatTime)
  {
    var queryText := if q.Some? then q.value else "";
    if queryText == [] {
      return Err(HttpError(BAD_REQUEST, EMPTY_QUERY_MESSAGE));
    }
    if dbError.Some? && Keywords(queryText) != [] {
      return Err(HttpError(INTERNAL_SERVER_ERROR, "导出失败: " + dbError.value));
    }
    var result := ExportSearchResults(rows, files, queryText, display, formatTime);
    match result
    case Ok(sheets) => r := Ok(sheets);
    case Err(e) => r := Err(HttpError(INTERNAL_SERVER_ERROR, "导出失败: " + ExportErrorText(e)));
  }
}
