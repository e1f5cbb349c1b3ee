/** Pagination and query parsing of pkg/apiserver/query/types.go, with 64-bit wrapping integers. */
module Query {
  import opened Common

  const MAX_INT := 0x7FFF_FFFF_FFFF_FFFF
  const MIN_INT := -0x8000_0000_0000_0000

  type Int64 = x: int | MIN_INT <= x <= MAX_INT

  /** The value a Go int holds after an operation whose exact result is `x`. */
  function Wrap(x: int): Int64 {
    (x - MIN_INT) % 0x1_0000_0000_0000_0000 + MIN_INT
  }

  const DEFAULT_LIMIT: Int64 := 10
  const DEFAULT_PAGE: Int64 := 1

  type Field = string

  const FIELD_NAME: Field := "name"
  const FIELD_CREATION: Field := "creationTimestamp"

  datatype Filter = Filter(field: Field, value: string)

  datatype Pagination = Pagination(limit: Int64, offset: Int64)

  /** newPagination. */
  function NewPagination(limit: Int64, offset: Int64): (p: Pagination)
    ensures p.limit >= 0 && p.offset >= 0
    ensures p.limit == limit || (limit < 0 && p.limit == DEFAULT_LIMIT)
    ensures p.offset == offset || (offset < 0 && p.offset == 0)
  {
    Pagination(if limit < 0 then DEFAULT_LIMIT else limit, if offset < 0 then 0 else offset)
  }

  const NO_PAGINATION := NewPagination(-1, 0)

  /** GetValidPagination. */
  function ValidPagination(p: Pagination, total: nat): (int, int) {
    if p.limit < 0 || p.offset < 0 || p.offset > total then (0, 0)
    else
      var end := Wrap(p.offset + p.limit);
      (p.offset, if end > total then total else end)
  }

  /** The two indices cut a slice out of `total` elements without a run-time error. */
  predicate InBounds(range: (int, int), total: nat) {
    0 <= range.0 <= range.1 <= total
  }

  /** Slicing is safe exactly when the end index does not wrap, or the page lies past the end. */
  lemma PaginationInBoundsIff(p: Pagination, total: nat)
    requires total <= MAX_INT
    ensures InBounds(ValidPagination(p, total), total)
       <==> p.limit < 0 || p.offset < 0 || p.offset > total || p.offset + p.limit <= MAX_INT
  {
  }

  /** Whatever page was asked for, a limit that leaves room for the total is always safe. */
  lemma ParsedPaginationInBounds(limit: Int64, offset: Int64, total: nat)
    requires total <= MAX_INT && NewPagination(limit, offset).limit + total <= MAX_INT
    ensures InBounds(ValidPagination(NewPagination(limit, offset), total), total)
  {
    PaginationInBoundsIff(NewPagination(limit, offset), total);
  }

  // ----- ParseQueryParameter

  /** The decoded URL query, and Go's number and boolean parsers. */
  datatype Request = Request(params: map<string, seq<string>>)

  datatype Parsers = Parsers(atoi: string -> Option<Int64>, parseBool: string -> Option<bool>)

  function QueryParameter(req: Request, name: string): string {
    if name in req.params && req.params[name] != [] then req.params[name][0] else ""
  }

  const RESERVED: seq<string> := ["page", "limit", "sortBy", "ascending", "labelSelector", "fieldSelector"]

  /** The filters a request asks for: every key that is not reserved, with its last value. */
  function FiltersOf(req: Request): map<Field, string> {
    map k | k in req.params && k !in RESERVED && req.params[k] != [] :: req.params[k][|req.params[k]| - 1]
  }

  function LimitOf(ps: Parsers, req: Request): (limit: Int64)
    ensures limit >= -1
  {
    match ps.atoi(QueryParameter(req, "limit"))
    case Some(n) => if n < -1 then DEFAULT_LIMIT else n
    case None => DEFAULT_LIMIT
  }

  function OrElse<T>(o: Option<T>, d: T): T {
    if o.Some? then o.value else d
  }

  /** The page asked for; 0 when there is no page parameter. */
  function PageOf(ps: Parsers, req: Request): Int64 {
    var s := QueryParameter(req, "page");
    if s == "" then 0 else OrElse(ps.atoi(s), DEFAULT_PAGE)
  }

  function StartOf(ps: Parsers, req: Request): Int64 {
    if QueryParameter(req, "page") != "" then 0 else OrElse(ps.atoi(QueryParameter(req, "start")), 0)
  }

  function PaginationOf(ps: Parsers, req: Request): Pagination {
    var limit, page, start := LimitOf(ps, req), PageOf(ps, req), StartOf(ps, req);
    if page >= 1 then NewPagination(limit, Wrap((page - 1) * limit))
    else if start >= 0 then NewPagination(limit, start)
    else NO_PAGINATION
  }

  /** The first value given for a parameter, or the empty text. */
  ghost predicate Says(req: Request, name: string, v: string) {
    if name in req.params && |req.params[name]| > 0 then v == req.params[name][0] else v == ""
  }

  /** A limit of its own: readable, and not below zero. */
  ghost predicate OwnLimit(ps: Parsers, limitText: string) {
    ps.atoi(limitText).Some? && ps.atoi(limitText).value >= 0
  }

  /**
    What a request without a page parameter asks for: the start as offset, 0 when it is missing or
    unreadable. A negative start discards the limit as well.
   */
  ghost predicate ReadStart(ps: Parsers, limitText: string, startText: string, p: Pagination) {
    match ps.atoi(startText)
    case Some(n) =>
      if n < 0 then p == Pagination(10, 0)
      else p.offset == n && p.limit == (if OwnLimit(ps, limitText) then ps.atoi(limitText).value else 10)
    case None =>
      p.offset == 0 && p.limit == (if OwnLimit(ps, limitText) then ps.atoi(limitText).value else 10)
  }

  /**
    What a request with a page parameter asks for: an unreadable page is page 1, a page below 1 is
    read as start 0, and page n starts after n - 1 pages of the limit, which is ten when it is
    missing, unreadable or below -1. With limit -1 every page starts at 0.
   */
  ghost predicate ReadPage(ps: Parsers, limitText: string, pageText: string, p: Pagination) {
    && p.limit == (if OwnLimit(ps, limitText) then ps.atoi(limitText).value else 10)
    && match ps.atoi(pageText)
       case None => p.offset == 0
       case Some(n) =>
         if n <= 1 then p.offset == 0
         else if ps.atoi(limitText) == Some(-1) then p.offset == 0
         else
           var w := Wrap((n - 1) * p.limit);
           p.offset == if w < 0 then 0 else w
  }

  ghost predicate ReadPagination(ps: Parsers, limitText: string, pageText: string, startText: string, p: Pagination) {
    if pageText == "" then ReadStart(ps, limitText, startText, p) else ReadPage(ps, limitText, pageText, p)
  }

  /** The page of a parsed query, said case by case about the texts of the parameters. */
  lemma PaginationMeaning(ps: Parsers, req: Request, limitText: string, pageText: string, startText: string)
    requires Says(req, "limit", limitText) && Says(req, "page", pageText) && Says(req, "start", startText)
    ensures ReadPagination(ps, limitText, pageText, startText, PaginationOf(ps, req))
  {
    var page := ps.atoi(pageText);
    if pageText != "" && page.Some? && page.value > 1 && ps.atoi(limitText) == Some(-1) {
      assert (page.value - 1) * -1 == 1 - page.value;
    }
  }

  /** Wrapping keeps a value that fits in 64 bits and moves any other by a multiple of 2 to the power 64. */
  lemma WrapMeaning(x: int) returns (k: int)
    ensures -0x8000_0000_0000_0000 <= Wrap(x) < 0x8000_0000_0000_0000 && Wrap(x) == x + k * 0x1_0000_0000_0000_0000
    ensures -0x8000_0000_0000_0000 <= x < 0x8000_0000_0000_0000 ==> k == 0
  {
    k := -((x - MIN_INT) / 0x1_0000_0000_0000_0000);
  }

  /** The filters, key by key. */
  ghost predicate ReadFilters(req: Request, filters: map<Field, string>) {
    forall k ::
      && (k in filters <==>
            && k in req.params && |req.params[k]| > 0
            && k !in {"page", "limit", "sortBy", "ascending", "labelSelector", "fieldSelector"})
      && (k in filters ==> filters[k] == req.params[k][|req.params[k]| - 1])
  }

  lemma FiltersMeaning(req: Request)
    ensures ReadFilters(req, FiltersOf(req))
  {
  }

  class Query {
    var pagination: Option<Pagination>
    var sortBy: Field
    var ascending: bool
    var filters: map<Field, string>
    var labelSelector: string

    constructor ()
      ensures pagination == Some(NO_PAGINATION) && sortBy == "" && !ascending && filters == map[] && labelSelector == ""
    {
      pagination := Some(NO_PAGINATION);
      sortBy := "";
      ascending := false;
      filters := map[];
      labelSelector := "";
    }
  }

  /** Every value given for a key is stored in turn, so that the last one stays. */
  method LoadFilters(q: Query, req: Request)
    requires q.filters == map[]
    modifies q`filters
    ensures q.filters == FiltersOf(req)
  {
    var rest := req.params.Keys;
    while rest != {}
      modifies q`filters
      invariant rest <= req.params.Keys
      invariant q.filters == map k | k in FiltersOf(req) && k !in rest :: FiltersOf(req)[k]
    {
      var key :| key in rest;
      if key !in RESERVED {
        var values := req.params[key];
        ghost var before := q.filters;
        for i := 0 to |values|
          invariant q.filters == if i == 0 then before else before[key := values[i - 1]]
        {
          q.filters := q.filters[key := values[i]];
        }
      }
      rest := rest - {key};
    }
  }

  method ParsePagination(q: Query, ps: Parsers, req: Request)
    requires q.pagination == Some(NO_PAGINATION)
    modifies q`pagination
    ensures q.pagination == Some(PaginationOf(ps, req))
    ensures forall l, p, s | Says(req, "limit", l) && Says(req, "page", p) && Says(req, "start", s) ::
              ReadPagination(ps, l, p, s, q.pagination.value)
  {
    hide ReadPagination;
    var start: Int64, page: Int64 := 0, 0;
    var limit: Int64 := DEFAULT_LIMIT;
    var parsed := ps.atoi(QueryParameter(req, "limit"));
    if parsed.Some? && parsed.value >= -1 {
      limit := parsed.value;
    }
    var pageStr := QueryParameter(req, "page");
    if pageStr != "" {
      page := OrElse(ps.atoi(pageStr), DEFAULT_PAGE);
    } else {
      start := OrElse(ps.atoi(QueryParameter(req, "start")), 0);
    }
    if page >= 1 {
      q.pagination := Some(NewPagination(limit, Wrap((page - 1) * limit)));
    } else if start >= 0 {
      q.pagination := Some(NewPagination(limit, start));
    }
    forall l, p, s | Says(req, "limit", l) && Says(req, "page", p) && Says(req, "start", s)
      ensures ReadPagination(ps, l, p, s, PaginationOf(ps, req))
    {
      PaginationMeaning(ps, req, l, p, s);
    }
  }

  method ParseQueryParameter(ps: Parsers, req: Request) returns (q: Query)
    ensures fresh(q)
    ensures q.pagination == Some(PaginationOf(ps, req))
    ensures forall l, p, s | Says(req, "limit", l) && Says(req, "page", p) && Says(req, "start", s) ::
              ReadPagination(ps, l, p, s, q.pagination.value)
    ensures forall s | Says(req, "sortBy", s) :: q.sortBy == if s == "" then "creationTimestamp" else s
    ensures forall s | Says(req, "ascending", s) ::
              q.ascending <==> ps.parseBool(if s == "" then "false" else s) == Some(true)
    ensures Says(req, "labelSelector", q.labelSelector)
    ensures ReadFilters(req, q.filters)
  {
    hide ReadPagination, ReadFilters, FiltersOf, PaginationOf;
    q := new Query();
    ParsePagination(q, ps, req);
    q.sortBy := DefaultString(QueryParameter(req, "sortBy"), FIELD_CREATION);
    q.ascending := OrElse(ps.parseBool(DefaultString(QueryParameter(req, "ascending"), "false")), false);
    q.labelSelector := QueryParameter(req, "labelSelector");
    LoadFilters(q, req);
    FiltersMeaning(req);
  }

  function DefaultString(value: string, defaultValue: string): string {
    if |value| == 0 then defaultValue else value
  }

  /** Page `page` of size `limit` starts where the previous pages end, unless the offset wraps. */
  lemma PageOffset(page: Int64, limit: Int64)
    requires page >= 1 && limit >= 0
    ensures NewPagination(limit, Wrap((page - 1) * limit)).limit == limit
    ensures NewPagination(limit, Wrap((page - 1) * limit)).offset == (page - 1) * limit
       <==> (page - 1) * limit <= MAX_INT
  {
    assert (page - 1) * limit >= 0;
  }
}
