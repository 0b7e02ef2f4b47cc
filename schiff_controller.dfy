/**
 * `SchiffController`: the REST read endpoints. `getById` answers a
 * conditional GET with 304 when the client's entity tag is the stored
 * version; `get` either counts or turns the query string into a search.
 */
module SchiffController {
  import opened Wrappers
  import opened Text
  import opened Schiffe
  import opened WhereBuilder
  import opened SchiffService

  /** One query-string entry; a missing value is `undefined`. */
  datatype QueryEntry = QueryEntry(key: string, value: Option<string>)

  /** The answers of `getById`. */
  datatype GetByIdResponse =
    | NotAcceptable
    | NotModified
    | Found(etag: string, schiff: Schiff)
    | NotFoundResponse
  {
    function StatusCode(): nat {
      match this
      case NotAcceptable => 406
      case NotModified => 304
      case Found(_, _) => 200
      case NotFoundResponse => 404
    }
  }

  /**
   * `getById`: 406 when the client accepts neither JSON nor HTML (the
   * service is not asked); 404 when no record has the id; 304 when the
   * `If-None-Match` header is exactly the quoted stored version; otherwise
   * the record with that quoted version as its ETag.
   */
  function GetById(db: seq<Schiff>, id: int, accepts: bool, ifNoneMatch: Option<string>)
    : (r: GetByIdResponse)
    ensures !accepts ==> r == NotAcceptable
    ensures accepts && !HasId(db, id) ==> r == NotFoundResponse
    ensures r.NotModified? <==>
      accepts && HasId(db, id) && ifNoneMatch == Some(Quoted(Record(db, id).version))
    ensures r.Found? ==> r.schiff in db && r.schiff.id == id && r.etag == Quoted(r.schiff.version)
    ensures accepts && HasId(db, id) && ifNoneMatch != Some(Quoted(Record(db, id).version)) ==>
      r == Found(Quoted(Record(db, id).version), Record(db, id))
    ensures r.StatusCode() ==
      if !accepts then 406
      else if !HasId(db, id) then 404
      else if ifNoneMatch == Some(Quoted(Record(db, id).version)) then 304
      else 200
  {
    if !accepts then NotAcceptable
    else
      match FindById(db, id)
      case Failure(_) => NotFoundResponse
      case Success(schiff) =>
        var versionDb := schiff.version;
        if ifNoneMatch == Some(Quoted(versionDb)) then NotModified
        else Found(Quoted(versionDb), schiff)
  }

  /**
   * The ETag of a 200 answer, sent back as `If-None-Match`, gives 304 while
   * the record is unchanged; the same tag marked weak (`W/` prefix) does not,
   * because tags are compared as plain strings.
   */
  lemma ETagRevalidates(db: seq<Schiff>, id: int)
    requires HasId(db, id)
    ensures GetById(db, id, true, None).Found?
    ensures var etag := GetById(db, id, true, None).etag;
      && GetById(db, id, true, Some(etag)) == NotModified
      && GetById(db, id, true, Some("W/" + etag)).Found?
  {
    var etag := GetById(db, id, true, None).etag;
    assert ("W/" + etag)[0] == 'W';
    assert Quoted(Record(db, id).version)[0] == '"';
  }

  /** The answers of `get`. */
  datatype GetResponse =
    | GetNotAcceptable
    | CountResult(count: nat)
    | PageResult(slice: Slice, pageable: Pageable)
    | GetNotFound

  /** `query[key]`: the value under that key, `None` when the key is absent or undefined. */
  function QueryValue(query: seq<QueryEntry>, key: string): Option<string> {
    if query == [] then None
    else if query[|query| - 1].key == key then query[|query| - 1].value
    else QueryValue(query[..|query| - 1], key)
  }

  /**
   * The search parameters left after `page` and `size` are deleted and every
   * key with an undefined value is deleted, in query order.
   */
  function SearchParams(query: seq<QueryEntry>): (params: seq<Param>)
    ensures forall p :: p in params ==>
      p.key != "page" && p.key != "size" && QueryEntry(p.key, Some(p.value)) in query
    ensures forall e :: e in query && e.key != "page" && e.key != "size" && e.value.Some? ==>
      Param(e.key, e.value.value) in params
  {
    if query == [] then []
    else
      var prefix := query[..|query| - 1];
      var e := query[|query| - 1];
      assert forall x :: x in query <==> x in prefix || x == e;
      SearchParams(prefix)
        + if e.key != "page" && e.key != "size" && e.value.Some? then [Param(e.key, e.value.value)] else []
  }

  /** The deletions of `get`, entry by entry. */
  method NormalizeQuery(query: seq<QueryEntry>) returns (suchparameter: seq<Param>)
    ensures suchparameter == SearchParams(query)
  {
    suchparameter := [];
    for i := 0 to |query|
      invariant suchparameter == SearchParams(query[..i])
    {
      var entry := query[i];
      assert query[..i + 1][..i] == query[..i];
      if entry.key != "page" && entry.key != "size" && entry.value.Some? {
        suchparameter := suchparameter + [Param(entry.key, entry.value.value)];
      }
    }
    assert query[..|query|] == query;
  }

  /** A query holding only paging entries and undefined values searches without a filter. */
  lemma {:induction false} PagingOnlyQueryHasNoParameters(query: seq<QueryEntry>)
    requires forall i :: 0 <= i < |query| ==>
      query[i].key == "page" || query[i].key == "size" || query[i].value.None?
    ensures SearchParams(query) == []
  {
    if query != [] {
      PagingOnlyQueryHasNoParameters(query[..|query| - 1]);
    }
  }

  /**
   * `get`: 406 when the client accepts neither JSON nor HTML; with `only`
   * set, the count of all records and no search; otherwise a search with the
   * normalised parameters and the page built from `page` and `size`, 404
   * when the search throws.
   */
  function Get(
    db: seq<Schiff>,
    accepts: bool,
    query: seq<QueryEntry>,
    createPageable: (Option<string>, Option<string>) -> Pageable)
    : (r: GetResponse)
    ensures !accepts ==> r == GetNotAcceptable
    ensures accepts && QueryValue(query, "only").Some? ==> r == CountResult(|db|)
    ensures r.PageResult? ==>
      && accepts && QueryValue(query, "only").None?
      && r.pageable == createPageable(QueryValue(query, "page"), QueryValue(query, "size"))
      && r.slice.totalElements == |db|
      && 1 <= |r.slice.content| <= r.pageable.size
      && forall s :: s in r.slice.content ==> s in db && Matches(WhereOf(SearchParams(query)), s)
    ensures r == GetNotFound <==>
      && accepts && QueryValue(query, "only").None?
      && Find(db, Some(SearchParams(query)),
              createPageable(QueryValue(query, "page"), QueryValue(query, "size"))).Failure?
    ensures var pageable := createPageable(QueryValue(query, "page"), QueryValue(query, "size"));
      accepts && QueryValue(query, "only").None? && Find(db, Some(SearchParams(query)), pageable).Success? ==>
        r == PageResult(Find(db, Some(SearchParams(query)), pageable).value, pageable)
  {
    if !accepts then GetNotAcceptable
    else if QueryValue(query, "only").Some? then CountResult(Count(db))
    else
      var pageable := createPageable(QueryValue(query, "page"), QueryValue(query, "size"));
      var suchparameter := SearchParams(query);
      match Find(db, Some(suchparameter), pageable)
      case Failure(_) => GetNotFound
      case Success(slice) =>
        FoundRecordsMatch(db, Some(suchparameter), pageable);
        PageResult(slice, pageable)
  }
}
