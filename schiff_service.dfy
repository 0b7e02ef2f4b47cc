/**
 * `SchiffService`: reading ships from the store. Lookups by id, the count,
 * and the paged search that checks the parameter names, builds the filter and
 * takes one window of the matching records.
 */
module SchiffService {
  import opened Wrappers
  import opened Schiffe
  import opened WhereBuilder

  /** A requested window: zero-based page number and page size. */
  datatype Pageable = Pageable(number: nat, size: nat)

  /** One page of results and the total the caller is told about. */
  datatype Slice = Slice(content: seq<Schiff>, totalElements: nat)

  /** `findById`: the record with that id, or `NotFound`; the store is only read. */
  function FindById(db: seq<Schiff>, id: int): (r: Result<Schiff, ServiceError>)
    ensures r.Success? <==> HasId(db, id)
    ensures r.Success? ==> r.value in db && r.value.id == id
    ensures r.Failure? ==> r.error == NotFound
  {
    match FindUnique(db, id)
    case None => Failure(NotFound)
    case Some(schiff) => Success(schiff)
  }

  /** With unique ids the record found is the one stored under that id. */
  lemma FindByIdFindsTheRecord(db: seq<Schiff>, k: nat)
    requires IdsUnique(db) && k < |db|
    ensures FindById(db, db[k].id) == Success(db[k])
  {
    FindUniqueFindsTheRecord(db, k);
  }

  /** `count()`: the number of stored records, whatever the filter or page of a search. */
  function Count(db: seq<Schiff>): (n: nat)
    ensures n == |Matching(db, EmptyWhere)|
  {
    MatchingEmptyWhere(db);
    |db|
  }

  /** `findMany({ where })` without a window: the matching records in store order. */
  function Matching(db: seq<Schiff>, where: Where): (r: seq<Schiff>)
    ensures |r| <= |db|
    ensures forall s :: s in r <==> s in db && Matches(where, s)
  {
    if db == [] then []
    else
      var rest := Matching(db[1..], where);
      assert forall s :: s in db <==> s == db[0] || s in db[1..];
      if Matches(where, db[0]) then [db[0]] + rest else rest
  }

  /** The empty filter keeps the whole store, in order. */
  lemma {:induction false} MatchingEmptyWhere(db: seq<Schiff>)
    ensures Matching(db, EmptyWhere) == db
  {
    if db != [] {
      MatchingEmptyWhere(db[1..]);
    }
  }

  /** `skip` then `take`: the records of `s` ranked `skip` to `skip + take - 1`. */
  function Window(s: seq<Schiff>, skip: nat, take: nat): (r: seq<Schiff>)
    ensures skip >= |s| ==> r == []
    ensures skip < |s| ==> |r| == (if take <= |s| - skip then take else |s| - skip)
    ensures forall i :: 0 <= i < |r| ==> r[i] == s[skip + i]
    ensures forall x :: x in r ==> x in s
  {
    var rest := if skip <= |s| then s[skip..] else [];
    if take <= |rest| then rest[..take] else rest
  }

  /** `#createSlice`: the page content as given, and the total as given, not recounted. */
  function CreateSlice(schiffe: seq<Schiff>, totalElements: nat): (s: Slice)
    ensures s.content == schiffe && s.totalElements == totalElements
  {
    Slice(schiffe, totalElements)
  }

  /** Every key is one of the allowed search-parameter names. */
  predicate KeysValid(keys: seq<string>) {
    forall i :: 0 <= i < |keys| ==> keys[i] in SuchparameterNamen
  }

  /** `#checkKeys`: visits every key and clears the flag at each unknown one. */
  method CheckKeys(keys: seq<string>) returns (validKeys: bool)
    ensures validKeys <==> KeysValid(keys)
  {
    validKeys := true;
    for i := 0 to |keys|
      invariant validKeys <==> forall j :: 0 <= j < i ==> keys[j] in SuchparameterNamen
    {
      if keys[i] !in SuchparameterNamen {
        validKeys := false;
      }
    }
  }

  /** `#findAll`: one window of the whole store, or `NotFound` when it is empty. */
  function FindAll(db: seq<Schiff>, pageable: Pageable): (r: Result<Slice, ServiceError>)
    ensures r.Success? <==> pageable.size > 0 && pageable.number * pageable.size < |db|
    ensures r.Failure? ==> r.error == NotFound
    ensures r.Success? ==>
      && r.value.totalElements == |db|
      && r.value.content == Window(db, pageable.number * pageable.size, pageable.size)
  {
    var schiffe := Window(db, pageable.number * pageable.size, pageable.size);
    if |schiffe| == 0 then Failure(NotFound)
    else Success(CreateSlice(schiffe, Count(db)))
  }

  /** The filter a search applies: none without parameters, else the built one. */
  function SearchWhere(suchparameter: Option<seq<Param>>): Where {
    WhereOf(suchparameter.GetOr([]))
  }

  /** The filtered branch of `find`: one window of the matching records, `NotFound` when it is empty. */
  function FindMatching(db: seq<Schiff>, where: Where, pageable: Pageable): (r: Result<Slice, ServiceError>)
    ensures r.Failure? ==> r.error == NotFound
    ensures r.Success? <==> pageable.size > 0 && pageable.number * pageable.size < |Matching(db, where)|
    ensures r.Success? ==>
      && r.value.totalElements == |db|
      && r.value.content == Window(Matching(db, where), pageable.number * pageable.size, pageable.size)
  {
    var schiffe := Window(Matching(db, where), pageable.number * pageable.size, pageable.size);
    if |schiffe| == 0 then Failure(NotFound)
    else Success(CreateSlice(schiffe, Count(db)))
  }

  /**
   * `find`: without parameters (or with none set) the unfiltered listing;
   * with an unknown parameter name `NotFound`; otherwise one window of the
   * records matching the built filter, `NotFound` when the window is empty.
   * The total reported is the size of the whole store, not the number of
   * matches.
   */
  function Find(db: seq<Schiff>, suchparameter: Option<seq<Param>>, pageable: Pageable)
    : (r: Result<Slice, ServiceError>)
    ensures r.Failure? ==> r.error == NotFound
    ensures suchparameter.Some? && !KeysValid(Keys(suchparameter.value)) ==> r.Failure?
    ensures r.Success? <==>
      && (suchparameter.Some? ==> KeysValid(Keys(suchparameter.value)))
      && pageable.size > 0
      && pageable.number * pageable.size < |Matching(db, SearchWhere(suchparameter))|
    ensures r.Success? ==>
      && r.value.totalElements == |db|
      && r.value.content ==
           Window(Matching(db, SearchWhere(suchparameter)), pageable.number * pageable.size, pageable.size)
  {
    if suchparameter.None? || |Keys(suchparameter.value)| == 0 then
      assert Matching(db, SearchWhere(suchparameter)) == db by {
        assert SearchWhere(suchparameter) == EmptyWhere;
        MatchingEmptyWhere(db);
      }
      FindAll(db, pageable)
    else if !KeysValid(Keys(suchparameter.value)) then
      Failure(NotFound)
    else
      FindMatching(db, WhereOf(suchparameter.value), pageable)
  }

  /** Every record of a successful search is stored and matches the filter. */
  lemma FoundRecordsMatch(db: seq<Schiff>, suchparameter: Option<seq<Param>>, pageable: Pageable)
    requires Find(db, suchparameter, pageable).Success?
    ensures forall s :: s in Find(db, suchparameter, pageable).value.content ==>
      s in db && Matches(SearchWhere(suchparameter), s)
  {
    var where := SearchWhere(suchparameter);
    var matching := Matching(db, where);
    var content := Find(db, suchparameter, pageable).value.content;
    assert content == Window(matching, pageable.number * pageable.size, pageable.size);
    assert forall s :: s in content ==> s in matching;
  }

  /** A search with no parameters, or an empty parameter object, is the plain listing. */
  lemma FindWithoutParameters(db: seq<Schiff>, pageable: Pageable)
    ensures Find(db, None, pageable) == FindAll(db, pageable)
    ensures Find(db, Some([]), pageable) == FindAll(db, pageable)
  {
  }
}
