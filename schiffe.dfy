/**
 * The ship aggregate, the inputs the transport layer hands to the services,
 * the search-parameter bag, the service errors, and the store the services
 * work on: an ordered sequence of records, each with a unique id.
 */
module Schiffe {
  import opened Wrappers

  datatype Offizier = Offizier(name: string, alter: Option<int>)

  datatype Kiste = Kiste(hoehe: real, laenge: real, breite: real)

  /** A stored ship: its id is assigned by the store, its version counts updates. */
  datatype Schiff = Schiff(
    id: int,
    version: nat,
    name: string,
    laenge: real,
    offizier: Offizier,
    kisten: seq<Kiste>)

  /** The data of a `create` call: the aggregate with its officer and boxes. */
  datatype SchiffCreate = SchiffCreate(
    version: nat,
    name: string,
    laenge: real,
    offizier: Offizier,
    kisten: seq<Kiste>)

  /** What an update does to the version column: nothing, set it, or increment it. */
  datatype VersionChange = Unchanged | SetTo(n: nat) | Increment(step: nat)

  /** The data of an `update` call; a missing field leaves the column as it is. */
  datatype SchiffUpdate = SchiffUpdate(
    version: VersionChange,
    name: Option<string>,
    laenge: Option<real>)

  /** The request bodies accepted by the REST controller and the GraphQL resolver. */
  datatype KisteDto = KisteDto(hoehe: real, laenge: real, breite: real)
  datatype OffizierDto = OffizierDto(name: string, alter: Option<int>)
  datatype SchiffDto = SchiffDto(
    name: string,
    laenge: real,
    offizier: OffizierDto,
    kisten: Option<seq<KisteDto>>)
  datatype SchiffUpdateDto = SchiffUpdateDto(
    id: string,
    version: nat,
    name: string,
    laenge: real,
    offizier: OffizierDto,
    kisten: Option<seq<KisteDto>>)

  /** The failures the services throw. */
  datatype ServiceError = NotFound | VersionInvalid(token: string) | VersionOutdated(version: int)

  /** One entry of the search-parameter object, in `Object.entries` order. */
  datatype Param = Param(key: string, value: string)

  /** The names a search parameter may have. */
  const SuchparameterNamen: seq<string> := ["name", "laenge"]

  /** `Object.keys` of a search-parameter object. */
  function Keys(params: seq<Param>): (keys: seq<string>)
    ensures |keys| == |params|
    ensures forall i :: 0 <= i < |params| ==> keys[i] == params[i].key
  {
    seq(|params|, i requires 0 <= i < |params| => params[i].key)
  }

  /** The keys of a JavaScript object are distinct. */
  predicate DistinctKeys(params: seq<Param>) {
    forall i, j :: 0 <= i < j < |params| ==> params[i].key != params[j].key
  }

  /** The value an object built from `params` holds under `key`: the last assignment wins. */
  function LastValue(params: seq<Param>, key: string): (v: Option<string>)
    ensures v.Some? <==> exists i :: 0 <= i < |params| && params[i].key == key
    ensures v.Some? ==> Param(key, v.value) in params
  {
    if params == [] then None
    else if params[|params| - 1].key == key then Some(params[|params| - 1].value)
    else LastValue(params[..|params| - 1], key)
  }

  // ----- the store -----

  predicate HasId(db: seq<Schiff>, id: int) {
    exists i :: 0 <= i < |db| && db[i].id == id
  }

  predicate IdsUnique(db: seq<Schiff>) {
    forall i, j :: 0 <= i < j < |db| ==> db[i].id != db[j].id
  }

  /**
   * A consistent store: ids are unique and positive, and every id is below
   * the next id the store will hand out, so an id is never reused.
   */
  predicate StoreValid(db: seq<Schiff>, nextId: int) {
    && nextId >= 1
    && IdsUnique(db)
    && forall i :: 0 <= i < |db| ==> 1 <= db[i].id < nextId
  }

  /** `findUnique({ where: { id } })`. */
  function FindUnique(db: seq<Schiff>, id: int): (r: Option<Schiff>)
    ensures r.Some? <==> HasId(db, id)
    ensures r.Some? ==> r.value in db && r.value.id == id
  {
    if db == [] then None
    else if db[0].id == id then Some(db[0])
    else
      assert forall i :: 1 <= i < |db| ==> db[i] == db[1..][i - 1];
      FindUnique(db[1..], id)
  }

  /** With unique ids, looking a record's id up finds exactly that record. */
  lemma {:induction false} FindUniqueFindsTheRecord(db: seq<Schiff>, k: nat)
    requires IdsUnique(db) && k < |db|
    ensures FindUnique(db, db[k].id) == Some(db[k])
  {
    if k > 0 {
      assert db[k] == db[1..][k - 1];
      FindUniqueFindsTheRecord(db[1..], k - 1);
    }
  }

  /** The stored record with the given id. */
  function Record(db: seq<Schiff>, id: int): (s: Schiff)
    requires HasId(db, id)
    ensures s in db && s.id == id
  {
    FindUnique(db, id).value
  }

  /** `delete({ where: { id } })`: the store without that record. */
  function Remove(db: seq<Schiff>, id: int): (r: seq<Schiff>)
    ensures forall s :: s in r <==> s in db && s.id != id
    ensures !HasId(r, id)
    ensures IdsUnique(db) ==> IdsUnique(r)
  {
    if db == [] then []
    else if db[0].id == id then Remove(db[1..], id)
    else
      assert forall s :: s in db[1..] ==> s in db;
      [db[0]] + Remove(db[1..], id)
  }

  /** Removing an id the store does not hold changes nothing. */
  lemma {:induction false} RemoveAbsent(db: seq<Schiff>, id: int)
    requires !HasId(db, id)
    ensures Remove(db, id) == db
  {
    if db != [] {
      assert !HasId(db[1..], id) by {
        forall i | 0 <= i < |db[1..]| ensures db[1..][i].id != id {
          assert db[1..][i] == db[i + 1];
        }
      }
      RemoveAbsent(db[1..], id);
    }
  }

  /** Removing a stored id takes away exactly one record. */
  lemma {:induction false} RemovePresent(db: seq<Schiff>, id: int)
    requires IdsUnique(db) && HasId(db, id)
    ensures |Remove(db, id)| == |db| - 1
  {
    var tail := db[1..];
    assert IdsUnique(tail) by {
      forall i, j | 0 <= i < j < |tail| ensures tail[i].id != tail[j].id {
        assert tail[i] == db[i + 1] && tail[j] == db[j + 1];
      }
    }
    if db[0].id == id {
      assert !HasId(tail, id) by {
        forall i | 0 <= i < |tail| ensures tail[i].id != id {
          assert tail[i] == db[i + 1];
        }
      }
      RemoveAbsent(tail, id);
    } else {
      var i :| 0 <= i < |db| && db[i].id == id;
      assert tail[i - 1] == db[i];
      RemovePresent(tail, id);
    }
  }

  /** Removing a record keeps the store consistent. */
  lemma RemoveKeepsStoreValid(db: seq<Schiff>, id: int, nextId: int)
    requires StoreValid(db, nextId)
    ensures StoreValid(Remove(db, id), nextId)
  {
    var r := Remove(db, id);
    forall i | 0 <= i < |r| ensures 1 <= r[i].id < nextId {
      assert r[i] in db;
    }
  }

  /** `update({ where: { id: s.id } })` writing the record `s`. */
  function Replace(db: seq<Schiff>, s: Schiff): (r: seq<Schiff>)
    ensures |r| == |db|
    ensures forall i :: 0 <= i < |db| ==> r[i] == (if db[i].id == s.id then s else db[i])
  {
    seq(|db|, i requires 0 <= i < |db| => if db[i].id == s.id then s else db[i])
  }

  /**
   * After the write, looking up the written id finds the new record, and
   * looking up any other id finds what it found before.
   */
  lemma {:induction false} LookupAfterReplace(db: seq<Schiff>, s: Schiff)
    ensures HasId(db, s.id) ==> FindUnique(Replace(db, s), s.id) == Some(s)
    ensures forall id :: id != s.id ==> FindUnique(Replace(db, s), id) == FindUnique(db, id)
  {
    if db != [] {
      var r := Replace(db, s);
      assert r[1..] == Replace(db[1..], s);
      LookupAfterReplace(db[1..], s);
      if db[0].id != s.id && HasId(db, s.id) {
        var i :| 0 <= i < |db| && db[i].id == s.id;
        assert db[1..][i - 1] == db[i];
      }
    }
  }

  /** Writing a record under one of its ids keeps the store consistent and the id set the same. */
  lemma ReplaceKeepsStoreValid(db: seq<Schiff>, s: Schiff, nextId: int)
    requires StoreValid(db, nextId) && HasId(db, s.id)
    ensures StoreValid(Replace(db, s), nextId)
    ensures forall id :: HasId(Replace(db, s), id) <==> HasId(db, id)
  {
    var r := Replace(db, s);
    assert forall i :: 0 <= i < |db| ==> r[i].id == db[i].id;
    forall id ensures HasId(r, id) <==> HasId(db, id) {
      if HasId(db, id) {
        var i :| 0 <= i < |db| && db[i].id == id;
        assert r[i].id == id;
      }
    }
  }

  /** Appending a record under the next id keeps the store consistent. */
  lemma InsertKeepsStoreValid(db: seq<Schiff>, s: Schiff, nextId: int)
    requires StoreValid(db, nextId) && s.id == nextId
    ensures StoreValid(db + [s], nextId + 1)
    ensures !HasId(db, s.id)
  {
  }

  /** The record `create` stores for the given data under the given id. */
  function NewSchiff(id: int, data: SchiffCreate): (s: Schiff)
    ensures s.id == id && s.version == data.version
    ensures s.name == data.name && s.laenge == data.laenge
    ensures s.offizier == data.offizier && s.kisten == data.kisten
  {
    Schiff(id, data.version, data.name, data.laenge, data.offizier, data.kisten)
  }

  /** The record after an update: the given columns written, the version changed as asked. */
  function ApplyUpdate(s: Schiff, u: SchiffUpdate): (r: Schiff)
    ensures r.id == s.id && r.offizier == s.offizier && r.kisten == s.kisten
    ensures r.name == (if u.name.Some? then u.name.value else s.name)
    ensures r.laenge == (if u.laenge.Some? then u.laenge.value else s.laenge)
    ensures u.version.Unchanged? ==> r.version == s.version
    ensures u.version.SetTo? ==> r.version == u.version.n
    ensures u.version.Increment? ==> r.version == s.version + u.version.step
  {
    var version := match u.version
      case Unchanged => s.version
      case SetTo(n) => n
      case Increment(k) => s.version + k;
    s.(version := version, name := u.name.GetOr(s.name), laenge := u.laenge.GetOr(s.laenge))
  }
}
