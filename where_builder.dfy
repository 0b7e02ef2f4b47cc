/**
 * `WhereBuilder.build`: turns the search-parameter object into the filter
 * handed to the store, and the meaning of that filter for one record.
 */
module WhereBuilder {
  import opened Wrappers
  import opened Text
  import opened Schiffe

  /**
   * The `where` object: an optional case-insensitive `contains` condition on
   * the name and an optional inclusive lower bound (`gte`) on the length.
   */
  datatype Where = Where(nameContains: Option<string>, laengeGte: Option<int>)

  /** The `where` object `build` starts from: no condition at all. */
  const EmptyWhere: Where := Where(None, None)

  /** The store keeps a record for a filter when it meets every condition set on the filter. */
  predicate Matches(w: Where, s: Schiff)
    ensures w.laengeGte.None? && (w.nameContains.None? || w.nameContains == Some("")) ==> Matches(w, s)
  {
    EmptyTextMatchesEverything(s.name);
    && (w.nameContains.Some? ==> ContainsIgnoringCase(s.name, w.nameContains.value))
    && (w.laengeGte.Some? ==> s.laenge >= w.laengeGte.value as real)
  }

  /**
   * One pass of the loop body for the entry `p`: `name` sets the text
   * condition, `laenge` sets the bound when `parseInt` (no radix) yields a
   * number, and any other key falls through the `switch`.
   */
  function Step(w: Where, p: Param): Where {
    if p.key == "name" then w.(nameContains := Some(p.value))
    else if p.key == "laenge" then
      match ParseInt(p.value, Unspecified)
      case None => w
      case Some(n) => w.(laengeGte := Some(n))
    else w
  }

  /** The filter for a search-parameter object: its entries folded over `Step`. */
  function WhereOf(params: seq<Param>): Where {
    if params == [] then EmptyWhere
    else Step(WhereOf(params[..|params| - 1]), params[|params| - 1])
  }

  /** `build`: starts from the empty filter and visits the entries in order. */
  method Build(suchparameter: seq<Param>) returns (where: Where)
    ensures where == WhereOf(suchparameter)
  {
    where := EmptyWhere;
    for i := 0 to |suchparameter|
      invariant where == WhereOf(suchparameter[..i])
    {
      var entry := suchparameter[i];
      assert suchparameter[..i + 1][..i] == suchparameter[..i];
      if entry.key == "name" {
        where := where.(nameContains := Some(entry.value));
      } else if entry.key == "laenge" {
        var laengeNumber := ParseInt(entry.value, Unspecified);
        if laengeNumber.Some? {
          where := where.(laengeGte := laengeNumber);
        }
      }
    }
    assert suchparameter[..|suchparameter|] == suchparameter;
  }

  /** The text condition is the value of the `name` parameter, if there is one. */
  lemma {:induction false} WhereOfName(params: seq<Param>)
    ensures WhereOf(params).nameContains == LastValue(params, "name")
  {
    if params != [] {
      WhereOfName(params[..|params| - 1]);
    }
  }

  /**
   * The length condition is `laenge >= parseInt(v)` for the `laenge`
   * parameter `v` when that parses, and absent otherwise: an unparsable
   * length is dropped without an error.
   */
  lemma {:induction false} WhereOfLaenge(params: seq<Param>)
    requires DistinctKeys(params)
    ensures WhereOf(params).laengeGte ==
      match LastValue(params, "laenge")
      case None => None
      case Some(v) => ParseInt(v, Unspecified)
  {
    if params != [] {
      var prefix := params[..|params| - 1];
      var last := params[|params| - 1];
      assert DistinctKeys(prefix) by {
        forall i, j | 0 <= i < j < |prefix| ensures prefix[i].key != prefix[j].key {
          assert prefix[i] == params[i] && prefix[j] == params[j];
        }
      }
      WhereOfLaenge(prefix);
      if last.key == "laenge" {
        assert LastValue(prefix, "laenge") == None by {
          forall i | 0 <= i < |prefix| ensures prefix[i].key != "laenge" {
            assert prefix[i] == params[i];
          }
        }
      }
    }
  }

  /** The entries whose key is a known search-parameter name, in order. */
  function KnownOnly(params: seq<Param>): seq<Param> {
    if params == [] then []
    else
      var last := params[|params| - 1];
      KnownOnly(params[..|params| - 1]) + (if last.key in SuchparameterNamen then [last] else [])
  }

  /** Keys other than `name` and `laenge` contribute nothing to the filter. */
  lemma {:induction false} WhereOfIgnoresOtherKeys(params: seq<Param>)
    ensures WhereOf(params) == WhereOf(KnownOnly(params))
  {
    if params != [] {
      var prefix := params[..|params| - 1];
      var last := params[|params| - 1];
      WhereOfIgnoresOtherKeys(prefix);
      if last.key in SuchparameterNamen {
        var known := KnownOnly(prefix) + [last];
        assert known[..|known| - 1] == KnownOnly(prefix);
      } else {
        assert last.key != SuchparameterNamen[0] && last.key != SuchparameterNamen[1];
        assert KnownOnly(params) == KnownOnly(prefix) + [];
        assert KnownOnly(prefix) + [] == KnownOnly(prefix);
        assert WhereOf(params) == Step(WhereOf(prefix), last) == WhereOf(prefix);
      }
    }
  }

  /**
   * A record matches the built filter exactly when its name contains the
   * `name` parameter ignoring case and its length is at least the parsed
   * `laenge` parameter: both conditions sit on one filter and both must hold.
   */
  lemma MatchesBuiltWhere(params: seq<Param>, s: Schiff)
    requires DistinctKeys(params)
    ensures Matches(WhereOf(params), s) <==>
      && (match LastValue(params, "name")
          case None => true
          case Some(v) => ContainsIgnoringCase(s.name, v))
      && (match LastValue(params, "laenge")
          case None => true
          case Some(v) =>
            match ParseInt(v, Unspecified)
            case None => true
            case Some(n) => s.laenge >= n as real)
  {
    WhereOfName(params);
    WhereOfLaenge(params);
  }

  /** The empty filter keeps every record. */
  lemma EmptyWhereMatchesAll(s: Schiff)
    ensures Matches(WhereOf([]), s)
  {
  }
}
