/**
 * `SchiffWriteService`: creating, updating and deleting ships. Updates are
 * guarded by optimistic versioning: the caller names the version it last saw
 * as a token such as `"3"`, and an older version than the stored one is
 * refused.
 */
module SchiffWriteService {
  import opened Wrappers
  import opened Text
  import opened Schiffe
  import SchiffService

  // ----- the version token -----

  /**
   * `VERSION_PATTERN` (`^"\d{1,3}"`) matches `t` with `k` digits: a quote,
   * one to three ASCII digits, a quote. There is no end anchor, so anything
   * may follow.
   */
  ghost predicate VersionShape(t: string, k: nat) {
    && 1 <= k <= 3
    && k + 2 <= |t|
    && t[0] == '"'
    && AllDecimalDigits(t[1..k + 1])
    && t[k + 1] == '"'
  }

  /** `VERSION_PATTERN.test(t)`, computed by scanning the digits after the opening quote. */
  predicate MatchesVersionPattern(t: string)
    ensures MatchesVersionPattern(t) ==> |t| >= 3 && t[0] == '"' && IsDecimalDigit(t[1])
  {
    && |t| >= 1
    && t[0] == '"'
    && var n := DigitRun(t[1..], 10);
       1 <= n <= 3 && n + 1 < |t| && t[n + 1] == '"'
  }

  lemma {:induction false} DigitRunIs(s: string, k: nat)
    requires k <= |s| && AllDecimalDigits(s[..k])
    requires k == |s| || !IsDecimalDigit(s[k])
    ensures DigitRun(s, 10) == k
  {
    if k > 0 {
      assert s[1..][..k - 1] == s[1..k];
      assert forall i :: 0 <= i < k - 1 ==> s[1..k][i] == s[..k][i + 1];
      DigitRunIs(s[1..], k - 1);
    }
  }

  /** The scan accepts exactly the texts the regular expression matches. */
  lemma VersionPatternIsRegex(t: string)
    ensures MatchesVersionPattern(t) <==> exists k :: VersionShape(t, k)
  {
    if MatchesVersionPattern(t) {
      var n := DigitRun(t[1..], 10);
      var digits := t[1..n + 1];
      assert AllDecimalDigits(digits) by {
        forall i | 0 <= i < n ensures IsDecimalDigit(digits[i]) {
          assert digits[i] == t[1..][i];
        }
      }
      assert VersionShape(t, n);
    }
    if k: nat :| VersionShape(t, k) {
      assert t[1..][..k] == t[1..k + 1];
      DigitRunIs(t[1..], k);
    }
  }

  /** `Number.parseInt(versionStr.slice(1, -1), 10)`. */
  function TokenVersion(t: string): (v: Option<int>)
    ensures |t| <= 2 ==> v.None?
    ensures |t| >= 3 && IsDecimalDigit(t[1]) ==> v.Some? && v.value >= 0
  {
    ParseInt(if |t| >= 2 then t[1..|t| - 1] else "", Decimal)
  }

  /** A matching token's version is the value of the digits between the quotes. */
  lemma ParseVersionToken(t: string, k: nat)
    requires VersionShape(t, k)
    ensures TokenVersion(t) == Some(Value(t[1..k + 1], 10))
  {
    var d := t[1..k + 1];
    var rest := t[k + 1..|t| - 1];
    assert t[1..|t| - 1] == d + rest;
    assert rest == [] || rest[0] == '"';
    ParseLeadingDigits(d, rest);
  }

  lemma ParseVersionTokenAll(t: string)
    ensures forall k :: VersionShape(t, k) ==> TokenVersion(t) == Some(Value(t[1..k + 1], 10))
  {
    forall k | VersionShape(t, k) ensures TokenVersion(t) == Some(Value(t[1..k + 1], 10)) {
      ParseVersionToken(t, k);
    }
  }

  /**
   * A version written as `"n"` passes the pattern exactly when it has at most
   * three digits, and then reads back as `n`.
   */
  lemma QuotedVersionToken(n: nat)
    ensures MatchesVersionPattern(Quoted(n)) <==> n <= 999
    ensures n <= 999 ==> TokenVersion(Quoted(n)) == Some(n)
  {
    var d := DecimalString(n);
    var q := Quoted(n);
    assert q[1..] == d + "\"";
    assert DigitRun(q[1..], 10) == |d| by {
      DigitRunOfDigits(d, "\"");
    }
    assert |d| <= 3 <==> n <= 999 by {
      DecimalStringLength(n, 3);
      assert Pow10(3) == 1000;
    }
    assert q[|d| + 1] == '"';
    if n <= 999 {
      assert q[1..|q| - 1] == d;
      ParseDecimalString(n);
    }
  }

  // ----- #validateUpdate -----

  /**
   * `#validateUpdate`: a token not matching the pattern is invalid; otherwise
   * the record must exist, and a token older than the stored version is
   * outdated. A token equal to or newer than the stored version passes.
   */
  function ValidateUpdate(db: seq<Schiff>, id: int, versionStr: string): (r: Outcome<ServiceError>)
    ensures r.Pass? ==> HasId(db, id)
  {
    if !MatchesVersionPattern(versionStr) then
      Fail(VersionInvalid(versionStr))
    else
      var version := TokenVersion(versionStr);
      match SchiffService.FindById(db, id)
      case Failure(e) => Fail(e)
      case Success(schiffDb) =>
        // NaN compares false, so an unparsable version would pass; the pattern rules it out.
        if version.Some? && version.value < schiffDb.version then Fail(VersionOutdated(version.value))
        else Pass
  }

  /**
   * The outcome of `#validateUpdate` in terms of the regular expression: a
   * token it does not match is invalid, before any lookup; for a match with
   * digits `d`, an unknown id is `NotFound`, a value of `d` below the stored
   * version is outdated, and anything else passes.
   */
  lemma ValidateUpdateOutcome(db: seq<Schiff>, id: int, versionStr: string)
    ensures !(exists k :: VersionShape(versionStr, k)) ==>
      ValidateUpdate(db, id, versionStr) == Fail(VersionInvalid(versionStr))
    ensures forall k :: VersionShape(versionStr, k) ==>
      && (!HasId(db, id) ==> ValidateUpdate(db, id, versionStr) == Fail(NotFound))
      && (HasId(db, id) ==>
            var version := Value(versionStr[1..k + 1], 10);
            ValidateUpdate(db, id, versionStr) ==
              if version < Record(db, id).version then Fail(VersionOutdated(version)) else Pass)
  {
    VersionPatternIsRegex(versionStr);
    ParseVersionTokenAll(versionStr);
  }

  /**
   * The token `"n"`: invalid above 999; otherwise `NotFound` for an unknown
   * id, outdated below the stored version, and accepted from the stored
   * version on.
   */
  lemma ValidateQuotedVersion(db: seq<Schiff>, id: int, n: nat)
    ensures ValidateUpdate(db, id, Quoted(n)) ==
      if n > 999 then Fail(VersionInvalid(Quoted(n)))
      else if !HasId(db, id) then Fail(NotFound)
      else if n < Record(db, id).version then Fail(VersionOutdated(n))
      else Pass
  {
    QuotedVersionToken(n);
    VersionPatternIsRegex(Quoted(n));
    ValidateUpdateOutcome(db, id, Quoted(n));
    if n <= 999 {
      var k :| VersionShape(Quoted(n), k);
      ParseVersionToken(Quoted(n), k);
    }
  }

  /**
   * Once an update made with the token of the stored version succeeds, the
   * same token is outdated: two sequential updates cannot both succeed with
   * one expected version.
   */
  lemma SameTokenIsOutdatedAfterUpdate(db: seq<Schiff>, nextId: int, id: int, u: SchiffUpdate)
    requires StoreValid(db, nextId) && HasId(db, id)
    requires Record(db, id).version <= 999
    ensures var n := Record(db, id).version;
      var after := ApplyUpdate(Record(db, id), u.(version := Increment(1)));
      && ValidateUpdate(db, id, Quoted(n)) == Pass
      && ValidateUpdate(Replace(db, after), id, Quoted(n)) == Fail(VersionOutdated(n))
  {
    var n := Record(db, id).version;
    var after := ApplyUpdate(Record(db, id), u.(version := Increment(1)));
    var db' := Replace(db, after);
    assert HasId(db', id) && Record(db', id).version == n + 1 by {
      var k :| 0 <= k < |db| && db[k].id == id;
      ReplaceKeepsStoreValid(db, after, nextId);
      assert db'[k] == after;
      FindUniqueFindsTheRecord(db', k);
    }
    assert ValidateUpdate(db, id, Quoted(n)) == Pass by {
      ValidateQuotedVersion(db, id, n);
    }
    assert ValidateUpdate(db', id, Quoted(n)) == Fail(VersionOutdated(n)) by {
      ValidateQuotedVersion(db', id, n);
    }
  }

  // ----- #sendmail -----

  datatype Mail = Mail(subject: string, body: string)

  /** The notification `#sendmail` sends after a create. */
  function CreationMail(id: nat, name: string): (m: Mail)
    ensures ContainsSubstring(m.body, name)
  {
    var intro := "Das Schiff mit dem Titel <strong>";
    var body := intro + name + "</strong> ist angelegt";
    assert IsPrefix(name, body[|intro|..]);
    Mail("Neues Schiff " + DecimalString(id), body)
  }

  /** The subject of the creation mail names the new id, which can be read back from it. */
  lemma CreationMailNamesTheShip(id: nat, name: string)
    ensures var subject := CreationMail(id, name).subject;
      && |subject| > 13
      && subject[..13] == "Neues Schiff "
      && ParseInt(subject[13..], Decimal) == Some(id)
  {
    var subject := CreationMail(id, name).subject;
    assert subject[13..] == DecimalString(id);
    ParseDecimalString(id);
  }

  // ----- the service -----

  /**
   * The write service together with the store it writes: the records in
   * store order, the id the store hands out next, and the mails sent so far.
   */
  class WriteService {
    var schiffe: seq<Schiff>
    var nextId: int
    var outbox: seq<Mail>

    ghost predicate Valid()
      reads this
    {
      StoreValid(schiffe, nextId)
    }

    constructor (schiffe: seq<Schiff>, nextId: int)
      requires StoreValid(schiffe, nextId)
      ensures Valid()
      ensures this.schiffe == schiffe && this.nextId == nextId && outbox == []
    {
      this.schiffe := schiffe;
      this.nextId := nextId;
      outbox := [];
    }

    /**
     * `create`: stores the new record under a fresh id, then sends exactly one
     * creation mail, and returns the id.
     */
    method Create(schiff: SchiffCreate) returns (id: int)
      requires Valid()
      modifies this
      ensures Valid()
      ensures id == old(nextId) && id >= 1 && nextId == old(nextId) + 1
      ensures !HasId(old(schiffe), id)
      ensures schiffe == old(schiffe) + [NewSchiff(id, schiff)]
      ensures SchiffService.FindById(schiffe, id) == Success(NewSchiff(id, schiff))
      ensures outbox == old(outbox) + [CreationMail(id, schiff.offizier.name)]
    {
      id := nextId;
      var schiffDb := NewSchiff(id, schiff);
      InsertKeepsStoreValid(schiffe, schiffDb, nextId);
      schiffe := schiffe + [schiffDb];
      nextId := nextId + 1;
      SchiffService.FindByIdFindsTheRecord(schiffe, |schiffe| - 1);
      SendMail(id, schiffDb.offizier.name);
    }

    /** `#sendmail`: one more mail in the outbox. */
    method SendMail(id: nat, name: string)
      modifies this`outbox
      ensures outbox == old(outbox) + [CreationMail(id, name)]
    {
      outbox := outbox + [CreationMail(id, name)];
    }

    /**
     * `update`: `NotFound` without an id; otherwise the checks of
     * `#validateUpdate`; on success the supplied columns are written, the
     * version becomes the stored one plus one whatever the input said, no
     * other record changes, and the new version is returned.
     */
    method Update(id: Option<int>, schiff: SchiffUpdate, version: string)
      returns (r: Result<nat, ServiceError>)
      requires Valid()
      modifies this
      ensures Valid() && nextId == old(nextId) && outbox == old(outbox)
      ensures id.None? ==> r == Failure(NotFound)
      ensures id.Some? ==>
        match ValidateUpdate(old(schiffe), id.value, version)
        case Fail(e) => r == Failure(e)
        case Pass => r.Success?
      ensures r.Failure? ==> schiffe == old(schiffe)
      ensures r.Success? ==>
        && id.Some? && HasId(old(schiffe), id.value)
        && var before := Record(old(schiffe), id.value);
           var after := ApplyUpdate(before, schiff.(version := Increment(1)));
           && r.value == before.version + 1 == after.version
           && schiffe == Replace(old(schiffe), after)
    {
      if id.None? {
        return Failure(NotFound);
      }
      var check := ValidateUpdate(schiffe, id.value, version);
      if check.Fail? {
        return Failure(check.error);
      }
      var input := schiff.(version := Increment(1));
      var schiffUpdated := ApplyUpdate(Record(schiffe, id.value), input);
      ReplaceKeepsStoreValid(schiffe, schiffUpdated, nextId);
      schiffe := Replace(schiffe, schiffUpdated);
      r := Success(schiffUpdated.version);
    }

    /**
     * `delete`: `false` and no change when the id is not stored; otherwise
     * that one record is removed and the answer is `true`. Afterwards the id
     * is not found either way.
     */
    method Delete(id: int) returns (deleted: bool)
      requires Valid()
      modifies this
      ensures Valid() && nextId == old(nextId) && outbox == old(outbox)
      ensures deleted <==> HasId(old(schiffe), id)
      ensures !deleted ==> schiffe == old(schiffe)
      ensures deleted ==> schiffe == Remove(old(schiffe), id) && |schiffe| == |old(schiffe)| - 1
      ensures SchiffService.FindById(schiffe, id) == Failure(NotFound)
    {
      var schiff := FindUnique(schiffe, id);
      if schiff.None? {
        return false;
      }
      RemovePresent(schiffe, id);
      RemoveKeepsStoreValid(schiffe, id, nextId);
      schiffe := Remove(schiffe, id);
      deleted := true;
    }
  }
}
