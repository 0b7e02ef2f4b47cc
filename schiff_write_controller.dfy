/**
 * `SchiffWriteController`: the REST write endpoints. `put` insists on an
 * `If-Match` header and answers with the new version as ETag; `delete`
 * answers 204 whether or not the record existed.
 */
module SchiffWriteController {
  import opened Wrappers
  import opened Text
  import opened Schiffe
  import opened SchiffWriteService

  /** The answers of `put`; a thrown service error stays a service error. */
  datatype PutResponse =
    | PreconditionRequired(message: string)
    | NoContent(etag: string)
    | PutFailed(error: ServiceError)

  const NoContentStatus: nat := 204

  /**
   * `#schiffDtoToSchiffCreateInput`: the create input starts at version 0,
   * copies name, length and the officer, copies each box's dimensions, and
   * has no boxes when the body has none.
   */
  function SchiffDtoToSchiffCreateInput(dto: SchiffDto): (input: SchiffCreate)
    ensures input.version == 0
    ensures input.name == dto.name && input.laenge == dto.laenge
    ensures input.offizier == Offizier(dto.offizier.name, dto.offizier.alter)
    ensures dto.kisten.None? ==> input.kisten == []
    ensures dto.kisten.Some? ==>
      && |input.kisten| == |dto.kisten.value|
      && forall i :: 0 <= i < |input.kisten| ==>
           var k := dto.kisten.value[i];
           input.kisten[i] == Kiste(k.hoehe, k.laenge, k.breite)
  {
    var kisten := match dto.kisten
      case None => []
      case Some(ks) => seq(|ks|, i requires 0 <= i < |ks| => Kiste(ks[i].hoehe, ks[i].laenge, ks[i].breite));
    SchiffCreate(0, dto.name, dto.laenge, Offizier(dto.offizier.name, dto.offizier.alter), kisten)
  }

  /**
   * `#schiffDtoToSchiffUpdate`: applied as it is, the input would reset the
   * version to 0 and write name and length, and nothing else.
   */
  function SchiffDtoToSchiffUpdate(dto: SchiffDto): (u: SchiffUpdate)
    ensures forall s: Schiff :: ApplyUpdate(s, u) == s.(version := 0, name := dto.name, laenge := dto.laenge)
  {
    SchiffUpdate(SetTo(0), Some(dto.name), Some(dto.laenge))
  }

  /**
   * Written as it is, the update input would reset the version to 0; the
   * service replaces that with an increment, so the stored version goes up
   * by one and name and length are written.
   */
  lemma UpdateInputVersionIsReplaced(dto: SchiffDto, s: Schiff)
    ensures ApplyUpdate(s, SchiffDtoToSchiffUpdate(dto)).version == 0
    ensures var after := ApplyUpdate(s, SchiffDtoToSchiffUpdate(dto).(version := Increment(1)));
      && after.version == s.version + 1
      && after.name == dto.name && after.laenge == dto.laenge
      && after.id == s.id && after.offizier == s.offizier && after.kisten == s.kisten
  {
  }

  /**
   * `post`: creates the ship from the request body and answers with its
   * location, the base URI followed by the new id. The stored record starts
   * at version 0.
   */
  method Post(service: WriteService, dto: SchiffDto, baseUri: string) returns (location: string)
    requires service.Valid()
    modifies service
    ensures service.Valid()
    ensures var id := old(service.nextId);
      && id >= 1
      && location == baseUri + "/" + DecimalString(id)
      && service.schiffe == old(service.schiffe) + [NewSchiff(id, SchiffDtoToSchiffCreateInput(dto))]
      && HasId(service.schiffe, id) && Record(service.schiffe, id).version == 0
      && service.nextId == id + 1
      && service.outbox == old(service.outbox) + [CreationMail(id, dto.offizier.name)]
  {
    var schiff := SchiffDtoToSchiffCreateInput(dto);
    var id := service.Create(schiff);
    location := baseUri + "/" + DecimalString(id);
  }

  /**
   * `put`: 428 without an `If-Match` header, the service untouched;
   * otherwise the update with the header as version token, answered with
   * the new version as ETag, or the service's error.
   */
  method Put(service: WriteService, dto: SchiffDto, id: int, ifMatch: Option<string>)
    returns (resp: PutResponse)
    requires service.Valid()
    modifies service
    ensures service.Valid()
    ensures service.nextId == old(service.nextId) && service.outbox == old(service.outbox)
    ensures ifMatch.None? ==>
      resp == PreconditionRequired("Header \"If-Match\" fehlt") && unchanged(service)
    ensures ifMatch.Some? ==>
      match ValidateUpdate(old(service.schiffe), id, ifMatch.value)
      case Fail(e) => resp == PutFailed(e) && service.schiffe == old(service.schiffe)
      case Pass =>
        && resp == NoContent(Quoted(Record(old(service.schiffe), id).version + 1))
        && var after := ApplyUpdate(Record(old(service.schiffe), id), SchiffDtoToSchiffUpdate(dto).(version := Increment(1)));
           && service.schiffe == Replace(old(service.schiffe), after)
           && HasId(service.schiffe, id)
           && Record(service.schiffe, id).version == Record(old(service.schiffe), id).version + 1
  {
    if ifMatch.None? {
      return PreconditionRequired("Header \"If-Match\" fehlt");
    }
    var schiff := SchiffDtoToSchiffUpdate(dto);
    var neueVersion := service.Update(Some(id), schiff, ifMatch.value);
    match neueVersion
    case Failure(e) =>
      resp := PutFailed(e);
    case Success(v) =>
      ghost var after := ApplyUpdate(Record(old(service.schiffe), id), schiff.(version := Increment(1)));
      ghost var k :| 0 <= k < |old(service.schiffe)| && old(service.schiffe)[k].id == id;
      assert service.schiffe[k] == after;
      FindUniqueFindsTheRecord(service.schiffe, k);
      resp := NoContent(Quoted(v));
  }

  /** `delete`: 204 in every case; the record is gone afterwards. */
  method Delete(service: WriteService, id: int) returns (status: nat)
    requires service.Valid()
    modifies service
    ensures service.Valid()
    ensures service.nextId == old(service.nextId) && service.outbox == old(service.outbox)
    ensures status == NoContentStatus
    ensures service.schiffe ==
      if HasId(old(service.schiffe), id) then Remove(old(service.schiffe), id) else old(service.schiffe)
  {
    var _ := service.Delete(id);
    status := NoContentStatus;
  }
}
