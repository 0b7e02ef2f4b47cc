/**
 * `SchiffMutationResolver`: the GraphQL write operations. The update
 * mutation carries the version as a number and turns it into the quoted
 * token the write service expects.
 */
module Mutation {
  import opened Wrappers
  import opened Text
  import opened Schiffe
  import opened SchiffWriteService
  import SchiffWriteController

  datatype CreatePayload = CreatePayload(id: int)
  datatype UpdatePayload = UpdatePayload(version: nat)
  datatype DeletePayload = DeletePayload(success: bool)

  /** `#schiffDtoToSchiffCreate`: the same object literal as the REST controller builds, at version 0. */
  function SchiffDtoToSchiffCreate(dto: SchiffDto): (input: SchiffCreate)
    ensures input == SchiffWriteController.SchiffDtoToSchiffCreateInput(dto)
    ensures input.version == 0 && input.name == dto.name && input.laenge == dto.laenge
  {
    SchiffWriteController.SchiffDtoToSchiffCreateInput(dto)
  }

  /**
   * `#schiffUpdateDtoToSchiffUpdate`: name and length only; applied as it is,
   * the input leaves the version and everything else as stored.
   */
  function SchiffUpdateDtoToSchiffUpdate(dto: SchiffUpdateDto): (u: SchiffUpdate)
    ensures forall s: Schiff :: ApplyUpdate(s, u) == s.(name := dto.name, laenge := dto.laenge)
  {
    SchiffUpdate(Unchanged, Some(dto.name), Some(dto.laenge))
  }

  /** The caller of the update mutation cannot set the version: the store increments it by one. */
  lemma UpdateInputLeavesVersionToService(dto: SchiffUpdateDto, s: Schiff)
    ensures ApplyUpdate(s, SchiffUpdateDtoToSchiffUpdate(dto)).version == s.version
    ensures var after := ApplyUpdate(s, SchiffUpdateDtoToSchiffUpdate(dto).(version := Increment(1)));
      after.version == s.version + 1 && after.name == dto.name && after.laenge == dto.laenge
  {
  }

  /** `create`: the new id as payload. */
  method Create(service: WriteService, dto: SchiffDto) returns (payload: CreatePayload)
    requires service.Valid()
    modifies service
    ensures service.Valid()
    ensures payload.id == old(service.nextId) && service.nextId == old(service.nextId) + 1
    ensures service.schiffe == old(service.schiffe) + [NewSchiff(payload.id, SchiffDtoToSchiffCreate(dto))]
    ensures service.outbox == old(service.outbox) + [CreationMail(payload.id, dto.offizier.name)]
  {
    var schiff := SchiffDtoToSchiffCreate(dto);
    var id := service.Create(schiff);
    payload := CreatePayload(id);
  }

  /**
   * `update`: the version number becomes the token `"n"` and the id is
   * `parseInt(id, 10)`; the service's check of that token decides the
   * outcome, and a passing update answers with the stored version plus one.
   * `SchiffWriteService.ValidateQuotedVersion` spells the check out for
   * such tokens.
   */
  method Update(service: WriteService, dto: SchiffUpdateDto) returns (r: Result<UpdatePayload, ServiceError>)
    requires service.Valid()
    requires ParseInt(dto.id, Decimal).Some?
    modifies service
    ensures service.Valid()
    ensures service.nextId == old(service.nextId) && service.outbox == old(service.outbox)
    ensures r.Failure? ==> service.schiffe == old(service.schiffe)
    ensures var id := ParseInt(dto.id, Decimal).value;
      match ValidateUpdate(old(service.schiffe), id, Quoted(dto.version))
      case Fail(e) => r == Failure(e)
      case Pass =>
        && HasId(old(service.schiffe), id)
        && var before := Record(old(service.schiffe), id);
           && r == Success(UpdatePayload(before.version + 1))
           && service.schiffe ==
                Replace(old(service.schiffe), ApplyUpdate(before, SchiffUpdateDtoToSchiffUpdate(dto).(version := Increment(1))))
  {
    var schiff := SchiffUpdateDtoToSchiffUpdate(dto);
    var versionStr := Quoted(dto.version);
    var id := ParseInt(dto.id, Decimal).value;
    var versionResult := service.Update(Some(id), schiff, versionStr);
    match versionResult
    case Failure(e) =>
      r := Failure(e);
    case Success(v) =>
      r := Success(UpdatePayload(v));
  }

  /** `delete`: `{ success: true }` whether or not the record existed. */
  method Delete(service: WriteService, id: int) returns (payload: DeletePayload)
    requires service.Valid()
    modifies service
    ensures service.Valid()
    ensures service.nextId == old(service.nextId) && service.outbox == old(service.outbox)
    ensures payload.success
    ensures service.schiffe ==
      if HasId(old(service.schiffe), id) then Remove(old(service.schiffe), id) else old(service.schiffe)
  {
    var _ := service.Delete(id);
    payload := DeletePayload(true);
  }
}
