/** `PermissionDto` and the two mapping functions between it and the entity. */
module PermissionMapper {
  import opened Wrappers
  import opened Jvm
  import opened Exceptions
  import opened Entity

  /** The wire shape of a permission. It has no uuid, and name and description
      are non-nullable. */
  datatype PermissionDto = PermissionDto(
    id: Option<Long>,
    createdBy: Option<string>,
    createdDate: Option<Long>,
    modifiedBy: Option<string>,
    modifiedDate: Option<Long>,
    version: Option<Long>,
    name: string,
    description: string)

  /** `Permission.toDto()`: copies the id, the audit fields and the version; the
      `!!` on name and description throws when either is null. */
  function ToDto(e: Permission): (r: Result<PermissionDto, Exception>)
    ensures r.Success? <==> e.name.Some? && e.description.Some?
    ensures r.Failure? ==> r.error.kind == NullPointer
  {
    if e.name.None? || e.description.None? then Failure(ThrowNullAssertion())
    else Success(PermissionDto(
      id := e.id,
      createdBy := e.createdBy,
      createdDate := e.createdDate,
      modifiedBy := e.modifiedBy,
      modifiedDate := e.modifiedDate,
      version := e.version,
      name := e.name.value,
      description := e.description.value))
  }

  /** `Permission.updateFromDto(dto)`: overwrites name, description and version
      from the DTO and returns the same entity. */
  function UpdateFromDto(e: Permission, d: PermissionDto): (r: Permission)
    ensures Equals(r, EntityRef(e))
  {
    e.(name := Some(d.name), description := Some(d.description), version := d.version)
  }

  /** `toDto` keeps the entity's id, audit fields and version unchanged and
      drops the uuid: entities that differ only in uuid map to one DTO. */
  lemma ToDtoCopiesMetadata(e: Permission, other: Uuid)
    requires e.name.Some? && e.description.Some?
    ensures ToDto(e).Success?
    ensures var d := ToDto(e).value;
      && d.id == e.id && d.version == e.version
      && d.createdBy == e.createdBy && d.createdDate == e.createdDate
      && d.modifiedBy == e.modifiedBy && d.modifiedDate == e.modifiedDate
      && Some(d.name) == e.name && Some(d.description) == e.description
    ensures ToDto(e.(uuid := other)) == ToDto(e)
  {
  }

  /** `updateFromDto` changes exactly name, description and version: every other
      field, the uuid included, is the one the entity had. */
  lemma UpdateFromDtoTouchesThreeFields(e: Permission, d: PermissionDto)
    ensures var r := UpdateFromDto(e, d);
      && r.name == Some(d.name) && r.description == Some(d.description) && r.version == d.version
      && r == e.(name := r.name, description := r.description, version := r.version)
  {
  }

  /** Mapping an updated entity back: the DTO's name, description and version
      with the entity's id and audit fields. */
  lemma ToDtoAfterUpdateFromDto(e: Permission, d: PermissionDto)
    ensures ToDto(UpdateFromDto(e, d)) == Success(PermissionDto(
      e.id, e.createdBy, e.createdDate, e.modifiedBy, e.modifiedDate, d.version, d.name, d.description))
  {
  }

  /** Applying an entity's own DTO back onto it changes nothing. */
  lemma UpdateFromOwnDtoIsIdentity(e: Permission)
    requires ToDto(e).Success?
    ensures UpdateFromDto(e, ToDto(e).value) == e
  {
  }

  /** A freshly constructed entity passes the batch insert's null-id guard but
      cannot be mapped to a DTO until name and description are set. */
  lemma FreshEntityHasNoDto(u: Uuid)
    ensures var p := NewPermission(u);
      && p.uuid == u && p.id.None? && p.version.None?
      && p.name.None? && p.description.None?
      && p.createdBy.None? && p.createdDate.None?
      && p.modifiedBy.None? && p.modifiedDate.None?
    ensures ToDto(NewPermission(u)) == Failure(ThrowNullAssertion())
  {
  }
}
