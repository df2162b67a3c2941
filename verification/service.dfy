/** `PermissionService`: reading, creating, updating and deleting single
    permissions, each a transition of the table. Every method is one
    transaction, so a call that throws leaves the table as it was. */
module PermissionService {
  import opened Wrappers
  import opened Jvm
  import opened Exceptions
  import opened Entity
  import opened Tables
  import opened PermissionMapper

  const VersionMismatchMessage: string := "Version mismatch"

  /** `"Not Found: $id"`. */
  function NotFoundMessage(id: Long): string {
    "Not Found: " + LongToString(id)
  }

  /** The row `t.rows[u]` after `UPDATE permissions SET name = ..., description = ...,
      version = ...`: only those three columns change. */
  function Rewritten(x: Permission, dto: PermissionDto, version: Long): Permission {
    x.(name := Some(dto.name), description := Some(dto.description), version := Some(version))
  }

  /** `template.update(...).matching(where("id").is(id)).apply(...)`: every row
      carrying `id` is rewritten; the store refuses a rewrite that breaks a
      constraint. */
  function UpdateById(t: Table, id: Long, dto: PermissionDto, version: Long): (r: Result<Table, Exception>)
    ensures r.Success? ==> Valid(r.value) && r.value.rows.Keys == t.rows.Keys && r.value.nextId == t.nextId
    ensures r.Failure? ==> r.error == ThrowLibrary(DataIntegrityViolation)
  {
    var t' := Table(
      map u | u in t.rows :: if t.rows[u].id == Some(id) then Rewritten(t.rows[u], dto, version) else t.rows[u],
      t.nextId);
    if Valid(t') then Success(t') else Failure(ThrowLibrary(DataIntegrityViolation))
  }

  /** `getPermission(id)`. */
  function GetPermission(t: Table, id: Long): (o: Outcome<PermissionDto>)
    requires Valid(t)
    ensures o.table == t
    ensures o.result.Success? <==> HasId(t, id)
    ensures o.result.Failure? ==> o.result.error == Throw(Plain, NotFoundMessage(id))
    ensures o.result.Success? ==> o.result.value.id == Some(id)
    ensures forall u | u in t.rows && t.rows[u].id == Some(id) :: o.result == ToDto(t.rows[u])
  {
    match FindById(t, id)
    case None => Outcome(t, Failure(Throw(Plain, NotFoundMessage(id))))
    case Some(e) =>
      assert RowOk(t, e.uuid);
      Outcome(t, ToDto(e))
  }

  /** The entity `createPermission` saves: a new permission under the fresh
      uuid `u` with the DTO's name and description, and the initial version
      the store assigns to a new versioned entity. */
  function CreatedEntity(dto: PermissionDto, u: Uuid): Permission {
    NewPermission(u).(name := Some(dto.name), description := Some(dto.description), version := Some(0))
  }

  /** `createPermission(dto)`, with the uuid the constructor would draw passed in. */
  function CreatePermission(t: Table, dto: PermissionDto, u: Uuid): (o: Outcome<PermissionDto>)
    requires Valid(t)
    ensures Valid(o.table)
    ensures o.result.Failure? ==> o.table == t && o.result.error == ThrowLibrary(DataIntegrityViolation)
  {
    match InsertRow(t, CreatedEntity(dto, u))
    case Failure(e) => Outcome(t, Failure(e))
    case Success((t', id)) => Outcome(t', ToDto(CreatedEntity(dto, u).(id := Some(id))))
  }

  /** `updatePermission(id, dto)`: read the stored version, refuse a DTO that
      asserts another one, write name, description and `version + 1` by id,
      then read the row back. */
  function UpdatePermission(t: Table, id: Long, dto: PermissionDto): (o: Outcome<PermissionDto>)
    requires Valid(t)
    ensures FindVersionById(t, id).None? ==> o == Outcome(t, Failure(ThrowLibrary(NoSuchElement)))
    ensures FindVersionById(t, id).Some? && FindVersionById(t, id) != dto.version ==>
      o == Outcome(t, Failure(Throw(Runtime, VersionMismatchMessage)))
    ensures o.result.Failure? ==> o.table == t
    ensures Valid(o.table)
  {
    match FindVersionById(t, id)
    case None => Outcome(t, Failure(ThrowLibrary(NoSuchElement)))
    case Some(current) =>
      if Some(current) != dto.version then Outcome(t, Failure(Throw(Runtime, VersionMismatchMessage)))
      else
        match UpdateById(t, id, dto, IncLong(current))
        case Failure(e) => Outcome(t, Failure(e))
        case Success(t') =>
          match FindById(t', id)
          case None => Outcome(t, Failure(ThrowLibrary(NoSuchElement)))
          case Some(e) =>
            if ToDto(e).Failure? then Outcome(t, Failure(ToDto(e).error))
            else Outcome(t', ToDto(e))
  }

  /** `deletePermission(id)`: no version check and no error for an absent id. */
  function DeletePermission(t: Table, id: Long): (o: Outcome<()>)
    ensures o.result == Success(())
    ensures !HasId(o.table, id)
    ensures forall u | u in t.rows && t.rows[u].id != Some(id) :: u in o.table.rows && o.table.rows[u] == t.rows[u]
    ensures forall u | u in o.table.rows :: u in t.rows
  {
    Outcome(DeleteById(t, id), Success(()))
  }

  /** In a valid table only row `u` carries `u`'s id. */
  lemma OnlyRowWithId(t: Table, id: Long, u: Uuid)
    requires Valid(t)
    requires u in t.rows && t.rows[u].id == Some(id)
    ensures forall w | w in t.rows && w != u :: t.rows[w].id != Some(id)
  {
    forall w | w in t.rows && w != u
      ensures t.rows[w].id != Some(id)
    {
      assert t.rows[w].id != t.rows[u].id;
    }
  }

  /** The table a rewrite of row `u` produces, before the store checks it. */
  function RewriteRow(t: Table, u: Uuid, dto: PermissionDto, version: Long): Table
    requires u in t.rows
  {
    Table(t.rows[u := Rewritten(t.rows[u], dto, version)], t.nextId)
  }

  lemma UpdateByIdRewritesRow(t: Table, id: Long, dto: PermissionDto, version: Long, u: Uuid)
    requires Valid(t)
    requires u in t.rows && t.rows[u].id == Some(id)
    ensures UpdateById(t, id, dto, version) ==
      if Valid(RewriteRow(t, u, dto, version)) then Success(RewriteRow(t, u, dto, version))
      else Failure(ThrowLibrary(DataIntegrityViolation))
  {
    OnlyRowWithId(t, id, u);
    var t' := Table(
      map w | w in t.rows :: if t.rows[w].id == Some(id) then Rewritten(t.rows[w], dto, version) else t.rows[w],
      t.nextId);
    assert t' == RewriteRow(t, u, dto, version);
  }

  lemma RewriteKeepsConstraints(t: Table, u: Uuid, dto: PermissionDto, version: Long)
    requires Valid(t) && u in t.rows
    requires forall w | w in t.rows && w != u :: t.rows[w].name != Some(dto.name)
    ensures Valid(RewriteRow(t, u, dto, version))
  {
    var t' := RewriteRow(t, u, dto, version);
    forall w | w in t'.rows
      ensures RowOk(t', w)
    {
      assert RowOk(t, w);
    }
    forall w, x | w in t'.rows && x in t'.rows && w != x
      ensures t'.rows[w].id != t'.rows[x].id && t'.rows[w].name != t'.rows[x].name
    {
      assert t'.rows[w].id == t.rows[w].id && t'.rows[x].id == t.rows[x].id;
    }
  }

  lemma RewriteNeedsFreeName(t: Table, u: Uuid, dto: PermissionDto, version: Long)
    requires u in t.rows
    requires Valid(RewriteRow(t, u, dto, version))
    ensures forall w | w in t.rows && w != u :: t.rows[w].name != Some(dto.name)
  {
    var t' := RewriteRow(t, u, dto, version);
    forall w | w in t.rows && w != u
      ensures t.rows[w].name != Some(dto.name)
    {
      assert t'.rows[u].name == Some(dto.name) && t'.rows[w] == t.rows[w];
    }
  }

  /** A rewrite by id keeps the constraints exactly when no other row already
      has the new name; it changes that row's three columns and nothing else. */
  lemma UpdateByIdAccepts(t: Table, id: Long, dto: PermissionDto, version: Long, u: Uuid)
    requires Valid(t)
    requires u in t.rows && t.rows[u].id == Some(id)
    ensures UpdateById(t, id, dto, version).Success? <==>
      forall w | w in t.rows && w != u :: t.rows[w].name != Some(dto.name)
    ensures UpdateById(t, id, dto, version).Success? ==>
      UpdateById(t, id, dto, version).value == RewriteRow(t, u, dto, version)
  {
    UpdateByIdRewritesRow(t, id, dto, version, u);
    if forall w | w in t.rows && w != u :: t.rows[w].name != Some(dto.name) {
      RewriteKeepsConstraints(t, u, dto, version);
    }
    if Valid(RewriteRow(t, u, dto, version)) {
      RewriteNeedsFreeName(t, u, dto, version);
    }
  }

  /** `findById` and `findVersionById` read row `u` when it carries the id. */
  lemma FindsRow(t: Table, id: Long, u: Uuid)
    requires Valid(t)
    requires u in t.rows && t.rows[u].id == Some(id)
    ensures FindById(t, id) == Some(t.rows[u])
    ensures FindVersionById(t, id) == t.rows[u].version
  {
    OnlyRowWithId(t, id, u);
  }

  /** An update whose DTO asserts the stored version writes the DTO's name
      and description and the next version into that row alone, and returns
      the row as written; it fails, changing nothing, exactly when another
      row already has the name. */
  lemma UpdatePermissionWrites(t: Table, id: Long, dto: PermissionDto, u: Uuid)
    requires Valid(t)
    requires u in t.rows && t.rows[u].id == Some(id)
    requires dto.version.Some? && t.rows[u].version == dto.version
    ensures var o := UpdatePermission(t, id, dto); var x := t.rows[u]; var v := IncLong(dto.version.value);
      && (o.result.Success? <==> forall w | w in t.rows && w != u :: t.rows[w].name != Some(dto.name))
      && (o.result.Failure? ==> o == Outcome(t, Failure(ThrowLibrary(DataIntegrityViolation))))
      && (o.result.Success? ==>
            && o.table.rows.Keys == t.rows.Keys
            && o.table.nextId == t.nextId
            && o.table.rows[u] == x.(name := Some(dto.name), description := Some(dto.description), version := Some(v))
            && (forall w | w in t.rows && w != u :: o.table.rows[w] == t.rows[w])
            && o.result.value == PermissionDto(
                 Some(id), x.createdBy, x.createdDate, x.modifiedBy, x.modifiedDate, Some(v), dto.name, dto.description))
  {
    FindsRow(t, id, u);
    var v := IncLong(dto.version.value);
    UpdateByIdAccepts(t, id, dto, v, u);
    var r := UpdateById(t, id, dto, v);
    if r.Success? {
      var t' := RewriteRow(t, u, dto, v);
      assert r.value == t';
      FindsRow(t', id, u);
    }
  }

  /** Repeating a successful update with the same DTO fails: the stored
      version has moved on from the one the DTO asserts. */
  lemma UpdateTwiceFails(t: Table, id: Long, dto: PermissionDto)
    requires Valid(t)
    requires UpdatePermission(t, id, dto).result.Success?
    ensures var t' := UpdatePermission(t, id, dto).table;
      UpdatePermission(t', id, dto) == Outcome(t', Failure(Throw(Runtime, VersionMismatchMessage)))
  {
    var u :| u in t.rows && t.rows[u].id == Some(id);
    FindsRow(t, id, u);
    UpdatePermissionWrites(t, id, dto, u);
    var t' := UpdatePermission(t, id, dto).table;
    FindsRow(t', id, u);
  }

  /** The DTO a successful update returns carries the new version, so
      sending it back is accepted. */
  lemma UpdateAcceptsReturnedDto(t: Table, id: Long, dto: PermissionDto)
    requires Valid(t)
    requires UpdatePermission(t, id, dto).result.Success?
    ensures var o := UpdatePermission(t, id, dto);
      UpdatePermission(o.table, id, o.result.value).result.Success?
  {
    var u :| u in t.rows && t.rows[u].id == Some(id);
    FindsRow(t, id, u);
    UpdatePermissionWrites(t, id, dto, u);
    var o := UpdatePermission(t, id, dto);
    UpdatePermissionWrites(o.table, id, o.result.value, u);
  }

  /** Creating stores a new row under the fresh uuid with the next id, the
      DTO's name and description, version 0 and null audit fields, and
      returns it; the store refuses a taken uuid or name, or an exhausted
      sequence. */
  lemma CreatePermissionEffect(t: Table, dto: PermissionDto, u: Uuid)
    requires Valid(t)
    ensures var o := CreatePermission(t, dto, u);
      && (o.result.Success? <==> u !in t.rows && t.nextId <= LongMax && NameFree(t, Some(dto.name)))
      && (o.result.Success? ==>
            && o.table.rows == t.rows[u := Permission(Some(t.nextId as Long), u, None, None, None, None, Some(0), Some(dto.name), Some(dto.description))]
            && o.table.nextId == t.nextId + 1
            && o.result.value == PermissionDto(Some(t.nextId as Long), None, None, None, None, Some(0), dto.name, dto.description))
  {
    InsertRowAccepts(t, CreatedEntity(dto, u));
  }

  /** Creating reads only the DTO's name and description: its id, version
      and audit fields make no difference. */
  lemma CreateIgnoresDtoMeta(t: Table, d1: PermissionDto, d2: PermissionDto, u: Uuid)
    requires Valid(t)
    requires d1.name == d2.name && d1.description == d2.description
    ensures CreatePermission(t, d1, u) == CreatePermission(t, d2, u)
  {
    assert CreatedEntity(d1, u) == CreatedEntity(d2, u);
  }

  /** Reading a created permission back by its new id gives what creating returned. */
  lemma GetAfterCreate(t: Table, dto: PermissionDto, u: Uuid)
    requires Valid(t)
    requires CreatePermission(t, dto, u).result.Success?
    ensures var o := CreatePermission(t, dto, u);
      o.result.value.id.Some? && GetPermission(o.table, o.result.value.id.value) == Outcome(o.table, o.result)
  {
    CreatePermissionEffect(t, dto, u);
    var o := CreatePermission(t, dto, u);
    FindsRow(o.table, t.nextId as Long, u);
  }

  /** Reading an updated permission back gives what the update returned. */
  lemma GetAfterUpdate(t: Table, id: Long, dto: PermissionDto)
    requires Valid(t)
    requires UpdatePermission(t, id, dto).result.Success?
    ensures var o := UpdatePermission(t, id, dto);
      GetPermission(o.table, id) == Outcome(o.table, o.result)
  {
    var u :| u in t.rows && t.rows[u].id == Some(id);
    FindsRow(t, id, u);
    UpdatePermissionWrites(t, id, dto, u);
    FindsRow(UpdatePermission(t, id, dto).table, id, u);
  }

  /** After a delete the id is not found; deleting again changes nothing. */
  lemma DeleteThenGone(t: Table, id: Long)
    requires Valid(t)
    ensures var t' := DeletePermission(t, id).table;
      && GetPermission(t', id) == Outcome(t', Failure(Throw(Plain, NotFoundMessage(id))))
      && DeletePermission(t', id) == DeletePermission(t, id)
  {
    var t' := DeletePermission(t, id).table;
    var t'' := DeletePermission(t', id).table;
    assert t''.rows == t'.rows;
  }
}
