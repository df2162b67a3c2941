/** The `permissions` table as an abstract store: rows keyed by uuid and the
    sequence that hands out ids. */
module Tables {
  import opened Wrappers
  import opened Jvm
  import opened Exceptions
  import opened Entity

  datatype Table = Table(rows: map<Uuid, Permission>, nextId: nat)

  /** What the store guarantees of every stored row. */
  predicate RowOk(t: Table, u: Uuid)
    requires u in t.rows
  {
    var e := t.rows[u];
    && e.uuid == u
    && e.id.Some? && 1 <= e.id.value < t.nextId
    && e.name.Some?
    && e.description.Some?
  }

  /** The store's constraints: ids present and unique, name not null and
      unique, description not null, uuid the key. */
  predicate Valid(t: Table) {
    && t.nextId >= 1
    && (forall u | u in t.rows :: RowOk(t, u))
    && (forall u, v | u in t.rows && v in t.rows && u != v ::
          t.rows[u].id != t.rows[v].id && t.rows[u].name != t.rows[v].name)
  }

  function EmptyTable(): (t: Table)
    ensures Valid(t) && |t.rows| == 0
  {
    Table(map[], 1)
  }

  /** The state after a call and what the call returned or threw. */
  datatype Outcome<T> = Outcome(table: Table, result: Result<T, Exception>)

  predicate HasId(t: Table, id: Long) {
    exists u | u in t.rows :: t.rows[u].id == Some(id)
  }

  predicate NameFree(t: Table, name: Option<string>) {
    forall u | u in t.rows :: t.rows[u].name != name
  }

  /** `findById(id)`: the row carrying that id, if any. */
  function FindById(t: Table, id: Long): (r: Option<Permission>)
    requires Valid(t)
    ensures r.Some? <==> HasId(t, id)
    ensures r.Some? ==> r.value.uuid in t.rows && t.rows[r.value.uuid] == r.value && r.value.id == Some(id)
  {
    if exists u | u in t.rows :: t.rows[u].id == Some(id) then
      var u :| u in t.rows && t.rows[u].id == Some(id);
      Some(t.rows[u])
    else None
  }

  /** `findVersionById(id)`: `SELECT version ... WHERE id = :id`. The publisher
      is empty when no row has that id or the row's version is null. */
  function FindVersionById(t: Table, id: Long): (r: Option<Long>)
    requires Valid(t)
    ensures r.Some? <==> FindById(t, id).Some? && FindById(t, id).value.version.Some?
    ensures r.Some? ==> exists u | u in t.rows :: t.rows[u].id == Some(id) && t.rows[u].version == r
  {
    var row :- FindById(t, id);
    row.version
  }

  /** One row of an `INSERT`: the next id from the sequence, then the store's
      constraints. A refusal leaves the table as it was. */
  function InsertRow(t: Table, e: Permission): (r: Result<(Table, Long), Exception>)
    ensures r.Success? ==> var (t', id) := r.value;
      && Valid(t')
      && id == t.nextId
      && t'.rows == t.rows[e.uuid := e.(id := Some(id))]
      && t'.nextId == t.nextId + 1
    ensures r.Failure? ==> r.error.kind == DataIntegrityViolation
  {
    if e.uuid in t.rows || t.nextId > LongMax then Failure(ThrowLibrary(DataIntegrityViolation))
    else
      var id: Long := t.nextId;
      var t' := Table(t.rows[e.uuid := e.(id := Some(id))], t.nextId + 1);
      if Valid(t') then Success((t', id)) else Failure(ThrowLibrary(DataIntegrityViolation))
  }

  /** The store accepts a row exactly when its uuid is new, the sequence is not
      exhausted, name and description are present and the name is not taken. */
  lemma InsertRowAccepts(t: Table, e: Permission)
    requires Valid(t)
    ensures InsertRow(t, e).Success? <==>
      && e.uuid !in t.rows
      && t.nextId <= LongMax
      && e.name.Some? && e.description.Some?
      && NameFree(t, e.name)
  {
    if e.uuid !in t.rows && t.nextId <= LongMax && e.name.Some? && e.description.Some? && NameFree(t, e.name) {
      var t' := Table(t.rows[e.uuid := e.(id := Some(t.nextId))], t.nextId + 1);
      forall u, v | u in t'.rows && v in t'.rows && u != v
        ensures t'.rows[u].id != t'.rows[v].id && t'.rows[u].name != t'.rows[v].name
      {
        if u == e.uuid {
          assert RowOk(t, v);
        } else if v == e.uuid {
          assert RowOk(t, u);
        }
      }
      forall u | u in t'.rows
        ensures RowOk(t', u)
      {
        if u != e.uuid {
          assert RowOk(t, u);
        }
      }
      assert Valid(t');
    }
    if InsertRow(t, e).Success? {
      var t' := InsertRow(t, e).value.0;
      assert RowOk(t', e.uuid);
      forall u | u in t.rows
        ensures t.rows[u].name != e.name
      {
        assert t'.rows[u] == t.rows[u];
      }
    }
  }

  /** `deleteById(id)`: removes the row with that id if there is one; an absent
      id is not an error. */
  function DeleteById(t: Table, id: Long): (t': Table)
    ensures !HasId(t', id)
    ensures Valid(t) ==> Valid(t')
    ensures forall u | u in t.rows && t.rows[u].id != Some(id) :: u in t'.rows && t'.rows[u] == t.rows[u]
    ensures forall u | u in t'.rows :: u in t.rows
  {
    Table(map u | u in t.rows && t.rows[u].id != Some(id) :: t.rows[u], t.nextId)
  }
}
