/** `BatchPermissionRepositoryImpl`: the batch insert and the batch update,
    each one statement run against the table, and the mapping of the returned
    `(id, uuid)` rows back onto the input entities. */
module BatchRepository {
  import opened Wrappers
  import opened Jvm
  import opened Exceptions
  import opened Entity
  import opened Columns
  import opened Tables
  import opened Maps
  import opened Sql
  import opened Database
  import opened BatchStatements

  const InsertWithIdMessage: string := "Cannot insert entities with non null id"
  const UpdateWithoutIdMessage: string := "Cannot update entities with null id"

  /** The uuids of a batch: the keys of a map keyed by its entities, since
      entities are equal exactly when their uuids are. */
  function BatchUuids(es: seq<Permission>): set<Uuid> {
    set i | 0 <= i < |es| :: es[i].uuid
  }

  /** Some entity of the batch has a returned row. */
  predicate Returned(rows: seq<(Uuid, Long)>, u: Uuid) {
    exists p | p in rows :: p.0 == u
  }

  /** `specEntitiesToIds`: `rows.toMap()` (a repeated uuid keeps its last id),
      then `associateWith { uuidToId[it.uuid]!! }`, which throws when an
      entity's uuid came back in no row. */
  function EntitiesToIds(rows: seq<(Uuid, Long)>, es: seq<Permission>): (r: Result<map<Uuid, Long>, Exception>)
    ensures r.Success? <==> forall i | 0 <= i < |es| :: Returned(rows, es[i].uuid)
    ensures r.Success? ==> r.value.Keys == BatchUuids(es)
    ensures r.Success? ==> forall u | u in r.value :: (u, r.value[u]) in rows
    ensures r.Failure? ==> r.error == ThrowNullAssertion()
  {
    var byUuid := ToMap(rows);
    ToMapKeys(rows);
    ToMapPairs(rows);
    if forall i | 0 <= i < |es| :: es[i].uuid in byUuid then
      Success(map u | u in BatchUuids(es) :: byUuid[u])
    else
      Failure(ThrowNullAssertion())
  }

  /** `insertAllReturningIds`. */
  function InsertAllReturningIds(t: Table, es: seq<Permission>): (o: Outcome<map<Uuid, Long>>)
    ensures |es| == 0 ==> o == Outcome(t, Success(map[]))
    ensures |es| > 0 && (exists i | 0 <= i < |es| :: es[i].id.Some?) ==>
      o == Outcome(t, Failure(Throw(OperationNotPermitted, InsertWithIdMessage)))
    ensures o.result.Success? ==> o.result.value.Keys == BatchUuids(es)
  {
    if |es| == 0 then Outcome(t, Success(map[]))
    else if exists i | 0 <= i < |es| :: es[i].id.Some? then
      Outcome(t, Failure(Throw(OperationNotPermitted, InsertWithIdMessage)))
    else
      var r := EvalInsert(t, InsertStatementFor(es), ToMap(InsertBinds(es)));
      if r.Failure? then Outcome(t, Failure(r.error))
      else Outcome(r.value.0, EntitiesToIds(r.value.1, es))
  }

  /** Some updatable property is non-null in some entity, so the update has a
      `SET` clause. */
  predicate SetsSomething(es: seq<Permission>) {
    exists i, c | 0 <= i < |es| && c != Id && c != UuidCol :: Get(es[i], c) != Null
  }

  /** Runs a built update and maps its returned rows back onto the batch;
      a statement without a `SET` clause is not run. */
  function RunUpdate(t: Table, s: UpdateStatement, b: BindMap, es: seq<Permission>): (o: Outcome<map<Uuid, Long>>)
    ensures |s.sets| == 0 ==> o == Outcome(t, Success(map[]))
    ensures o.result.Success? && |s.sets| > 0 ==> o.result.value.Keys == BatchUuids(es)
  {
    if |s.sets| == 0 then Outcome(t, Success(map[]))
    else
      var r := EvalUpdate(t, s, b);
      if r.Failure? then Outcome(t, Failure(r.error))
      else Outcome(r.value.0, EntitiesToIds(r.value.1, es))
  }

  /** `updateAllReturningIds`. The statement's effect stays when mapping the
      returned rows fails: nothing makes the two steps one transaction. */
  function UpdateAllReturningIds(t: Table, es: seq<Permission>): (o: Outcome<map<Uuid, Long>>)
    ensures |es| == 0 ==> o == Outcome(t, Success(map[]))
    ensures |es| > 0 && (exists i | 0 <= i < |es| :: es[i].id.None?) ==>
      o == Outcome(t, Failure(Throw(OperationNotPermitted, UpdateWithoutIdMessage)))
    ensures |es| > 0 && (forall i | 0 <= i < |es| :: es[i].id.Some?) && !SetsSomething(es) ==>
      o == Outcome(t, Success(map[]))
    ensures o.result.Success? && SetsSomething(es) ==> o.result.value.Keys == BatchUuids(es)
  {
    if |es| == 0 then Outcome(t, Success(map[]))
    else if exists i | 0 <= i < |es| :: es[i].id.None? then
      Outcome(t, Failure(Throw(OperationNotPermitted, UpdateWithoutIdMessage)))
    else
      SetClausesCoverSetsSomething(es);
      RunUpdate(t, UpdateStatementFor(es), ToMap(UpdateBinds(es)), es)
  }

  /** The update has a `SET` clause exactly when some entity sets something. */
  lemma SetClausesCoverSetsSomething(es: seq<Permission>)
    ensures |SetClauses(es)| > 0 <==> SetsSomething(es)
  {
    var sets := SetClauses(es);
    if |sets| > 0 {
      var c := SetColumns(sets)[0];
      assert c in SetColumns(sets);
    }
    if SetsSomething(es) {
      var i, c :| 0 <= i < |es| && c != Id && c != UuidCol && Get(es[i], c) != Null;
      assert AnyNonNull(es, c);
      assert c in SetColumns(sets);
    }
  }
}
