/** Properties of the batch update that the integration tests rely on: the
    entities' id values play no part beyond being present, ids survive an
    insert followed by an update, `version` is written like any column, and a
    field an entity leaves null keeps what the store holds. */
module BatchUpdateProperties {
  import opened Wrappers
  import opened Jvm
  import opened Exceptions
  import opened Entity
  import opened Columns
  import opened Tables
  import opened Maps
  import opened Sql
  import opened Database
  import opened BatchStatements
  import opened BatchRepository
  import opened BatchInsertEffect
  import opened BatchUpdateEffect

  /** `es'` is `es` with possibly other id values, present in the same places. */
  predicate SameButIds(es: seq<Permission>, es': seq<Permission>) {
    && |es| == |es'|
    && forall i | 0 <= i < |es| :: es'[i] == es[i].(id := es'[i].id) && (es'[i].id.Some? <==> es[i].id.Some?)
  }

  lemma GetIgnoresId(e: Permission, e': Permission, c: Column)
    requires e' == e.(id := e'.id)
    requires c != Id
    ensures Get(e', c) == Get(e, c)
  {
  }

  lemma {:induction false} WhensIgnoreIds(es: seq<Permission>, es': seq<Permission>, c: Column, i: nat)
    requires SameButIds(es, es')
    requires c != Id
    ensures WhensFrom(es', c, i) == WhensFrom(es, c, i)
    decreases |es| - i
  {
    if i < |es| {
      GetIgnoresId(es[i], es'[i], c);
      WhensIgnoreIds(es, es', c, i + 1);
    }
  }

  lemma {:induction false} SetClausesIgnoreIds(props: seq<Column>, es: seq<Permission>, es': seq<Permission>)
    requires SameButIds(es, es')
    requires Id !in props
    ensures SetClausesFrom(props, es') == SetClausesFrom(props, es)
    decreases |props|
  {
    if |props| > 0 {
      WhensIgnoreIds(es, es', props[0], 0);
      SetClausesIgnoreIds(props[1..], es, es');
    }
  }

  lemma {:induction false} NonNullBindsIgnoreId(e: Permission, e': Permission, props: seq<Column>, i: nat)
    requires e' == e.(id := e'.id)
    requires Id !in props
    ensures NonNullBinds(e', props, i) == NonNullBinds(e, props, i)
    decreases |props|
  {
    if |props| > 0 {
      GetIgnoresId(e, e', props[0]);
      NonNullBindsIgnoreId(e, e', props[1..], i);
    }
  }

  lemma {:induction false} UpdateBindsIgnoreIds(es: seq<Permission>, es': seq<Permission>, i: nat)
    requires SameButIds(es, es')
    ensures UpdateBindsFrom(es', i) == UpdateBindsFrom(es, i)
    decreases |es| - i
  {
    if i < |es| {
      NonNullBindsIgnoreId(es[i], es'[i], UpdateProperties(), i);
      UpdateBindsIgnoreIds(es, es', i + 1);
    }
  }

  lemma BatchUuidsIgnoreIds(es: seq<Permission>, es': seq<Permission>)
    requires SameButIds(es, es')
    ensures BatchUuids(es') == BatchUuids(es)
  {
    forall u
      ensures u in BatchUuids(es') <==> u in BatchUuids(es)
    {
      if u in BatchUuids(es') {
        var i :| 0 <= i < |es'| && es'[i].uuid == u;
        assert es[i].uuid == u;
      }
      if u in BatchUuids(es) {
        var i :| 0 <= i < |es| && es[i].uuid == u;
        assert es'[i].uuid == u;
      }
    }
  }

  lemma EntitiesToIdsIgnoreIds(rows: seq<(Uuid, Long)>, es: seq<Permission>, es': seq<Permission>)
    requires SameButIds(es, es')
    ensures EntitiesToIds(rows, es') == EntitiesToIds(rows, es)
  {
    BatchUuidsIgnoreIds(es, es');
  }

  /** Batches that differ only in id values give the same statement and binds. */
  lemma UpdateBuildIgnoresIds(es: seq<Permission>, es': seq<Permission>)
    requires SameButIds(es, es')
    ensures UpdateStatementFor(es') == UpdateStatementFor(es)
    ensures UpdateBinds(es') == UpdateBinds(es)
  {
    SetClausesIgnoreIds(UpdateProperties(), es, es');
    UpdateBindsIgnoreIds(es, es', 0);
  }

  /** The update matches rows by uuid alone: two batches that differ only in
      their (present) id values build the same statement, bind the same
      values and end in the same table and result. */
  lemma IdPresenceIgnoresIds(es: seq<Permission>, es': seq<Permission>)
    requires SameButIds(es, es')
    ensures (exists i | 0 <= i < |es| :: es[i].id.None?) <==> (exists i | 0 <= i < |es'| :: es'[i].id.None?)
  {
    if exists i | 0 <= i < |es| :: es[i].id.None? {
      var i :| 0 <= i < |es| && es[i].id.None?;
      assert es'[i].id.None?;
    }
    if exists i | 0 <= i < |es'| :: es'[i].id.None? {
      var i :| 0 <= i < |es'| && es'[i].id.None?;
      assert es[i].id.None?;
    }
  }

  lemma RunUpdateIgnoresIds(t: Table, s: UpdateStatement, b: BindMap, es: seq<Permission>, es': seq<Permission>)
    requires SameButIds(es, es')
    ensures RunUpdate(t, s, b, es') == RunUpdate(t, s, b, es)
  {
    var r := EvalUpdate(t, s, b);
    if r.Success? {
      EntitiesToIdsIgnoreIds(r.value.1, es, es');
    }
  }

  lemma UpdateIgnoresIds(t: Table, es: seq<Permission>, es': seq<Permission>)
    requires SameButIds(es, es')
    ensures UpdateAllReturningIds(t, es') == UpdateAllReturningIds(t, es)
  {
    UpdateBuildIgnoresIds(es, es');
    IdPresenceIgnoresIds(es, es');
    RunUpdateIgnoresIds(t, UpdateStatementFor(es), ToMap(UpdateBinds(es)), es, es');
  }

  /** The update keeps every row, and every row's `id` and `uuid`; rows
      outside the batch are untouched. */
  lemma UpdateKeepsIdentity(t: Table, es: seq<Permission>)
    ensures var t' := UpdateEffect(t, es);
      && t'.rows.Keys == t.rows.Keys
      && t'.nextId == t.nextId
      && (forall u | u in t.rows :: t'.rows[u].id == t.rows[u].id && t'.rows[u].uuid == t.rows[u].uuid)
      && (forall u | u in t.rows && u !in BatchUuids(es) :: t'.rows[u] == t.rows[u])
  {
  }

  /** A field that every entity with the row's uuid leaves null keeps the
      stored value (`ELSE col`). */
  lemma PartialUpdateKeeps(t: Table, es: seq<Permission>, u: Uuid, c: Column)
    requires Valid(t)
    requires u in t.rows && c != Id && c != UuidCol
    requires forall k | 0 <= k < |es| && es[k].uuid == u :: Get(es[k], c) == Null
    ensures Get(UpdateEffect(t, es).rows[u], c) == Get(t.rows[u], c)
  {
    assert RowOk(t, u);
    var x := t.rows[u];
    if u in BatchUuids(es) {
      MergedGet(x, es, c);
      MergedValueKeeps(x, es, c, 0);
    }
  }

  /** The first entity of the batch with a row's uuid that sets a field
      writes its value verbatim, whatever the row held: `version` included,
      so the batch path makes no optimistic-lock check. */
  lemma BatchValueWritten(t: Table, es: seq<Permission>, i: nat, c: Column)
    requires Valid(t)
    requires i < |es| && es[i].uuid in t.rows
    requires c != Id && c != UuidCol && Get(es[i], c) != Null
    requires forall j | 0 <= j < i && es[j].uuid == es[i].uuid :: Get(es[j], c) == Null
    ensures Get(UpdateEffect(t, es).rows[es[i].uuid], c) == Get(es[i], c)
  {
    var u := es[i].uuid;
    assert RowOk(t, u);
    assert u in BatchUuids(es);
    MergedGet(t.rows[u], es, c);
    MergedValueFirst(t.rows[u], es, c, 0, i);
  }

  /** The version an entity carries is the version stored, even when it is
      lower than the stored one. */
  lemma VersionWrittenVerbatim(t: Table, es: seq<Permission>, i: nat)
    requires Valid(t)
    requires i < |es| && es[i].uuid in t.rows && es[i].version.Some?
    requires forall j | 0 <= j < i :: es[j].uuid != es[i].uuid
    ensures UpdateEffect(t, es).rows[es[i].uuid].version == es[i].version
  {
    BatchValueWritten(t, es, i, Version);
  }

  /** An update of stored rows that keeps the constraints succeeds and
      returns each entity's stored id. */
  lemma UpdateReturnsStoredIds(t: Table, es: seq<Permission>)
    requires Valid(t)
    requires |es| > 0 && forall i | 0 <= i < |es| :: es[i].id.Some?
    requires SetsSomething(es)
    requires BatchUuids(es) <= t.rows.Keys
    requires Valid(UpdateEffect(t, es))
    ensures var o := UpdateAllReturningIds(t, es);
      && o.result.Success?
      && forall i | 0 <= i < |es| :: es[i].uuid in o.result.value && Some(o.result.value[es[i].uuid]) == t.rows[es[i].uuid].id
  {
    UpdateEffectOfBatch(t, es);
    var o := UpdateAllReturningIds(t, es);
    forall i | 0 <= i < |es|
      ensures es[i].uuid in o.result.value
    {
      assert es[i].uuid in BatchUuids(es);
    }
  }

  /** Two id maps that both report the ids stored in `t` agree on a sub-batch. */
  lemma SameStoredIds(t: Table, es: seq<Permission>, es2: seq<Permission>, v1: map<Uuid, Long>, v2: map<Uuid, Long>)
    requires forall j | 0 <= j < |es| :: es[j].uuid in v1 && es[j].uuid in t.rows && t.rows[es[j].uuid].id == Some(v1[es[j].uuid])
    requires forall i | 0 <= i < |es2| :: es2[i].uuid in v2 && es2[i].uuid in t.rows && t.rows[es2[i].uuid].id == Some(v2[es2[i].uuid])
    requires BatchUuids(es2) <= BatchUuids(es)
    ensures forall i | 0 <= i < |es2| :: es2[i].uuid in v1 && v2[es2[i].uuid] == v1[es2[i].uuid]
  {
    forall i | 0 <= i < |es2|
      ensures es2[i].uuid in v1 && v2[es2[i].uuid] == v1[es2[i].uuid]
    {
      assert es2[i].uuid in BatchUuids(es2);
      var j :| 0 <= j < |es| && es[j].uuid == es2[i].uuid;
    }
  }

  /** Updating rows whose ids a map reports returns those same ids. */
  lemma UpdateKeepsReportedIds(t: Table, es: seq<Permission>, es2: seq<Permission>, v1: map<Uuid, Long>)
    requires Valid(t)
    requires forall j | 0 <= j < |es| :: es[j].uuid in v1 && es[j].uuid in t.rows && t.rows[es[j].uuid].id == Some(v1[es[j].uuid])
    requires |es2| > 0 && forall i | 0 <= i < |es2| :: es2[i].id.Some?
    requires SetsSomething(es2)
    requires BatchUuids(es2) <= BatchUuids(es)
    requires Valid(UpdateEffect(t, es2))
    ensures var o2 := UpdateAllReturningIds(t, es2);
      && o2.result.Success?
      && forall i | 0 <= i < |es2| :: es2[i].uuid in v1 && o2.result.value[es2[i].uuid] == v1[es2[i].uuid]
  {
    assert BatchUuids(es2) <= t.rows.Keys by {
      forall u | u in BatchUuids(es2)
        ensures u in t.rows
      {
        var j :| 0 <= j < |es| && es[j].uuid == u;
      }
    }
    UpdateReturnsStoredIds(t, es2);
    SameStoredIds(t, es, es2, v1, UpdateAllReturningIds(t, es2).result.value);
  }

  /** The ids an insert reports are the ids it stored. */
  lemma ReportedIdsOfInsert(t: Table, es: seq<Permission>, t1: Table, v: map<Uuid, Long>)
    requires InsertedAs(t, es, t1)
    requires v.Keys == BatchUuids(es)
    requires forall i | 0 <= i < |es| :: v[es[i].uuid] == t.nextId + i
    ensures forall j | 0 <= j < |es| :: es[j].uuid in v && es[j].uuid in t1.rows && t1.rows[es[j].uuid].id == Some(v[es[j].uuid])
  {
    forall j | 0 <= j < |es|
      ensures es[j].uuid in v && es[j].uuid in t1.rows && t1.rows[es[j].uuid].id == Some(v[es[j].uuid])
    {
      assert es[j].uuid in BatchUuids(es);
    }
  }

  /** Ids survive an insert followed by an update of some of the inserted
      entities: the update returns, for each, the id the insert returned. */
  lemma InsertThenUpdateKeepsIds(t: Table, es: seq<Permission>, es2: seq<Permission>)
    requires Valid(t)
    requires forall i | 0 <= i < |es| :: es[i].id.None?
    requires InsertAllReturningIds(t, es).result.Success?
    requires |es2| > 0 && forall i | 0 <= i < |es2| :: es2[i].id.Some?
    requires SetsSomething(es2)
    requires BatchUuids(es2) <= BatchUuids(es)
    requires Valid(UpdateEffect(InsertAllReturningIds(t, es).table, es2))
    ensures var o1 := InsertAllReturningIds(t, es); var o2 := UpdateAllReturningIds(o1.table, es2);
      && o2.result.Success?
      && forall i | 0 <= i < |es2| :: o2.result.value[es2[i].uuid] == o1.result.value[es2[i].uuid]
  {
    var o1 := InsertAllReturningIds(t, es);
    InsertEffect(t, es);
    ReportedIdsOfInsert(t, es, o1.table, o1.result.value);
    UpdateKeepsReportedIds(o1.table, es, es2, o1.result.value);
  }
}
