/** What `insertAllReturningIds` does to the table: the generated `INSERT`
    with its binds stores exactly the batch, entity `i` under id
    `nextId + i`, or stores nothing. */
module BatchInsertEffect {
  import opened Wrappers
  import opened Jvm
  import opened Exceptions
  import opened Entity
  import opened Columns
  import opened Tables
  import opened Maps
  import opened Sql
  import opened Database
  import opened BatchStatements
  import opened BatchRepository

  /** The store accepts the batch: every row gets an id that fits a `Long`,
      has a new uuid, a name and a description, and no two rows share a uuid
      or a name, with each other or with a stored row. */
  predicate Insertable(t: Table, es: seq<Permission>) {
    && (forall i | 0 <= i < |es| ::
          && t.nextId + i <= LongMax
          && es[i].uuid !in t.rows
          && es[i].name.Some? && es[i].description.Some?
          && NameFree(t, es[i].name))
    && (forall i, j | 0 <= i < j < |es| :: es[i].uuid != es[j].uuid && es[i].name != es[j].name)
  }

  /** `t'` is `t` with entity `i` of the batch added under id `t.nextId + i`,
      its other fields as given. */
  predicate InsertedAs(t: Table, es: seq<Permission>, t': Table) {
    && t'.nextId == t.nextId + |es|
    && (forall u | u in t'.rows :: u in t.rows || u in BatchUuids(es))
    && (forall u | u in t.rows :: u in t'.rows && t'.rows[u] == t.rows[u])
    && (forall i | 0 <= i < |es| ::
          && es[i].uuid in t'.rows
          && t'.rows[es[i].uuid].id.Some?
          && t'.rows[es[i].uuid].id.value == t.nextId + i
          && t'.rows[es[i].uuid] == es[i].(id := t'.rows[es[i].uuid].id))
  }

  /** Accepting the first entity leaves the rest of the batch acceptable
      exactly when the whole batch was. */
  lemma InsertableStep(t: Table, es: seq<Permission>, t1: Table)
    requires |es| > 0
    requires t.nextId <= LongMax && es[0].uuid !in t.rows && NameFree(t, es[0].name)
    requires es[0].name.Some? && es[0].description.Some?
    requires t1 == Table(t.rows[es[0].uuid := es[0].(id := Some(t.nextId as Long))], t.nextId + 1)
    ensures Insertable(t, es) <==> Insertable(t1, es[1..])
  {
    if Insertable(t1, es[1..]) {
      InsertableFromRest(t, es, t1);
    }
    if Insertable(t, es) {
      InsertableRest(t, es, t1);
    }
  }

  lemma InsertableFromRest(t: Table, es: seq<Permission>, t1: Table)
    requires |es| > 0
    requires t.nextId <= LongMax && es[0].uuid !in t.rows && NameFree(t, es[0].name)
    requires es[0].name.Some? && es[0].description.Some?
    requires t1 == Table(t.rows[es[0].uuid := es[0].(id := Some(t.nextId as Long))], t.nextId + 1)
    requires Insertable(t1, es[1..])
    ensures Insertable(t, es)
  {
    var rest := es[1..];
    forall i | 0 <= i < |es|
      ensures t.nextId + i <= LongMax && es[i].uuid !in t.rows && NameFree(t, es[i].name)
      ensures es[i].name.Some? && es[i].description.Some?
    {
      if i > 0 {
        assert rest[i - 1] == es[i];
        forall u | u in t.rows
          ensures t.rows[u].name != es[i].name
        {
          assert u in t1.rows;
          if u != es[0].uuid {
            assert t1.rows[u] == t.rows[u];
          }
        }
      }
    }
    forall i, j | 0 <= i < j < |es|
      ensures es[i].uuid != es[j].uuid && es[i].name != es[j].name
    {
      if i == 0 {
        assert rest[j - 1] == es[j];
        assert es[0].uuid in t1.rows && t1.rows[es[0].uuid].name == es[0].name;
      } else {
        assert rest[i - 1] == es[i] && rest[j - 1] == es[j];
      }
    }
  }

  lemma InsertableRest(t: Table, es: seq<Permission>, t1: Table)
    requires |es| > 0 && t.nextId <= LongMax
    requires t1 == Table(t.rows[es[0].uuid := es[0].(id := Some(t.nextId as Long))], t.nextId + 1)
    requires Insertable(t, es)
    ensures Insertable(t1, es[1..])
  {
    var rest := es[1..];
    forall i | 0 <= i < |rest|
      ensures t1.nextId + i <= LongMax && rest[i].uuid !in t1.rows && NameFree(t1, rest[i].name)
      ensures rest[i].name.Some? && rest[i].description.Some?
    {
      assert rest[i] == es[i + 1];
      assert es[0].uuid != es[i + 1].uuid && es[0].name != es[i + 1].name;
      forall u | u in t1.rows
        ensures t1.rows[u].name != rest[i].name
      {
        if u != es[0].uuid {
          assert u in t.rows;
        }
      }
    }
    forall i, j | 0 <= i < j < |rest|
      ensures rest[i].uuid != rest[j].uuid && rest[i].name != rest[j].name
    {
      assert rest[i] == es[i + 1] && rest[j] == es[j + 1];
    }
  }

  /** Adding the first entity under `t.nextId`, then the rest from there,
      adds entity `i` under `t.nextId + i`. */
  lemma InsertedAsStep(t: Table, es: seq<Permission>, t1: Table, t': Table)
    requires |es| > 0 && es[0].uuid !in t.rows && t.nextId <= LongMax
    requires t1 == Table(t.rows[es[0].uuid := es[0].(id := Some(t.nextId as Long))], t.nextId + 1)
    requires InsertedAs(t1, es[1..], t')
    ensures InsertedAs(t, es, t')
  {
    var e := es[0];
    var rest := es[1..];
    assert forall i | 0 <= i < |rest| :: rest[i] == es[i + 1];
    forall u | u in t'.rows
      ensures u in t.rows || u in BatchUuids(es)
    {
      if u !in t1.rows {
        var i :| 0 <= i < |rest| && rest[i].uuid == u;
        assert es[i + 1].uuid == u;
      } else if u != e.uuid {
        assert u in t.rows;
      }
    }
    forall u | u in t.rows
      ensures u in t'.rows && t'.rows[u] == t.rows[u]
    {
      assert u in t1.rows && t1.rows[u] == t.rows[u];
    }
    forall i | 0 <= i < |es|
      ensures es[i].uuid in t'.rows && t'.rows[es[i].uuid].id.Some?
      ensures t'.rows[es[i].uuid].id.value == t.nextId + i
      ensures t'.rows[es[i].uuid] == es[i].(id := t'.rows[es[i].uuid].id)
    {
      if i == 0 {
        assert e.uuid in t1.rows;
      } else {
        assert rest[i - 1] == es[i];
      }
    }
  }

  /** Inserting the rows one by one succeeds exactly when the batch is
      acceptable. */
  lemma {:induction false} InsertRowsAccepts(t: Table, es: seq<Permission>)
    requires Valid(t)
    ensures InsertRows(t, es).Success? <==> Insertable(t, es)
    decreases |es|
  {
    if |es| > 0 {
      InsertRowAccepts(t, es[0]);
      var first := InsertRow(t, es[0]);
      if first.Success? {
        InsertableStep(t, es, first.value.0);
        InsertRowsAccepts(first.value.0, es[1..]);
      }
    }
  }

  /** When inserting the rows one by one succeeds, entity `i` is stored and
      returned under id `nextId + i`. */
  lemma {:induction false} InsertRowsStores(t: Table, es: seq<Permission>)
    requires Valid(t)
    requires InsertRows(t, es).Success?
    ensures var (t', rows) := InsertRows(t, es).value;
      && Valid(t')
      && InsertedAs(t, es, t')
      && forall i | 0 <= i < |es| :: rows[i].0 == es[i].uuid && rows[i].1 == t.nextId + i
    decreases |es|
  {
    if |es| > 0 {
      var e := es[0];
      InsertRowAccepts(t, e);
      var (t1, id) := InsertRow(t, e).value;
      var rest := es[1..];
      InsertRowsStores(t1, rest);
      var (t', rows') := InsertRows(t1, rest).value;
      var rows := InsertRows(t, es).value.1;
      assert InsertRows(t, es).value.0 == t';
      assert rows == [(e.uuid, id)] + rows';
      InsertedAsStep(t, es, t1, t');
      forall i | 0 <= i < |es|
        ensures rows[i].0 == es[i].uuid && rows[i].1 == t.nextId + i
      {
        if i > 0 {
          assert rows[i] == rows'[i - 1] && rest[i - 1] == es[i];
        }
      }
    }
  }

  /** An active column of the assigned row holds the entity's value. */
  lemma ActiveColumnValue(es: seq<Permission>, i: nat, cols: seq<Column>, vals: seq<Value>, c: Column)
    requires i < |es|
    requires cols == ActiveColumns(es)
    requires |vals| == |cols| && forall j | 0 <= j < |cols| :: vals[j] == Get(es[i], cols[j])
    requires c in cols
    ensures c in Assign(NullRow(), cols, vals) && Assign(NullRow(), cols, vals)[c] == Get(es[i], c)
  {
    var j :| 0 <= j < |cols| && cols[j] == c;
  }

  /** An inactive column of the assigned row keeps its null, which is the
      entity's value too: no entity of the batch sets it. */
  lemma InactiveColumnNull(es: seq<Permission>, i: nat, cols: seq<Column>, vals: seq<Value>, c: Column)
    requires i < |es|
    requires cols == ActiveColumns(es)
    requires |vals| == |cols|
    requires c !in cols
    ensures c in Assign(NullRow(), cols, vals) && Assign(NullRow(), cols, vals)[c] == Get(es[i], c)
  {
    assert !AnyNonNull(es, c);
  }

  /** Writing entity `i`'s values of the active columns into a row of nulls
      gives entity `i`'s row. */
  lemma ActiveValuesMakeRow(es: seq<Permission>, i: nat, cols: seq<Column>, vals: seq<Value>)
    requires i < |es|
    requires cols == ActiveColumns(es)
    requires |vals| == |cols| && forall j | 0 <= j < |cols| :: vals[j] == Get(es[i], cols[j])
    ensures Assign(NullRow(), cols, vals) == ToRow(es[i])
  {
    var r := Assign(NullRow(), cols, vals);
    forall c: Column
      ensures c in r && r[c] == Get(es[i], c)
    {
      if c in cols {
        ActiveColumnValue(es, i, cols, vals, c);
      } else {
        InactiveColumnNull(es, i, cols, vals, c);
      }
    }
    RowOfValues(r, es[i]);
  }

  /** The tuple of entity `i` describes entity `i` exactly. */
  lemma TupleIsEntity(es: seq<Permission>, i: nat)
    requires i < |es|
    ensures var cols := ActiveColumns(es);
      var tuple := InsertTuples(cols, |es|)[i];
      var b := ToMap(InsertBinds(es));
      && (forall n | n in tuple :: n in b)
      && TupleEntity(cols, tuple, b) == Some(es[i])
  {
    var cols := ActiveColumns(es);
    var tuple := InsertTuples(cols, |es|)[i];
    var b := ToMap(InsertBinds(es));
    forall j | 0 <= j < |cols|
      ensures tuple[j] in b && b[tuple[j]] == Get(es[i], cols[j])
    {
      InsertBindMapResolves(es, cols, i, j);
    }
    TupleOfValues(es, i, cols, tuple, b);
  }

  lemma TupleOfValues(es: seq<Permission>, i: nat, cols: seq<Column>, tuple: seq<string>, b: BindMap)
    requires i < |es|
    requires cols == ActiveColumns(es)
    requires |tuple| == |cols|
    requires forall j | 0 <= j < |cols| :: tuple[j] in b && b[tuple[j]] == Get(es[i], cols[j])
    ensures forall n | n in tuple :: n in b
    ensures TupleEntity(cols, tuple, b) == Some(es[i])
  {
    ActiveValuesMakeRow(es, i, cols, Lookup(tuple, b));
    FromRowToRow(es[i]);
  }

  lemma {:induction false} TupleEntitiesAre(cols: seq<Column>, tuples: seq<seq<string>>, b: BindMap, es: seq<Permission>)
    requires |tuples| == |es|
    requires forall i | 0 <= i < |tuples| :: |tuples[i]| == |cols| && forall n | n in tuples[i] :: n in b
    requires forall i | 0 <= i < |tuples| :: TupleEntity(cols, tuples[i], b) == Some(es[i])
    ensures TupleEntities(cols, tuples, b) == Success(es)
    decreases |tuples|
  {
    if |tuples| > 0 {
      assert forall i | 0 <= i < |tuples| - 1 :: tuples[1..][i] == tuples[i + 1] && es[1..][i] == es[i + 1];
      TupleEntitiesAre(cols, tuples[1..], b, es[1..]);
      assert [es[0]] + es[1..] == es;
    }
  }

  /** A resolved `INSERT` whose tuples describe `es` inserts `es`. */
  lemma EvalInsertOf(t: Table, s: InsertStatement, b: BindMap, es: seq<Permission>)
    requires InsertResolved(s, b)
    requires TupleEntities(s.columns, s.tuples, b) == Success(es)
    ensures EvalInsert(t, s, b) == InsertRows(t, es)
  {
  }

  /** The generated `INSERT` resolves against its binds, and its tuples
      describe the batch. */
  lemma InsertStatementDescribes(es: seq<Permission>)
    requires |es| > 0
    requires forall i | 0 <= i < |es| :: es[i].id.None?
    ensures var s := InsertStatementFor(es); var b := ToMap(InsertBinds(es));
      && InsertResolved(s, b)
      && TupleEntities(s.columns, s.tuples, b) == Success(es)
  {
    var s := InsertStatementFor(es);
    var b := ToMap(InsertBinds(es));
    InsertColumnsOmitIdKeepUuid(es);
    forall i | 0 <= i < |es|
      ensures (forall n | n in s.tuples[i] :: n in b) && TupleEntity(s.columns, s.tuples[i], b) == Some(es[i])
    {
      TupleIsEntity(es, i);
    }
    TupleEntitiesAre(s.columns, s.tuples, b, es);
  }

  /** The generated `INSERT` with its binds inserts exactly the batch, in order. */
  lemma EvalInsertIsInsertRows(t: Table, es: seq<Permission>)
    requires |es| > 0
    requires forall i | 0 <= i < |es| :: es[i].id.None?
    ensures EvalInsert(t, InsertStatementFor(es), ToMap(InsertBinds(es))) == InsertRows(t, es)
  {
    InsertStatementDescribes(es);
    EvalInsertOf(t, InsertStatementFor(es), ToMap(InsertBinds(es)), es);
  }

  /** Rows returned one per entity, in order and with distinct uuids, map
      every entity's uuid to its own row's id. */
  lemma IdsOfRows(rows: seq<(Uuid, Long)>, es: seq<Permission>, base: int)
    requires |rows| == |es|
    requires forall i | 0 <= i < |es| :: rows[i].0 == es[i].uuid && rows[i].1 == base + i
    requires forall i, j | 0 <= i < |es| && 0 <= j < |es| && i != j :: es[i].uuid != es[j].uuid
    ensures EntitiesToIds(rows, es).Success?
    ensures forall i | 0 <= i < |es| :: EntitiesToIds(rows, es).value[es[i].uuid] == base + i
  {
    forall i | 0 <= i < |es|
      ensures Returned(rows, es[i].uuid)
    {
      assert rows[i] in rows;
    }
    var m := EntitiesToIds(rows, es).value;
    forall i | 0 <= i < |es|
      ensures m[es[i].uuid] == base + i
    {
      assert es[i].uuid in BatchUuids(es);
      var k :| 0 <= k < |rows| && rows[k] == (es[i].uuid, m[es[i].uuid]);
      assert es[k].uuid == es[i].uuid;
    }
  }

  /** On a non-empty batch without ids, `insertAllReturningIds` inserts the
      batch row by row and maps the returned rows back onto it. */
  lemma InsertAllRunsInsertRows(t: Table, es: seq<Permission>)
    requires |es| > 0
    requires forall i | 0 <= i < |es| :: es[i].id.None?
    ensures var r := InsertRows(t, es);
      InsertAllReturningIds(t, es) ==
        if r.Failure? then Outcome(t, Failure(r.error)) else Outcome(r.value.0, EntitiesToIds(r.value.1, es))
  {
    EvalInsertIsInsertRows(t, es);
  }

  /** `insertAllReturningIds` on a batch without ids: it succeeds exactly when
      the store accepts the batch, then stores entity `i` under id
      `nextId + i` and maps its uuid to that id; otherwise the store's error
      comes back and nothing is stored. */
  lemma InsertEffect(t: Table, es: seq<Permission>)
    requires Valid(t)
    requires forall i | 0 <= i < |es| :: es[i].id.None?
    ensures var o := InsertAllReturningIds(t, es);
      && (o.result.Success? <==> Insertable(t, es))
      && (o.result.Failure? ==> o.table == t && o.result.error.kind == DataIntegrityViolation)
      && (o.result.Success? ==>
            && Valid(o.table)
            && InsertedAs(t, es, o.table)
            && forall i | 0 <= i < |es| :: o.result.value[es[i].uuid] == t.nextId + i)
  {
    if |es| > 0 {
      InsertAllRunsInsertRows(t, es);
      InsertRowsAccepts(t, es);
      if InsertRows(t, es).Success? {
        InsertRowsStores(t, es);
        forall i, j | 0 <= i < |es| && 0 <= j < |es| && i != j
          ensures es[i].uuid != es[j].uuid
        {
          if j < i {
            assert es[j].uuid != es[i].uuid;
          }
        }
        IdsOfRows(InsertRows(t, es).value.1, es, t.nextId);
      }
    }
  }
}
