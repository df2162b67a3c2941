/** What `updateAllReturningIds` does to the table: every stored row whose
    uuid is in the batch takes, column by column, the first non-null value the
    batch gives for its uuid and keeps its stored value otherwise; `id` and
    `uuid` never change. */
module BatchUpdateEffect {
  import opened Wrappers
  import opened Jvm
  import opened Exceptions
  import opened Entity
  import opened BindNames
  import opened Columns
  import opened Tables
  import opened Maps
  import opened Sql
  import opened Database
  import opened BatchStatements
  import opened BatchRepository

  /** The value column `c` of the stored row `x` ends up with: the first
      entity from index `i` on that has `x`'s uuid and a non-null value for
      `c` supplies it; when there is none the stored value stays. */
  function MergedValue(x: Permission, es: seq<Permission>, c: Column, i: nat): (v: Value)
    ensures Typed(c, v)
    ensures v == Get(x, c) || exists k | i <= k < |es| :: es[k].uuid == x.uuid && v == Get(es[k], c) != Null
    decreases |es| - i
  {
    FromRowToRow(x);
    if i >= |es| then Get(x, c)
    else if es[i].uuid == x.uuid && Get(es[i], c) != Null then
      FromRowToRow(es[i]);
      Get(es[i], c)
    else MergedValue(x, es, c, i + 1)
  }

  /** The stored row `x` after the batch. */
  function Merged(x: Permission, es: seq<Permission>): (m: Permission)
    ensures m.id == x.id && m.uuid == x.uuid
  {
    x.(createdDate := AsLong(MergedValue(x, es, CreatedDate, 0)),
       modifiedDate := AsLong(MergedValue(x, es, ModifiedDate, 0)),
       createdBy := AsText(MergedValue(x, es, CreatedBy, 0)),
       modifiedBy := AsText(MergedValue(x, es, ModifiedBy, 0)),
       version := AsLong(MergedValue(x, es, Version, 0)),
       name := AsText(MergedValue(x, es, Name, 0)),
       description := AsText(MergedValue(x, es, Description, 0)))
  }

  lemma MergedGet(x: Permission, es: seq<Permission>, c: Column)
    ensures Get(Merged(x, es), c) == if c == Id || c == UuidCol then Get(x, c) else MergedValue(x, es, c, 0)
  {
  }

  /** The table after the batch: rows of the batch merged, all others as they were. */
  function UpdateEffect(t: Table, es: seq<Permission>): Table {
    Table(map u | u in t.rows :: if u in BatchUuids(es) then Merged(t.rows[u], es) else t.rows[u], t.nextId)
  }

  /** A column no entity with the row's uuid sets keeps its stored value. */
  lemma {:induction false} MergedValueKeeps(x: Permission, es: seq<Permission>, c: Column, i: nat)
    requires forall k | i <= k < |es| && es[k].uuid == x.uuid :: Get(es[k], c) == Null
    ensures MergedValue(x, es, c, i) == Get(x, c)
    decreases |es| - i
  {
    if i < |es| {
      MergedValueKeeps(x, es, c, i + 1);
    }
  }

  /** The first entity with the row's uuid that sets a column decides it,
      whatever the stored value and the later entities hold. */
  lemma {:induction false} MergedValueFirst(x: Permission, es: seq<Permission>, c: Column, i: nat, k: nat)
    requires i <= k < |es| && es[k].uuid == x.uuid && Get(es[k], c) != Null
    requires forall j | i <= j < k && es[j].uuid == x.uuid :: Get(es[j], c) == Null
    ensures MergedValue(x, es, c, i) == Get(es[k], c)
    decreases k - i
  {
    if i < k {
      MergedValueFirst(x, es, c, i + 1, k);
    }
  }

  /** The parameters of the update resolve as the repository binds them. */
  predicate UpdateBindsResolve(es: seq<Permission>, b: BindMap) {
    && (forall k | 0 <= k < |es| :: BindName("uuid", k) in b && b[BindName("uuid", k)] == UuidValue(es[k].uuid))
    && (forall k, c | 0 <= k < |es| && c != Id && c != UuidCol && Get(es[k], c) != Null ::
          BindName(PropName(c), k) in b && b[BindName(PropName(c), k)] == Get(es[k], c))
  }

  lemma UpdateBindsResolveHolds(es: seq<Permission>)
    ensures UpdateBindsResolve(es, ToMap(UpdateBinds(es)))
  {
    var b := ToMap(UpdateBinds(es));
    forall k | 0 <= k < |es|
      ensures BindName("uuid", k) in b && b[BindName("uuid", k)] == UuidValue(es[k].uuid)
    {
      UpdateBindMapResolvesUuid(es, k);
    }
    forall k, c | 0 <= k < |es| && c != Id && c != UuidCol && Get(es[k], c) != Null
      ensures BindName(PropName(c), k) in b && b[BindName(PropName(c), k)] == Get(es[k], c)
    {
      UpdateBindMapResolvesValue(es, k, c);
    }
  }

  /** Every `WHEN` of an updatable column compares against a bound uuid and
      yields a bound value. */
  lemma WhensResolve(es: seq<Permission>, b: BindMap, c: Column, i: nat)
    requires UpdateBindsResolve(es, b)
    requires c != Id && c != UuidCol
    ensures forall w | w in WhensFrom(es, c, i) ::
      && w.uuidParam in b && b[w.uuidParam].UuidValue?
      && w.valueParam in b
  {
  }

  /** `CASE uuid WHEN ... ELSE c END` on the row `x` computes the merged value. */
  lemma {:induction false} CaseValueIsMerged(es: seq<Permission>, b: BindMap, c: Column, i: nat, x: Permission)
    requires UpdateBindsResolve(es, b)
    requires c != Id && c != UuidCol
    ensures WhensBound(WhensFrom(es, c, i), b)
    ensures CaseValue(x.uuid, WhensFrom(es, c, i), b, Get(x, c)) == MergedValue(x, es, c, i)
    decreases |es| - i
  {
    WhensResolve(es, b, c, i);
    if i < |es| {
      CaseValueIsMerged(es, b, c, i + 1, x);
      var rest := WhensFrom(es, c, i + 1);
      if Get(es[i], c) != Null {
        var w := When(BindName("uuid", i), BindName(PropName(c), i));
        assert WhensFrom(es, c, i) == [w] + rest;
        assert ([w] + rest)[1..] == rest;
      } else {
        assert WhensFrom(es, c, i) == [] + rest == rest;
      }
    }
  }

  /** A column with a `SET` clause takes the merged value. */
  lemma SetColumnValue(x: Permission, es: seq<Permission>, b: BindMap, sets: seq<SetClause>, j: nat)
    requires UpdateBindsResolve(es, b)
    requires Distinct(SetColumns(sets))
    requires forall i | 0 <= i < |sets| :: WhensBound(sets[i].whens, b)
    requires j < |sets| && sets[j].column != Id && sets[j].column != UuidCol
    requires sets[j].whens == WhensFrom(es, sets[j].column, 0)
    ensures var before := ToRow(x);
      var r := Assign(before, SetColumns(sets), CaseValues(x.uuid, sets, b, before));
      sets[j].column in r && r[sets[j].column] == Get(Merged(x, es), sets[j].column)
  {
    var c := sets[j].column;
    var before := ToRow(x);
    var cols := SetColumns(sets);
    var vals := CaseValues(x.uuid, sets, b, before);
    CaseValueIsMerged(es, b, c, 0, x);
    assert vals[j] == MergedValue(x, es, c, 0);
    assert Assign(before, cols, vals)[cols[j]] == vals[j];
    MergedGet(x, es, c);
  }

  /** What the update's `SET` list is: distinct columns other than `id` and
      `uuid`, each with one `WHEN` per entity that sets it, and every column
      some entity sets among them. */
  predicate SetsFor(es: seq<Permission>, sets: seq<SetClause>) {
    && Distinct(SetColumns(sets))
    && (forall k | 0 <= k < |sets| ::
          && sets[k].column != Id && sets[k].column != UuidCol
          && sets[k].whens == WhensFrom(es, sets[k].column, 0))
    && (forall c | c != Id && c != UuidCol && AnyNonNull(es, c) :: c in SetColumns(sets))
  }

  lemma SetClausesAreSetsFor(es: seq<Permission>)
    ensures SetsFor(es, SetClauses(es))
  {
    var sets := SetClauses(es);
    forall k | 0 <= k < |sets|
      ensures sets[k].column != Id && sets[k].column != UuidCol
    {
      assert SetColumns(sets)[k] == sets[k].column;
    }
  }

  /** A column without a `SET` clause keeps its value, which is also the
      merged one: it is `id`, `uuid`, or a column no entity sets. */
  lemma UnsetColumnValue(x: Permission, es: seq<Permission>, b: BindMap, sets: seq<SetClause>, c: Column)
    requires SetsFor(es, sets)
    requires forall i | 0 <= i < |sets| :: WhensBound(sets[i].whens, b)
    requires c !in SetColumns(sets)
    ensures var before := ToRow(x);
      var r := Assign(before, SetColumns(sets), CaseValues(x.uuid, sets, b, before));
      c in r && r[c] == Get(Merged(x, es), c)
  {
    MergedGet(x, es, c);
    if c != Id && c != UuidCol {
      assert !AnyNonNull(es, c);
      MergedValueKeeps(x, es, c, 0);
    }
  }

  /** The `SET` list turns a targeted row into its merged row. */
  lemma UpdatedRowIsMerged(x: Permission, es: seq<Permission>, b: BindMap, sets: seq<SetClause>)
    requires UpdateBindsResolve(es, b)
    requires SetsFor(es, sets)
    requires forall i | 0 <= i < |sets| :: WhensBound(sets[i].whens, b)
    ensures UpdatedRow(x, sets, b) == Some(Merged(x, es))
  {
    var before := ToRow(x);
    var r := Assign(before, SetColumns(sets), CaseValues(x.uuid, sets, b, before));
    forall c: Column
      ensures c in r && r[c] == Get(Merged(x, es), c)
    {
      if c in SetColumns(sets) {
        var j :| 0 <= j < |sets| && SetColumns(sets)[j] == c;
        SetColumnValue(x, es, b, sets, j);
      } else {
        UnsetColumnValue(x, es, b, sets, c);
      }
    }
    RowOfValues(r, Merged(x, es));
    FromRowToRow(Merged(x, es));
  }

  /** Every `WHEN` of the generated `SET` list is bound. */
  lemma GeneratedWhensBound(es: seq<Permission>)
    ensures var sets := SetClauses(es); var b := ToMap(UpdateBinds(es));
      forall i | 0 <= i < |sets| :: WhensBound(sets[i].whens, b)
  {
    var sets := SetClauses(es);
    var b := ToMap(UpdateBinds(es));
    UpdateBindsResolveHolds(es);
    forall i | 0 <= i < |sets|
      ensures WhensBound(sets[i].whens, b)
    {
      var c := sets[i].column;
      assert c == SetColumns(sets)[i];
      WhensResolve(es, b, c, 0);
    }
  }

  /** The generated `UPDATE` resolves against its binds and targets the batch's uuids. */
  lemma GeneratedUpdateResolves(es: seq<Permission>)
    ensures var s := UpdateStatementFor(es); var b := ToMap(UpdateBinds(es));
      && UpdateResolved(s, b)
      && |s.targets| == |es|
      && forall i | 0 <= i < |es| :: b[s.targets[i]] == UuidValue(es[i].uuid)
  {
    var s := UpdateStatementFor(es);
    var b := ToMap(UpdateBinds(es));
    UpdateBindsResolveHolds(es);
    forall i, k | 0 <= i < |s.sets| && 0 <= k < |s.sets[i].whens|
      ensures s.sets[i].whens[k].uuidParam in b && b[s.sets[i].whens[k].uuidParam].UuidValue?
      ensures s.sets[i].whens[k].valueParam in b
    {
      var c := s.sets[i].column;
      assert c == SetColumns(s.sets)[i];
      WhensResolve(es, b, c, 0);
      assert s.sets[i].whens[k] in WhensFrom(es, c, 0);
    }
  }

  /** An `UPDATE` that resolves, targets the batch's uuids and turns each
      targeted row into its merged row has the batch's effect, or fails when
      that effect breaks the store's constraints. */
  lemma EvalUpdateOf(t: Table, s: UpdateStatement, b: BindMap, es: seq<Permission>)
    requires Valid(t)
    requires UpdateResolved(s, b)
    requires |s.targets| == |es| && forall i | 0 <= i < |es| :: b[s.targets[i]] == UuidValue(es[i].uuid)
    requires forall i | 0 <= i < |s.sets| :: WhensBound(s.sets[i].whens, b)
    requires forall u | u in t.rows && u in BatchUuids(es) :: UpdatedRow(t.rows[u], s.sets, b) == Some(Merged(t.rows[u], es))
    ensures var t' := UpdateEffect(t, es);
      EvalUpdate(t, s, b) ==
        if Valid(t') then Success((t', ReturnedRows(t', TargetUuids(s.targets, b), {})))
        else Failure(ThrowLibrary(DataIntegrityViolation))
  {
    UpdateResolvedBindsWhens(s, b);
    var targets := TargetUuids(s.targets, b);
    TargetsAreBatch(es, s.targets, b);
    forall u | u in t.rows
      ensures t.rows[u].uuid in targets <==> u in BatchUuids(es)
    {
      assert RowOk(t, u);
    }
    var t' := Table(
      map u | u in t.rows ::
        if t.rows[u].uuid in targets then UpdatedRow(t.rows[u], s.sets, b).value else t.rows[u],
      t.nextId);
    assert t' == UpdateEffect(t, es);
  }

  /** On a non-empty batch with ids that sets something, `updateAllReturningIds`
      runs the generated `UPDATE` and maps its returned rows back onto the batch. */
  lemma UpdateAllRunsEvalUpdate(t: Table, es: seq<Permission>)
    requires |es| > 0
    requires forall i | 0 <= i < |es| :: es[i].id.Some?
    requires SetsSomething(es)
    ensures var r := EvalUpdate(t, UpdateStatementFor(es), ToMap(UpdateBinds(es)));
      UpdateAllReturningIds(t, es) ==
        if r.Failure? then Outcome(t, Failure(r.error)) else Outcome(r.value.0, EntitiesToIds(r.value.1, es))
  {
    SetClausesCoverSetsSomething(es);
  }

  /** Under the generated `SET` list and binds, every row of the batch
      becomes its merged row. */
  lemma GeneratedSetsMerge(es: seq<Permission>, x: Permission)
    requires forall i | 0 <= i < |SetClauses(es)| :: WhensBound(SetClauses(es)[i].whens, ToMap(UpdateBinds(es)))
    ensures UpdatedRow(x, SetClauses(es), ToMap(UpdateBinds(es))) == Some(Merged(x, es))
  {
    UpdateBindsResolveHolds(es);
    SetClausesAreSetsFor(es);
    UpdatedRowIsMerged(x, es, ToMap(UpdateBinds(es)), SetClauses(es));
  }

  /** What running `s` with binds `b` does to `t` when it is the batch `es`'s
      statement: the table becomes the batch's effect and every stored row
      the statement targets is returned, unless the effect breaks a
      constraint, in which case the store refuses. */
  predicate RunsAsEffect(t: Table, es: seq<Permission>, s: UpdateStatement, b: BindMap) {
    var t' := UpdateEffect(t, es);
    && (forall n | n in s.targets :: n in b && b[n].UuidValue?)
    && EvalUpdate(t, s, b) ==
      if Valid(t') then Success((t', ReturnedRows(t', TargetUuids(s.targets, b), {})))
      else Failure(ThrowLibrary(DataIntegrityViolation))
  }

  lemma EvalGeneratedUpdate(t: Table, es: seq<Permission>, s: UpdateStatement, b: BindMap)
    requires Valid(t)
    requires s == UpdateStatementFor(es) && b == ToMap(UpdateBinds(es))
    requires UpdateResolved(s, b)
    requires |s.targets| == |es| && forall i | 0 <= i < |es| :: b[s.targets[i]] == UuidValue(es[i].uuid)
    requires forall i | 0 <= i < |s.sets| :: WhensBound(s.sets[i].whens, b)
    ensures RunsAsEffect(t, es, s, b)
  {
    forall u | u in t.rows && u in BatchUuids(es)
      ensures UpdatedRow(t.rows[u], s.sets, b) == Some(Merged(t.rows[u], es))
    {
      GeneratedSetsMerge(es, t.rows[u]);
    }
    EvalUpdateOf(t, s, b, es);
  }

  /** The generated `UPDATE` with its binds has the batch's effect. */
  lemma EvalUpdateIsEffect(t: Table, es: seq<Permission>)
    requires Valid(t)
    ensures RunsAsEffect(t, es, UpdateStatementFor(es), ToMap(UpdateBinds(es)))
  {
    GeneratedUpdateResolves(es);
    GeneratedWhensBound(es);
    EvalGeneratedUpdate(t, es, UpdateStatementFor(es), ToMap(UpdateBinds(es)));
  }

  /** Targets bound to the batch's uuids, in order, name exactly the batch's uuids. */
  lemma TargetsAreBatch(es: seq<Permission>, targets: seq<string>, b: BindMap)
    requires forall n | n in targets :: n in b && b[n].UuidValue?
    requires |targets| == |es| && forall i | 0 <= i < |es| :: b[targets[i]] == UuidValue(es[i].uuid)
    ensures forall u :: u in TargetUuids(targets, b) <==> u in BatchUuids(es)
  {
    var us := TargetUuids(targets, b);
    forall u
      ensures u in us <==> u in BatchUuids(es)
    {
      if u in BatchUuids(es) {
        var i :| 0 <= i < |es| && es[i].uuid == u;
        assert us[i] == u;
      }
      if u in us {
        var i :| 0 <= i < |us| && us[i] == u;
        assert es[i].uuid == u;
      }
    }
  }

  /** The rows an update returns map every batch uuid that is stored to that
      row's id, and the mapping fails exactly when some batch uuid is not stored. */
  lemma ReturnedIds(t': Table, targets: seq<Uuid>, es: seq<Permission>)
    requires Valid(t')
    requires forall u :: u in targets <==> u in BatchUuids(es)
    ensures var r := EntitiesToIds(ReturnedRows(t', targets, {}), es);
      && (r.Success? <==> BatchUuids(es) <= t'.rows.Keys)
      && (r.Success? ==> forall i | 0 <= i < |es| :: Some(r.value[es[i].uuid]) == t'.rows[es[i].uuid].id)
  {
    var rows := ReturnedRows(t', targets, {});
    var r := EntitiesToIds(rows, es);
    if BatchUuids(es) <= t'.rows.Keys {
      forall i | 0 <= i < |es|
        ensures Returned(rows, es[i].uuid)
      {
        assert es[i].uuid in BatchUuids(es);
      }
    }
    if r.Success? {
      forall u | u in BatchUuids(es)
        ensures u in t'.rows
      {
        var i :| 0 <= i < |es| && es[i].uuid == u;
        assert Returned(rows, es[i].uuid);
      }
      forall i | 0 <= i < |es|
        ensures Some(r.value[es[i].uuid]) == t'.rows[es[i].uuid].id
      {
        assert es[i].uuid in BatchUuids(es);
        assert (es[i].uuid, r.value[es[i].uuid]) in rows;
      }
    }
  }

  /** How the repository turns the store's answer into its outcome, for an
      answer of the shape the generated statement produces. */
  lemma OutcomeOfEffect(t: Table, es: seq<Permission>, targets: seq<Uuid>, r: Result<(Table, seq<(Uuid, Long)>), Exception>)
    requires Valid(t)
    requires forall u :: u in targets <==> u in BatchUuids(es)
    requires var t' := UpdateEffect(t, es);
      r == if Valid(t') then Success((t', ReturnedRows(t', targets, {}))) else Failure(ThrowLibrary(DataIntegrityViolation))
    ensures var o := if r.Failure? then Outcome(t, Failure(r.error)) else Outcome(r.value.0, EntitiesToIds(r.value.1, es));
      var t' := UpdateEffect(t, es);
      && (!Valid(t') ==> o == Outcome(t, Failure(ThrowLibrary(DataIntegrityViolation))))
      && (Valid(t') ==>
            && o.table == t'
            && (o.result.Success? <==> BatchUuids(es) <= t.rows.Keys)
            && (o.result.Success? ==> forall i | 0 <= i < |es| :: Some(o.result.value[es[i].uuid]) == t.rows[es[i].uuid].id)
            && (o.result.Failure? ==> o.result.error == ThrowNullAssertion()))
  {
    var t' := UpdateEffect(t, es);
    if Valid(t') {
      ReturnedIds(t', targets, es);
      assert t'.rows.Keys == t.rows.Keys;
      forall i | 0 <= i < |es| && es[i].uuid in t.rows
        ensures t'.rows[es[i].uuid].id == t.rows[es[i].uuid].id
      {
        assert es[i].uuid in BatchUuids(es);
      }
    }
  }

  /** `updateAllReturningIds` on a batch with ids that sets something: when the
      batch's effect keeps the store's constraints the table becomes that
      effect, and the call returns each entity's stored id when every batch
      uuid is stored, or throws with the update already applied; otherwise the
      store refuses and nothing changes. */
  lemma UpdateEffectOfBatch(t: Table, es: seq<Permission>)
    requires Valid(t)
    requires |es| > 0 && forall i | 0 <= i < |es| :: es[i].id.Some?
    requires SetsSomething(es)
    ensures var o := UpdateAllReturningIds(t, es); var t' := UpdateEffect(t, es);
      && (!Valid(t') ==> o == Outcome(t, Failure(ThrowLibrary(DataIntegrityViolation))))
      && (Valid(t') ==>
            && o.table == t'
            && (o.result.Success? <==> BatchUuids(es) <= t.rows.Keys)
            && (o.result.Success? ==> forall i | 0 <= i < |es| :: Some(o.result.value[es[i].uuid]) == t.rows[es[i].uuid].id)
            && (o.result.Failure? ==> o.result.error == ThrowNullAssertion()))
  {
    var s := UpdateStatementFor(es);
    var b := ToMap(UpdateBinds(es));
    UpdateAllRunsEvalUpdate(t, es);
    EvalUpdateIsEffect(t, es);
    GeneratedUpdateResolves(es);
    TargetsAreBatch(es, s.targets, b);
    OutcomeOfEffect(t, es, TargetUuids(s.targets, b), EvalUpdate(t, s, b));
  }
}
