/** Building the two batch statements and their binds from a list of
    entities, as `insertAllReturningIds` and `updateAllReturningIds` do. */
module BatchStatements {
  import opened Wrappers
  import opened Jvm
  import opened Entity
  import opened BindNames
  import opened Columns
  import opened Sql
  import opened Maps

  /** The `@Table` name of the entity. */
  const TableName: string := "permissions"

  /** Some entity of the batch holds a non-null value for the property. */
  predicate AnyNonNull(es: seq<Permission>, c: Column) {
    exists i | 0 <= i < |es| :: Get(es[i], c) != Null
  }

  function ActiveFrom(cols: seq<Column>, es: seq<Permission>): (r: seq<Column>)
    ensures forall c :: c in r <==> c in cols && AnyNonNull(es, c)
    ensures Distinct(cols) ==> Distinct(r)
    decreases |cols|
  {
    if |cols| == 0 then []
    else
      assert Distinct(cols) ==> Distinct(cols[1..]) && cols[0] !in cols[1..];
      (if AnyNonNull(es, cols[0]) then [cols[0]] else []) + ActiveFrom(cols[1..], es)
  }

  /** `activeProps`: the mapped properties that are non-null in at least one entity. */
  function ActiveColumns(es: seq<Permission>): (cols: seq<Column>)
    ensures forall c: Column :: c in cols <==> AnyNonNull(es, c)
    ensures Distinct(cols)
  {
    AllColumnsListsEachOnce();
    ActiveFrom(AllColumns, es)
  }

  /** The batch insert's column list never holds `id`, because the batch is
      refused when any entity has one, and always holds `uuid`, which no entity
      lacks. */
  lemma InsertColumnsOmitIdKeepUuid(es: seq<Permission>)
    requires |es| > 0
    requires forall i | 0 <= i < |es| :: es[i].id.None?
    ensures Id !in ActiveColumns(es)
    ensures UuidCol in ActiveColumns(es)
  {
    assert Get(es[0], UuidCol) != Null;
  }

  /** One tuple per entity, `(:prop{idx}, ...)` with one placeholder per column. */
  function InsertTuples(cols: seq<Column>, n: nat): (tuples: seq<seq<string>>)
    ensures |tuples| == n
    ensures forall i | 0 <= i < n :: |tuples[i]| == |cols|
    ensures forall i, j | 0 <= i < n && 0 <= j < |cols| :: tuples[i][j] == BindName(PropName(cols[j]), i)
  {
    seq(n, i requires 0 <= i < n =>
      seq(|cols|, j requires 0 <= j < |cols| => BindName(PropName(cols[j]), i)))
  }

  function InsertStatementFor(es: seq<Permission>): InsertStatement {
    var cols := ActiveColumns(es);
    InsertStatement(TableName, cols, InsertTuples(cols, |es|))
  }

  /** No two placeholders of the insert share a name. */
  lemma InsertPlaceholdersDistinct(cols: seq<Column>, n: nat, i: nat, j: nat, i': nat, j': nat)
    requires Distinct(cols)
    requires i < n && j < |cols| && i' < n && j' < |cols|
    ensures InsertTuples(cols, n)[i][j] == InsertTuples(cols, n)[i'][j'] <==> i == i' && j == j'
  {
    PropNamesAreBindable(cols[j], cols[j']);
    PropNamesAreBindable(cols[j'], cols[j]);
    BindNameInjective(PropName(cols[j]), i, PropName(cols[j']), i');
  }

  /** The binds for one entity of the insert: every active property, null or not. */
  function InsertRowBinds(e: Permission, cols: seq<Column>, i: nat): (bs: Binds)
    ensures |bs| == |cols|
    ensures forall j | 0 <= j < |cols| :: bs[j] == (BindName(PropName(cols[j]), i), Get(e, cols[j]))
  {
    seq(|cols|, j requires 0 <= j < |cols| => (BindName(PropName(cols[j]), i), Get(e, cols[j])))
  }

  function InsertBindsFrom(es: seq<Permission>, cols: seq<Column>, i: nat): Binds
    decreases |es| - i
  {
    if i >= |es| then [] else InsertRowBinds(es[i], cols, i) + InsertBindsFrom(es, cols, i + 1)
  }

  /** Every bind of the insert, in the order the repository issues them. */
  function InsertBinds(es: seq<Permission>): Binds {
    InsertBindsFrom(es, ActiveColumns(es), 0)
  }

  /** The properties an update may set: all but `id` and `uuid`. */
  function UpdatableFrom(cols: seq<Column>): (r: seq<Column>)
    ensures forall c :: c in r <==> c in cols && ColumnName(c) != "id" && ColumnName(c) != "uuid"
    ensures Distinct(cols) ==> Distinct(r)
    decreases |cols|
  {
    if |cols| == 0 then []
    else
      assert Distinct(cols) ==> Distinct(cols[1..]) && cols[0] !in cols[1..];
      var c := cols[0];
      (if ColumnName(c) != "id" && ColumnName(c) != "uuid" then [c] else []) + UpdatableFrom(cols[1..])
  }

  lemma KeyColumnNames(c: Column)
    ensures ColumnName(c) == "id" <==> c == Id
    ensures ColumnName(c) == "uuid" <==> c == UuidCol
  {
  }

  function UpdateProperties(): (props: seq<Column>)
    ensures forall c: Column :: c in props <==> c != Id && c != UuidCol
    ensures Distinct(props)
  {
    AllColumnsListsEachOnce();
    var props := UpdatableFrom(AllColumns);
    assert forall c: Column :: c in props <==> c != Id && c != UuidCol by {
      forall c: Column
        ensures c in props <==> c != Id && c != UuidCol
      {
        KeyColumnNames(c);
      }
    }
    props
  }

  /** The `WHEN :uuid{idx} THEN :{prop}{idx}` branches for property `c`, one per
      entity from index `i` on whose value is non-null. */
  function WhensFrom(es: seq<Permission>, c: Column, i: nat): (ws: seq<When>)
    ensures forall w | w in ws :: exists k | i <= k < |es| ::
      Get(es[k], c) != Null && w == When(BindName("uuid", k), BindName(PropName(c), k))
    ensures (exists k | i <= k < |es| :: Get(es[k], c) != Null) <==> |ws| > 0
    decreases |es| - i
  {
    if i >= |es| then []
    else
      (if Get(es[i], c) != Null then [When(BindName("uuid", i), BindName(PropName(c), i))] else [])
        + WhensFrom(es, c, i + 1)
  }

  lemma SetColumnsCons(c: Column, ws: seq<When>, rest: seq<SetClause>)
    ensures SetColumns([SetClause(c, ws)] + rest) == [c] + SetColumns(rest)
  {
  }

  function SetClausesFrom(props: seq<Column>, es: seq<Permission>): (sets: seq<SetClause>)
    ensures forall c :: c in SetColumns(sets) <==> c in props && AnyNonNull(es, c)
    ensures forall k | 0 <= k < |sets| :: sets[k].whens == WhensFrom(es, sets[k].column, 0)
    ensures Distinct(props) ==> Distinct(SetColumns(sets))
    decreases |props|
  {
    if |props| == 0 then []
    else
      var c := props[0];
      var ws := WhensFrom(es, c, 0);
      var rest := SetClausesFrom(props[1..], es);
      assert Distinct(props) ==> Distinct(props[1..]) && c !in props[1..];
      SetColumnsCons(c, ws, rest);
      if |ws| == 0 then rest else [SetClause(c, ws)] + rest
  }

  /** `setClauses`: one `CASE` per updatable property that some entity sets. */
  function SetClauses(es: seq<Permission>): (sets: seq<SetClause>)
    ensures forall c :: c in SetColumns(sets) <==> c != Id && c != UuidCol && AnyNonNull(es, c)
    ensures forall k | 0 <= k < |sets| :: sets[k].whens == WhensFrom(es, sets[k].column, 0)
    ensures Distinct(SetColumns(sets))
  {
    SetClausesFrom(UpdateProperties(), es)
  }

  /** `WHERE uuid IN (:uuid0, :uuid1, ...)`. */
  function UpdateTargets(n: nat): (ts: seq<string>)
    ensures |ts| == n
    ensures forall i | 0 <= i < n :: ts[i] == BindName("uuid", i)
  {
    seq(n, i requires 0 <= i < n => BindName("uuid", i))
  }

  function UpdateStatementFor(es: seq<Permission>): UpdateStatement {
    UpdateStatement(TableName, SetClauses(es), UpdateTargets(|es|))
  }

  /** The update binds a property of an entity only when its value is non-null. */
  function NonNullBinds(e: Permission, props: seq<Column>, i: nat): (bs: Binds)
    ensures forall p | p in bs :: exists c | c in props :: Get(e, c) != Null && p == (BindName(PropName(c), i), Get(e, c))
    ensures forall c | c in props && Get(e, c) != Null :: (BindName(PropName(c), i), Get(e, c)) in bs
    decreases |props|
  {
    if |props| == 0 then []
    else
      var c := props[0];
      (if Get(e, c) != Null then [(BindName(PropName(c), i), Get(e, c))] else []) + NonNullBinds(e, props[1..], i)
  }

  function UpdateBindsFrom(es: seq<Permission>, i: nat): Binds
    decreases |es| - i
  {
    if i >= |es| then []
    else
      [(BindName("uuid", i), UuidValue(es[i].uuid))] + NonNullBinds(es[i], UpdateProperties(), i)
        + UpdateBindsFrom(es, i + 1)
  }

  /** Every bind of the update, in the order the repository issues them. */
  function UpdateBinds(es: seq<Permission>): Binds {
    UpdateBindsFrom(es, 0)
  }

  /** The value a parameter name stands for: property `p` of entity `i` for
      the name `p` + `i`. */
  function Decode(es: seq<Permission>, n: string): Value {
    var (p, i) := SplitBindName(n);
    var c := ColumnOfProp(p);
    if c.Some? && i < |es| then Get(es[i], c.value) else Null
  }

  lemma DecodeBindName(es: seq<Permission>, c: Column, i: nat)
    requires i < |es|
    ensures Decode(es, BindName(PropName(c), i)) == Get(es[i], c)
  {
    PropNamesAreBindable(c, c);
    SplitBindNameInverts(PropName(c), i);
    ColumnOfPropName(c);
  }

  /** Each bind of the insert carries the value its name stands for. */
  lemma {:induction false} InsertBindsDecode(es: seq<Permission>, cols: seq<Column>, i: nat)
    ensures forall p | p in InsertBindsFrom(es, cols, i) :: p.1 == Decode(es, p.0)
    decreases |es| - i
  {
    if i < |es| {
      InsertBindsDecode(es, cols, i + 1);
      var row := InsertRowBinds(es[i], cols, i);
      forall p | p in row
        ensures p.1 == Decode(es, p.0)
      {
        var j :| 0 <= j < |cols| && row[j] == p;
        DecodeBindName(es, cols[j], i);
      }
    }
  }

  /** Every (entity, active column) pair is bound, null values included. */
  lemma {:induction false} InsertBindsCover(es: seq<Permission>, cols: seq<Column>, i: nat, k: nat, j: nat)
    requires i <= k < |es| && j < |cols|
    ensures (BindName(PropName(cols[j]), k), Get(es[k], cols[j])) in InsertBindsFrom(es, cols, i)
    decreases k - i
  {
    var row := InsertRowBinds(es[i], cols, i);
    assert InsertBindsFrom(es, cols, i) == row + InsertBindsFrom(es, cols, i + 1);
    if k == i {
      assert row[j] in row;
    } else {
      InsertBindsCover(es, cols, i + 1, k, j);
    }
  }

  /** Each bind of the update carries the value its name stands for. */
  lemma {:induction false} UpdateBindsDecode(es: seq<Permission>, i: nat)
    ensures forall p | p in UpdateBindsFrom(es, i) :: p.1 == Decode(es, p.0)
    decreases |es| - i
  {
    if i < |es| {
      UpdateBindsDecode(es, i + 1);
      DecodeBindName(es, UuidCol, i);
      var nn := NonNullBinds(es[i], UpdateProperties(), i);
      forall p | p in nn
        ensures p.1 == Decode(es, p.0)
      {
        var c :| c in UpdateProperties() && Get(es[i], c) != Null && p == (BindName(PropName(c), i), Get(es[i], c));
        DecodeBindName(es, c, i);
      }
    }
  }

  /** Every uuid of the batch is bound. */
  lemma {:induction false} UpdateBindsCoverUuids(es: seq<Permission>, i: nat, k: nat)
    requires i <= k < |es|
    ensures (BindName("uuid", k), UuidValue(es[k].uuid)) in UpdateBindsFrom(es, i)
    decreases k - i
  {
    var head := [(BindName("uuid", i), UuidValue(es[i].uuid))] + NonNullBinds(es[i], UpdateProperties(), i);
    assert UpdateBindsFrom(es, i) == head + UpdateBindsFrom(es, i + 1);
    if k == i {
      assert head[0] in head;
    } else {
      UpdateBindsCoverUuids(es, i + 1, k);
    }
  }

  /** Every non-null updatable value of the batch is bound. */
  lemma {:induction false} UpdateBindsCoverValues(es: seq<Permission>, i: nat, k: nat, c: Column)
    requires i <= k < |es| && c != Id && c != UuidCol && Get(es[k], c) != Null
    ensures (BindName(PropName(c), k), Get(es[k], c)) in UpdateBindsFrom(es, i)
    decreases k - i
  {
    var head := [(BindName("uuid", i), UuidValue(es[i].uuid))] + NonNullBinds(es[i], UpdateProperties(), i);
    assert UpdateBindsFrom(es, i) == head + UpdateBindsFrom(es, i + 1);
    if k == i {
      assert c in UpdateProperties();
      assert (BindName(PropName(c), k), Get(es[k], c)) in head;
    } else {
      UpdateBindsCoverValues(es, i + 1, k, c);
    }
  }

  /** Binds that agree with `Decode` never bind one name to two values, so the
      bind map resolves every bound name to the value bound to it. */
  lemma BindMapDecodes(es: seq<Permission>, bs: Binds)
    requires forall p | p in bs :: p.1 == Decode(es, p.0)
    ensures forall p | p in bs :: p.0 in ToMap(bs) && ToMap(bs)[p.0] == p.1
  {
    ToMapFunctional(bs);
  }

  /** The insert's parameters resolve: placeholder `:{prop}{i}` of every tuple
      stands for entity `i`'s value of that column, null included. */
  lemma InsertBindMapResolves(es: seq<Permission>, cols: seq<Column>, i: nat, j: nat)
    requires cols == ActiveColumns(es)
    requires i < |es| && j < |cols|
    ensures var b := ToMap(InsertBinds(es));
      BindName(PropName(cols[j]), i) in b && b[BindName(PropName(cols[j]), i)] == Get(es[i], cols[j])
  {
    var bs := InsertBindsFrom(es, cols, 0);
    InsertBindsDecode(es, cols, 0);
    BindMapDecodes(es, bs);
    InsertBindsCover(es, cols, 0, i, j);
  }

  /** The update's parameters resolve: `:uuid{k}` stands for entity `k`'s uuid. */
  lemma UpdateBindMapResolvesUuid(es: seq<Permission>, k: nat)
    requires k < |es|
    ensures var b := ToMap(UpdateBinds(es));
      BindName("uuid", k) in b && b[BindName("uuid", k)] == UuidValue(es[k].uuid)
  {
    UpdateBindsDecode(es, 0);
    BindMapDecodes(es, UpdateBinds(es));
    UpdateBindsCoverUuids(es, 0, k);
  }

  /** `:{prop}{k}` stands for entity `k`'s value of the property whenever that
      value is non-null. */
  lemma UpdateBindMapResolvesValue(es: seq<Permission>, k: nat, c: Column)
    requires k < |es| && c != Id && c != UuidCol && Get(es[k], c) != Null
    ensures var b := ToMap(UpdateBinds(es));
      BindName(PropName(c), k) in b && b[BindName(PropName(c), k)] == Get(es[k], c)
  {
    UpdateBindsDecode(es, 0);
    BindMapDecodes(es, UpdateBinds(es));
    UpdateBindsCoverValues(es, 0, k, c);
  }
}
