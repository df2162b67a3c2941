/** How the store evaluates the two batch statements against the table, given
    the parameters bound on them. A statement is atomic: when it fails, the
    table is the one it started from. */
module Database {
  import opened Wrappers
  import opened Jvm
  import opened Exceptions
  import opened Entity
  import opened Columns
  import opened Tables
  import opened Sql

  /** The parameter values a statement sees. */
  type BindMap = map<string, Value>

  /** The row an `INSERT` starts from: every column at its default, null. */
  function NullRow(): (r: Row)
    ensures forall c: Column :: c in r && r[c] == Null
  {
    AllColumnsListsEachOnce();
    map c | c in AllColumns :: Null
  }

  /** Writes `vals` into the columns `cols` of `r`. */
  function Assign(r: Row, cols: seq<Column>, vals: seq<Value>): (r': Row)
    requires |cols| == |vals|
    ensures forall c | c in r' :: c in r || c in cols
    ensures forall c | c in r && c !in cols :: c in r' && r'[c] == r[c]
    ensures Distinct(cols) ==> forall j | 0 <= j < |cols| :: cols[j] in r' && r'[cols[j]] == vals[j]
    decreases |cols|
  {
    if |cols| == 0 then r
    else
      assert Distinct(cols) ==> Distinct(cols[1..]) && cols[0] !in cols[1..];
      Assign(r[cols[0] := vals[0]], cols[1..], vals[1..])
  }

  /** The values bound to a list of placeholders. */
  function Lookup(names: seq<string>, b: BindMap): (vals: seq<Value>)
    requires forall n | n in names :: n in b
    ensures |vals| == |names|
    ensures forall j | 0 <= j < |names| :: vals[j] == b[names[j]]
  {
    seq(|names|, j requires 0 <= j < |names| => b[names[j]])
  }

  /** The store can run the `INSERT`: distinct columns and one bound
      placeholder per column in every tuple. Refusing a column list that names
      `id` is a restriction of the model, not of the store, which would insert
      the given id: the repository never names `id`, since its guard rejects
      any batch holding one (`BatchStatements.InsertColumnsOmitIdKeepUuid`). */
  predicate InsertResolved(s: InsertStatement, b: BindMap) {
    && Distinct(s.columns)
    && Id !in s.columns
    && forall i | 0 <= i < |s.tuples| ::
         |s.tuples[i]| == |s.columns| && forall n | n in s.tuples[i] :: n in b
  }

  /** The entity one tuple describes: its placeholders' values written into a
      row of nulls, read back as an entity. */
  function TupleEntity(cols: seq<Column>, tuple: seq<string>, b: BindMap): Option<Permission>
    requires |tuple| == |cols| && forall n | n in tuple :: n in b
  {
    FromRow(Assign(NullRow(), cols, Lookup(tuple, b)))
  }

  /** The entities of all tuples; a tuple without a uuid, or with a value of the
      wrong type, is refused. */
  function TupleEntities(cols: seq<Column>, tuples: seq<seq<string>>, b: BindMap): (r: Result<seq<Permission>, Exception>)
    requires forall i | 0 <= i < |tuples| :: |tuples[i]| == |cols| && forall n | n in tuples[i] :: n in b
    ensures r.Success? ==> |r.value| == |tuples|
    ensures r.Success? ==> forall i | 0 <= i < |tuples| :: Some(r.value[i]) == TupleEntity(cols, tuples[i], b)
    decreases |tuples|
  {
    if |tuples| == 0 then Success([])
    else
      var first := TupleEntity(cols, tuples[0], b);
      if first.None? then Failure(ThrowLibrary(DataIntegrityViolation))
      else
        var rest :- TupleEntities(cols, tuples[1..], b);
        assert forall i | 1 <= i < |tuples| :: tuples[1..][i - 1] == tuples[i];
        Success([first.value] + rest)
  }

  /** Inserts the rows in order, each taking the next id; all or nothing.
      Returns the `(uuid, id)` of every row, in order. */
  function InsertRows(t: Table, es: seq<Permission>): (r: Result<(Table, seq<(Uuid, Long)>), Exception>)
    ensures r.Success? ==> |r.value.1| == |es|
    ensures r.Failure? ==> r.error.kind == DataIntegrityViolation
    decreases |es|
  {
    if |es| == 0 then Success((t, []))
    else
      var first :- InsertRow(t, es[0]);
      var rest :- InsertRows(first.0, es[1..]);
      Success((rest.0, [(es[0].uuid, first.1)] + rest.1))
  }

  /** Runs an `INSERT ... RETURNING id, uuid`. */
  function EvalInsert(t: Table, s: InsertStatement, b: BindMap): Result<(Table, seq<(Uuid, Long)>), Exception> {
    if !InsertResolved(s, b) then Failure(ThrowLibrary(BadSqlGrammar))
    else
      var es :- TupleEntities(s.columns, s.tuples, b);
      InsertRows(t, es)
  }

  /** The store can run the `UPDATE`: no column set twice, every `WHEN` compares
      against a bound uuid and yields a bound value, every target is a bound uuid. */
  predicate UpdateResolved(s: UpdateStatement, b: BindMap) {
    && Distinct(SetColumns(s.sets))
    && (forall i, k | 0 <= i < |s.sets| && 0 <= k < |s.sets[i].whens| ::
          && s.sets[i].whens[k].uuidParam in b
          && b[s.sets[i].whens[k].uuidParam].UuidValue?
          && s.sets[i].whens[k].valueParam in b)
    && (forall n | n in s.targets :: n in b && b[n].UuidValue?)
  }

  predicate WhensBound(whens: seq<When>, b: BindMap) {
    forall w | w in whens :: w.uuidParam in b && w.valueParam in b
  }

  /** `CASE uuid WHEN ... THEN ... ELSE otherwise END` for a row with uuid `u`:
      the first branch whose uuid matches, else `otherwise`. */
  function CaseValue(u: Uuid, whens: seq<When>, b: BindMap, otherwise: Value): Value
    requires WhensBound(whens, b)
    decreases |whens|
  {
    if |whens| == 0 then otherwise
    else if b[whens[0].uuidParam] == UuidValue(u) then b[whens[0].valueParam]
    else CaseValue(u, whens[1..], b, otherwise)
  }

  /** The new value of every `SET` column, computed from the row as it was. */
  function CaseValues(u: Uuid, sets: seq<SetClause>, b: BindMap, before: Row): (vals: seq<Value>)
    requires forall i | 0 <= i < |sets| :: WhensBound(sets[i].whens, b) && sets[i].column in before
    ensures |vals| == |sets|
    ensures forall i | 0 <= i < |sets| :: vals[i] == CaseValue(u, sets[i].whens, b, before[sets[i].column])
  {
    seq(|sets|, i requires 0 <= i < |sets| => CaseValue(u, sets[i].whens, b, before[sets[i].column]))
  }

  lemma UpdateResolvedBindsWhens(s: UpdateStatement, b: BindMap)
    requires UpdateResolved(s, b)
    ensures forall i | 0 <= i < |s.sets| :: WhensBound(s.sets[i].whens, b)
  {
    forall i | 0 <= i < |s.sets|
      ensures WhensBound(s.sets[i].whens, b)
    {
      forall w | w in s.sets[i].whens
        ensures w.uuidParam in b && w.valueParam in b
      {
        var k :| 0 <= k < |s.sets[i].whens| && s.sets[i].whens[k] == w;
      }
    }
  }

  /** A row after the `SET` list; fails when a value does not fit its column. */
  function UpdatedRow(e: Permission, sets: seq<SetClause>, b: BindMap): Option<Permission>
    requires forall i | 0 <= i < |sets| :: WhensBound(sets[i].whens, b)
  {
    var before := ToRow(e);
    FromRow(Assign(before, SetColumns(sets), CaseValues(e.uuid, sets, b, before)))
  }

  function TargetUuids(targets: seq<string>, b: BindMap): (us: seq<Uuid>)
    requires forall n | n in targets :: n in b && b[n].UuidValue?
    ensures |us| == |targets|
    ensures forall i | 0 <= i < |targets| :: UuidValue(us[i]) == b[targets[i]]
  {
    seq(|targets|, i requires 0 <= i < |targets| => b[targets[i]].u)
  }

  /** `RETURNING id, uuid`: one pair per updated row. */
  function ReturnedRows(t: Table, targets: seq<Uuid>, seen: set<Uuid>): (rows: seq<(Uuid, Long)>)
    requires Valid(t)
    ensures forall p | p in rows :: p.0 in t.rows && t.rows[p.0].id == Some(p.1) && p.0 in targets
    ensures forall u | u in targets && u in t.rows && u !in seen :: exists p | p in rows :: p.0 == u
    decreases |targets|
  {
    if |targets| == 0 then []
    else
      var u := targets[0];
      if u in t.rows && u !in seen then
        assert RowOk(t, u);
        [(u, t.rows[u].id.value)] + ReturnedRows(t, targets[1..], seen + {u})
      else ReturnedRows(t, targets[1..], seen)
  }

  /** Runs an `UPDATE ... WHERE uuid IN (...) RETURNING id, uuid`. */
  function EvalUpdate(t: Table, s: UpdateStatement, b: BindMap): Result<(Table, seq<(Uuid, Long)>), Exception> {
    if !UpdateResolved(s, b) then Failure(ThrowLibrary(BadSqlGrammar))
    else
      UpdateResolvedBindsWhens(s, b);
      var targets := TargetUuids(s.targets, b);
      if exists u | u in t.rows && t.rows[u].uuid in targets :: UpdatedRow(t.rows[u], s.sets, b).None? then
        Failure(ThrowLibrary(DataIntegrityViolation))
      else
        var t' := Table(
          map u | u in t.rows ::
            if t.rows[u].uuid in targets then UpdatedRow(t.rows[u], s.sets, b).value else t.rows[u],
          t.nextId);
        if !Valid(t') then Failure(ThrowLibrary(DataIntegrityViolation))
        else Success((t', ReturnedRows(t', targets, {})))
  }
}
