/** The shape of the two batch statements: which columns, which placeholders
    and which `CASE` branches. */
module Sql {
  import opened Columns

  /** `INSERT INTO table (columns) VALUES (tuple), ... RETURNING id, uuid`; each
      tuple lists one placeholder name per column. */
  datatype InsertStatement = InsertStatement(table: string, columns: seq<Column>, tuples: seq<seq<string>>)

  /** One `WHEN :uuidParam THEN :valueParam` branch of a `CASE uuid`. */
  datatype When = When(uuidParam: string, valueParam: string)

  /** `column = CASE uuid WHEN ... ELSE column END`. */
  datatype SetClause = SetClause(column: Column, whens: seq<When>)

  /** `UPDATE table SET sets WHERE uuid IN (targets) RETURNING id, uuid`. */
  datatype UpdateStatement = UpdateStatement(table: string, sets: seq<SetClause>, targets: seq<string>)

  /** The binds issued on a statement, in call order. */
  type Binds = seq<(string, Value)>

  function SetColumns(sets: seq<SetClause>): (cols: seq<Column>)
    ensures |cols| == |sets|
    ensures forall i | 0 <= i < |sets| :: cols[i] == sets[i].column
  {
    seq(|sets|, i requires 0 <= i < |sets| => sets[i].column)
  }
}
