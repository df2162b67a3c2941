/** Names of bind parameters: a property name followed by the decimal index
    of the entity in the batch (`name0`, `uuid12`). */
module BindNames {
  import opened Jvm

  predicate IsLetter(c: char) {
    'a' <= c <= 'z' || 'A' <= c <= 'Z'
  }

  predicate Letters(s: string) {
    forall i | 0 <= i < |s| :: IsLetter(s[i])
  }

  /** The parameter name `"${prop}${index}"` the batch statements bind. */
  function BindName(prop: string, index: nat): string {
    prop + Dec(index)
  }

  /** Where the trailing run of digits of `s` begins. */
  function DigitSuffixStart(s: string): (k: nat)
    ensures k <= |s|
    ensures AllDigits(s[k..])
    ensures k == 0 || !IsDigit(s[k - 1])
    decreases |s|
  {
    if |s| == 0 || !IsDigit(s[|s| - 1]) then |s|
    else
      var k := DigitSuffixStart(s[..|s| - 1]);
      assert s[k..] == s[..|s| - 1][k..] + [s[|s| - 1]];
      k
  }

  /** Reads a parameter name back as (property name, entity index). */
  function SplitBindName(s: string): (string, nat) {
    var k := DigitSuffixStart(s);
    (s[..k], ParseDec(s[k..]))
  }

  lemma {:induction false} DigitSuffixStartAfterLetters(p: string, d: string)
    requires Letters(p)
    requires |d| >= 1 && AllDigits(d)
    ensures DigitSuffixStart(p + d) == |p|
    decreases |d|
  {
    var s := p + d;
    if |d| == 1 {
      assert s[..|s| - 1] == p;
      assert IsDigit(s[|s| - 1]);
      if |p| > 0 {
        assert IsLetter(p[|p| - 1]);
      }
    } else {
      assert s[..|s| - 1] == p + d[..|d| - 1];
      DigitSuffixStartAfterLetters(p, d[..|d| - 1]);
    }
  }

  /** A parameter name built from a letters-only property name splits back
      into that property name and index. */
  lemma SplitBindNameInverts(p: string, i: nat)
    requires Letters(p)
    ensures SplitBindName(BindName(p, i)) == (p, i)
  {
    var s := BindName(p, i);
    DigitSuffixStartAfterLetters(p, Dec(i));
    assert s[..|p|] == p;
    assert s[|p|..] == Dec(i);
    ParseDecOfDec(i);
  }

  /** Distinct (property, index) pairs never share a parameter name, so no
      bind overwrites another. */
  lemma BindNameInjective(p1: string, i1: nat, p2: string, i2: nat)
    requires Letters(p1) && Letters(p2)
    ensures BindName(p1, i1) == BindName(p2, i2) <==> p1 == p2 && i1 == i2
  {
    if BindName(p1, i1) == BindName(p2, i2) {
      SplitBindNameInverts(p1, i1);
      SplitBindNameInverts(p2, i2);
    }
  }
}

/** The fixed column descriptor that stands in for reflection over the
    `@Column` properties: each column's property name, column name and value. */
module Columns {
  import opened Wrappers
  import opened Jvm
  import opened Entity
  import opened BindNames

  datatype Column =
    | UuidCol | Id | CreatedDate | ModifiedDate | CreatedBy | ModifiedBy | Version | Name | Description

  /** The mapped properties in one fixed order. */
  const AllColumns: seq<Column> :=
    [UuidCol, Id, CreatedDate, ModifiedDate, CreatedBy, ModifiedBy, Version, Name, Description]

  predicate Distinct<T(==)>(s: seq<T>) {
    forall i, j | 0 <= i < j < |s| :: s[i] != s[j]
  }

  lemma AllColumnsListsEachOnce()
    ensures forall c: Column :: c in AllColumns
    ensures Distinct(AllColumns)
  {
    forall c: Column
      ensures c in AllColumns
    {
      match c
      case UuidCol => assert AllColumns[0] == c;
      case Id => assert AllColumns[1] == c;
      case CreatedDate => assert AllColumns[2] == c;
      case ModifiedDate => assert AllColumns[3] == c;
      case CreatedBy => assert AllColumns[4] == c;
      case ModifiedBy => assert AllColumns[5] == c;
      case Version => assert AllColumns[6] == c;
      case Name => assert AllColumns[7] == c;
      case Description => assert AllColumns[8] == c;
    }
  }

  /** The Kotlin property name: the prefix of each bind parameter. */
  function PropName(c: Column): string {
    match c
    case UuidCol => "uuid"
    case Id => "id"
    case CreatedDate => "createdDate"
    case ModifiedDate => "modifiedDate"
    case CreatedBy => "createdBy"
    case ModifiedBy => "modifiedBy"
    case Version => "version"
    case Name => "name"
    case Description => "description"
  }

  /** The table column the property is mapped to. */
  function ColumnName(c: Column): string {
    match c
    case UuidCol => "uuid"
    case Id => "id"
    case CreatedDate => "created_date"
    case ModifiedDate => "modified_date"
    case CreatedBy => "created_by"
    case ModifiedBy => "modified_by"
    case Version => "version"
    case Name => "name"
    case Description => "description"
  }

  /** Property names are letters only and tell the columns apart, so
      `BindName(PropName(c), i)` identifies both the column and the entity. */
  lemma PropNamesAreBindable(c: Column, d: Column)
    ensures Letters(PropName(c))
    ensures PropName(c) == PropName(d) <==> c == d
    ensures PropName(c) == "uuid" <==> c == UuidCol
    ensures ColumnName(c) == ColumnName(d) <==> c == d
  {
  }

  /** The column a property name belongs to: the inverse of `PropName`. */
  function ColumnOfProp(p: string): (r: Option<Column>)
    ensures r.Some? ==> PropName(r.value) == p
  {
    if p == "uuid" then Some(UuidCol)
    else if p == "id" then Some(Id)
    else if p == "createdDate" then Some(CreatedDate)
    else if p == "modifiedDate" then Some(ModifiedDate)
    else if p == "createdBy" then Some(CreatedBy)
    else if p == "modifiedBy" then Some(ModifiedBy)
    else if p == "version" then Some(Version)
    else if p == "name" then Some(Name)
    else if p == "description" then Some(Description)
    else None
  }

  lemma ColumnOfPropName(c: Column)
    ensures ColumnOfProp(PropName(c)) == Some(c)
  {
  }

  /** A column value as it travels through a bind or a result row. */
  datatype Value = Null | LongValue(l: Long) | Text(s: string) | UuidValue(u: Uuid)

  function OfLong(o: Option<Long>): Value {
    if o.Some? then LongValue(o.value) else Null
  }

  function OfText(o: Option<string>): Value {
    if o.Some? then Text(o.value) else Null
  }

  function AsLong(v: Value): Option<Long> {
    if v.LongValue? then Some(v.l) else None
  }

  function AsText(v: Value): Option<string> {
    if v.Text? then Some(v.s) else None
  }

  /** Reading property `c` of an entity (`prop.get(entity)`). */
  function Get(e: Permission, c: Column): Value {
    match c
    case UuidCol => UuidValue(e.uuid)
    case Id => OfLong(e.id)
    case CreatedDate => OfLong(e.createdDate)
    case ModifiedDate => OfLong(e.modifiedDate)
    case CreatedBy => OfText(e.createdBy)
    case ModifiedBy => OfText(e.modifiedBy)
    case Version => OfLong(e.version)
    case Name => OfText(e.name)
    case Description => OfText(e.description)
  }

  /** Whether a value fits the column's type; the uuid column is not nullable. */
  predicate Typed(c: Column, v: Value) {
    match c
    case UuidCol => v.UuidValue?
    case CreatedBy | ModifiedBy | Name | Description => v.Null? || v.Text?
    case _ => v.Null? || v.LongValue?
  }

  /** A table row: a value for every column. */
  type Row = map<Column, Value>

  function ToRow(e: Permission): (r: Row)
    ensures forall c: Column :: c in r && r[c] == Get(e, c)
  {
    map c: Column | true :: Get(e, c)
  }

  /** A row that holds each of an entity's values is that entity's row. */
  lemma RowOfValues(r: Row, e: Permission)
    requires forall c: Column :: c in r && r[c] == Get(e, c)
    ensures r == ToRow(e)
  {
  }

  /** Reads a row back as an entity; fails on a missing column or a value of the wrong type. */
  function FromRow(r: Row): (o: Option<Permission>)
    ensures o.Some? <==> forall c: Column :: c in r && Typed(c, r[c])
  {
    if forall c: Column :: c in r && Typed(c, r[c]) then
      Some(Permission(
        id := AsLong(r[Id]),
        uuid := r[UuidCol].u,
        createdDate := AsLong(r[CreatedDate]),
        modifiedDate := AsLong(r[ModifiedDate]),
        createdBy := AsText(r[CreatedBy]),
        modifiedBy := AsText(r[ModifiedBy]),
        version := AsLong(r[Version]),
        name := AsText(r[Name]),
        description := AsText(r[Description])))
    else None
  }

  /** Every entity is a well-typed row, and reading its row back gives it unchanged. */
  lemma GetTyped(e: Permission, c: Column)
    ensures Typed(c, Get(e, c))
  {
  }

  lemma FromRowToRow(e: Permission)
    ensures forall c: Column :: Typed(c, Get(e, c))
    ensures FromRow(ToRow(e)) == Some(e)
  {
    forall c: Column
      ensures Typed(c, Get(e, c))
    {
      GetTyped(e, c);
    }
    var r := ToRow(e);
    var e' := FromRow(r).value;
    assert e'.id == e.id && e'.createdDate == e.createdDate && e'.modifiedDate == e.modifiedDate;
    assert e'.version == e.version && e'.createdBy == e.createdBy && e'.modifiedBy == e.modifiedBy;
    assert e'.name == e.name && e'.description == e.description;
  }

  /** A row that reads as an entity is exactly that entity's row. */
  lemma ToRowFromRow(r: Row)
    requires FromRow(r).Some?
    ensures ToRow(FromRow(r).value) == r
  {
    var e := FromRow(r).value;
    forall c: Column
      ensures c in r && r[c] == Get(e, c)
    {
    }
    RowOfValues(r, e);
  }
}
