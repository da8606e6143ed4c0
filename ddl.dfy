/**
 * The DDL generator: one `create type ... as enum(...)` statement per enum field,
 * then one `create table` statement with a column per field, in field order.
 */
module Ddl {
  import opened Wrappers
  import opened Proto
  import opened Text

  const VARCHAR_255 := "varchar"
  const TEXT := "text"
  const BIGINT := "bigint"
  const INTEGER := "integer"
  const NOT_NULL := "not null"
  const SQL_ARRAY := "[]"
  const BOOLEAN := "boolean"
  const PRIMARY_KEY := "primary key"
  const ID := "id"

  /** The field kinds the generator has a column type for. */
  predicate Supported(k: Kind)
  {
    k == STRING || k == INT64 || k == INT32 || k == BOOL || k == MESSAGE || k == ENUM
  }

  predicate AllSupported(fields: seq<Field>)
  {
    forall i :: 0 <= i < |fields| ==> Supported(fields[i].kind)
  }

  /** `getEnumTypeName`: the simple name of the field's enum type. */
  function EnumTypeName(f: Field): string
  {
    f.enumType
  }

  /** The column type of a supported field, before any array suffix. */
  function SqlType(f: Field): string
    requires Supported(f.kind)
  {
    if f.kind == STRING then VARCHAR_255
    else if f.kind == INT64 then BIGINT
    else if f.kind == INT32 then INTEGER
    else if f.kind == BOOL then BOOLEAN
    else if f.kind == MESSAGE then TEXT
    else EnumTypeName(f)
  }

  /** The column types, kind by kind. */
  lemma SqlTypeTable(f: Field)
    requires Supported(f.kind)
    ensures f.kind == STRING ==> SqlType(f) == "varchar"
    ensures f.kind == INT64 ==> SqlType(f) == "bigint"
    ensures f.kind == INT32 ==> SqlType(f) == "integer"
    ensures f.kind == BOOL ==> SqlType(f) == "boolean"
    ensures f.kind == MESSAGE ==> SqlType(f) == "text"
    ensures f.kind == ENUM ==> SqlType(f) == f.enumType
  {
  }

  /** The column constraint: required "id" is the primary key, other required fields are not null. */
  function Constraint(f: Field): string
  {
    if !f.required then "" else if f.name == ID then PRIMARY_KEY else NOT_NULL
  }

  /** One column of the table statement, with the separator that precedes it left out. */
  function ColumnDef(f: Field): string
    requires Supported(f.kind)
  {
    "\n  \"" + f.name + "\" " + SqlType(f) + (if f.repeated then SQL_ARRAY else "") + " " + Constraint(f)
  }

  function ColumnDefs(fields: seq<Field>): (r: seq<string>)
    requires AllSupported(fields)
    ensures |r| == |fields|
  {
    seq(|fields|, i requires 0 <= i < |fields| => ColumnDef(fields[i]))
  }

  /** The table statement, named by the message type's simple name. */
  function TableStatement(typeName: string, fields: seq<Field>): string
    requires AllSupported(fields)
  {
    "create table " + typeName + " (" + Join(",", ColumnDefs(fields)) + "\n);"
  }

  function Quote(v: string): string
  {
    "'" + v + "'"
  }

  function QuotedValues(values: seq<string>): (r: seq<string>)
    ensures |r| == |values|
  {
    seq(|values|, i requires 0 <= i < |values| => Quote(values[i]))
  }

  /** `createEnum`: the enum type's statement, values single-quoted in declared order. */
  function EnumStatement(f: Field): string
  {
    "create type " + EnumTypeName(f) + " as enum(" + Join(", ", QuotedValues(f.enumValues)) + ");"
  }

  /** The number of ENUM fields. */
  function EnumCount(fields: seq<Field>): nat
  {
    if fields == [] then 0
    else EnumCount(fields[..|fields| - 1]) + (if fields[|fields| - 1].kind == ENUM then 1 else 0)
  }

  /** The enum statements of the enum fields, in field order, one per field. */
  function EnumStatements(fields: seq<Field>): (r: seq<string>)
    ensures |r| == EnumCount(fields)
  {
    if fields == [] then []
    else
      var last := fields[|fields| - 1];
      EnumStatements(fields[..|fields| - 1]) + (if last.kind == ENUM then [EnumStatement(last)] else [])
  }

  /** The index of the first unsupported field at or after `from`, if any. */
  function FirstUnsupported(fields: seq<Field>, from: nat): (r: Option<nat>)
    ensures r.Some? ==> from <= r.value < |fields| && !Supported(fields[r.value].kind)
    ensures r.Some? ==> forall j :: from <= j < r.value ==> Supported(fields[j].kind)
    ensures r.None? ==> forall j :: from <= j < |fields| ==> Supported(fields[j].kind)
    decreases |fields| - from
  {
    if from >= |fields| then None
    else if !Supported(fields[from].kind) then Some(from)
    else FirstUnsupported(fields, from + 1)
  }

  /** What `generateSql` returns for a message type, or the exception it throws. */
  function Ddl(desc: Descriptor): Result<seq<string>, Error>
  {
    match FirstUnsupported(desc.fields, 0)
    case Some(i) => Err(UnsupportedKind(KindName(desc.fields[i].kind)))
    case None =>
      Ok(EnumStatements(desc.fields) + (if desc.fields == [] then [] else [TableStatement(desc.name, desc.fields)]))
  }

  lemma QuotedValuesSnoc(values: seq<string>, i: nat)
    requires i < |values|
    ensures QuotedValues(values[..i + 1]) == QuotedValues(values[..i]) + [Quote(values[i])]
  {
    var longer := QuotedValues(values[..i + 1]);
    var shorter := QuotedValues(values[..i]) + [Quote(values[i])];
    forall k | 0 <= k < |longer| ensures longer[k] == shorter[k] {
      assert values[..i + 1][k] == values[k];
    }
  }

  /** One more value: the list so far, a separator unless it was empty, then the value quoted. */
  lemma JoinQuotedStep(values: seq<string>, i: nat)
    requires i < |values|
    ensures Join(", ", QuotedValues(values[..i + 1])) ==
      Join(", ", QuotedValues(values[..i])) + ((if i == 0 then "" else ", ") + Quote(values[i]))
  {
    var before := QuotedValues(values[..i]);
    QuotedValuesSnoc(values, i);
    JoinSnoc(", ", before, Quote(values[i]));
    if i == 0 {
      assert Join(", ", before) == "";
    } else {
      AppendAssoc3(Join(", ", before), ", ", Quote(values[i]));
    }
  }

  /** `createEnum`, appending the quoted values with a separator, as the source does. */
  method CreateEnum(f: Field) returns (s: string)
    ensures s == EnumStatement(f)
  {
    var enumTypeName := EnumTypeName(f);
    var header := "create type " + enumTypeName + " as enum(";
    s := header;
    var separator := "";
    var i := 0;
    while i < |f.enumValues|
      invariant 0 <= i <= |f.enumValues|
      invariant separator == if i == 0 then "" else ", "
      invariant s == header + Join(", ", QuotedValues(f.enumValues[..i]))
    {
      var quoted := Quote(f.enumValues[i]);
      JoinQuotedStep(f.enumValues, i);
      AppendAssoc3(header, Join(", ", QuotedValues(f.enumValues[..i])), separator + quoted);
      s := s + (separator + quoted);
      separator := ", ";
      i := i + 1;
    }
    assert f.enumValues[..i] == f.enumValues;
    s := s + ");";
  }

  /** The table statement as the loop leaves it before closing it: the header, then the columns separated by ",". */
  function OpenTable(typeName: string, fields: seq<Field>): string
    requires AllSupported(fields)
  {
    if fields == [] then ""
    else if |fields| == 1 then "create table " + typeName + " (" + ColumnDef(fields[0])
    else OpenTable(typeName, fields[..|fields| - 1]) + "," + ColumnDef(fields[|fields| - 1])
  }

  lemma ColumnDefsInitLast(fields: seq<Field>)
    requires AllSupported(fields) && fields != []
    ensures AllSupported(fields[..|fields| - 1])
    ensures ColumnDefs(fields) == ColumnDefs(fields[..|fields| - 1]) + [ColumnDef(fields[|fields| - 1])]
  {
    var init := fields[..|fields| - 1];
    var longer := ColumnDefs(fields);
    var shorter := ColumnDefs(init) + [ColumnDef(fields[|fields| - 1])];
    forall k | 0 <= k < |longer| ensures longer[k] == shorter[k] {
      if k < |init| {
        assert init[k] == fields[k];
      }
    }
  }

  lemma {:induction false} OpenTableJoin(typeName: string, fields: seq<Field>)
    requires AllSupported(fields) && fields != []
    ensures OpenTable(typeName, fields) == "create table " + typeName + " (" + Join(",", ColumnDefs(fields))
    decreases |fields|
  {
    var header := "create table " + typeName + " (";
    if |fields| > 1 {
      var init := fields[..|fields| - 1];
      var last := ColumnDef(fields[|fields| - 1]);
      var defs := ColumnDefs(init);
      OpenTableJoin(typeName, init);
      ColumnDefsInitLast(fields);
      JoinSnoc(",", defs, last);
      AppendAssoc4(header, Join(",", defs), ",", last);
    } else {
      assert ColumnDefs(fields) == [ColumnDef(fields[0])];
    }
  }

  lemma EnumStatementsSnoc(fields: seq<Field>, i: nat)
    requires i < |fields|
    ensures EnumStatements(fields[..i + 1]) ==
      EnumStatements(fields[..i]) + (if fields[i].kind == ENUM then [EnumStatement(fields[i])] else [])
  {
    assert fields[..i + 1][..i] == fields[..i];
  }

  lemma OpenTableSnoc(typeName: string, fields: seq<Field>, i: nat)
    requires i < |fields|
    requires forall j :: 0 <= j < i + 1 ==> Supported(fields[j].kind)
    ensures AllSupported(fields[..i + 1]) && AllSupported(fields[..i])
    ensures OpenTable(typeName, fields[..i + 1]) ==
      (if i == 0 then "create table " + typeName + " (" else OpenTable(typeName, fields[..i]))
      + (if i == 0 then "" else ",") + ColumnDef(fields[i])
  {
    assert fields[..i + 1][..i] == fields[..i];
    if i == 0 {
      assert "create table " + typeName + " (" + "" == "create table " + typeName + " (";
    }
  }

  /** The type-name dispatch at the top of `innerGenerateSql`'s loop. */
  method ResolveSqlType(field: Field) returns (r: Result<string, Error>)
    ensures r.Ok? <==> Supported(field.kind)
    ensures Supported(field.kind) ==> r == Ok(SqlType(field))
    ensures !Supported(field.kind) ==> r == Err(UnsupportedKind(KindName(field.kind)))
  {
    if field.kind == STRING {
      r := Ok(VARCHAR_255);
    } else if field.kind == INT64 {
      r := Ok(BIGINT);
    } else if field.kind == INT32 {
      r := Ok(INTEGER);
    } else if field.kind == BOOL {
      r := Ok(BOOLEAN);
    } else if field.kind == MESSAGE {
      r := Ok(TEXT);
    } else if field.kind == ENUM {
      r := Ok(EnumTypeName(field));
    } else {
      r := Err(UnsupportedKind(KindName(field.kind)));
    }
  }

  /** The appends of one loop iteration of `innerGenerateSql` after the column type is known. */
  method AppendColumn(sb: string, separator: string, field: Field, sqlType: string) returns (r: string)
    requires Supported(field.kind) && sqlType == SqlType(field)
    ensures r == sb + separator + ColumnDef(field)
  {
    r := sb + separator;
    var column := "\n  \"" + field.name + "\" " + sqlType;
    if field.repeated {
      column := column + SQL_ARRAY;
    }
    column := column + " ";
    if field.required {
      if field.name == ID {
        column := column + PRIMARY_KEY;
      } else {
        column := column + NOT_NULL;
      }
    }
    r := r + column;
  }

  /** The first field without a column type, after a run of supported ones, is the one reported. */
  lemma FirstUnsupportedAt(fields: seq<Field>, i: nat)
    requires i < |fields| && !Supported(fields[i].kind)
    requires forall j :: 0 <= j < i ==> Supported(fields[j].kind)
    ensures FirstUnsupported(fields, 0) == Some(i)
  {
  }

  /**
   * `innerGenerateSql`: the enum statements and the still-open table statement, or the
   * exception for the first field whose kind has no column type.
   */
  method InnerGenerateSql(fields: seq<Field>, typeName: string) returns (r: Result<(seq<string>, string), Error>)
    ensures FirstUnsupported(fields, 0).Some? ==>
      r == Err(UnsupportedKind(KindName(fields[FirstUnsupported(fields, 0).value].kind)))
    ensures FirstUnsupported(fields, 0).None? ==>
      r == Ok((EnumStatements(fields),
               if fields == [] then "" else "create table " + typeName + " (" + Join(",", ColumnDefs(fields))))
  {
    var sb := "";
    var enums: seq<string> := [];
    var separator := "";
    for i := 0 to |fields|
      invariant forall j :: 0 <= j < i ==> Supported(fields[j].kind)
      invariant enums == EnumStatements(fields[..i])
      invariant sb == OpenTable(typeName, fields[..i])
      invariant separator == if i == 0 then "" else ","
    {
      var field := fields[i];
      assert fields[..i + 1][..i] == fields[..i];
      var resolved := ResolveSqlType(field);
      if resolved.Err? {
        FirstUnsupportedAt(fields, i);
        return Err(resolved.error);
      }
      var sqlType := resolved.value;
      assert Supported(field.kind);
      EnumStatementsSnoc(fields, i);
      if field.kind == ENUM {
        // An enum column also needs its type created first.
        var e := CreateEnum(field);
        enums := enums + [e];
      }
      assert forall j :: 0 <= j < i + 1 ==> Supported(fields[j].kind) by {
        forall j | 0 <= j < i + 1 ensures Supported(fields[j].kind) {
          if j == i {
            assert fields[j] == field;
          }
        }
      }
      OpenTableSnoc(typeName, fields, i);
      if i == 0 {
        sb := "create table " + typeName + " (";
      }
      sb := AppendColumn(sb, separator, field, sqlType);
      separator := ",";
    }
    assert fields[..|fields|] == fields;
    if fields != [] {
      OpenTableJoin(typeName, fields);
    }
    return Ok((enums, sb));
  }

  /** `generateSql`: the enum statements, then the closed table statement if there was any field. */
  method GenerateSql(desc: Descriptor) returns (r: Result<seq<string>, Error>)
    ensures r == Ddl(desc)
  {
    var output: seq<string> := [];
    var inner := InnerGenerateSql(desc.fields, desc.name);
    if inner.Err? {
      return Err(inner.error);
    }
    var enums := inner.value.0;
    var sb := inner.value.1;
    assert FirstUnsupported(desc.fields, 0).None?;
    if |enums| != 0 {
      output := output + enums;
    }
    assert output == EnumStatements(desc.fields);
    if |sb| != 0 {
      sb := sb + "\n);";
      assert sb == TableStatement(desc.name, desc.fields);
      output := output + [sb];
    }
    if desc.fields == [] {
      assert sb == "";
      assert output == EnumStatements(desc.fields) + [];
    } else {
      assert |sb| > 0;
      assert output == EnumStatements(desc.fields) + [TableStatement(desc.name, desc.fields)];
    }
    return Ok(output);
  }

  /** `generateSql` fails exactly when some field has no column type, naming the first such field's kind. */
  lemma DdlFailsIffUnsupported(desc: Descriptor)
    ensures Ddl(desc).Err? <==> !AllSupported(desc.fields)
    ensures Ddl(desc).Err? ==>
      exists i :: 0 <= i < |desc.fields| && !Supported(desc.fields[i].kind) &&
        Ddl(desc).error == UnsupportedKind(KindName(desc.fields[i].kind)) &&
        (forall j :: 0 <= j < i ==> Supported(desc.fields[j].kind))
  {
    var first := FirstUnsupported(desc.fields, 0);
    if first.Some? {
      var i := first.value;
      assert 0 <= i < |desc.fields| && !Supported(desc.fields[i].kind);
    }
  }

  /** A message type without fields yields no statement at all. */
  lemma EmptySchemaNoStatements(desc: Descriptor)
    requires desc.fields == []
    ensures Ddl(desc) == Ok([])
  {
    assert FirstUnsupported(desc.fields, 0).None?;
    assert EnumStatements(desc.fields) == [];
    assert EnumStatements(desc.fields) + [] == [];
  }

  /** Counting ENUM fields up to a later index counts strictly more when an earlier ENUM field lies in between. */
  lemma {:induction false} EnumCountGrows(fields: seq<Field>, i: nat, j: nat)
    requires i < j <= |fields| && fields[i].kind == ENUM
    ensures EnumCount(fields[..i]) < EnumCount(fields[..j])
    decreases j
  {
    var init := fields[..j][..j - 1];
    assert init == fields[..j - 1];
    if j - 1 > i {
      EnumCountGrows(fields, i, j - 1);
    } else {
      assert fields[..j][j - 1] == fields[i];
    }
  }

  /** The enum statement of the ENUM field at index `i` sits after those of the ENUM fields before it. */
  lemma {:induction false} EnumStatementPosition(fields: seq<Field>, i: nat)
    requires i < |fields| && fields[i].kind == ENUM
    ensures EnumCount(fields[..i]) < |EnumStatements(fields)|
    ensures EnumStatements(fields)[EnumCount(fields[..i])] == EnumStatement(fields[i])
    decreases |fields|
  {
    var init := fields[..|fields| - 1];
    if i < |fields| - 1 {
      assert init[..i] == fields[..i];
      EnumStatementPosition(init, i);
    } else {
      assert init == fields[..i];
    }
  }

  /**
   * The output of `generateSql` for a type with fields: the enum statements, in field
   * order, then exactly one table statement, last.
   */
  lemma DdlLayout(desc: Descriptor)
    requires Ddl(desc).Ok? && desc.fields != []
    ensures |Ddl(desc).value| == EnumCount(desc.fields) + 1
    ensures Ddl(desc).value[..EnumCount(desc.fields)] == EnumStatements(desc.fields)
    ensures Ddl(desc).value[|Ddl(desc).value| - 1] == TableStatement(desc.name, desc.fields)
  {
  }

  /** The enum statement of the ENUM field at index `i` is in the output, after those of the ENUM fields before it. */
  lemma DdlEnumAt(desc: Descriptor, i: nat)
    requires Ddl(desc).Ok?
    requires i < |desc.fields| && desc.fields[i].kind == ENUM
    ensures EnumCount(desc.fields[..i]) < EnumCount(desc.fields)
    ensures Ddl(desc).value[EnumCount(desc.fields[..i])] == EnumStatement(desc.fields[i])
  {
    EnumStatementPosition(desc.fields, i);
  }

  /** Only ENUM fields are counted: a type without one has none. */
  lemma {:induction false} EnumCountNone(fields: seq<Field>)
    requires forall i :: 0 <= i < |fields| ==> fields[i].kind != ENUM
    ensures EnumCount(fields) == 0
    decreases |fields|
  {
    if fields != [] {
      var init := fields[..|fields| - 1];
      assert forall i :: 0 <= i < |init| ==> init[i].kind != ENUM by {
        forall i | 0 <= i < |init| ensures init[i].kind != ENUM {
          assert init[i] == fields[i];
        }
      }
      EnumCountNone(init);
    }
  }

  /** A type with fields but no ENUM field yields its table statement alone. */
  lemma DdlWithoutEnums(desc: Descriptor)
    requires Ddl(desc).Ok? && desc.fields != []
    requires forall i :: 0 <= i < |desc.fields| ==> desc.fields[i].kind != ENUM
    ensures Ddl(desc).value == [TableStatement(desc.name, desc.fields)]
  {
    EnumCountNone(desc.fields);
    DdlLayout(desc);
  }

  /** Two ENUM fields of the same enum type yield the same statement twice, at two positions. */
  lemma SharedEnumTypeEmittedTwice(desc: Descriptor, i: nat, j: nat)
    requires Ddl(desc).Ok?
    requires i < j < |desc.fields|
    requires desc.fields[i].kind == ENUM && desc.fields[j].kind == ENUM
    requires desc.fields[i].enumType == desc.fields[j].enumType
    requires desc.fields[i].enumValues == desc.fields[j].enumValues
    ensures EnumCount(desc.fields[..i]) < EnumCount(desc.fields[..j]) < |Ddl(desc).value|
    ensures Ddl(desc).value[EnumCount(desc.fields[..i])] == Ddl(desc).value[EnumCount(desc.fields[..j])]
  {
    EnumCountGrows(desc.fields, i, j);
    DdlEnumAt(desc, i);
    DdlEnumAt(desc, j);
  }

  /** A column definition is one line: it starts with the only line break it holds. */
  lemma ColumnDefOneLine(f: Field)
    requires Supported(f.kind)
    requires '\n' !in f.name && '\n' !in f.enumType
    ensures Count(ColumnDef(f), '\n') == 1
  {
    var arr := if f.repeated then SQL_ARRAY else "";
    assert '\n' !in SqlType(f) by {
      SqlTypeTable(f);
    }
    var a1 := "\n  \"" + f.name;
    var a2 := a1 + "\" ";
    var a3 := a2 + SqlType(f);
    var a4 := a3 + arr;
    var a5 := a4 + " ";
    CountAppendAbsent(a5, Constraint(f), '\n');
    CountAppendAbsent(a4, " ", '\n');
    CountAppendAbsent(a3, arr, '\n');
    CountAppendAbsent(a2, SqlType(f), '\n');
    CountAppendAbsent(a1, "\" ", '\n');
    CountAppendAbsent("\n  \"", f.name, '\n');
    CountConcat("\n", "  \"", '\n');
    assert "\n"[1..] == "";
    CountAbsent("  \"", '\n');
  }

  /** The table statement has one line per column plus the closing line. */
  lemma TableStatementLines(typeName: string, fields: seq<Field>)
    requires AllSupported(fields)
    requires '\n' !in typeName
    requires forall i :: 0 <= i < |fields| ==> '\n' !in fields[i].name && '\n' !in fields[i].enumType
    ensures Count(TableStatement(typeName, fields), '\n') == |fields| + 1
  {
    var defs := ColumnDefs(fields);
    forall i | 0 <= i < |defs| ensures Count(defs[i], '\n') == 1 {
      ColumnDefOneLine(fields[i]);
    }
    CountJoin(",", defs, '\n', 1);
    var header := "create table " + typeName + " (";
    CountAbsent(header, '\n');
    CountConcat(header, Join(",", defs), '\n');
    CountConcat(header + Join(",", defs), "\n);", '\n');
    assert "\n);"[1..] == ");";
    CountAbsent(");", '\n');
  }

  /** Reads back a list written as `'v1', 'v2', ...`; the empty text is the empty list. */
  function ParseQuotedList(s: string): Option<seq<string>>
  {
    if s == "" then Some([]) else ParseQuotedItems(s)
  }

  function ParseQuotedItems(s: string): Option<seq<string>>
    decreases |s|
  {
    if |s| == 0 || s[0] != '\'' then None
    else match IndexOf(s[1..], '\'')
      case None => None
      case Some(k) =>
        var rest := s[k + 2..];
        if rest == "" then Some([s[1..k + 1]])
        else if |rest| >= 2 && rest[..2] == ", " then
          match ParseQuotedItems(rest[2..])
          case None => None
          case Some(vs) => Some([s[1..k + 1]] + vs)
        else None
  }

  /** Where the pieces of a quoted item followed by more text sit. */
  lemma QuotedSplit(v: string, tail: string)
    requires '\'' !in v
    ensures var s := Quote(v) + tail;
      |s| == |v| + 2 + |tail| && s[0] == '\'' && IndexOf(s[1..], '\'') == Some(|v|) &&
      s[1..|v| + 1] == v && s[|v| + 2..] == tail
  {
    var s := Quote(v) + tail;
    var body := v + ['\''] + tail;
    AppendAssoc3("'" + v, "'", tail);
    AppendAssoc3("'", v, "'" + tail);
    assert s == ['\''] + body;
    assert s[1..] == body;
    IndexOfAfter(v, '\'', tail);
    assert s[1..|v| + 1] == v;
    assert s[|v| + 2..] == tail;
  }

  /** A single quoted item reads back as that one value. */
  lemma ParseQuotedOne(v: string)
    requires '\'' !in v
    ensures ParseQuotedItems(Quote(v)) == Some([v])
  {
    QuotedSplit(v, "");
    assert Quote(v) + "" == Quote(v);
  }

  /** A quoted item, a separator, then a list that reads back: the item is read, then the list. */
  lemma ParseQuotedCons(v: string, rest: string, vs: seq<string>)
    requires '\'' !in v && ParseQuotedItems(rest) == Some(vs)
    ensures ParseQuotedItems(Quote(v) + (", " + rest)) == Some([v] + vs)
  {
    var tail := ", " + rest;
    var s := Quote(v) + tail;
    QuotedSplit(v, tail);
    assert s != [] && s[0] == '\'';
    assert IndexOf(s[1..], '\'') == Some(|v|);
    assert s[|v| + 2..] == tail && s[1..|v| + 1] == v;
    assert tail != "" && |tail| >= 2 && tail[..2] == ", " && tail[2..] == rest;
    assert ParseQuotedItems(s) == Some([s[1..|v| + 1]] + vs);
  }

  /** The joined list splits into its first quoted item and the rest behind a separator. */
  lemma JoinQuotedHead(values: seq<string>)
    requires values != []
    ensures Join(", ", QuotedValues(values)) ==
      Quote(values[0]) + (if |values| == 1 then "" else ", " + Join(", ", QuotedValues(values[1..])))
  {
    var q := QuotedValues(values);
    assert q[0] == Quote(values[0]);
    if |values| > 1 {
      assert q[1..] == QuotedValues(values[1..]);
    }
  }

  /** A joined list of at least one quoted item is not empty. */
  lemma JoinQuotedNonEmpty(values: seq<string>)
    requires values != []
    ensures Join(", ", QuotedValues(values)) != ""
  {
    JoinQuotedHead(values);
    assert |Quote(values[0])| >= 2;
  }

  /** The value list of an enum statement reads back as the enum's values, in order, when no value holds a quote. */
  lemma {:induction false} EnumValuesRoundTrip(values: seq<string>)
    requires forall i :: 0 <= i < |values| ==> '\'' !in values[i]
    ensures ParseQuotedList(Join(", ", QuotedValues(values))) == Some(values)
    decreases |values|
  {
    if values != [] {
      var v := values[0];
      var s := Join(", ", QuotedValues(values));
      JoinQuotedHead(values);
      JoinQuotedNonEmpty(values);
      assert '\'' !in v;
      if |values| == 1 {
        ParseQuotedOne(v);
        assert [v] == values;
      } else {
        var rest := Join(", ", QuotedValues(values[1..]));
        assert forall i :: 0 <= i < |values[1..]| ==> '\'' !in values[1..][i] by {
          forall i | 0 <= i < |values[1..]| ensures '\'' !in values[1..][i] {
            assert values[1..][i] == values[i + 1];
          }
        }
        EnumValuesRoundTrip(values[1..]);
        JoinQuotedNonEmpty(values[1..]);
        ParseQuotedCons(v, rest, values[1..]);
        assert [v] + values[1..] == values;
      }
    }
  }
}
