/**
 * The statement text of the PostgreSQL engine: SELECT, INSERT, UPDATE, DELETE, with
 * double-quoted column names and a `?` placeholder per bound value, an ENUM value's
 * placeholder wrapped in a cast to the enum type.
 */
module PgSql {
  import opened Wrappers
  import opened Proto
  import opened Text

  const VALUES := " VALUES "
  const CAST := "CAST("
  const AS := " AS "
  const ENUM_NAME := "ENUM"
  const INSERT_INTO := "INSERT INTO "
  const SELECT_FROM := "SELECT * FROM "
  const WHERE := " WHERE "
  const VARIABLE := "?"
  const UPDATE := "UPDATE "
  const SET := " SET "
  const EQUALS := " = "
  const DELETE_FROM := "DELETE FROM "

  /** `safeAddFieldName`'s text: the name in double quotes. */
  function Quoted(name: string): string
  {
    "\"" + name + "\""
  }

  /** `idWhereClause`'s text: a parameterised comparison on the identity column, or nothing without a name. */
  function WhereClause(idName: Option<string>): string
  {
    if idName.None? then "" else WHERE + Quoted(idName.value) + EQUALS + VARIABLE
  }

  /** `castEnumPart1`'s text. */
  function CastOpen(typeName: string): string
  {
    if typeName == ENUM_NAME then CAST else ""
  }

  /** `castEnumPart2`'s text: the cast's target is the enum type's simple name. */
  function CastClose(f: Field, typeName: string): string
  {
    if typeName == ENUM_NAME then AS + f.enumType + ")" else ""
  }

  /** The placeholder of a field's value. */
  function Placeholder(f: Field): string
  {
    CastOpen(KindName(f.kind)) + VARIABLE + CastClose(f, KindName(f.kind))
  }

  /** `SET` clause item of a field. */
  function Assignment(f: Field): string
  {
    Quoted(f.name) + EQUALS + Placeholder(f)
  }

  function ColumnNames(fields: seq<Field>): (r: seq<string>)
    ensures |r| == |fields|
  {
    seq(|fields|, i requires 0 <= i < |fields| => Quoted(fields[i].name))
  }

  function Placeholders(fields: seq<Field>): (r: seq<string>)
    ensures |r| == |fields|
  {
    seq(|fields|, i requires 0 <= i < |fields| => Placeholder(fields[i]))
  }

  function Assignments(fields: seq<Field>): (r: seq<string>)
    ensures |r| == |fields|
  {
    seq(|fields|, i requires 0 <= i < |fields| => Assignment(fields[i]))
  }

  /** One more field adds its quoted name at the end. */
  lemma ColumnNamesSnoc(fields: seq<Field>, i: nat)
    requires i < |fields|
    ensures ColumnNames(fields[..i + 1]) == ColumnNames(fields[..i]) + [Quoted(fields[i].name)]
  {
    var longer := ColumnNames(fields[..i + 1]);
    var shorter := ColumnNames(fields[..i]) + [Quoted(fields[i].name)];
    forall k | 0 <= k < |longer| ensures longer[k] == shorter[k] {
      assert fields[..i + 1][k] == fields[k];
    }
  }

  /** One more field adds its placeholder at the end. */
  lemma PlaceholdersSnoc(fields: seq<Field>, i: nat)
    requires i < |fields|
    ensures Placeholders(fields[..i + 1]) == Placeholders(fields[..i]) + [Placeholder(fields[i])]
  {
    var longer := Placeholders(fields[..i + 1]);
    var shorter := Placeholders(fields[..i]) + [Placeholder(fields[i])];
    forall k | 0 <= k < |longer| ensures longer[k] == shorter[k] {
      assert fields[..i + 1][k] == fields[k];
    }
  }

  /** One more field adds its assignment at the end. */
  lemma AssignmentsSnoc(fields: seq<Field>, i: nat)
    requires i < |fields|
    ensures Assignments(fields[..i + 1]) == Assignments(fields[..i]) + [Assignment(fields[i])]
  {
    var longer := Assignments(fields[..i + 1]);
    var shorter := Assignments(fields[..i]) + [Assignment(fields[i])];
    forall k | 0 <= k < |longer| ensures longer[k] == shorter[k] {
      assert fields[..i + 1][k] == fields[k];
    }
  }

  /** The SELECT of `getResultSet`. */
  function SelectSql(tableName: string, idName: Option<string>): string
  {
    SELECT_FROM + tableName + WhereClause(idName)
  }

  /** The INSERT of `innerInsert`: the column list and the value list, field by field. */
  function InsertSql(tableName: string, fields: seq<Field>): string
  {
    INSERT_INTO + tableName + " " + ("(" + Join(", ", ColumnNames(fields)) + ")")
      + VALUES + ("(" + Join(", ", Placeholders(fields)) + ")")
  }

  /** The UPDATE of `innerUpdate`: every field assigned, the row chosen by the identity column. */
  function UpdateSql(tableName: string, fields: seq<Field>, idName: string): string
  {
    UPDATE + tableName + SET + Join(", ", Assignments(fields)) + WhereClause(Some(idName))
  }

  /** The DELETE of `innerDelete`. */
  function DeleteSql(tableName: string, idName: string): string
  {
    DELETE_FROM + tableName + WhereClause(Some(idName))
  }

  /** The DELETE of `innerDeleteAll`. */
  function DeleteAllSql(tableName: string): string
  {
    DELETE_FROM + tableName
  }

  /** Only the ENUM kind's name selects the cast. */
  lemma CastOnlyForEnums(k: Kind)
    ensures KindName(k) == ENUM_NAME <==> k == ENUM
  {
  }

  // ----- the builders, appending as the source's StringBuilders do -----

  /** `idWhereClause`. */
  method IdWhereClause(idName: Option<string>, sb: string) returns (r: string)
    ensures r == sb + WhereClause(idName)
  {
    r := sb;
    if idName.Some? {
      r := r + WHERE;
      r := r + "\"";
      r := r + idName.value;
      r := r + "\" = ";
      r := r + VARIABLE;
      assert r == sb + (WHERE + ("\"" + idName.value + "\"") + EQUALS + VARIABLE);
    } else {
      assert sb + "" == sb;
    }
  }

  /** `safeAddFieldName`. */
  method SafeAddFieldName(sb: string, name: string) returns (r: string)
    ensures r == sb + Quoted(name)
  {
    r := sb + "\"";
    r := r + name;
    r := r + "\"";
  }

  /** `castEnumPart1`. */
  method CastEnumPart1(sb: string, typeName: string) returns (r: string)
    ensures r == sb + CastOpen(typeName)
  {
    r := sb;
    if ENUM_NAME == typeName {
      r := r + CAST;
    } else {
      assert sb + "" == sb;
    }
  }

  /** `castEnumPart2`. */
  method CastEnumPart2(sb: string, field: Field, typeName: string) returns (r: string)
    ensures r == sb + CastClose(field, typeName)
  {
    r := sb;
    if ENUM_NAME == typeName {
      r := r + AS;
      r := r + field.enumType;
      r := r + ")";
      assert r == sb + (AS + field.enumType + ")");
    } else {
      assert sb + "" == sb;
    }
  }

  /** The placeholder steps of one loop iteration: the optional cast around `?`. */
  method AppendPlaceholder(sb: string, field: Field) returns (r: string)
    ensures r == sb + Placeholder(field)
  {
    var typeName := KindName(field.kind);
    r := CastEnumPart1(sb, typeName);
    r := r + VARIABLE;
    r := CastEnumPart2(r, field, typeName);
    assert r == sb + (CastOpen(typeName) + VARIABLE + CastClose(field, typeName));
  }

  /** The steps of one iteration of `innerUpdate`'s loop: separator, quoted name, ` = `, placeholder. */
  method AppendAssignment(sb: string, separator: string, field: Field) returns (r: string)
    ensures r == sb + separator + Assignment(field)
  {
    r := sb + separator;
    r := SafeAddFieldName(r, field.name);
    r := r + EQUALS;
    r := AppendPlaceholder(r, field);
    AppendAssoc4(sb + separator, Quoted(field.name), EQUALS, Placeholder(field));
  }

  /** `getResultSet`'s statement text. */
  method BuildSelect(tableName: string, idName: Option<string>) returns (sql: string)
    ensures sql == SelectSql(tableName, idName)
  {
    sql := SELECT_FROM;
    sql := sql + tableName;
    sql := IdWhereClause(idName, sql);
  }

  /** `innerInsert`'s statement text: names and placeholders built side by side, then combined. */
  method BuildInsert(fields: seq<Field>, tableName: string) returns (sql: string)
    ensures sql == InsertSql(tableName, fields)
  {
    sql := INSERT_INTO;
    sql := sql + tableName;
    sql := sql + " ";
    var fieldNames := "(";
    var fieldPlaceholders := "(";
    var separator := "";
    for i := 0 to |fields|
      invariant separator == if i == 0 then "" else ", "
      invariant fieldNames == "(" + Join(", ", ColumnNames(fields[..i]))
      invariant fieldPlaceholders == "(" + Join(", ", Placeholders(fields[..i]))
    {
      var field := fields[i];
      ghost var names := ColumnNames(fields[..i]);
      ghost var holders := Placeholders(fields[..i]);
      ColumnNamesSnoc(fields, i);
      PlaceholdersSnoc(fields, i);
      JoinSnoc(", ", names, Quoted(field.name));
      JoinSnoc(", ", holders, Placeholder(field));
      AppendAssoc4("(", Join(", ", names), separator, Quoted(field.name));
      AppendAssoc4("(", Join(", ", holders), separator, Placeholder(field));
      fieldNames := fieldNames + separator;
      fieldPlaceholders := fieldPlaceholders + separator;
      fieldNames := SafeAddFieldName(fieldNames, field.name);
      fieldPlaceholders := AppendPlaceholder(fieldPlaceholders, field);
      separator := ", ";
    }
    assert fields[..|fields|] == fields;
    fieldNames := fieldNames + ")";
    fieldPlaceholders := fieldPlaceholders + ")";
    sql := sql + fieldNames;
    sql := sql + VALUES;
    sql := sql + fieldPlaceholders;
  }

  /** `innerUpdate`'s statement text. */
  method BuildUpdate(fields: seq<Field>, tableName: string, idName: string) returns (sql: string)
    ensures sql == UpdateSql(tableName, fields, idName)
  {
    var prefix := UPDATE + tableName + SET;
    sql := prefix;
    var separator := "";
    for i := 0 to |fields|
      invariant separator == if i == 0 then "" else ", "
      invariant sql == prefix + Join(", ", Assignments(fields[..i]))
    {
      var field := fields[i];
      ghost var items := Assignments(fields[..i]);
      AssignmentsSnoc(fields, i);
      JoinSnoc(", ", items, Assignment(field));
      AppendAssoc4(prefix, Join(", ", items), separator, Assignment(field));
      sql := AppendAssignment(sql, separator, field);
      separator := ", ";
    }
    assert fields[..|fields|] == fields;
    sql := IdWhereClause(Some(idName), sql);
  }

  /** `innerDelete`'s statement text. */
  method BuildDelete(tableName: string, idName: string) returns (sql: string)
    ensures sql == DeleteSql(tableName, idName)
  {
    sql := DELETE_FROM;
    sql := sql + tableName;
    sql := IdWhereClause(Some(idName), sql);
  }

  /** `innerDeleteAll`'s statement text. */
  method BuildDeleteAll(tableName: string) returns (sql: string)
    ensures sql == DeleteAllSql(tableName)
  {
    sql := DELETE_FROM;
    sql := sql + tableName;
  }

  // ----- placeholder counts -----

  /** Names in which a character cannot hide a placeholder. */
  predicate NoMark(fields: seq<Field>)
  {
    forall i :: 0 <= i < |fields| ==> '?' !in fields[i].name && '?' !in fields[i].enumType
  }

  lemma WhereClauseMarks(idName: Option<string>)
    requires idName.Some? ==> '?' !in idName.value
    ensures Count(WhereClause(idName), '?') == if idName.Some? then 1 else 0
  {
    if idName.Some? {
      var head := WHERE + Quoted(idName.value) + EQUALS;
      assert '?' !in head;
      CountConcat(head, VARIABLE, '?');
      CountAbsent(head, '?');
      assert VARIABLE[1..] == "";
    }
  }

  lemma PlaceholderMarks(f: Field)
    requires '?' !in f.enumType
    ensures Count(Placeholder(f), '?') == 1
  {
    var open := CastOpen(KindName(f.kind));
    var close := CastClose(f, KindName(f.kind));
    assert '?' !in open && '?' !in close;
    CountConcat(open + VARIABLE, close, '?');
    CountConcat(open, VARIABLE, '?');
    CountAbsent(open, '?');
    CountAbsent(close, '?');
    assert VARIABLE[1..] == "";
  }

  /** A SELECT holds one placeholder with an identity column name and none without. */
  lemma SelectMarks(tableName: string, idName: Option<string>)
    requires '?' !in tableName
    requires idName.Some? ==> '?' !in idName.value
    ensures Count(SelectSql(tableName, idName), '?') == if idName.Some? then 1 else 0
  {
    WhereClauseMarks(idName);
    CountConcat(SELECT_FROM + tableName, WhereClause(idName), '?');
    CountAbsent(SELECT_FROM + tableName, '?');
  }

  /** An INSERT holds one placeholder per field. */
  lemma InsertMarks(tableName: string, fields: seq<Field>)
    requires '?' !in tableName && NoMark(fields)
    ensures Count(InsertSql(tableName, fields), '?') == |fields|
  {
    var names := "(" + Join(", ", ColumnNames(fields)) + ")";
    var holders := "(" + Join(", ", Placeholders(fields)) + ")";
    var head := INSERT_INTO + tableName + " ";
    JoinAbsent(", ", ColumnNames(fields), '?');
    assert '?' !in head + names + VALUES;
    CountAbsent(head + names + VALUES, '?');
    forall i | 0 <= i < |fields| ensures Count(Placeholders(fields)[i], '?') == 1 {
      PlaceholderMarks(fields[i]);
    }
    CountJoin(", ", Placeholders(fields), '?', 1);
    CountAppendAbsent("(" + Join(", ", Placeholders(fields)), ")", '?');
    CountConcat("(", Join(", ", Placeholders(fields)), '?');
    CountAbsent("(", '?');
    CountConcat(head + names + VALUES, holders, '?');
  }

  /** An UPDATE holds one placeholder per field and one for the identity value. */
  lemma UpdateMarks(tableName: string, fields: seq<Field>, idName: string)
    requires '?' !in tableName && '?' !in idName && NoMark(fields)
    ensures Count(UpdateSql(tableName, fields, idName), '?') == |fields| + 1
  {
    forall i | 0 <= i < |fields| ensures Count(Assignments(fields)[i], '?') == 1 {
      PlaceholderMarks(fields[i]);
      CountConcat(Quoted(fields[i].name) + EQUALS, Placeholder(fields[i]), '?');
      CountAbsent(Quoted(fields[i].name) + EQUALS, '?');
    }
    CountJoin(", ", Assignments(fields), '?', 1);
    var head := UPDATE + tableName + SET;
    CountAbsent(head, '?');
    CountConcat(head, Join(", ", Assignments(fields)), '?');
    WhereClauseMarks(Some(idName));
    CountConcat(head + Join(", ", Assignments(fields)), WhereClause(Some(idName)), '?');
  }

  /** A DELETE holds the one placeholder of the identity value; a delete-all holds none. */
  lemma DeleteMarks(tableName: string, idName: string)
    requires '?' !in tableName && '?' !in idName
    ensures Count(DeleteSql(tableName, idName), '?') == 1
    ensures Count(DeleteAllSql(tableName), '?') == 0
  {
    WhereClauseMarks(Some(idName));
    CountConcat(DELETE_FROM + tableName, WhereClause(Some(idName)), '?');
    CountAbsent(DELETE_FROM + tableName, '?');
  }
}
