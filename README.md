# proto2sql, modelled in Dafny

proto2sql stores protobuf messages in PostgreSQL. Its core has four parts, and this project models each of them:

- **DDL generator** (`ConvertToPostgresql`). For a message type it produces the `create type … as enum(…)` statements of its enum fields, followed by one `create table` statement.
- **Shared base** (`AbstractProtobufPersistence`). It derives a table name from the type's full name and defaults the identity field and value. Each public operation delegates to one inner method.
- **In-memory engine** (`InMemoryProtobufPersistence`). It keeps a map from table name to an ordered list of messages.
- **PostgreSQL engine** (`PostgresqlProtobufPersistence`). It builds and binds SQL statements and decodes result rows. It keeps one current connection, with a small transaction state machine over it.

Protobuf reflection is modelled as plain data:

- A field is `Field(name, kind, repeated, required, enumType, enumValues, declaredDefault)`. `declaredDefault` is a proto2 `[default = …]` value, if the field declares one.
- A message is its descriptor plus a map from field names to values.
- A field that is not set reads as an empty list if it is repeated. Otherwise it reads as its declared default if it has one, else as its kind's zero value (the first value of an enum).

JDBC is modelled as data too:

- A statement is its SQL text plus a map from parameter positions to values.
- A result row is a map from column names to values.
- The connection is an abstract `Conn(autoCommit, closed)`.

The JSON printer and parser for embedded messages are two function parameters, `encode` and `decode`.

Files, one module each:

| file | module | models |
|---|---|---|
| `wrappers.dfy` | `Wrappers` | `Option` (stands for `null`), `Result` and `Outcome` (stand for thrown exceptions) |
| `text.dfy` | `Text` | separator joins, character counts, and a character search |
| `proto.dfy` | `Proto` | field kinds, fields, descriptors, values, messages, errors |
| `naming.dfy` | `Naming` | `getTableName`, identity-name and identity-value defaulting |
| `ddl.dfy` | `Ddl` | `generateSql`, `innerGenerateSql`, `createEnum`, `getEnumTypeName` |
| `in_memory.dfy` | `InMemory` | the in-memory engine as the class `Store` |
| `pg_sql.dfy` | `PgSql` | SELECT / INSERT / UPDATE / DELETE text and its builders |
| `pg_marshal.dfy` | `PgMarshal` | `bindParameters`, `addMessageToPreparedStatement`, `buildProtobuf` |
| `pg_engine.dfy` | `PgEngine` | the PostgreSQL engine as the class `Engine`; the connection and transaction state machine |

Each imperative operation is proved against a specification function:

- The DDL builders, the statement builders and the bind and decode loops are methods with loop invariants. Each one's `ensures` equates its result with a function (`Ddl`, `InsertSql`, `Bindings`, `RowsToMessages`, …).
- The two engines are classes whose methods state their whole new state in the same way.
- The lemmas then state what those functions promise:
  - what a filter or delete keeps;
  - the order of the output;
  - parsing the enum literal list gives the declared values back;
  - the placeholder count matches the bound positions;
  - binding, storing and decoding a message gives its field values back;
  - the behaviour of the connection state machine.

Where the code and its own comments disagree, the model follows the code:

- **Connection release.** The comments in `closeIfNecessary` (PostgresqlProtobufPersistence.java:407-409) say the connection is closed when the call is *not* inside a transaction. The test it makes (PostgresqlProtobufPersistence.java:408-411) instead closes the connection when auto-commit is *off*, that is, inside a transaction, and the engine keeps it as the current connection. So a select, insert or update inside a transaction leaves a closed connection behind, and the following `commit` throws (`InsertThenCommitFails`).
  - Outside a transaction, the connection is never released (`AutoCommitKeepsConnection`).
  - `delete` and `deleteAll` never release at all.
- **Table names.** The DDL names the table by the type's simple name (ConvertToPostgresql.java:34). Both engines use `getTableName` on the full name. Where `domain` followed by any character occurs nowhere in the full name, `getTableName` only turns dots into underscores. So the two names differ for every type in a package without such a match (`EngineTableIsNotSchemaTable`). They agree for a type in the package `domain` (`DomainPackageTableIsSchemaTable`), and for a type in the default package whose name has no match (`DefaultPackageTableIsSchemaTable`).
- **Enum round trip.** It holds for non-repeated enum fields only. A repeated enum is bound as the text `[A, B]` and can never be decoded (`RepeatedEnumNeverDecodes`).

## Model

| member | source | states |
|---|---|---|
| Proto.FindField | src/main/java/com/timmattison/proto2sql/sql/AbstractProtobufPersistence.java:101 | `findFieldByName`: the field found belongs to the descriptor and has that name; none is found only when no field has it |
| Proto.FindFieldInUnique | src/main/java/com/timmattison/proto2sql/sql/AbstractProtobufPersistence.java:101 | with unique field names, looking up a field's name finds exactly that field |
| Proto.GetField | src/main/java/com/timmattison/proto2sql/sql/PostgresqlProtobufPersistence.java:451 | `getField`: a set field gives its value. An unset field gives an empty list if repeated, else its declared default, else its kind's zero value |
| Naming.FirstDomainMatch | src/main/java/com/timmattison/proto2sql/sql/AbstractProtobufPersistence.java:115 | the regex `domain.` finds its leftmost match: "domain" followed by any character except a line terminator, and no match starts earlier |
| Naming.ReplaceFirstDomain | src/main/java/com/timmattison/proto2sql/sql/AbstractProtobufPersistence.java:115 | `replaceFirst` never lengthens the name |
| Naming.DotsToUnderscores | src/main/java/com/timmattison/proto2sql/sql/AbstractProtobufPersistence.java:115 | `replaceAll("\\.", "_")` keeps the length, maps each dot to `_` and leaves every other character, so no dot remains |
| Naming.TableName | src/main/java/com/timmattison/proto2sql/sql/AbstractProtobufPersistence.java:113-116 | a table name never contains a dot and is never longer than the full name |
| Naming.TableNameWithoutDomain | src/main/java/com/timmattison/proto2sql/sql/AbstractProtobufPersistence.java:115 | when `domain.` never matches, only the dots change and the length is kept |
| Naming.TableNameDropsFirstMatch | src/main/java/com/timmattison/proto2sql/sql/AbstractProtobufPersistence.java:115 | otherwise exactly the 7 characters of the leftmost match are removed, wherever that match is |
| Naming.ReplaceFirstDomainInner | src/main/java/com/timmattison/proto2sql/sql/AbstractProtobufPersistence.java:115 | the regex is not anchored: `org.subdomainA.Request` becomes `org.sub.Request` |
| Naming.EngineTableIsNotSchemaTable | src/main/java/com/timmattison/proto2sql/sql/AbstractProtobufPersistence.java:113-116 | for a packaged type where `domain.` never matches, the engines' table name differs from the simple name the DDL creates |
| Naming.DomainPackageTableIsSchemaTable | src/main/java/com/timmattison/proto2sql/sql/AbstractProtobufPersistence.java:113-116 | in package `domain`, the engines' table name is the simple name |
| Naming.DefaultPackageTableIsSchemaTable | src/main/java/com/timmattison/proto2sql/sql/AbstractProtobufPersistence.java:113-116 | in the default package, a dot-free name with no `domain` match is its own table name, so the engines' name is the simple name |
| Naming.DefaultIdName | src/main/java/com/timmattison/proto2sql/sql/AbstractProtobufPersistence.java:36-44 | a missing identity name becomes "id"; a given one is kept |
| Naming.DefaultIdNameIdempotent | src/main/java/com/timmattison/proto2sql/sql/AbstractProtobufPersistence.java:36-44 | defaulting twice is defaulting once |
| Naming.SelectIdName | src/main/java/com/timmattison/proto2sql/sql/AbstractProtobufPersistence.java:47-57 | `select` defaults the identity name only when an identity value is given; otherwise it passes the name through untouched |
| Naming.DefaultId | src/main/java/com/timmattison/proto2sql/sql/AbstractProtobufPersistence.java:95-111 | a given identity is kept. Without one: no `id` field throws, and a successful result is the string value of an `id` field |
| Naming.DefaultIdFromField | src/main/java/com/timmattison/proto2sql/sql/AbstractProtobufPersistence.java:95-111 | without a given identity, an `id` field holding a string yields that string, and an `id` field holding anything else throws NotAString |
| Ddl.SqlTypeTable | src/main/java/com/timmattison/proto2sql/sql/ConvertToPostgresql.java:68-88 | the column type table: varchar, bigint, integer, boolean, text, and the enum type's name |
| Ddl.EnumStatements | src/main/java/com/timmattison/proto2sql/sql/ConvertToPostgresql.java:83-88 | one enum statement per ENUM field |
| Ddl.FirstUnsupported | src/main/java/com/timmattison/proto2sql/sql/ConvertToPostgresql.java:60-92 | the first field whose kind has no column type: every earlier field is supported |
| Ddl.CreateEnum | src/main/java/com/timmattison/proto2sql/sql/ConvertToPostgresql.java:137-167 | the enum statement is `create type E as enum('v1', 'v2', …);`, built with a separator loop |
| Ddl.OpenTableJoin | src/main/java/com/timmattison/proto2sql/sql/ConvertToPostgresql.java:94-132 | the table text built field by field equals the header followed by the column definitions joined by `,` |
| Ddl.ResolveSqlType | src/main/java/com/timmattison/proto2sql/sql/ConvertToPostgresql.java:66-92 | resolving a type succeeds exactly for the six supported kinds; any other kind throws with its name |
| Ddl.AppendColumn | src/main/java/com/timmattison/proto2sql/sql/ConvertToPostgresql.java:103-128 | one column: `\n  "name" type`, then `[]` if repeated, then a space, then `primary key` / `not null` / nothing |
| Ddl.InnerGenerateSql | src/main/java/com/timmattison/proto2sql/sql/ConvertToPostgresql.java:56-135 | the loop throws at the first unsupported field. Otherwise it returns the enum statements in order, plus an open table text that is empty exactly when there are no fields |
| Ddl.GenerateSql | src/main/java/com/timmattison/proto2sql/sql/ConvertToPostgresql.java:25-54 | `generateSql` returns exactly `Ddl(desc)` |
| Ddl.DdlFailsIffUnsupported | src/main/java/com/timmattison/proto2sql/sql/ConvertToPostgresql.java:89-92 | generation fails if and only if some field kind is unsupported, and it reports the first such field |
| Ddl.EmptySchemaNoStatements | src/main/java/com/timmattison/proto2sql/sql/ConvertToPostgresql.java:39-53 | a type with no fields yields an empty list |
| Ddl.EnumCountGrows | src/main/java/com/timmattison/proto2sql/sql/ConvertToPostgresql.java:83-88 | a later enum field comes after an earlier one in the output |
| Ddl.EnumStatementPosition | src/main/java/com/timmattison/proto2sql/sql/ConvertToPostgresql.java:83-88 | the enum statement of field `i` sits at the position given by the number of earlier enum fields |
| Ddl.DdlLayout | src/main/java/com/timmattison/proto2sql/sql/ConvertToPostgresql.java:39-53 | for a type with fields, the output is the enum statements in field order, then exactly one table statement, named by the simple name, last |
| Ddl.DdlEnumAt | src/main/java/com/timmattison/proto2sql/sql/ConvertToPostgresql.java:39-53 | an ENUM field's statement is in the output, at the count of ENUM fields before it |
| Ddl.EnumCountNone | src/main/java/com/timmattison/proto2sql/sql/ConvertToPostgresql.java:83-88 | a type with no ENUM field gets no enum statement |
| Ddl.DdlWithoutEnums | src/main/java/com/timmattison/proto2sql/sql/ConvertToPostgresql.java:39-53 | a type with fields but no ENUM field yields its table statement alone |
| Ddl.SharedEnumTypeEmittedTwice | src/main/java/com/timmattison/proto2sql/sql/ConvertToPostgresql.java:83-88 | two fields of the same enum type yield two identical statements |
| Ddl.ColumnDefOneLine | src/main/java/com/timmattison/proto2sql/sql/ConvertToPostgresql.java:103-128 | each column definition holds exactly one line break |
| Ddl.TableStatementLines | src/main/java/com/timmattison/proto2sql/sql/ConvertToPostgresql.java:46-128 | the table statement has one line per column, then the closing `\n);` |
| Ddl.EnumValuesRoundTrip | src/main/java/com/timmattison/proto2sql/sql/ConvertToPostgresql.java:150-160 | parsing the quoted, comma-separated literal list gives back the declared values, in order |
| InMemory.PassesFilter | src/main/java/com/timmattison/proto2sql/sql/InMemoryProtobufPersistence.java:39-53 | no identity means every row passes; a missing identity field (after defaulting the name to "id") throws NoSuchField |
| InMemory.PassesFilterMatches | src/main/java/com/timmattison/proto2sql/sql/InMemoryProtobufPersistence.java:39-53 | a row passes only when its defaulted identity field holds the identity string, and fails only when that field holds a different string |
| InMemory.PassesFilterByField | src/main/java/com/timmattison/proto2sql/sql/InMemoryProtobufPersistence.java:39-53 | with unique field names, the identity field decides: a string equal to the identity passes, another string fails, another value throws |
| InMemory.Filtered | src/main/java/com/timmattison/proto2sql/sql/InMemoryProtobufPersistence.java:28-36 | the filtered rows are never more than the rows |
| InMemory.SelectedUntouchedOrEmptied | src/main/java/com/timmattison/proto2sql/sql/InMemoryProtobufPersistence.java:21-37 | a table never touched is "not found"; an emptied table is found and empty |
| InMemory.Replaced | src/main/java/com/timmattison/proto2sql/sql/InMemoryProtobufPersistence.java:80-88 | replacing keeps the row count |
| InMemory.Without | src/main/java/com/timmattison/proto2sql/sql/InMemoryProtobufPersistence.java:104-110 | a delete keeps only rows of the table whose key differs, so the deleted key is absent |
| InMemory.FilteredNoId | src/main/java/com/timmattison/proto2sql/sql/InMemoryProtobufPersistence.java:41-47 | with no identity value, select returns all rows in insertion order |
| InMemory.FilteredFailsIff | src/main/java/com/timmattison/proto2sql/sql/InMemoryProtobufPersistence.java:30-34 | select throws exactly when some row's filter throws |
| InMemory.FilteredSound | src/main/java/com/timmattison/proto2sql/sql/InMemoryProtobufPersistence.java:28-36 | every selected row is a stored row that passes the filter |
| InMemory.FilteredComplete | src/main/java/com/timmattison/proto2sql/sql/InMemoryProtobufPersistence.java:28-36 | every stored row that passes the filter is selected |
| InMemory.FilteredExactly | src/main/java/com/timmattison/proto2sql/sql/InMemoryProtobufPersistence.java:28-53 | selecting by an identity keeps a row exactly when it is stored and its identity field holds that identity |
| InMemory.FilteredSnoc | src/main/java/com/timmattison/proto2sql/sql/InMemoryProtobufPersistence.java:30-34 | one more row is appended to the result exactly when it passes |
| InMemory.FilteredAppend | src/main/java/com/timmattison/proto2sql/sql/InMemoryProtobufPersistence.java:30-34 | filtering preserves order: filtering `a + b` is filtering `a`, then filtering `b` |
| InMemory.FilteredPrefixErr | src/main/java/com/timmattison/proto2sql/sql/InMemoryProtobufPersistence.java:30-34 | the first row that throws ends the select with its error |
| InMemory.ReplacedAt | src/main/java/com/timmattison/proto2sql/sql/InMemoryProtobufPersistence.java:82-88 | each position whose key matches becomes the message; every other position is unchanged |
| InMemory.ReplacedKeyedRowsAreMessage | src/main/java/com/timmattison/proto2sql/sql/InMemoryProtobufPersistence.java:82-88 | after an update, every row carrying the message's identity is the message |
| InMemory.ReplacedDropsPreviousKey | src/main/java/com/timmattison/proto2sql/sql/InMemoryProtobufPersistence.java:126-132 | an update from a previous identity to a new one leaves no row with the previous identity |
| InMemory.ReplacedIdempotent | src/main/java/com/timmattison/proto2sql/sql/InMemoryProtobufPersistence.java:74-91 | updating twice with the same message is updating once |
| InMemory.ReplacedNoMatch | src/main/java/com/timmattison/proto2sql/sql/InMemoryProtobufPersistence.java:82-88 | an update that matches no row changes nothing |
| InMemory.WithoutKeepsOthers | src/main/java/com/timmattison/proto2sql/sql/InMemoryProtobufPersistence.java:106-110 | a delete keeps every row with a different key |
| InMemory.WithoutNoMatch | src/test/java/com/timmattison/proto2sql/TestInMemoryProtobufPersistence.java:120-129 | deleting a key that no row has leaves the rows untouched |
| InMemory.WithoutUnique | src/test/java/com/timmattison/proto2sql/TestInMemoryProtobufPersistence.java:51-80 | with distinct keys, a delete removes exactly that one row: the count drops by one and the order is kept |
| InMemory.WithoutIdempotent | src/main/java/com/timmattison/proto2sql/sql/InMemoryProtobufPersistence.java:98-113 | deleting twice is deleting once |
| InMemory.Store.constructor | src/main/java/com/timmattison/proto2sql/sql/InMemoryProtobufPersistence.java:18 | the engine starts with no tables |
| InMemory.Store.InnerSelect | src/main/java/com/timmattison/proto2sql/sql/InMemoryProtobufPersistence.java:20-37 | the loop returns "not found" for a missing table, else the filtered rows |
| InMemory.Store.GetList | src/main/java/com/timmattison/proto2sql/sql/InMemoryProtobufPersistence.java:62-68 | a missing table is created empty; the table's rows are returned |
| InMemory.Store.SetList | src/main/java/com/timmattison/proto2sql/sql/InMemoryProtobufPersistence.java:70-72 | the table's rows are replaced and the other tables are unchanged |
| InMemory.Store.InnerInsert | src/main/java/com/timmattison/proto2sql/sql/InMemoryProtobufPersistence.java:55-60 | the message is appended to its table with no uniqueness check; other tables are unchanged |
| InMemory.Store.InnerUpdate | src/main/java/com/timmattison/proto2sql/sql/InMemoryProtobufPersistence.java:74-91 | the table becomes its rows with the message's key replaced |
| InMemory.Store.InnerUpdateFrom | src/main/java/com/timmattison/proto2sql/sql/InMemoryProtobufPersistence.java:115-135 | keyed on the previous identity. With none, it is the public plain update, which names the table from the message's type |
| InMemory.Store.InnerDeleteAll | src/main/java/com/timmattison/proto2sql/sql/InMemoryProtobufPersistence.java:93-96 | the table becomes empty (and exists) |
| InMemory.Store.InnerDelete | src/main/java/com/timmattison/proto2sql/sql/InMemoryProtobufPersistence.java:98-113 | the table becomes its rows without the message's key |
| InMemory.Store.StartTransaction | src/main/java/com/timmattison/proto2sql/sql/InMemoryProtobufPersistence.java:137-140 | changes nothing |
| InMemory.Store.Rollback | src/main/java/com/timmattison/proto2sql/sql/InMemoryProtobufPersistence.java:142-145 | changes nothing |
| InMemory.Store.Commit | src/main/java/com/timmattison/proto2sql/sql/InMemoryProtobufPersistence.java:147-150 | changes nothing |
| InMemory.Store.Select | src/main/java/com/timmattison/proto2sql/sql/AbstractProtobufPersistence.java:46-57 | selects from `TableName(fullName)`, with the identity name defaulted only when a value is given |
| InMemory.Store.Insert | src/main/java/com/timmattison/proto2sql/sql/AbstractProtobufPersistence.java:71-81 | inserts into the message type's table |
| InMemory.Store.Update | src/main/java/com/timmattison/proto2sql/sql/AbstractProtobufPersistence.java:83-93 | updates in the message type's table |
| InMemory.Store.UpdateFrom | src/main/java/com/timmattison/proto2sql/sql/AbstractProtobufPersistence.java:59-69 | updates keyed on the previous identity if given, else on the message's own |
| InMemory.Store.Delete | src/main/java/com/timmattison/proto2sql/sql/AbstractProtobufPersistence.java:16-26 | deletes from the message type's table |
| InMemory.Store.DeleteAll | src/main/java/com/timmattison/proto2sql/sql/AbstractProtobufPersistence.java:28-34 | empties the type's table |
| PgSql.CastOnlyForEnums | src/main/java/com/timmattison/proto2sql/sql/PostgresqlProtobufPersistence.java:426-442 | a placeholder is wrapped in a `CAST(… AS E)` exactly for ENUM fields |
| PgSql.IdWhereClause | src/main/java/com/timmattison/proto2sql/sql/PostgresqlProtobufPersistence.java:224-234 | `WHERE "id" = ?` is appended exactly when an identity name is given |
| PgSql.SafeAddFieldName | src/main/java/com/timmattison/proto2sql/sql/PostgresqlProtobufPersistence.java:414-419 | the name is appended in double quotes |
| PgSql.CastEnumPart1 | src/main/java/com/timmattison/proto2sql/sql/PostgresqlProtobufPersistence.java:436-442 | `CAST(` is appended for ENUM only |
| PgSql.CastEnumPart2 | src/main/java/com/timmattison/proto2sql/sql/PostgresqlProtobufPersistence.java:426-434 | ` AS E)` is appended for ENUM only |
| PgSql.AppendPlaceholder | src/main/java/com/timmattison/proto2sql/sql/PostgresqlProtobufPersistence.java:278-288 | appends one field's placeholder |
| PgSql.AppendAssignment | src/main/java/com/timmattison/proto2sql/sql/PostgresqlProtobufPersistence.java:354-369 | appends one `"f" = placeholder` assignment |
| PgSql.BuildSelect | src/main/java/com/timmattison/proto2sql/sql/PostgresqlProtobufPersistence.java:196-203 | the SELECT text is `SelectSql` |
| PgSql.BuildInsert | src/main/java/com/timmattison/proto2sql/sql/PostgresqlProtobufPersistence.java:237-300 | the two-builder loop gives `INSERT INTO t ("f1", …) VALUES (p1, …)` |
| PgSql.BuildUpdate | src/main/java/com/timmattison/proto2sql/sql/PostgresqlProtobufPersistence.java:337-373 | the loop gives `UPDATE t SET "f" = p, … WHERE "id" = ?` |
| PgSql.BuildDelete | src/main/java/com/timmattison/proto2sql/sql/PostgresqlProtobufPersistence.java:508-516 | `DELETE FROM t WHERE "id" = ?` |
| PgSql.BuildDeleteAll | src/main/java/com/timmattison/proto2sql/sql/PostgresqlProtobufPersistence.java:498-502 | `DELETE FROM t` |
| PgSql.WhereClauseMarks | src/main/java/com/timmattison/proto2sql/sql/PostgresqlProtobufPersistence.java:224-234 | the WHERE clause holds one placeholder when present |
| PgSql.PlaceholderMarks | src/main/java/com/timmattison/proto2sql/sql/PostgresqlProtobufPersistence.java:278-288 | each field placeholder, cast or not, holds one `?` |
| PgSql.SelectMarks | src/main/java/com/timmattison/proto2sql/sql/PostgresqlProtobufPersistence.java:196-211 | a SELECT holds one `?` with an identity name and none without |
| PgSql.InsertMarks | src/main/java/com/timmattison/proto2sql/sql/PostgresqlProtobufPersistence.java:267-300 | an INSERT holds one `?` per field |
| PgSql.UpdateMarks | src/main/java/com/timmattison/proto2sql/sql/PostgresqlProtobufPersistence.java:346-373 | an UPDATE holds one `?` per field, plus one |
| PgSql.DeleteMarks | src/main/java/com/timmattison/proto2sql/sql/PostgresqlProtobufPersistence.java:498-521 | a DELETE holds one `?`; a delete-all holds none |
| PgMarshal.ObjectParam | src/main/java/com/timmattison/proto2sql/sql/PostgresqlProtobufPersistence.java:465-467 | `setObject` binds exactly strings, integers, booleans and floating-point values |
| PgMarshal.JsonTexts | src/main/java/com/timmattison/proto2sql/sql/PostgresqlProtobufPersistence.java:481-487 | one JSON text per embedded message |
| PgMarshal.Bindings | src/main/java/com/timmattison/proto2sql/sql/PostgresqlProtobufPersistence.java:444-475 | the bound positions are exactly `counter … counter + #fields - 1` |
| PgMarshal.BindingsAt | src/main/java/com/timmattison/proto2sql/sql/PostgresqlProtobufPersistence.java:444-475 | position `counter + i` holds field `i`'s value, bound by its kind |
| PgMarshal.BindingsFailIff | src/main/java/com/timmattison/proto2sql/sql/PostgresqlProtobufPersistence.java:444-475 | binding fails exactly when some field's value cannot be bound |
| PgMarshal.BindingsPrefixErr | src/main/java/com/timmattison/proto2sql/sql/PostgresqlProtobufPersistence.java:444-475 | the first failing field ends the binding with its error |
| PgMarshal.AddMessageToPreparedStatement | src/main/java/com/timmattison/proto2sql/sql/PostgresqlProtobufPersistence.java:477-495 | one JSON text, or for a repeated field an array of JSON texts in order |
| PgMarshal.BindParameters | src/main/java/com/timmattison/proto2sql/sql/PostgresqlProtobufPersistence.java:444-475 | the loop binds `Bindings` and returns `counter + #fields` |
| PgMarshal.DecodeItems | src/main/java/com/timmattison/proto2sql/sql/PostgresqlProtobufPersistence.java:96-113 | one embedded message per array element |
| PgMarshal.DecodeItemsAt | src/main/java/com/timmattison/proto2sql/sql/PostgresqlProtobufPersistence.java:104-113 | element `i` of the list is the parse of array element `i` |
| PgMarshal.DecodeItemsPrefixErr | src/main/java/com/timmattison/proto2sql/sql/PostgresqlProtobufPersistence.java:104-113 | the first element that fails to parse ends the decode with its error |
| PgMarshal.DecodeMessageArray | src/main/java/com/timmattison/proto2sql/sql/PostgresqlProtobufPersistence.java:96-113 | the loop decodes exactly `DecodeItems` |
| PgMarshal.DecodeFieldPolicy | src/main/java/com/timmattison/proto2sql/sql/PostgresqlProtobufPersistence.java:87-135 | a missing column throws; an enum is resolved by name and an unknown name throws; a repeated-message array becomes its parsed elements |
| PgMarshal.DecodeFields | src/main/java/com/timmattison/proto2sql/sql/PostgresqlProtobufPersistence.java:79-136 | a decoded message sets every field of its type |
| PgMarshal.DecodeFieldsPrefixErr | src/main/java/com/timmattison/proto2sql/sql/PostgresqlProtobufPersistence.java:79-136 | the first field that fails ends the decode with its error |
| PgMarshal.BuildProtobuf | src/main/java/com/timmattison/proto2sql/sql/PostgresqlProtobufPersistence.java:75-137 | the field loop decodes exactly `RowToMessage` |
| PgMarshal.RowsToMessages | src/main/java/com/timmattison/proto2sql/sql/PostgresqlProtobufPersistence.java:60-67 | one message per row |
| PgMarshal.RowsToMessagesAt | src/main/java/com/timmattison/proto2sql/sql/PostgresqlProtobufPersistence.java:60-67 | message `i` is the decode of row `i` (result-set order) |
| PgMarshal.RowsPrefixErr | src/main/java/com/timmattison/proto2sql/sql/PostgresqlProtobufPersistence.java:60-67 | the first row that fails ends the select with its error |
| PgMarshal.DecodeRows | src/main/java/com/timmattison/proto2sql/sql/PostgresqlProtobufPersistence.java:57-69 | the result loop decodes exactly `RowsToMessages` |
| PgMarshal.DecodeJsonTexts | src/main/java/com/timmattison/proto2sql/sql/PostgresqlProtobufPersistence.java:96-113 | given a JSON codec that round-trips, an array of printed messages parses back to the same list |
| PgMarshal.RoundTripsBind | src/main/java/com/timmattison/proto2sql/sql/PostgresqlProtobufPersistence.java:444-475 | every value of the round-tripping shapes can be bound |
| PgMarshal.FieldRoundTrip | src/main/java/com/timmattison/proto2sql/sql/PostgresqlProtobufPersistence.java:79-135 | a column holding what was bound for a value decodes to that value |
| PgMarshal.DecodeFieldsRoundTrip | src/main/java/com/timmattison/proto2sql/sql/PostgresqlProtobufPersistence.java:79-136 | with distinct field names, every field decodes to the value it was bound from |
| PgMarshal.StoredMessageReadsBack | src/main/java/com/timmattison/proto2sql/sql/PostgresqlProtobufPersistence.java:237-329 | insert then select: a row holding the INSERT's parameters decodes to a message with the same field values |
| PgMarshal.RoundTripsBindAll | src/main/java/com/timmattison/proto2sql/sql/PostgresqlProtobufPersistence.java:444-475 | a message whose values all round-trip can always be bound |
| PgMarshal.RepeatedEnumNeverDecodes | src/main/java/com/timmattison/proto2sql/sql/PostgresqlProtobufPersistence.java:87-89 | a repeated enum column never decodes |
| PgEngine.TransactionCheck | src/main/java/com/timmattison/proto2sql/sql/PostgresqlProtobufPersistence.java:557-565 | the check passes exactly on an open connection with auto-commit off |
| PgEngine.Engine.constructor | src/main/java/com/timmattison/proto2sql/sql/PostgresqlProtobufPersistence.java:43-46 | no connection and nothing executed |
| PgEngine.Engine.GetNewOrExistingConnection | src/main/java/com/timmattison/proto2sql/sql/PostgresqlProtobufPersistence.java:524-530 | the connection is acquired lazily and reused while current |
| PgEngine.Engine.CloseIfNecessary | src/main/java/com/timmattison/proto2sql/sql/PostgresqlProtobufPersistence.java:400-412 | closes the current connection when auto-commit is off and keeps it current; throws on a closed connection |
| PgEngine.Engine.Execute | src/main/java/com/timmattison/proto2sql/sql/PostgresqlProtobufPersistence.java:325 | an executed statement reaches the database, in order |
| PgEngine.Engine.InnerSelect | src/main/java/com/timmattison/proto2sql/sql/PostgresqlProtobufPersistence.java:48-73 | the SELECT runs with the identity at 1 exactly when an identity name is given; the rows are decoded in order and the connection is released |
| PgEngine.Engine.InnerInsert | src/main/java/com/timmattison/proto2sql/sql/PostgresqlProtobufPersistence.java:236-329 | the INSERT runs bound from 1 and the connection is released, whether it succeeds or fails |
| PgEngine.Engine.InnerUpdate | src/main/java/com/timmattison/proto2sql/sql/PostgresqlProtobufPersistence.java:331-334 | the update with no previous identity |
| PgEngine.Engine.InnerUpdateFrom | src/main/java/com/timmattison/proto2sql/sql/PostgresqlProtobufPersistence.java:336-398 | the UPDATE binds the fields, then the previous identity (or the message's own) last, and then releases |
| PgEngine.Engine.InnerDelete | src/main/java/com/timmattison/proto2sql/sql/PostgresqlProtobufPersistence.java:508-522 | the DELETE runs with the message's identity at 1, without releasing |
| PgEngine.Engine.InnerDeleteAll | src/main/java/com/timmattison/proto2sql/sql/PostgresqlProtobufPersistence.java:497-506 | the delete-all runs without parameters, without releasing |
| PgEngine.Engine.StartTransaction | src/main/java/com/timmattison/proto2sql/sql/PostgresqlProtobufPersistence.java:532-535 | auto-commit goes off on the current (or a fresh) connection |
| PgEngine.Engine.ThrowExceptionIfTransactionNotStarted | src/main/java/com/timmattison/proto2sql/sql/PostgresqlProtobufPersistence.java:557-565 | with no connection it throws that; it passes only inside an open transaction |
| PgEngine.Engine.Rollback | src/main/java/com/timmattison/proto2sql/sql/PostgresqlProtobufPersistence.java:537-545 | checked, rolled back, then the connection is forgotten |
| PgEngine.Engine.Commit | src/main/java/com/timmattison/proto2sql/sql/PostgresqlProtobufPersistence.java:547-555 | checked, committed, then the connection is forgotten |
| PgEngine.Engine.Select | src/main/java/com/timmattison/proto2sql/sql/AbstractProtobufPersistence.java:46-57 | queries `TableName(fullName)`, with the identity name defaulted only when a value is given |
| PgEngine.Engine.Insert | src/main/java/com/timmattison/proto2sql/sql/AbstractProtobufPersistence.java:71-81 | inserts into the message type's table |
| PgEngine.Engine.Update | src/main/java/com/timmattison/proto2sql/sql/AbstractProtobufPersistence.java:83-93 | updates in the message type's table |
| PgEngine.Engine.UpdateFrom | src/main/java/com/timmattison/proto2sql/sql/AbstractProtobufPersistence.java:59-69 | updates, keyed on the previous identity, in the message type's table |
| PgEngine.Engine.Delete | src/main/java/com/timmattison/proto2sql/sql/AbstractProtobufPersistence.java:16-26 | deletes from the message type's table |
| PgEngine.Engine.DeleteAll | src/main/java/com/timmattison/proto2sql/sql/AbstractProtobufPersistence.java:28-34 | empties the type's table |
| PgEngine.AutoCommitKeepsConnection | src/main/java/com/timmattison/proto2sql/sql/PostgresqlProtobufPersistence.java:400-412 | outside a transaction the connection is never closed or replaced; a statement succeeds exactly when it binds |
| PgEngine.BeginOpensTransaction | src/main/java/com/timmattison/proto2sql/sql/PostgresqlProtobufPersistence.java:532-535 | on an open or missing connection, `startTransaction` only turns auto-commit off |
| PgEngine.FinishNeedsTransaction | src/main/java/com/timmattison/proto2sql/sql/PostgresqlProtobufPersistence.java:537-565 | commit/rollback succeeds exactly inside an open transaction and then forgets the connection. Without a connection, or with auto-commit on, it throws and changes nothing |
| PgEngine.ReleaseInTransactionCloses | src/main/java/com/timmattison/proto2sql/sql/PostgresqlProtobufPersistence.java:407-411 | a releasing statement inside a transaction closes the connection but keeps it current |
| PgEngine.DeleteInTransactionKeepsOpen | src/main/java/com/timmattison/proto2sql/sql/PostgresqlProtobufPersistence.java:508-522 | a delete inside a transaction leaves it open |
| PgEngine.ClosedIsStuck | src/main/java/com/timmattison/proto2sql/sql/PostgresqlProtobufPersistence.java:557-565 | once the current connection is closed, every operation throws and nothing changes |
| PgEngine.InsertThenCommitFails | src/main/java/com/timmattison/proto2sql/sql/PostgresqlProtobufPersistence.java:305-328 | start a transaction, run one insert, then commit: the commit throws, the connection stays closed, and nothing is committed |
| PgEngine.DeletesThenCommit | src/main/java/com/timmattison/proto2sql/sql/PostgresqlProtobufPersistence.java:497-555 | a transaction of deletes commits, with the deletes before the commit |
| PgEngine.SelectWellFormed | src/main/java/com/timmattison/proto2sql/sql/PostgresqlProtobufPersistence.java:196-215 | the SELECT binds exactly its placeholders, with the identity at 1 |
| PgEngine.InsertWellFormed | src/main/java/com/timmattison/proto2sql/sql/PostgresqlProtobufPersistence.java:302-322 | the INSERT binds exactly its placeholders, field `i` at `1 + i` |
| PgEngine.UpdateWellFormed | src/main/java/com/timmattison/proto2sql/sql/PostgresqlProtobufPersistence.java:372-391 | the UPDATE binds exactly its placeholders, with the identity last |
| PgEngine.DeleteWellFormed | src/main/java/com/timmattison/proto2sql/sql/PostgresqlProtobufPersistence.java:498-521 | the DELETE binds its one placeholder to the message's identity; the delete-all binds none |

## Left out

- JDBC execution is not modelled: `DataSource`, `prepareStatement`, `execute`, `executeQuery`, `ResultSet` iteration, `createArrayOf` and the `Jdbc4Array` casts.
  - An executed statement is appended to the engine's log.
  - The rows a query returns are a parameter of `Select`.
  - The data source always hands out a fresh connection with auto-commit on.
  - Any use of a closed connection throws, as JDBC specifies.
- `JsonFormat.printToString` and `merge` are the parameters `encode` and `decode`. The round-trip lemmas assume that `decode` gives back what `encode` printed (`JsonRoundTrips`).
- PgMarshal.StoredMessageReadsBack: the database is taken to store each bound parameter unchanged in its column. Column types, casts and SQL `NULL` handling inside PostgreSQL are not modelled.
- Protobuf reflection is reduced to the field datatype:
  - Messages are compared structurally.
  - `setField`'s own type checks are not modelled.
  - `getField`'s check that the field belongs to the message's type is not modelled.
  - An enum value's `toString` is taken to be its name.
- Values of the wrong shape for their field do not occur in protobuf. Where the source would throw a `ClassCastException` or `NullPointerException`, the model reports `UnbindableValue` or `BadColumnValue` instead.
- Integers are unbounded. The source's 32- and 64-bit fields are bound and read as integers, and no width is checked.
- Floating-point values are carried as opaque text (`Raw`) and not interpreted.
- Repeated fields other than strings, messages and enums are bound through `setObject` of a list, which the model reports as `UnbindableValue`. A repeated enum is bound as the text of its list (PostgresqlProtobufPersistence.java:457-459), as `EnumParam` does.
- `resultSetToProtobuf` in both engines is not part of this model. It is a near-duplicate of `buildProtobuf`, and in the in-memory engine it only throws.
- The commented-out blocks and the unused `idSpecifiedAndNotNativeField` are not part of this model.
- `ConvertToSql` is not part of this model. It holds only kind-name constants, which are the `Kind` datatype here.
- Thread safety is not modelled: the source has none and intends none.
