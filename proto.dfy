/**
 * The protobuf reflection surface the persistence code reads, as plain values:
 * field kinds, field descriptors, message descriptors, field values and messages,
 * plus the failures the core raises.
 */
module Proto {
  import opened Wrappers

  /** The field types of a protobuf descriptor, named as `FieldDescriptor.Type` names them. */
  datatype Kind =
    | DOUBLE | FLOAT | INT64 | UINT64 | INT32 | FIXED64 | FIXED32 | BOOL | STRING
    | GROUP | MESSAGE | BYTES | UINT32 | ENUM | SFIXED32 | SFIXED64 | SINT32 | SINT64

  /** `field.getType().name()`. */
  function KindName(k: Kind): string
  {
    match k
    case DOUBLE => "DOUBLE"
    case FLOAT => "FLOAT"
    case INT64 => "INT64"
    case UINT64 => "UINT64"
    case INT32 => "INT32"
    case FIXED64 => "FIXED64"
    case FIXED32 => "FIXED32"
    case BOOL => "BOOL"
    case STRING => "STRING"
    case GROUP => "GROUP"
    case MESSAGE => "MESSAGE"
    case BYTES => "BYTES"
    case UINT32 => "UINT32"
    case ENUM => "ENUM"
    case SFIXED32 => "SFIXED32"
    case SFIXED64 => "SFIXED64"
    case SINT32 => "SINT32"
    case SINT64 => "SINT64"
  }

  /**
   * A field descriptor. `enumType` is the simple name of the field's enum type and
   * `enumValues` its value names in declared order; both are only read for ENUM fields.
   * `declaredDefault` is the `[default = ...]` value a proto2 field declares, if any.
   */
  datatype Field = Field(
    name: string,
    kind: Kind,
    repeated: bool,
    required: bool,
    enumType: string,
    enumValues: seq<string>,
    declaredDefault: Option<Value>)

  /** A message descriptor: its simple name, its fully qualified name and its fields in declared order. */
  datatype Descriptor = Descriptor(name: string, fullName: string, fields: seq<Field>)

  /**
   * A field value. `Nested` is an embedded message (its field values by name), `List`
   * the value of a repeated field, `Raw` a floating-point value the core passes through
   * without looking at it, written as its text, and `Bytes` a BYTES value.
   */
  datatype Value =
    | Str(s: string)
    | Int(i: int)
    | Bool(b: bool)
    | EnumVal(name: string)
    | Nested(fields: map<string, Value>)
    | List(items: seq<Value>)
    | Raw(text: string)
    | Bytes(data: seq<bv8>)

  /** A message instance: its descriptor and the values of the fields that are set. */
  datatype Message = Message(desc: Descriptor, values: map<string, Value>)

  /** The failures the core raises, each named after the situation the source throws in. */
  datatype Error =
    | UnsupportedKind(kindName: string)   // UnsupportedOperationException("Can't find type ...")
    | NoSuchField(fieldName: string)      // findFieldByName returned null, then used
    | NotAString                          // a `(String)` cast of a field value failed
    | MissingIdField                      // "ID cannot be NULL on an update"
    | UnbindableValue                     // JDBC cannot infer a SQL type for a bound object
    | NoSuchColumn(column: string)        // the result set has no such column
    | UnknownEnumValue(stored: string)    // findValueByName found no value of that name
    | BadColumnValue(column: string)      // a stored value of the wrong shape (null, not an array, ...)
    | JsonParseError                      // JsonFormat.merge rejected the stored text
    | NoConnection(operation: string)     // "<op> attempted without a connection"
    | AutoCommitOn(operation: string)     // "<op> attempted when auto-commit was on"
    | ConnectionClosed                    // any use of a closed JDBC connection

  /** `descriptor.findFieldByName(name)`: the field of that name, if any. */
  function FindField(desc: Descriptor, name: string): (r: Option<Field>)
    ensures r.Some? ==> r.value in desc.fields && r.value.name == name
    ensures r.None? ==> forall f :: f in desc.fields ==> f.name != name
  {
    FindFieldIn(desc.fields, name)
  }

  function FindFieldIn(fields: seq<Field>, name: string): (r: Option<Field>)
    ensures r.Some? ==> r.value in fields && r.value.name == name
    ensures r.None? ==> forall f :: f in fields ==> f.name != name
  {
    if fields == [] then None
    else if fields[0].name == name then Some(fields[0])
    else FindFieldIn(fields[1..], name)
  }

  /** With unique names, looking a field's name up finds that very field. */
  lemma {:induction false} FindFieldInUnique(fields: seq<Field>, f: Field)
    requires UniqueNames(fields) && f in fields
    ensures FindFieldIn(fields, f.name) == Some(f)
  {
    if fields[0] != f {
      var j :| 0 <= j < |fields| && fields[j] == f;
      assert fields[0].name != fields[j].name;
      assert f in fields[1..] by {
        assert fields[1..][j - 1] == f;
      }
      FindFieldInUnique(fields[1..], f);
    }
  }

  /**
   * The value protobuf reports for a field that is not set: an empty list for a repeated
   * field, else the declared default if there is one, else the kind's zero value (the first
   * value of an enum).
   */
  function Default(f: Field): Value
  {
    if f.repeated then List([])
    else if f.declaredDefault.Some? then f.declaredDefault.value
    else match f.kind
      case STRING => Str("")
      case BOOL => Bool(false)
      case ENUM => if f.enumValues == [] then EnumVal("") else EnumVal(f.enumValues[0])
      case MESSAGE => Nested(map[])
      case DOUBLE => Raw("0.0")
      case FLOAT => Raw("0.0")
      case BYTES => Bytes([])
      case GROUP => Nested(map[])
      case _ => Int(0)
  }

  /** `message.getField(field)`: the value that is set, or the field's default. */
  function GetField(m: Message, f: Field): (v: Value)
    ensures f.name in m.values ==> v == m.values[f.name]
    ensures f.name !in m.values ==> v == Default(f)
  {
    if f.name in m.values then m.values[f.name] else Default(f)
  }

  /** Field names are unique within a descriptor (protobuf guarantees it). */
  predicate UniqueNames(fields: seq<Field>)
  {
    forall i, j :: 0 <= i < j < |fields| ==> fields[i].name != fields[j].name
  }
}
