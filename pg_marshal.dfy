/**
 * How the PostgreSQL engine turns field values into bound statement parameters
 * (`bindParameters`) and result-set columns back into messages (`buildProtobuf`).
 * The JSON codec of embedded messages is a pair of functions supplied by the caller.
 */
module PgMarshal {
  import opened Wrappers
  import opened Proto
  import opened Text

  /** A value as the JDBC driver takes it in a bind or hands it back from a result set. */
  datatype SqlValue =
    | SqlNull
    | SqlText(s: string)
    | SqlInt(i: int)
    | SqlBool(b: bool)
    | SqlRaw(text: string)
    | SqlArray(items: seq<SqlValue>)

  /** A result-set row: column name to stored value. */
  type Row = map<string, SqlValue>

  /** `setObject` of a plain value: the driver has a SQL type for strings, integers, booleans and floating-point values only. */
  function ObjectParam(v: Value): (r: Result<SqlValue, Error>)
    ensures r.Ok? <==> (v.Str? || v.Int? || v.Bool? || v.Raw?)
  {
    match v
    case Str(s) => Ok(SqlText(s))
    case Int(i) => Ok(SqlInt(i))
    case Bool(b) => Ok(SqlBool(b))
    case Raw(t) => Ok(SqlRaw(t))
    case _ => Err(UnbindableValue)
  }

  /** The JSON texts of the embedded messages, in order. */
  function JsonTexts(items: seq<Value>, encode: Value -> string): (r: seq<SqlValue>)
    ensures |r| == |items|
  {
    seq(|items|, i requires 0 <= i < |items| => SqlText(encode(items[i])))
  }

  /** `addMessageToPreparedStatement`: one JSON text, or an array of them for a repeated field. */
  function MessageParam(f: Field, v: Value, encode: Value -> string): Result<SqlValue, Error>
  {
    if f.repeated then
      if v.List? then Ok(SqlArray(JsonTexts(v.items, encode))) else Err(UnbindableValue)
    else if v.Nested? then Ok(SqlText(encode(v)))
    else Err(UnbindableValue)
  }

  /** The names of enum values, or nothing if some item is not an enum value. */
  function EnumNames(items: seq<Value>): Option<seq<string>>
  {
    if items == [] then Some([])
    else match EnumNames(items[..|items| - 1])
      case None => None
      case Some(names) =>
        var last := items[|items| - 1];
        if last.EnumVal? then Some(names + [last.name]) else None
  }

  /** `field.toString()` of an enum field's value: the value's name, or a list's `[A, B]` text. */
  function EnumParam(v: Value): Result<SqlValue, Error>
  {
    match v
    case EnumVal(n) => Ok(SqlText(n))
    case List(items) =>
      (match EnumNames(items)
       case None => Err(UnbindableValue)
       case Some(names) => Ok(SqlText("[" + Join(", ", names) + "]")))
    case _ => Err(UnbindableValue)
  }

  /** A repeated string field's value as a text array. */
  function StringArrayParam(v: Value): Result<SqlValue, Error>
  {
    if v.List? && forall i :: 0 <= i < |v.items| ==> v.items[i].Str? then
      Ok(SqlArray(seq(|v.items|, i requires 0 <= i < |v.items| && v.items[i].Str? => SqlText(v.items[i].s))))
    else Err(UnbindableValue)
  }

  /** The parameter `bindParameters` binds for one field, by the field's kind. */
  function BindValue(f: Field, v: Value, encode: Value -> string): Result<SqlValue, Error>
  {
    if f.kind == MESSAGE then MessageParam(f, v, encode)
    else if f.kind == ENUM then EnumParam(v)
    else if f.kind == STRING && f.repeated then StringArrayParam(v)
    else ObjectParam(v)
  }

  /** The parameters of `fields`, bound at consecutive positions from `counter`; the first failing bind throws. */
  function Bindings(m: Message, fields: seq<Field>, counter: int, encode: Value -> string): (r: Result<map<int, SqlValue>, Error>)
    ensures r.Ok? ==> forall p :: p in r.value <==> counter <= p < counter + |fields|
  {
    if fields == [] then Ok(map[])
    else
      var last := fields[|fields| - 1];
      match Bindings(m, fields[..|fields| - 1], counter, encode)
      case Err(e) => Err(e)
      case Ok(ps) =>
        match BindValue(last, GetField(m, last), encode)
        case Err(e) => Err(e)
        case Ok(v) => Ok(ps[counter + |fields| - 1 := v])
  }

  /** The parameter at position `counter + i` is the bind of field `i`. */
  lemma {:induction false} BindingsAt(m: Message, fields: seq<Field>, counter: int, encode: Value -> string, i: nat)
    requires Bindings(m, fields, counter, encode).Ok? && i < |fields|
    ensures BindValue(fields[i], GetField(m, fields[i]), encode).Ok?
    ensures Bindings(m, fields, counter, encode).value[counter + i] == BindValue(fields[i], GetField(m, fields[i]), encode).value
    decreases |fields|
  {
    var init := fields[..|fields| - 1];
    assert Bindings(m, init, counter, encode).Ok?;
    if i < |fields| - 1 {
      BindingsAt(m, init, counter, encode, i);
      assert init[i] == fields[i];
    }
  }

  /** Binding fails exactly when some field's value cannot be bound. */
  lemma {:induction false} BindingsFailIff(m: Message, fields: seq<Field>, counter: int, encode: Value -> string)
    ensures Bindings(m, fields, counter, encode).Err? <==>
      exists i :: 0 <= i < |fields| && BindValue(fields[i], GetField(m, fields[i]), encode).Err?
    decreases |fields|
  {
    if fields != [] {
      var init := fields[..|fields| - 1];
      var last := fields[|fields| - 1];
      BindingsFailIff(m, init, counter, encode);
      if exists i :: 0 <= i < |init| && BindValue(init[i], GetField(m, init[i]), encode).Err? {
        var i :| 0 <= i < |init| && BindValue(init[i], GetField(m, init[i]), encode).Err?;
        assert fields[i] == init[i];
      } else if BindValue(last, GetField(m, last), encode).Err? {
        assert fields[|fields| - 1] == last;
      } else {
        forall i | 0 <= i < |fields| ensures BindValue(fields[i], GetField(m, fields[i]), encode).Ok? {
          if i < |init| {
            assert fields[i] == init[i];
          }
        }
      }
    }
  }

  /** `addMessageToPreparedStatement`, looping over a repeated field's messages as the source does. */
  method AddMessageToPreparedStatement(f: Field, v: Value, encode: Value -> string) returns (r: Result<SqlValue, Error>)
    ensures r == MessageParam(f, v, encode)
  {
    if f.repeated {
      if !v.List? {
        return Err(UnbindableValue);
      }
      var count := |v.items|;
      var childMessages: seq<SqlValue> := [];
      for loop := 0 to count
        invariant childMessages == JsonTexts(v.items[..loop], encode)
      {
        childMessages := childMessages + [SqlText(encode(v.items[loop]))];
      }
      assert v.items[..count] == v.items;
      return Ok(SqlArray(childMessages));
    }
    if !v.Nested? {
      return Err(UnbindableValue);
    }
    return Ok(SqlText(encode(v)));
  }

  /** `bindParameters`: one parameter per field from `counter` on, and the position after the last. */
  method BindParameters(m: Message, fields: seq<Field>, counter: int, encode: Value -> string)
    returns (r: Result<(map<int, SqlValue>, int), Error>)
    ensures r.Ok? <==> Bindings(m, fields, counter, encode).Ok?
    ensures r.Ok? ==> r.value == (Bindings(m, fields, counter, encode).value, counter + |fields|)
    ensures r.Err? ==> r.error == Bindings(m, fields, counter, encode).error
  {
    var params: map<int, SqlValue> := map[];
    var position := counter;
    for i := 0 to |fields|
      invariant position == counter + i
      invariant Bindings(m, fields[..i], counter, encode) == Ok(params)
    {
      var fieldDescriptor := fields[i];
      assert fields[..i + 1][..i] == fields[..i];
      var field := GetField(m, fieldDescriptor);
      var bound: Result<SqlValue, Error>;
      if fieldDescriptor.kind == MESSAGE {
        bound := AddMessageToPreparedStatement(fieldDescriptor, field, encode);
      } else {
        bound := BindValue(fieldDescriptor, field, encode);
      }
      if bound.Err? {
        BindingsPrefixErr(m, fields, i + 1, counter, encode);
        return Err(bound.error);
      }
      params := params[position := bound.value];
      position := position + 1;
    }
    assert fields[..|fields|] == fields;
    return Ok((params, position));
  }

  /** Once binding a prefix fails, binding all fields fails the same way. */
  lemma {:induction false} BindingsPrefixErr(m: Message, fields: seq<Field>, n: nat, counter: int, encode: Value -> string)
    requires n <= |fields| && Bindings(m, fields[..n], counter, encode).Err?
    ensures Bindings(m, fields, counter, encode) == Bindings(m, fields[..n], counter, encode)
    decreases |fields| - n
  {
    if n < |fields| {
      assert fields[..n + 1][..n] == fields[..n];
      BindingsPrefixErr(m, fields, n + 1, counter, encode);
    } else {
      assert fields[..n] == fields;
    }
  }

  // ----- decoding a result-set row -----

  /** `getObject` of a plain column, as the value `setField` receives; a SQL NULL (here or in an array) has none. */
  function FromSql(v: SqlValue): Option<Value>
  {
    match v
    case SqlNull => None
    case SqlText(s) => Some(Str(s))
    case SqlInt(i) => Some(Int(i))
    case SqlBool(b) => Some(Bool(b))
    case SqlRaw(t) => Some(Raw(t))
    case SqlArray(items) =>
      if forall i :: 0 <= i < |items| ==> FromSql(items[i]).Some? then
        Some(List(seq(|items|, i requires 0 <= i < |items| && FromSql(items[i]).Some? => FromSql(items[i]).value)))
      else None
  }

  /** The embedded messages of a repeated message column, parsed from JSON one by one, in array order. */
  function DecodeItems(f: Field, items: seq<SqlValue>, decode: (Field, string) -> Option<Value>): (r: Result<seq<Value>, Error>)
    ensures r.Ok? ==> |r.value| == |items|
  {
    if items == [] then Ok([])
    else match DecodeItems(f, items[..|items| - 1], decode)
      case Err(e) => Err(e)
      case Ok(vs) =>
        match items[|items| - 1]
        case SqlText(s) =>
          (match decode(f, s)
           case None => Err(JsonParseError)
           case Some(v) => Ok(vs + [v]))
        case _ => Err(BadColumnValue(f.name))
  }

  /** What `buildProtobuf` sets a field to from its column, or the exception it throws. */
  function DecodeField(f: Field, row: Row, decode: (Field, string) -> Option<Value>): Result<Value, Error>
  {
    if f.name !in row then Err(NoSuchColumn(f.name))
    else
      var column := row[f.name];
      if f.kind == ENUM then
        match column
        case SqlText(s) =>
          if s !in f.enumValues then Err(UnknownEnumValue(s))
          else if f.repeated then Err(BadColumnValue(f.name))
          else Ok(EnumVal(s))
        case _ => Err(BadColumnValue(f.name))
      else if f.kind == MESSAGE then
        if f.repeated then
          match column
          case SqlArray(items) =>
            (match DecodeItems(f, items, decode)
             case Err(e) => Err(e)
             case Ok(vs) => Ok(List(vs)))
          case _ => Err(BadColumnValue(f.name))
        else
          match column
          case SqlText(s) =>
            (match decode(f, s)
             case None => Err(JsonParseError)
             case Some(v) => Ok(v))
          case _ => Err(BadColumnValue(f.name))
      else
        match FromSql(column)
        case None => Err(BadColumnValue(f.name))
        case Some(v) => Ok(v)
  }

  /**
   * The decode policy of one column: a missing column throws; an enum column is resolved by
   * name; a repeated-message array becomes the list of its parsed elements, in order.
   */
  lemma DecodeFieldPolicy(f: Field, row: Row, decode: (Field, string) -> Option<Value>)
    ensures f.name !in row ==> DecodeField(f, row, decode) == Err(NoSuchColumn(f.name))
    ensures f.name in row && f.kind == ENUM && !f.repeated && row[f.name].SqlText? ==>
      DecodeField(f, row, decode) ==
        if row[f.name].s in f.enumValues then Ok(EnumVal(row[f.name].s)) else Err(UnknownEnumValue(row[f.name].s))
    ensures f.name in row && f.kind == MESSAGE && f.repeated && row[f.name].SqlArray? ==>
      DecodeField(f, row, decode) ==
        match DecodeItems(f, row[f.name].items, decode)
        case Err(e) => Err(e)
        case Ok(items) => Ok(List(items))
  {
  }

  /** The field values `buildProtobuf` sets, field by field; the first failing field throws. */
  function DecodeFields(fields: seq<Field>, row: Row, decode: (Field, string) -> Option<Value>): (r: Result<map<string, Value>, Error>)
    ensures r.Ok? ==> forall i :: 0 <= i < |fields| ==> fields[i].name in r.value
  {
    if fields == [] then Ok(map[])
    else
      var last := fields[|fields| - 1];
      match DecodeFields(fields[..|fields| - 1], row, decode)
      case Err(e) => Err(e)
      case Ok(values) =>
        match DecodeField(last, row, decode)
        case Err(e) => Err(e)
        case Ok(v) => Ok(values[last.name := v])
  }

  /** The message one result-set row decodes to. */
  function RowToMessage(desc: Descriptor, row: Row, decode: (Field, string) -> Option<Value>): Result<Message, Error>
  {
    match DecodeFields(desc.fields, row, decode)
    case Err(e) => Err(e)
    case Ok(values) => Ok(Message(desc, values))
  }

  /** The messages of the result set, one per row in row order; the first failing row throws. */
  function RowsToMessages(desc: Descriptor, rows: seq<Row>, decode: (Field, string) -> Option<Value>): (r: Result<seq<Message>, Error>)
    ensures r.Ok? ==> |r.value| == |rows|
  {
    if rows == [] then Ok([])
    else match RowsToMessages(desc, rows[..|rows| - 1], decode)
      case Err(e) => Err(e)
      case Ok(ms) =>
        match RowToMessage(desc, rows[|rows| - 1], decode)
        case Err(e) => Err(e)
        case Ok(m) => Ok(ms + [m])
  }

  /** The message at position `i` is the one row `i` decodes to. */
  lemma {:induction false} RowsToMessagesAt(desc: Descriptor, rows: seq<Row>, decode: (Field, string) -> Option<Value>, i: nat)
    requires RowsToMessages(desc, rows, decode).Ok? && i < |rows|
    ensures RowToMessage(desc, rows[i], decode).Ok?
    ensures RowsToMessages(desc, rows, decode).value[i] == RowToMessage(desc, rows[i], decode).value
    decreases |rows|
  {
    var init := rows[..|rows| - 1];
    assert RowsToMessages(desc, init, decode).Ok?;
    if i < |rows| - 1 {
      RowsToMessagesAt(desc, init, decode, i);
      assert init[i] == rows[i];
    }
  }

  /** The embedded messages of a repeated column come back in array order. */
  lemma {:induction false} DecodeItemsAt(f: Field, items: seq<SqlValue>, decode: (Field, string) -> Option<Value>, i: nat)
    requires DecodeItems(f, items, decode).Ok? && i < |items|
    ensures items[i].SqlText? && decode(f, items[i].s).Some?
    ensures DecodeItems(f, items, decode).value[i] == decode(f, items[i].s).value
    decreases |items|
  {
    var init := items[..|items| - 1];
    assert DecodeItems(f, init, decode).Ok?;
    if i < |items| - 1 {
      DecodeItemsAt(f, init, decode, i);
      assert init[i] == items[i];
    }
  }

  /** The array loop of `buildProtobuf` for a repeated message field. */
  method DecodeMessageArray(f: Field, items: seq<SqlValue>, decode: (Field, string) -> Option<Value>) returns (r: Result<seq<Value>, Error>)
    ensures r == DecodeItems(f, items, decode)
  {
    var values: seq<Value> := [];
    for i := 0 to |items|
      invariant DecodeItems(f, items[..i], decode) == Ok(values)
    {
      assert items[..i + 1][..i] == items[..i];
      if !items[i].SqlText? {
        DecodeItemsPrefixErr(f, items, i + 1, decode);
        return Err(BadColumnValue(f.name));
      }
      var parsed := decode(f, items[i].s);
      if parsed.None? {
        DecodeItemsPrefixErr(f, items, i + 1, decode);
        return Err(JsonParseError);
      }
      values := values + [parsed.value];
    }
    assert items[..|items|] == items;
    return Ok(values);
  }

  lemma {:induction false} DecodeItemsPrefixErr(f: Field, items: seq<SqlValue>, n: nat, decode: (Field, string) -> Option<Value>)
    requires n <= |items| && DecodeItems(f, items[..n], decode).Err?
    ensures DecodeItems(f, items, decode) == DecodeItems(f, items[..n], decode)
    decreases |items| - n
  {
    if n < |items| {
      assert items[..n + 1][..n] == items[..n];
      DecodeItemsPrefixErr(f, items, n + 1, decode);
    } else {
      assert items[..n] == items;
    }
  }

  /** `buildProtobuf`: every field of the type set from its column, in field order. */
  method BuildProtobuf(desc: Descriptor, row: Row, decode: (Field, string) -> Option<Value>) returns (r: Result<Message, Error>)
    ensures r == RowToMessage(desc, row, decode)
  {
    var values: map<string, Value> := map[];
    var fields := desc.fields;
    for i := 0 to |fields|
      invariant DecodeFields(fields[..i], row, decode) == Ok(values)
    {
      var fieldDescriptor := fields[i];
      assert fields[..i + 1][..i] == fields[..i];
      var v: Result<Value, Error>;
      if fieldDescriptor.kind == MESSAGE && fieldDescriptor.repeated && fieldDescriptor.name in row && row[fieldDescriptor.name].SqlArray? {
        var items := DecodeMessageArray(fieldDescriptor, row[fieldDescriptor.name].items, decode);
        v := if items.Err? then Err(items.error) else Ok(List(items.value));
      } else {
        v := DecodeField(fieldDescriptor, row, decode);
      }
      if v.Err? {
        DecodeFieldsPrefixErr(fields, i + 1, row, decode);
        return Err(v.error);
      }
      values := values[fieldDescriptor.name := v.value];
    }
    assert fields[..|fields|] == fields;
    return Ok(Message(desc, values));
  }

  lemma {:induction false} DecodeFieldsPrefixErr(fields: seq<Field>, n: nat, row: Row, decode: (Field, string) -> Option<Value>)
    requires n <= |fields| && DecodeFields(fields[..n], row, decode).Err?
    ensures DecodeFields(fields, row, decode) == DecodeFields(fields[..n], row, decode)
    decreases |fields| - n
  {
    if n < |fields| {
      assert fields[..n + 1][..n] == fields[..n];
      DecodeFieldsPrefixErr(fields, n + 1, row, decode);
    } else {
      assert fields[..n] == fields;
    }
  }

  /** `innerSelect`'s result loop: one message per row, in result-set order. */
  method DecodeRows(desc: Descriptor, rows: seq<Row>, decode: (Field, string) -> Option<Value>) returns (r: Result<seq<Message>, Error>)
    ensures r == RowsToMessages(desc, rows, decode)
  {
    var messages: seq<Message> := [];
    for i := 0 to |rows|
      invariant RowsToMessages(desc, rows[..i], decode) == Ok(messages)
    {
      assert rows[..i + 1][..i] == rows[..i];
      var m := BuildProtobuf(desc, rows[i], decode);
      if m.Err? {
        RowsPrefixErr(desc, rows, i + 1, decode);
        return Err(m.error);
      }
      messages := messages + [m.value];
    }
    assert rows[..|rows|] == rows;
    return Ok(messages);
  }

  lemma {:induction false} RowsPrefixErr(desc: Descriptor, rows: seq<Row>, n: nat, decode: (Field, string) -> Option<Value>)
    requires n <= |rows| && RowsToMessages(desc, rows[..n], decode).Err?
    ensures RowsToMessages(desc, rows, decode) == RowsToMessages(desc, rows[..n], decode)
    decreases |rows| - n
  {
    if n < |rows| {
      assert rows[..n + 1][..n] == rows[..n];
      RowsPrefixErr(desc, rows, n + 1, decode);
    } else {
      assert rows[..n] == rows;
    }
  }

  // ----- bind, store, read back -----

  /** The JSON codec gives back every embedded message of field `f` it printed. */
  ghost predicate JsonRoundTrips(f: Field, encode: Value -> string, decode: (Field, string) -> Option<Value>)
  {
    forall x: Value :: x.Nested? ==> decode(f, encode(x)) == Some(x)
  }

  /**
   * The field values that come back as they went in: embedded messages (one, or a list),
   * a non-repeated enum value of the field's enum, a list of strings for a repeated string
   * field, and otherwise a string, integer, boolean or floating-point value.
   */
  predicate RoundTrips(f: Field, v: Value)
  {
    if f.kind == MESSAGE then
      if f.repeated then v.List? && forall i :: 0 <= i < |v.items| ==> v.items[i].Nested?
      else v.Nested?
    else if f.kind == ENUM then !f.repeated && v.EnumVal? && v.name in f.enumValues
    else if f.kind == STRING && f.repeated then v.List? && forall i :: 0 <= i < |v.items| ==> v.items[i].Str?
    else v.Str? || v.Int? || v.Bool? || v.Raw?
  }

  lemma {:induction false} DecodeJsonTexts(f: Field, items: seq<Value>, encode: Value -> string, decode: (Field, string) -> Option<Value>)
    requires JsonRoundTrips(f, encode, decode)
    requires forall i :: 0 <= i < |items| ==> items[i].Nested?
    ensures DecodeItems(f, JsonTexts(items, encode), decode) == Ok(items)
    decreases |items|
  {
    if items != [] {
      var init := items[..|items| - 1];
      var last := items[|items| - 1];
      assert JsonTexts(items, encode)[..|items| - 1] == JsonTexts(init, encode);
      DecodeJsonTexts(f, init, encode, decode);
      assert decode(f, encode(last)) == Some(last);
      assert init + [last] == items;
    }
  }

  /** A value that round-trips can be bound. */
  lemma RoundTripsBind(f: Field, v: Value, encode: Value -> string)
    requires RoundTrips(f, v)
    ensures BindValue(f, v, encode).Ok?
  {
  }

  /** One field: the column holding what was bound for a value reads back as that value. */
  lemma FieldRoundTrip(f: Field, v: Value, row: Row, encode: Value -> string, decode: (Field, string) -> Option<Value>)
    requires RoundTrips(f, v)
    requires f.kind == MESSAGE ==> JsonRoundTrips(f, encode, decode)
    requires f.name in row && BindValue(f, v, encode) == Ok(row[f.name])
    ensures DecodeField(f, row, decode) == Ok(v)
  {
    if f.kind == MESSAGE && f.repeated {
      DecodeJsonTexts(f, v.items, encode, decode);
    } else if f.kind == MESSAGE {
      assert decode(f, encode(v)) == Some(v);
    } else if f.kind == STRING && f.repeated {
      var column := row[f.name];
      assert column.SqlArray? && |column.items| == |v.items|;
      forall i | 0 <= i < |column.items| ensures FromSql(column.items[i]) == Some(v.items[i]) {
        assert column.items[i] == SqlText(v.items[i].s);
      }
      var decoded := seq(|column.items|, i requires 0 <= i < |column.items| && FromSql(column.items[i]).Some? =>
        FromSql(column.items[i]).value);
      assert decoded == v.items;
      assert FromSql(column) == Some(List(decoded));
    }
  }

  /** Every field of a prefix decodes to the value it was bound from. */
  lemma {:induction false} DecodeFieldsRoundTrip(m: Message, fields: seq<Field>, row: Row, encode: Value -> string,
                                                 decode: (Field, string) -> Option<Value>)
    requires UniqueNames(fields)
    requires forall i :: 0 <= i < |fields| ==> RoundTrips(fields[i], GetField(m, fields[i]))
    requires forall i :: 0 <= i < |fields| && fields[i].kind == MESSAGE ==> JsonRoundTrips(fields[i], encode, decode)
    requires forall i :: 0 <= i < |fields| ==>
      fields[i].name in row && BindValue(fields[i], GetField(m, fields[i]), encode) == Ok(row[fields[i].name])
    ensures DecodeFields(fields, row, decode).Ok?
    ensures forall i :: 0 <= i < |fields| ==> DecodeFields(fields, row, decode).value[fields[i].name] == GetField(m, fields[i])
    decreases |fields|
  {
    if fields != [] {
      var n := |fields| - 1;
      var init := fields[..n];
      var last := fields[n];
      DecodeFieldsRoundTrip(m, init, row, encode, decode);
      FieldRoundTrip(last, GetField(m, last), row, encode, decode);
      var values := DecodeFields(init, row, decode).value;
      assert DecodeFields(fields, row, decode) == Ok(values[last.name := GetField(m, last)]);
      forall i | 0 <= i < |fields|
        ensures DecodeFields(fields, row, decode).value[fields[i].name] == GetField(m, fields[i])
      {
        if i < n {
          assert init[i] == fields[i];
          assert fields[i].name != last.name;
        }
      }
    }
  }

  /** Two messages of one type whose fields all read the same. */
  predicate SameFields(a: Message, b: Message)
  {
    a.desc == b.desc && forall i :: 0 <= i < |a.desc.fields| ==> GetField(a, a.desc.fields[i]) == GetField(b, a.desc.fields[i])
  }

  /**
   * Insert then select: a row whose columns hold the parameters an INSERT bound for a
   * message (position `1 + i` for field `i`) decodes to a message with the same field values.
   */
  lemma StoredMessageReadsBack(m: Message, params: map<int, SqlValue>, row: Row, encode: Value -> string,
                               decode: (Field, string) -> Option<Value>)
    requires UniqueNames(m.desc.fields)
    requires forall i :: 0 <= i < |m.desc.fields| ==> RoundTrips(m.desc.fields[i], GetField(m, m.desc.fields[i]))
    requires forall i :: 0 <= i < |m.desc.fields| && m.desc.fields[i].kind == MESSAGE ==>
      JsonRoundTrips(m.desc.fields[i], encode, decode)
    requires Bindings(m, m.desc.fields, 1, encode) == Ok(params)
    requires forall i :: 0 <= i < |m.desc.fields| ==> m.desc.fields[i].name in row && row[m.desc.fields[i].name] == params[1 + i]
    ensures RowToMessage(m.desc, row, decode).Ok?
    ensures SameFields(RowToMessage(m.desc, row, decode).value, m)
  {
    var fields := m.desc.fields;
    forall i | 0 <= i < |fields|
      ensures BindValue(fields[i], GetField(m, fields[i]), encode) == Ok(row[fields[i].name])
    {
      BindingsAt(m, fields, 1, encode, i);
    }
    DecodeFieldsRoundTrip(m, fields, row, encode, decode);
  }

  /** A message whose values all round-trip can always be bound. */
  lemma RoundTripsBindAll(m: Message, counter: int, encode: Value -> string)
    requires forall i :: 0 <= i < |m.desc.fields| ==> RoundTrips(m.desc.fields[i], GetField(m, m.desc.fields[i]))
    ensures Bindings(m, m.desc.fields, counter, encode).Ok?
  {
    BindingsFailIff(m, m.desc.fields, counter, encode);
  }

  /**
   * A repeated enum field is bound as one `[A, B]` text but read back through a single
   * enum lookup, so its column never decodes.
   */
  lemma RepeatedEnumNeverDecodes(f: Field, row: Row, decode: (Field, string) -> Option<Value>)
    requires f.kind == ENUM && f.repeated
    ensures DecodeField(f, row, decode).Err?
  {
  }
}
