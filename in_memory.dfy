/**
 * The in-memory engine: one list of messages per table name, held in a map that
 * select reads and insert, update, delete and deleteAll replace entries of.
 */
module InMemory {
  import opened Wrappers
  import opened Proto
  import opened Naming

  /** The rows `getList` hands back: a table never touched reads as empty. */
  function Rows(tables: map<string, seq<Message>>, tableName: string): seq<Message>
  {
    if tableName in tables then tables[tableName] else []
  }

  /**
   * `passesFilter`: without an identity value every message passes; otherwise the field
   * named by the (defaulted) identity field name must exist and hold a string, and the
   * message passes when that string equals the identity value.
   */
  function PassesFilter(m: Message, idName: Option<string>, id: Option<string>): (r: Result<bool, Error>)
    ensures id.None? ==> r == Ok(true)
    ensures id.Some? && FindField(m.desc, DefaultIdName(idName)).None? ==> r == Err(NoSuchField(DefaultIdName(idName)))
  {
    if id.None? then Ok(true)
    else
      var name := DefaultIdName(idName);
      match FindField(m.desc, name)
      case None => Err(NoSuchField(name))
      case Some(f) =>
        match GetField(m, f)
        case Str(s) => Ok(id.value == s)
        case _ => Err(NotAString)
  }

  /** A row passes when its identity field holds the identity string, and fails when it holds another string. */
  lemma PassesFilterMatches(m: Message, idName: Option<string>, id: Option<string>)
    ensures PassesFilter(m, idName, id) == Ok(true) && id.Some? ==>
      exists f :: f in m.desc.fields && f.name == DefaultIdName(idName) && GetField(m, f) == Str(id.value)
    ensures PassesFilter(m, idName, id) == Ok(false) ==>
      id.Some? && exists f, s :: f in m.desc.fields && f.name == DefaultIdName(idName) && GetField(m, f) == Str(s) && s != id.value
  {
  }

  /**
   * With the identity field known, the check is decided by that field alone: its string
   * equal to the identity passes, another string fails, any other value throws.
   */
  lemma PassesFilterByField(m: Message, idName: Option<string>, id: string, f: Field)
    requires UniqueNames(m.desc.fields)
    requires f in m.desc.fields && f.name == DefaultIdName(idName)
    ensures GetField(m, f).Str? ==> PassesFilter(m, idName, Some(id)) == Ok(GetField(m, f).s == id)
    ensures !GetField(m, f).Str? ==> PassesFilter(m, idName, Some(id)) == Err(NotAString)
  {
    FindFieldInUnique(m.desc.fields, f);
  }

  /** The rows that pass the filter, in their order; the first row whose check throws decides the error. */
  function Filtered(rows: seq<Message>, idName: Option<string>, id: Option<string>): (r: Result<seq<Message>, Error>)
    ensures r.Ok? ==> |r.value| <= |rows|
  {
    if rows == [] then Ok([])
    else
      var last := rows[|rows| - 1];
      match Filtered(rows[..|rows| - 1], idName, id)
      case Err(e) => Err(e)
      case Ok(out) =>
        match PassesFilter(last, idName, id)
        case Err(e) => Err(e)
        case Ok(keep) => Ok(if keep then out + [last] else out)
  }

  /** What `select` answers for a table: "not found" for a table never touched, else the filtered rows. */
  function Selected(tables: map<string, seq<Message>>, tableName: string, idName: Option<string>, id: Option<string>)
    : Result<Option<seq<Message>>, Error>
  {
    if tableName !in tables then Ok(None)
    else match Filtered(tables[tableName], idName, id)
      case Err(e) => Err(e)
      case Ok(out) => Ok(Some(out))
  }

  /** A table never touched is "not found"; an emptied one is found and empty, whatever the filter. */
  lemma SelectedUntouchedOrEmptied(tables: map<string, seq<Message>>, tableName: string, idName: Option<string>, id: Option<string>)
    ensures tableName !in tables ==> Selected(tables, tableName, idName, id) == Ok(None)
    ensures Selected(tables[tableName := []], tableName, idName, id) == Ok(Some([]))
  {
  }

  /** Each row whose `f` value equals `key` replaced by `m`, the others kept, in order. */
  function Replaced(rows: seq<Message>, f: Field, key: Value, m: Message): (r: seq<Message>)
    ensures |r| == |rows|
  {
    if rows == [] then []
    else
      var last := rows[|rows| - 1];
      Replaced(rows[..|rows| - 1], f, key, m) + [if GetField(last, f) == key then m else last]
  }

  /** The rows whose `f` value differs from `key`, in order. */
  function Without(rows: seq<Message>, f: Field, key: Value): (r: seq<Message>)
    ensures |r| <= |rows|
    ensures forall x :: x in r ==> x in rows && GetField(x, f) != key
  {
    if rows == [] then []
    else
      var last := rows[|rows| - 1];
      Without(rows[..|rows| - 1], f, key) + (if GetField(last, f) != key then [last] else [])
  }

  /** A non-empty sequence is all but its last element, then that element. */
  lemma InitLast<T>(rows: seq<T>)
    requires rows != []
    ensures rows[..|rows| - 1] + [rows[|rows| - 1]] == rows
  {
  }

  // ----- select -----

  /** Without an identity value nothing is filtered out. */
  lemma {:induction false} FilteredNoId(rows: seq<Message>, idName: Option<string>)
    ensures Filtered(rows, idName, None) == Ok(rows)
    decreases |rows|
  {
    if rows != [] {
      FilteredNoId(rows[..|rows| - 1], idName);
      InitLast(rows);
    }
  }

  /** The filter throws exactly when the check of some row throws. */
  lemma {:induction false} FilteredFailsIff(rows: seq<Message>, idName: Option<string>, id: Option<string>)
    ensures Filtered(rows, idName, id).Err? <==> exists k :: 0 <= k < |rows| && PassesFilter(rows[k], idName, id).Err?
    decreases |rows|
  {
    if rows != [] {
      var init := rows[..|rows| - 1];
      var last := rows[|rows| - 1];
      FilteredFailsIff(init, idName, id);
      if exists k :: 0 <= k < |init| && PassesFilter(init[k], idName, id).Err? {
        var k :| 0 <= k < |init| && PassesFilter(init[k], idName, id).Err?;
        assert rows[k] == init[k];
      } else if PassesFilter(last, idName, id).Err? {
      } else {
        forall k | 0 <= k < |rows| ensures PassesFilter(rows[k], idName, id).Ok? {
          if k < |init| {
            assert rows[k] == init[k];
          } else {
            assert rows[k] == last;
          }
        }
      }
    }
  }

  /** Every kept row is a row of the table that passes the filter. */
  lemma {:induction false} FilteredSound(rows: seq<Message>, idName: Option<string>, id: Option<string>, m: Message)
    requires Filtered(rows, idName, id).Ok? && m in Filtered(rows, idName, id).value
    ensures m in rows && PassesFilter(m, idName, id) == Ok(true)
    decreases |rows|
  {
    var init := rows[..|rows| - 1];
    var last := rows[|rows| - 1];
    assert Filtered(init, idName, id).Ok?;
    if m in Filtered(init, idName, id).value {
      FilteredSound(init, idName, id, m);
      InitLast(rows);
    }
  }

  /** Every row that passes is kept. */
  lemma {:induction false} FilteredComplete(rows: seq<Message>, idName: Option<string>, id: Option<string>, m: Message)
    requires Filtered(rows, idName, id).Ok?
    requires m in rows && PassesFilter(m, idName, id) == Ok(true)
    ensures m in Filtered(rows, idName, id).value
    decreases |rows|
  {
    var init := rows[..|rows| - 1];
    if m != rows[|rows| - 1] {
      InitLast(rows);
      FilteredComplete(init, idName, id, m);
    }
  }

  /**
   * Selecting by an identity returns exactly the stored rows whose identity field holds it
   * (for rows whose descriptor has unique field names, as protobuf descriptors do).
   */
  lemma FilteredExactly(rows: seq<Message>, idName: Option<string>, id: string, x: Message)
    requires Filtered(rows, idName, Some(id)).Ok?
    requires UniqueNames(x.desc.fields)
    ensures x in Filtered(rows, idName, Some(id)).value <==>
      x in rows && exists f :: f in x.desc.fields && f.name == DefaultIdName(idName) && GetField(x, f) == Str(id)
  {
    if x in Filtered(rows, idName, Some(id)).value {
      FilteredSound(rows, idName, Some(id), x);
      PassesFilterMatches(x, idName, Some(id));
    }
    if x in rows && exists f :: f in x.desc.fields && f.name == DefaultIdName(idName) && GetField(x, f) == Str(id) {
      var f :| f in x.desc.fields && f.name == DefaultIdName(idName) && GetField(x, f) == Str(id);
      PassesFilterByField(x, idName, id, f);
      FilteredComplete(rows, idName, Some(id), x);
    }
  }

  /** One more row: the filter of the longer table is the filter of the shorter one, then that row's check. */
  lemma FilteredSnoc(rows: seq<Message>, x: Message, idName: Option<string>, id: Option<string>)
    ensures Filtered(rows + [x], idName, id) ==
      match Filtered(rows, idName, id)
      case Err(e) => Err(e)
      case Ok(out) =>
        match PassesFilter(x, idName, id)
        case Err(e) => Err(e)
        case Ok(keep) => Ok(if keep then out + [x] else out)
  {
    assert (rows + [x])[..|rows|] == rows;
  }

  /** Filtering a concatenation filters each part: the kept rows stay in their original order. */
  lemma {:induction false} FilteredAppend(a: seq<Message>, b: seq<Message>, idName: Option<string>, id: Option<string>)
    requires Filtered(a, idName, id).Ok? && Filtered(b, idName, id).Ok?
    ensures Filtered(a + b, idName, id) == Ok(Filtered(a, idName, id).value + Filtered(b, idName, id).value)
    decreases |b|
  {
    if b == [] {
      assert a + b == a;
      assert Filtered(a, idName, id).value + [] == Filtered(a, idName, id).value;
    } else {
      var binit := b[..|b| - 1];
      var last := b[|b| - 1];
      FilteredSnoc(binit, last, idName, id);
      InitLast(b);
      FilteredAppend(a, binit, idName, id);
      FilteredAppendStep(a, binit, last, idName, id);
    }
  }

  lemma FilteredAppendStep(a: seq<Message>, b: seq<Message>, last: Message, idName: Option<string>, id: Option<string>)
    requires Filtered(a, idName, id).Ok? && Filtered(b + [last], idName, id).Ok?
    requires Filtered(a + b, idName, id) == Ok(Filtered(a, idName, id).value + Filtered(b, idName, id).value)
    ensures Filtered(a + (b + [last]), idName, id) == Ok(Filtered(a, idName, id).value + Filtered(b + [last], idName, id).value)
  {
    FilteredSnoc(b, last, idName, id);
    FilteredSnoc(a + b, last, idName, id);
    SnocAssoc(a, b, last);
    var fa := Filtered(a, idName, id).value;
    var fb := Filtered(b, idName, id).value;
    SnocAssoc(fa, fb, last);
  }

  /** Appending one element after a concatenation regroups. */
  lemma SnocAssoc<T>(a: seq<T>, b: seq<T>, x: T)
    ensures a + b + [x] == a + (b + [x])
  {
  }

  /** Once a prefix throws, the whole filter throws the same error. */
  lemma {:induction false} FilteredPrefixErr(rows: seq<Message>, n: nat, idName: Option<string>, id: Option<string>)
    requires n <= |rows| && Filtered(rows[..n], idName, id).Err?
    ensures Filtered(rows, idName, id) == Filtered(rows[..n], idName, id)
    decreases |rows| - n
  {
    if n < |rows| {
      assert rows[..n + 1][..n] == rows[..n];
      FilteredPrefixErr(rows, n + 1, idName, id);
    } else {
      assert rows[..n] == rows;
    }
  }

  // ----- update -----

  /** Each position of the result: the message where the old row's `f` value was `key`, else the old row. */
  lemma {:induction false} ReplacedAt(rows: seq<Message>, f: Field, key: Value, m: Message, i: nat)
    requires i < |rows|
    ensures Replaced(rows, f, key, m)[i] == if GetField(rows[i], f) == key then m else rows[i]
    decreases |rows|
  {
    if i < |rows| - 1 {
      ReplacedAt(rows[..|rows| - 1], f, key, m, i);
    }
  }

  /** After an update keyed on the message's own identity, every row with that identity is the message. */
  lemma ReplacedKeyedRowsAreMessage(rows: seq<Message>, f: Field, m: Message, i: nat)
    requires i < |rows|
    requires GetField(Replaced(rows, f, GetField(m, f), m)[i], f) == GetField(m, f)
    ensures Replaced(rows, f, GetField(m, f), m)[i] == m
  {
    ReplacedAt(rows, f, GetField(m, f), m, i);
  }

  /** A re-keying update leaves no row under the previous identity unless the message keeps it. */
  lemma ReplacedDropsPreviousKey(rows: seq<Message>, f: Field, previous: Value, m: Message, i: nat)
    requires i < |rows| && GetField(m, f) != previous
    ensures GetField(Replaced(rows, f, previous, m)[i], f) != previous
  {
    ReplacedAt(rows, f, previous, m, i);
  }

  /** Repeating an update keyed on the message's own identity changes nothing more. */
  lemma ReplacedIdempotent(rows: seq<Message>, f: Field, m: Message)
    ensures Replaced(Replaced(rows, f, GetField(m, f), m), f, GetField(m, f), m) == Replaced(rows, f, GetField(m, f), m)
  {
    var once := Replaced(rows, f, GetField(m, f), m);
    var twice := Replaced(once, f, GetField(m, f), m);
    forall i | 0 <= i < |rows| ensures twice[i] == once[i] {
      ReplacedAt(once, f, GetField(m, f), m, i);
      ReplacedAt(rows, f, GetField(m, f), m, i);
    }
  }

  /** An update whose key no row holds leaves the rows as they were. */
  lemma ReplacedNoMatch(rows: seq<Message>, f: Field, key: Value, m: Message)
    requires forall i :: 0 <= i < |rows| ==> GetField(rows[i], f) != key
    ensures Replaced(rows, f, key, m) == rows
  {
    forall i | 0 <= i < |rows| ensures Replaced(rows, f, key, m)[i] == rows[i] {
      ReplacedAt(rows, f, key, m, i);
    }
  }

  // ----- delete -----

  /** Every row whose `f` value differs from `key` survives the delete. */
  lemma {:induction false} WithoutKeepsOthers(rows: seq<Message>, f: Field, key: Value, x: Message)
    requires x in rows && GetField(x, f) != key
    ensures x in Without(rows, f, key)
    decreases |rows|
  {
    var init := rows[..|rows| - 1];
    if x != rows[|rows| - 1] {
      InitLast(rows);
      WithoutKeepsOthers(init, f, key, x);
    }
  }

  /** A delete whose key no row holds leaves the rows untouched. */
  lemma {:induction false} WithoutNoMatch(rows: seq<Message>, f: Field, key: Value)
    requires forall i :: 0 <= i < |rows| ==> GetField(rows[i], f) != key
    ensures Without(rows, f, key) == rows
    decreases |rows|
  {
    if rows != [] {
      WithoutNoMatch(rows[..|rows| - 1], f, key);
      InitLast(rows);
    }
  }

  /** Removing position `i` of all but the last element, then putting the last back, removes position `i`. */
  lemma RemoveBeforeLast<T>(rows: seq<T>, i: nat)
    requires i < |rows| - 1
    ensures rows[..|rows| - 1][..i] + rows[..|rows| - 1][i + 1..] + [rows[|rows| - 1]] == rows[..i] + rows[i + 1..]
  {
    var init := rows[..|rows| - 1];
    var lhs := init[..i] + init[i + 1..] + [rows[|rows| - 1]];
    var rhs := rows[..i] + rows[i + 1..];
    forall k | 0 <= k < |lhs| ensures lhs[k] == rhs[k] {
      if k < i {
        assert lhs[k] == init[k];
      } else if k < |lhs| - 1 {
        assert lhs[k] == init[k + 1];
      }
    }
  }

  /** When exactly one row holds the key, the delete removes that row and only it. */
  lemma {:induction false} WithoutUnique(rows: seq<Message>, f: Field, key: Value, i: nat)
    requires i < |rows| && GetField(rows[i], f) == key
    requires forall j :: 0 <= j < |rows| && j != i ==> GetField(rows[j], f) != key
    ensures Without(rows, f, key) == rows[..i] + rows[i + 1..]
    ensures |Without(rows, f, key)| == |rows| - 1
    decreases |rows|
  {
    var init := rows[..|rows| - 1];
    if i < |rows| - 1 {
      WithoutUnique(init, f, key, i);
      RemoveBeforeLast(rows, i);
    } else {
      assert init == rows[..i];
      WithoutNoMatch(init, f, key);
      assert rows[i + 1..] == [];
    }
  }

  /** Deleting twice by the same key is deleting once. */
  lemma WithoutIdempotent(rows: seq<Message>, f: Field, key: Value)
    ensures Without(Without(rows, f, key), f, key) == Without(rows, f, key)
  {
    var once := Without(rows, f, key);
    forall i | 0 <= i < |once| ensures GetField(once[i], f) != key {
      assert once[i] in once;
    }
    WithoutNoMatch(once, f, key);
  }

  /** `InMemoryProtobufPersistence`: the message lists by table name. */
  class Store {
    var protobufs: map<string, seq<Message>>

    constructor()
      ensures protobufs == map[]
    {
      protobufs := map[];
    }

    /** `innerSelect`: "not found" for a table never touched, else the rows that pass the filter. */
    method InnerSelect(idName: Option<string>, id: Option<string>, tableName: string) returns (r: Result<Option<seq<Message>>, Error>)
      ensures r == Selected(protobufs, tableName, idName, id)
    {
      if tableName !in protobufs {
        return Ok(None);
      }
      var allMessages := protobufs[tableName];
      var filteredMessages: seq<Message> := [];
      for i := 0 to |allMessages|
        invariant Filtered(allMessages[..i], idName, id) == Ok(filteredMessages)
      {
        assert allMessages[..i + 1][..i] == allMessages[..i];
        var passes := PassesFilter(allMessages[i], idName, id);
        if passes.Err? {
          FilteredPrefixErr(allMessages, i + 1, idName, id);
          return Err(passes.error);
        }
        if passes.value {
          filteredMessages := filteredMessages + [allMessages[i]];
        }
      }
      assert allMessages[..|allMessages|] == allMessages;
      return Ok(Some(filteredMessages));
    }

    /** `getList`: the table's rows, creating an empty list for a table never touched. */
    method GetList(tableName: string) returns (list: seq<Message>)
      modifies this
      ensures protobufs == old(protobufs)[tableName := Rows(old(protobufs), tableName)]
      ensures list == Rows(old(protobufs), tableName)
    {
      if tableName !in protobufs {
        protobufs := protobufs[tableName := []];
      }
      list := protobufs[tableName];
    }

    /** `setList`: the table's rows become `newList`. */
    method SetList(tableName: string, newList: seq<Message>)
      modifies this
      ensures protobufs == old(protobufs)[tableName := newList]
    {
      protobufs := protobufs[tableName := newList];
    }

    /** `innerInsert`: the message goes at the end of the table, with no uniqueness check. */
    method InnerInsert(m: Message, f: Field, tableName: string)
      modifies this
      ensures protobufs == old(protobufs)[tableName := Rows(old(protobufs), tableName) + [m]]
    {
      var list := GetList(tableName);
      SetList(tableName, list + [m]);
    }

    /** `innerUpdate` without a previous identity: rows keyed like the message become the message. */
    method InnerUpdate(m: Message, f: Field, tableName: string)
      modifies this
      ensures protobufs == old(protobufs)[tableName := Replaced(Rows(old(protobufs), tableName), f, GetField(m, f), m)]
    {
      var existingList := GetList(tableName);
      var id := GetField(m, f);
      var newList: seq<Message> := [];
      for i := 0 to |existingList|
        invariant newList == Replaced(existingList[..i], f, id, m)
      {
        assert existingList[..i + 1][..i] == existingList[..i];
        if GetField(existingList[i], f) == id {
          newList := newList + [m];
        } else {
          newList := newList + [existingList[i]];
        }
      }
      assert existingList[..|existingList|] == existingList;
      SetList(tableName, newList);
    }

    /**
     * `innerUpdate` with a previous identity: rows keyed by the previous identity become the
     * message; with none it is the public plain update, which derives the table name itself.
     */
    method InnerUpdateFrom(m: Message, f: Field, tableName: string, previousId: Option<Value>)
      modifies this
      ensures previousId.None? ==>
        protobufs == old(protobufs)[TableName(m.desc.fullName) :=
          Replaced(Rows(old(protobufs), TableName(m.desc.fullName)), f, GetField(m, f), m)]
      ensures previousId.Some? ==>
        protobufs == old(protobufs)[tableName := Replaced(Rows(old(protobufs), tableName), f, previousId.value, m)]
    {
      if previousId.None? {
        Update(m, f);
        return;
      }
      var existingList := GetList(tableName);
      var newList: seq<Message> := [];
      for i := 0 to |existingList|
        invariant newList == Replaced(existingList[..i], f, previousId.value, m)
      {
        assert existingList[..i + 1][..i] == existingList[..i];
        if GetField(existingList[i], f) != previousId.value {
          newList := newList + [existingList[i]];
        } else {
          newList := newList + [m];
        }
      }
      assert existingList[..|existingList|] == existingList;
      SetList(tableName, newList);
    }

    /** `innerDeleteAll`: the table becomes empty (and now exists). */
    method InnerDeleteAll(desc: Descriptor, tableName: string)
      modifies this
      ensures protobufs == old(protobufs)[tableName := []]
    {
      protobufs := protobufs[tableName := []];
    }

    /** `innerDelete`: the rows keyed like the message are dropped, the others kept in order. */
    method InnerDelete(m: Message, f: Field, tableName: string)
      modifies this
      ensures protobufs == old(protobufs)[tableName := Without(Rows(old(protobufs), tableName), f, GetField(m, f))]
    {
      var existingList := GetList(tableName);
      var id := GetField(m, f);
      var newList: seq<Message> := [];
      for i := 0 to |existingList|
        invariant newList == Without(existingList[..i], f, id)
      {
        assert existingList[..i + 1][..i] == existingList[..i];
        if GetField(existingList[i], f) != id {
          newList := newList + [existingList[i]];
        }
      }
      assert existingList[..|existingList|] == existingList;
      SetList(tableName, newList);
    }

    /** The in-memory engine has no transactions: starting one changes nothing. */
    method StartTransaction()
      ensures protobufs == old(protobufs)
    {
    }

    /** Rolling back changes nothing. */
    method Rollback()
      ensures protobufs == old(protobufs)
    {
    }

    /** Committing changes nothing. */
    method Commit()
      ensures protobufs == old(protobufs)
    {
    }

    // ----- the public operations shared with the other engine -----

    /** `select`: the table named after the requested type, the identity field name defaulted only with an identity value. */
    method Select(idName: Option<string>, id: Option<string>, desc: Descriptor) returns (r: Result<Option<seq<Message>>, Error>)
      ensures r == Selected(protobufs, TableName(desc.fullName), SelectIdName(idName, id), id)
    {
      var tableName := TableName(desc.fullName);
      r := InnerSelect(SelectIdName(idName, id), id, tableName);
    }

    /** `insert`: into the table named after the message's type. */
    method Insert(m: Message, f: Field)
      modifies this
      ensures protobufs == old(protobufs)[TableName(m.desc.fullName) := Rows(old(protobufs), TableName(m.desc.fullName)) + [m]]
    {
      InnerInsert(m, f, TableName(m.desc.fullName));
    }

    /** `update`: in the table named after the message's type. */
    method Update(m: Message, f: Field)
      modifies this
      ensures protobufs == old(protobufs)[TableName(m.desc.fullName) :=
        Replaced(Rows(old(protobufs), TableName(m.desc.fullName)), f, GetField(m, f), m)]
    {
      InnerUpdate(m, f, TableName(m.desc.fullName));
    }

    /** `update` with a previous identity: in the table named after the message's type. */
    method UpdateFrom(m: Message, f: Field, previousId: Option<Value>)
      modifies this
      ensures protobufs == old(protobufs)[TableName(m.desc.fullName) :=
        Replaced(Rows(old(protobufs), TableName(m.desc.fullName)), f,
                 if previousId.Some? then previousId.value else GetField(m, f), m)]
    {
      InnerUpdateFrom(m, f, TableName(m.desc.fullName), previousId);
    }

    /** `delete`: from the table named after the message's type. */
    method Delete(m: Message, f: Field)
      modifies this
      ensures protobufs == old(protobufs)[TableName(m.desc.fullName) :=
        Without(Rows(old(protobufs), TableName(m.desc.fullName)), f, GetField(m, f))]
    {
      InnerDelete(m, f, TableName(m.desc.fullName));
    }

    /** `deleteAll`: empties the table named after the type. */
    method DeleteAll(desc: Descriptor)
      modifies this
      ensures protobufs == old(protobufs)[TableName(desc.fullName) := []]
    {
      InnerDeleteAll(desc, TableName(desc.fullName));
    }
  }
}
