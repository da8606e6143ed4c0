/**
 * The rules every persistence engine shares: how a message type's table is named,
 * and how an absent identity-field name or identity value is defaulted.
 */
module Naming {
  import opened Wrappers
  import opened Proto

  /** The conventional identity field name. */
  const DEFAULT_ID_NAME := "id"

  /** The characters a Java regex `.` does not match (without DOTALL). */
  predicate IsLineTerminator(c: char)
  {
    c == '\n' || c == '\r' || c == '\U{0085}' || c == '\U{2028}' || c == '\U{2029}'
  }

  /** The regex `domain.` matches `s` at index `i`: "domain" followed by any one non-line-terminator. */
  predicate DomainAt(s: string, i: nat)
  {
    i + 7 <= |s| && s[i..i + 6] == "domain" && !IsLineTerminator(s[i + 6])
  }

  /** The leftmost index at or after `from` where `domain.` matches, as a regex search finds it. */
  function FirstDomainMatch(s: string, from: nat): (r: Option<nat>)
    ensures r.Some? ==> from <= r.value && DomainAt(s, r.value)
    ensures r.Some? ==> forall j :: from <= j < r.value ==> !DomainAt(s, j)
    ensures r.None? ==> forall j :: from <= j ==> !DomainAt(s, j)
    decreases |s| - from
  {
    if from + 7 > |s| then None
    else if DomainAt(s, from) then Some(from)
    else FirstDomainMatch(s, from + 1)
  }

  /** `s.replaceFirst("domain.", "")`: the first match of the regex, if any, is cut out. */
  function ReplaceFirstDomain(s: string): (r: string)
    ensures |r| <= |s|
  {
    match FirstDomainMatch(s, 0)
    case None => s
    case Some(i) => s[..i] + s[i + 7..]
  }

  /** `s.replaceAll("\\.", "_")`: every dot becomes an underscore, nothing else changes. */
  function DotsToUnderscores(s: string): (r: string)
    ensures |r| == |s|
    ensures forall k :: 0 <= k < |s| ==> r[k] == (if s[k] == '.' then '_' else s[k])
    ensures '.' !in r
  {
    if s == [] then []
    else [if s[0] == '.' then '_' else s[0]] + DotsToUnderscores(s[1..])
  }

  /** `getTableName`: the table a message type is stored in, derived from its fully qualified name. */
  function TableName(fullName: string): (r: string)
    ensures '.' !in r
    ensures |r| <= |fullName|
  {
    DotsToUnderscores(ReplaceFirstDomain(fullName))
  }

  /** A full name in which `domain.` never matches keeps its length; only its dots change. */
  lemma TableNameWithoutDomain(fullName: string)
    requires forall j :: !DomainAt(fullName, j)
    ensures |TableName(fullName)| == |fullName|
    ensures forall k :: 0 <= k < |fullName| ==>
      TableName(fullName)[k] == (if fullName[k] == '.' then '_' else fullName[k])
  {
    assert FirstDomainMatch(fullName, 0).None?;
  }

  /** Otherwise exactly the seven characters of the leftmost match are dropped, wherever it is. */
  lemma TableNameDropsFirstMatch(fullName: string, i: nat)
    requires DomainAt(fullName, i)
    requires forall j :: 0 <= j < i ==> !DomainAt(fullName, j)
    ensures |TableName(fullName)| == |fullName| - 7
    ensures TableName(fullName) == DotsToUnderscores(fullName[..i] + fullName[i + 7..])
  {
  }

  /** The regex is not anchored: a "domain" inside a package name is cut out together with the next character. */
  lemma ReplaceFirstDomainInner()
    ensures ReplaceFirstDomain("org.subdomainA.Request") == "org.sub.Request"
  {
    var s := "org.subdomainA.Request";
    assert s[7..13] == "domain";
    assert DomainAt(s, 7);
    forall j | 0 <= j < 7 ensures !DomainAt(s, j) {
      assert s[j] != 'd';
      assert s[j..j + 6][0] == s[j];
    }
    assert FirstDomainMatch(s, 0) == Some(7);
    assert s[..7] + s[14..] == "org.sub.Request";
  }

  /**
   * The schema names a table by the type's simple name, the engines by its full name: for a
   * type in a package where `domain.` never matches, the two names differ.
   */
  lemma EngineTableIsNotSchemaTable(packageName: string, simpleName: string)
    requires packageName != []
    requires forall j :: !DomainAt(packageName + "." + simpleName, j)
    ensures TableName(packageName + "." + simpleName) != simpleName
  {
    TableNameWithoutDomain(packageName + "." + simpleName);
  }

  /** In the default package the two names agree, when the name has no dot and no match. */
  lemma DefaultPackageTableIsSchemaTable(simpleName: string)
    requires '.' !in simpleName
    requires forall j :: !DomainAt(simpleName, j)
    ensures TableName(simpleName) == simpleName
  {
    TableNameWithoutDomain(simpleName);
  }

  /** In the package `domain` the two names agree, as long as the simple name has no dot. */
  lemma DomainPackageTableIsSchemaTable(simpleName: string)
    requires '.' !in simpleName
    ensures TableName("domain." + simpleName) == simpleName
  {
    var fullName := "domain." + simpleName;
    assert fullName[..6] == "domain" && fullName[6] == '.';
    assert DomainAt(fullName, 0);
    TableNameDropsFirstMatch(fullName, 0);
    assert fullName[..0] + fullName[7..] == simpleName;
    var r := DotsToUnderscores(simpleName);
    assert forall k :: 0 <= k < |simpleName| ==> r[k] == simpleName[k];
  }

  /** `setDefaultIdFieldNameIfNecessary`: a missing identity field name becomes "id". */
  function DefaultIdName(idName: Option<string>): (r: string)
    ensures idName.Some? ==> r == idName.value
    ensures idName.None? ==> r == DEFAULT_ID_NAME
  {
    if idName.None? then DEFAULT_ID_NAME else idName.value
  }

  /** Defaulting an already defaulted name changes nothing. */
  lemma DefaultIdNameIdempotent(idName: Option<string>)
    ensures DefaultIdName(Some(DefaultIdName(idName))) == DefaultIdName(idName)
  {
  }

  /** The identity field name `select` hands on: defaulted only when an identity value is given. */
  function SelectIdName(idName: Option<string>, id: Option<string>): (r: Option<string>)
    ensures id.Some? ==> r.Some?
    ensures id.Some? && idName.None? ==> r == Some(DEFAULT_ID_NAME)
    ensures idName.Some? ==> r == idName
    ensures id.None? ==> r == idName
  {
    if id.Some? then Some(DefaultIdName(idName)) else idName
  }

  /**
   * `getDefaultIdIfNecessary`: a given identity value is kept; otherwise the message's
   * "id" field must exist and hold a string, which becomes the identity value.
   */
  function DefaultId(m: Message, id: Option<string>): (r: Result<string, Error>)
    ensures id.Some? ==> r == Ok(id.value)
    ensures id.None? && FindField(m.desc, DEFAULT_ID_NAME).None? ==> r == Err(MissingIdField)
    ensures id.None? && r.Ok? ==>
      exists f :: f in m.desc.fields && f.name == DEFAULT_ID_NAME && GetField(m, f) == Str(r.value)
  {
    if id.Some? then Ok(id.value)
    else match FindField(m.desc, DEFAULT_ID_NAME)
      case None => Err(MissingIdField)
      case Some(f) =>
        match GetField(m, f)
        case Str(s) => Ok(s)
        case _ => Err(NotAString)
  }

  /**
   * Without a given identity, the message's `id` field decides: a string is the identity,
   * any other value throws.
   */
  lemma DefaultIdFromField(m: Message, f: Field)
    requires UniqueNames(m.desc.fields)
    requires f in m.desc.fields && f.name == DEFAULT_ID_NAME
    ensures GetField(m, f).Str? ==> DefaultId(m, None) == Ok(GetField(m, f).s)
    ensures !GetField(m, f).Str? ==> DefaultId(m, None) == Err(NotAString)
  {
    FindFieldInUnique(m.desc.fields, f);
  }
}
