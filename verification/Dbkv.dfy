/** The typed key-value table with its update marker.

  `Store` follows the transactions; `Apply` says what one call makes of a table, and `RunKeepsValid`
  what every sequence of calls keeps. */
module Dbkv {
  import opened Seqs
  import Decimal

  const MARKER_KEY := "__last_updated__"
  const MARKER_DESCRIPTION := "Last update time in Unix nanoseconds"
  const MAX_NAME := 191

  newtype Int64 = x: int | -0x8000_0000_0000_0000 <= x < 0x8000_0000_0000_0000

  datatype Format = FormatInt64 | FormatBool | FormatJsonStr | FormatString | Unsupported

  /** A value as the caller hands it over; `Other` is any other type. */
  datatype Value = IntValue(i: Int64) | BoolValue(b: bool) | TextValue(s: string) | Other

  datatype Entry = Entry(key: string, format: Format, value: string, description: string, visible: bool)

  type Table = map<string, Entry>
  type JsonValid = string -> bool

  datatype Failure = NotInitialized | NameRequired | NameTooLong | ReservedName | InvalidValue | FormatMismatch
    | NotFound
  datatype Result<+T> = Ok(value: T) | Err(failure: Failure)

  // ----- values and their text -----

  /** JSON validity is a parameter. */
  predicate CheckFormat(format: Format, value: Value, jsonValid: JsonValid) {
    match format
    case FormatInt64 => value.IntValue?
    case FormatBool => value.BoolValue?
    case FormatJsonStr => value.TextValue? && jsonValid(value.s)
    case FormatString => value.TextValue?
    case Unsupported => false
  }

  function DecodeValue(format: Format, text: string, jsonValid: JsonValid): Option<Value> {
    match format
    case FormatInt64 =>
      var i := Decimal.ParseInt(text);
      if i.Some? then Some(IntValue(i.value as Int64)) else None
    case FormatBool =>
      if text == "true" then Some(BoolValue(true)) else if text == "false" then Some(BoolValue(false)) else None
    case FormatJsonStr => if jsonValid(text) then Some(TextValue(text)) else None
    case FormatString => Some(TextValue(text))
    case Unsupported => None
  }

  function EncodeValue(value: Value): string {
    match value
    case IntValue(i) => Decimal.FormatInt(i as int)
    case BoolValue(b) => if b then "true" else "false"
    case TextValue(s) => s
    case Other => ""
  }

  /** What is stored for a value reads back as that value, for every value its format accepts. */
  lemma DecodeEncode(format: Format, value: Value, jsonValid: JsonValid)
    requires CheckFormat(format, value, jsonValid)
    ensures DecodeValue(format, EncodeValue(value), jsonValid) == Some(value)
  {
    if value.IntValue? {
      Decimal.ParseFormatInt(value.i as int);
    }
  }

  /** Which texts a format accepts, and as what: 64-bit decimal integers, the two words, JSON texts and any texts; other
      formats accept none. */
  lemma DecodeIs(format: Format, text: string, jsonValid: JsonValid, value: Value)
    ensures DecodeValue(format, text, jsonValid) == Some(value) <==>
      || (format == FormatInt64 && value.IntValue? && Decimal.ParseInt(text) == Some(value.i as int))
      || (format == FormatBool && text == "true" && value == BoolValue(true))
      || (format == FormatBool && text == "false" && value == BoolValue(false))
      || (format == FormatJsonStr && value == TextValue(text) && jsonValid(text))
      || (format == FormatString && value == TextValue(text))
  {
  }

  /** A readable text always decodes to a value its format accepts, and re-encoding is idempotent. */
  lemma Canonical(format: Format, text: string, jsonValid: JsonValid)
    requires DecodeValue(format, text, jsonValid).Some?
    ensures var value := DecodeValue(format, text, jsonValid).value;
      && CheckFormat(format, value, jsonValid)
      && DecodeValue(format, EncodeValue(value), jsonValid) == Some(value)
      && (!format.FormatInt64? ==> EncodeValue(value) == text)
  {
    DecodeEncode(format, DecodeValue(format, text, jsonValid).value, jsonValid);
  }

  // ----- names -----

  predicate IsSpace(c: char) {
    c == ' ' || 9 <= c as int <= 13 || c as int == 0x85 || c as int == 0xA0
  }

  function TrimLeft(s: string): string {
    if s != "" && IsSpace(s[0]) then TrimLeft(s[1..]) else s
  }

  function TrimRight(s: string): string {
    if s != "" && IsSpace(s[|s| - 1]) then TrimRight(s[..|s| - 1]) else s
  }

  /** `strings.TrimSpace` */
  function Trim(s: string): string {
    TrimRight(TrimLeft(s))
  }

  function LowerChar(c: char): char {
    if 'A' <= c <= 'Z' then c + ('a' - 'A') else c
  }

  /** `strings.ToLower` on ASCII letters. */
  function Lower(s: string): (r: string)
    ensures |r| == |s|
    ensures forall i :: 0 <= i < |s| ==> r[i] == LowerChar(s[i])
  {
    seq(|s|, i requires 0 <= i < |s| => LowerChar(s[i]))
  }

  /** A normal name: trimmed, lower-case, 1 to 191 characters. */
  predicate NormalName(s: string) {
    && 1 <= |s| <= MAX_NAME
    && !IsSpace(s[0]) && !IsSpace(s[|s| - 1])
    && forall i :: 0 <= i < |s| ==> !('A' <= s[i] <= 'Z')
  }

  function NormalizeName(name: string): Result<string> {
    var trimmed := Trim(name);
    if trimmed == "" then Err(NameRequired)
    else if |trimmed| > MAX_NAME then Err(NameTooLong)
    else Ok(Lower(trimmed))
  }

  lemma {:induction false} TrimLeftFacts(s: string)
    ensures var r := TrimLeft(s); (r != "" ==> !IsSpace(r[0])) && |r| <= |s|
  {
    if s != "" && IsSpace(s[0]) {
      TrimLeftFacts(s[1..]);
    }
  }

  lemma {:induction false} TrimRightFacts(s: string)
    requires s != "" ==> !IsSpace(s[0])
    ensures var r := TrimRight(s); r != "" ==> !IsSpace(r[0]) && !IsSpace(r[|r| - 1])
  {
    if s != "" && IsSpace(s[|s| - 1]) {
      TrimRightFacts(s[..|s| - 1]);
    }
  }

  /** Every name the API accepts is stored in normal form, and normal names are stored as they are. */
  lemma NamesAreNormal(name: string)
    ensures NormalizeName(name).Ok? ==> NormalName(NormalizeName(name).value)
    ensures NormalName(name) ==> NormalizeName(name) == Ok(name)
  {
    TrimLeftFacts(name);
    TrimRightFacts(TrimLeft(name));
    var trimmed := Trim(name);
    if NormalizeName(name).Ok? {
      assert forall i :: 0 <= i < |trimmed| ==> IsSpace(LowerChar(trimmed[i])) == IsSpace(trimmed[i]);
    }
    if NormalName(name) {
      assert trimmed == name;
      assert Lower(name) == name;
    }
  }

  /** The name without the white space around it reaches from `i` to `j`. */
  ghost predicate Trimmed(name: string, i: int, j: int) {
    && 0 <= i <= j <= |name|
    && (forall k :: 0 <= k < i || j <= k < |name| ==> IsSpace(name[k]))
    && (i < j ==> !IsSpace(name[i]) && !IsSpace(name[j - 1]))
  }

  ghost predicate NamedAt(name: string, key: string, i: int, j: int) {
    && Trimmed(name, i, j) && 1 <= j - i <= 191 && |key| == j - i
    && forall k :: 0 <= k < |key| ==>
         key[k] == if 'A' <= name[i + k] <= 'Z' then (name[i + k] as int + 32) as char else name[i + k]
  }

  /** The key is the name without the white space around it, 1 to 191 characters, in lower case. */
  ghost predicate Names(name: string, key: string) {
    exists i, j :: NamedAt(name, key, i, j)
  }

  lemma SpacesAre(c: char)
    ensures IsSpace(c) <==> c in {' ', '\t', '\n', '\U{B}', '\U{C}', '\r', '\U{85}', '\U{A0}'}
  {
  }

  lemma {:induction false} TrimLeftIs(s: string) returns (i: nat)
    ensures i <= |s| && TrimLeft(s) == s[i..] && forall k :: 0 <= k < i ==> IsSpace(s[k])
  {
    if s != "" && IsSpace(s[0]) {
      i := TrimLeftIs(s[1..]);
      i := i + 1;
      assert forall k :: 1 <= k < i ==> s[k] == s[1..][k - 1];
    } else {
      i := 0;
    }
  }

  lemma {:induction false} TrimRightIs(s: string) returns (j: nat)
    ensures j <= |s| && TrimRight(s) == s[..j] && forall k :: j <= k < |s| ==> IsSpace(s[k])
    ensures j > 0 ==> !IsSpace(s[j - 1])
  {
    if s != "" && IsSpace(s[|s| - 1]) {
      j := TrimRightIs(s[..|s| - 1]);
      assert s[..|s| - 1][..j] == s[..j];
    } else {
      j := |s|;
    }
  }

  lemma TrimIs(name: string) returns (i: nat, j: nat)
    ensures Trimmed(name, i, j) && Trim(name) == name[i..j]
  {
    TrimLeftFacts(name);
    i := TrimLeftIs(name);
    var rest := name[i..];
    j := TrimRightIs(rest);
    assert rest[..j] == name[i..i + j];
    forall k | i + j <= k < |name| ensures IsSpace(name[k]) {
      assert name[k] == rest[k - i];
    }
    if j > 0 {
      assert rest[j - 1] == name[i + j - 1] && rest[0] == name[i];
    }
    j := i + j;
  }

  lemma TrimmedOnce(name: string, i: int, j: int, i': int, j': int)
    requires Trimmed(name, i, j) && Trimmed(name, i', j')
    ensures i < j <==> i' < j'
    ensures i < j ==> i == i' && j == j'
  {
    if i < j {
      assert !IsSpace(name[i]) && !IsSpace(name[j - 1]);
    }
    if i' < j' {
      assert !IsSpace(name[i']) && !IsSpace(name[j' - 1]);
    }
  }

  /** Normalizing gives the key of a name, and fails when there is none. */
  lemma NormalizingNames(name: string, key: string)
    ensures NormalizeName(name) == Ok(key) <==> Names(name, key)
  {
    var i, j := TrimIs(name);
    if NormalizeName(name) == Ok(key) {
      assert NamedAt(name, key, i, j);
    }
    if Names(name, key) {
      var i', j' :| NamedAt(name, key, i', j');
      TrimmedOnce(name, i, j, i', j');
      assert key == Lower(name[i..j]);
    }
  }

  // ----- one call -----

  datatype Call =
    | Set(name: string, format: Format, value: Value, description: string)
    | SetRecord(entry: Entry)
    | Delete(name: string)

  /** The row a Set writes. */
  function NewEntry(name: string, format: Format, value: Value, description: string,
      jsonValid: JsonValid): Result<Entry> {
    var key := NormalizeName(name);
    if key.Err? then Err(key.failure)
    else if key.value == MARKER_KEY then Err(ReservedName)
    else if !CheckFormat(format, value, jsonValid) then Err(InvalidValue)
    else Ok(Entry(key.value, format, EncodeValue(value), description, true))
  }

  function MarkerEntry(nanoseconds: Int64): Entry {
    Entry(MARKER_KEY, FormatInt64, Decimal.FormatInt(nanoseconds as int), MARKER_DESCRIPTION, false)
  }

  function Upsert(table: Table, entry: Entry): Result<Table> {
    if entry.key in table && table[entry.key].format != entry.format then Err(FormatMismatch)
    else Ok(table[entry.key := entry])
  }

  /** What a change makes of a table: its own effect and then the marker, or nothing at all. */
  function Marked(changed: Result<Table>, nanoseconds: Int64): Result<Table> {
    if changed.Err? then changed else Upsert(changed.value, MarkerEntry(nanoseconds))
  }

  /** The row a Set or SetRecord writes; SetRecord stores the canonical text of the value it is given. */
  function RowOf(call: Call, jsonValid: JsonValid): Result<Entry>
    requires !call.Delete?
  {
    match call
    case Set(name, format, value, description) => NewEntry(name, format, value, description, jsonValid)
    case SetRecord(entry) =>
      var value := DecodeValue(entry.format, entry.value, jsonValid);
      if value == None then Err(InvalidValue)
      else NewEntry(entry.key, entry.format, value.value, entry.description, jsonValid)
  }

  /** The key a Delete names. */
  function KeyOf(call: Call): Result<string>
    requires call.Delete?
  {
    var key := NormalizeName(call.name);
    if key == Ok(MARKER_KEY) then Err(ReservedName) else key
  }

  function Removed(table: Table, key: string): Result<Table> {
    if key in table then Ok(table - {key}) else Err(NotFound)
  }

  /** The effect of a call on the table, apart from the marker. */
  function Changed(table: Table, call: Call, jsonValid: JsonValid): Result<Table> {
    if call.Delete? then
      var key := KeyOf(call);
      if key.Err? then Err(key.failure) else Removed(table, key.value)
    else
      var row := RowOf(call, jsonValid);
      if row.Err? then Err(row.failure) else Upsert(table, row.value)
  }

  function Apply(table: Table, call: Call, nanoseconds: Int64, jsonValid: JsonValid): Result<Table> {
    Marked(Changed(table, call, jsonValid), nanoseconds)
  }

  // ----- what a call means -----

  /** The tables differ at most in the row of this key and in the marker, which holds the time of the change. */
  ghost predicate MarkedBeside(before: Table, after: Table, key: string, nanoseconds: Int64) {
    && (forall k :: k != key && k != "__last_updated__" ==>
          (k in after <==> k in before) && (k in before ==> after[k] == before[k]))
    && "__last_updated__" in after
    && after["__last_updated__"].key == "__last_updated__" && !after["__last_updated__"].visible
    && after["__last_updated__"].format == FormatInt64
    && Decimal.ParseInt(after["__last_updated__"].value) == Some(nanoseconds as int)
  }

  /** The canonical text of a value. */
  predicate Writes(text: string, value: Value) {
    match value
    case IntValue(i) => text == Decimal.FormatInt(i as int)
    case BoolValue(b) => text == if b then "true" else "false"
    case TextValue(s) => text == s
    case Other => false
  }

  ghost predicate RowIs(table: Table, key: string, format: Format, value: Value, description: string,
      jsonValid: JsonValid) {
    && key in table && table[key].key == key && table[key].format == format && table[key].visible
    && table[key].description == description && DecodeValue(format, table[key].value, jsonValid) == Some(value)
    && Writes(table[key].value, value)
  }

  /** The row of the name holds the value, in its format and with its description, and is visible. */
  ghost predicate HasSet(before: Table, after: Table, name: string, format: Format, value: Value, description: string,
      nanoseconds: Int64, jsonValid: JsonValid) {
    exists key :: Names(name, key) && key != "__last_updated__"
      && MarkedBeside(before, after, key, nanoseconds) && RowIs(after, key, format, value, description, jsonValid)
  }

  ghost predicate HasDeleted(before: Table, after: Table, name: string, nanoseconds: Int64) {
    exists key :: Names(name, key) && key != "__last_updated__"
      && MarkedBeside(before, after, key, nanoseconds) && key in before && key !in after
  }

  /** What a successful call has done. */
  ghost predicate HasDone(before: Table, after: Table, call: Call, nanoseconds: Int64, jsonValid: JsonValid) {
    match call
    case Set(name, format, value, description) =>
      HasSet(before, after, name, format, value, description, nanoseconds, jsonValid)
    case SetRecord(entry) =>
      var value := DecodeValue(entry.format, entry.value, jsonValid);
      && value.Some?
      && HasSet(before, after, entry.key, entry.format, value.value, entry.description, nanoseconds, jsonValid)
    case Delete(name) => HasDeleted(before, after, name, nanoseconds)
  }

  /** A value may be set where its format accepts it and the row, if there is one, has that format. */
  ghost predicate MaySet(table: Table, name: string, format: Format, value: Value, jsonValid: JsonValid) {
    && CheckFormat(format, value, jsonValid)
    && exists key :: Names(name, key) && key != "__last_updated__" && (key in table ==> table[key].format == format)
  }

  /** What a call demands of the table. */
  ghost predicate MayDo(table: Table, call: Call, jsonValid: JsonValid) {
    match call
    case Set(name, format, value, _) => MaySet(table, name, format, value, jsonValid)
    case SetRecord(entry) =>
      var value := DecodeValue(entry.format, entry.value, jsonValid);
      value.Some? && MaySet(table, entry.key, entry.format, value.value, jsonValid)
    case Delete(name) => exists key :: Names(name, key) && key != "__last_updated__" && key in table
  }

  lemma MarkedIs(before: Table, changed: Table, after: Table, key: string, nanoseconds: Int64)
    requires key != MARKER_KEY && Marked(Ok(changed), nanoseconds) == Ok(after)
    requires forall k :: k != key ==> (k in changed <==> k in before) && (k in before ==> changed[k] == before[k])
    ensures MarkedBeside(before, after, key, nanoseconds)
    ensures (key in after <==> key in changed) && (key in changed ==> after[key] == changed[key])
  {
    Decimal.ParseFormatInt(nanoseconds as int);
  }

  lemma SetIs(before: Table, after: Table, name: string, format: Format, value: Value, description: string,
      nanoseconds: Int64, jsonValid: JsonValid)
    requires Apply(before, Set(name, format, value, description), nanoseconds, jsonValid) == Ok(after)
    ensures HasSet(before, after, name, format, value, description, nanoseconds, jsonValid)
  {
    var row := NewEntry(name, format, value, description, jsonValid).value;
    NormalizingNames(name, row.key);
    DecodeEncode(format, value, jsonValid);
    MarkedIs(before, before[row.key := row], after, row.key, nanoseconds);
  }

  /** A successful call has done what it says, to its own row and the marker alone. */
  lemma ApplyHasDone(before: Table, after: Table, call: Call, nanoseconds: Int64, jsonValid: JsonValid)
    requires Apply(before, call, nanoseconds, jsonValid) == Ok(after)
    ensures HasDone(before, after, call, nanoseconds, jsonValid)
  {
    match call
    case Set(name, format, value, description) =>
      SetIs(before, after, name, format, value, description, nanoseconds, jsonValid);
    case SetRecord(entry) =>
      SetIs(before, after, entry.key, entry.format, DecodeValue(entry.format, entry.value, jsonValid).value,
        entry.description, nanoseconds, jsonValid);
    case Delete(name) =>
      var key := KeyOf(call).value;
      NormalizingNames(name, key);
      MarkedIs(before, before - {key}, after, key, nanoseconds);
  }

  lemma SetsIff(table: Table, name: string, format: Format, value: Value, description: string, jsonValid: JsonValid)
    ensures var row := NewEntry(name, format, value, description, jsonValid);
      (row.Ok? && Upsert(table, row.value).Ok?) <==> MaySet(table, name, format, value, jsonValid)
  {
    var key := NormalizeName(name);
    if key.Ok? {
      NormalizingNames(name, key.value);
    }
    if MaySet(table, name, format, value, jsonValid) {
      var named :| Names(name, named) && named != MARKER_KEY && (named in table ==> table[named].format == format);
      NormalizingNames(name, named);
    }
  }

  /** In a valid table a call succeeds if and only if the table allows it. */
  lemma ApplyIfMay(table: Table, call: Call, nanoseconds: Int64, jsonValid: JsonValid)
    requires MARKER_KEY in table ==> table[MARKER_KEY].format == FormatInt64
    ensures Apply(table, call, nanoseconds, jsonValid).Ok? <==> MayDo(table, call, jsonValid)
  {
    match call
    case Set(name, format, value, description) => SetsIff(table, name, format, value, description, jsonValid);
    case SetRecord(entry) =>
      var value := DecodeValue(entry.format, entry.value, jsonValid);
      if value.Some? {
        SetsIff(table, entry.key, entry.format, value.value, entry.description, jsonValid);
      }
    case Delete(name) =>
      var key := NormalizeName(name);
      if key.Ok? {
        NormalizingNames(name, key.value);
      }
      if MayDo(table, call, jsonValid) {
        var named :| Names(name, named) && named != MARKER_KEY && named in table;
        NormalizingNames(name, named);
      }
  }

  class Store {
    var table: Table
    var open: bool
    const jsonValid: JsonValid

    /** Opening leaves every row as it is, an existing marker included, and adds a row only for a missing marker: that
        of a change at time zero. A table whose rows are valid becomes a valid table. */
    constructor (table: Table, jsonValid: JsonValid)
      ensures open && this.jsonValid == jsonValid
      ensures this.table.Keys == table.Keys + {MARKER_KEY}
      ensures forall key :: key in table ==> this.table[key] == table[key]
      ensures MARKER_KEY !in table ==> this.table[MARKER_KEY] == MarkerEntry(0)
      ensures (forall key :: key in table ==> ValidRow(key, table[key], jsonValid)) ==>
        ValidTable(this.table, jsonValid)
    {
      this.jsonValid := jsonValid;
      open := true;
      // Creating the marker does nothing when there is one.
      this.table := if MARKER_KEY in table then table
                    else table[MARKER_KEY := Entry(MARKER_KEY, FormatInt64, "0", MARKER_DESCRIPTION, false)];
      FirstMarker(jsonValid);
    }

    /** Inserts the row unless its key is taken, then updates whatever row is there if the formats agree. */
    method UpsertEntry(entry: Entry) returns (failure: Option<Failure>)
      modifies this`table
      requires forall key :: key in table ==> table[key].key == key
      ensures failure.None? ==> Upsert(old(table), entry) == Ok(table)
      ensures failure.Some? ==> Upsert(old(table), entry) == Err(failure.value)
      ensures forall key :: key in table ==> table[key].key == key
    {
      if entry.key !in table {
        table := table[entry.key := entry];
      }
      var existing := table[entry.key];
      if existing.format != entry.format {
        return Some(FormatMismatch);
      }
      assert existing.(value := entry.value, description := entry.description, visible := entry.visible) == entry;
      table := table[entry.key :=
        existing.(value := entry.value, description := entry.description, visible := entry.visible)];
      assert table == old(table)[entry.key := entry];
      return None;
    }

    /** A transaction: the change (a row to write, or a key to remove), then the marker; a failure of either rolls both
        back. */
    method Change(row: Option<Entry>, key: string, nanoseconds: Int64) returns (failure: Option<Failure>)
      requires forall k :: k in table ==> table[k].key == k
      modifies this`table
      ensures var changed := if row.Some? then Upsert(old(table), row.value) else Removed(old(table), key);
        var wanted := if !open then Err(NotInitialized) else Marked(changed, nanoseconds);
        if failure.None? then wanted == Ok(table) else wanted == Err(failure.value) && table == old(table)
    {
      if !open {
        return Some(NotInitialized);
      }
      var saved := table;
      if row.Some? {
        failure := UpsertEntry(row.value);
      } else if key in table {
        table := table - {key};
        failure := None;
      } else {
        failure := Some(NotFound);
      }
      if failure == None {
        failure := UpsertEntry(MarkerEntry(nanoseconds));
      }
      if failure.Some? {
        table := saved;
      }
    }

    /** Set, SetRecord and Delete. A call that returns no failure has done what it says; one that does leaves the table
        alone. While the store is open, with an int64 marker, it fails only if the table does not allow it. */
    method Execute(call: Call, nanoseconds: Int64) returns (failure: Option<Failure>)
      requires forall k :: k in table ==> table[k].key == k
      modifies this`table
      ensures failure.None? ==> HasDone(old(table), table, call, nanoseconds, jsonValid)
      ensures (MARKER_KEY in old(table) ==> old(table)[MARKER_KEY].format == FormatInt64) ==>
        (failure.None? <==> open && MayDo(old(table), call, jsonValid))
      ensures failure.None? ==> open && Apply(old(table), call, nanoseconds, jsonValid) == Ok(table)
      ensures failure.Some? ==> table == old(table)
      ensures failure.Some? && open ==> Apply(old(table), call, nanoseconds, jsonValid) == Err(failure.value)
    {
      if MARKER_KEY in table ==> table[MARKER_KEY].format == FormatInt64 {
        ApplyIfMay(table, call, nanoseconds, jsonValid);
      }
      ghost var before := table;
      if call.Delete? {
        var key := KeyOf(call);
        if key.Err? {
          return Some(key.failure);
        }
        failure := Change(None, key.value, nanoseconds);
      } else {
        var row := RowOf(call, jsonValid);
        if row.Err? {
          return Some(row.failure);
        }
        failure := Change(Some(row.value), "", nanoseconds);
      }
      if failure == None {
        ApplyHasDone(before, table, call, nanoseconds, jsonValid);
      }
    }
  }

  // ----- what every run keeps -----

  predicate ValidRow(key: string, entry: Entry, jsonValid: JsonValid) {
    && entry.key == key
    && DecodeValue(entry.format, entry.value, jsonValid).Some?
    && (if key == MARKER_KEY then entry.format == FormatInt64 && !entry.visible else NormalName(key) && entry.visible)
  }

  /** The marker is there, int64 and invisible; every other row is visible, normally named and readable. */
  ghost predicate ValidTable(table: Table, jsonValid: JsonValid) {
    MARKER_KEY in table && forall key :: key in table ==> ValidRow(key, table[key], jsonValid)
  }

  lemma FirstMarker(jsonValid: JsonValid)
    ensures Entry(MARKER_KEY, FormatInt64, "0", MARKER_DESCRIPTION, false) == MarkerEntry(0)
    ensures ValidRow(MARKER_KEY, Entry(MARKER_KEY, FormatInt64, "0", MARKER_DESCRIPTION, false), jsonValid)
  {
    Decimal.ParseFormatInt(0);
    assert Decimal.FormatInt(0) == "0";
  }

  lemma MarkerEntryValid(nanoseconds: Int64, jsonValid: JsonValid)
    ensures ValidRow(MARKER_KEY, MarkerEntry(nanoseconds), jsonValid)
  {
    Decimal.ParseFormatInt(nanoseconds as int);
  }

  lemma NewEntryValid(name: string, format: Format, value: Value, description: string, jsonValid: JsonValid)
    requires NewEntry(name, format, value, description, jsonValid).Ok?
    ensures var e := NewEntry(name, format, value, description, jsonValid).value;
      ValidRow(e.key, e, jsonValid) && e.key != MARKER_KEY
  {
    NamesAreNormal(name);
    DecodeEncode(format, value, jsonValid);
  }

  lemma RowValid(call: Call, jsonValid: JsonValid)
    requires !call.Delete? && RowOf(call, jsonValid).Ok?
    ensures var e := RowOf(call, jsonValid).value; ValidRow(e.key, e, jsonValid) && e.key != MARKER_KEY
  {
    match call
    case Set(name, format, value, description) => NewEntryValid(name, format, value, description, jsonValid);
    case SetRecord(entry) =>
      NewEntryValid(entry.key, entry.format, DecodeValue(entry.format, entry.value, jsonValid).value,
        entry.description, jsonValid);
  }

  lemma UpsertValid(table: Table, entry: Entry, jsonValid: JsonValid)
    requires ValidTable(table, jsonValid) && ValidRow(entry.key, entry, jsonValid) && Upsert(table, entry).Ok?
    ensures ValidTable(Upsert(table, entry).value, jsonValid)
  {
    var later := table[entry.key := entry];
    forall key | key in later ensures ValidRow(key, later[key], jsonValid) {
    }
  }

  lemma RemovedValid(table: Table, key: string, jsonValid: JsonValid)
    requires ValidTable(table, jsonValid) && key != MARKER_KEY && Removed(table, key).Ok?
    ensures ValidTable(Removed(table, key).value, jsonValid)
  {
    var later := table - {key};
    forall k | k in later ensures ValidRow(k, later[k], jsonValid) {
    }
  }

  lemma ChangedValid(table: Table, call: Call, jsonValid: JsonValid)
    requires ValidTable(table, jsonValid) && Changed(table, call, jsonValid).Ok?
    ensures ValidTable(Changed(table, call, jsonValid).value, jsonValid)
  {
    if call.Delete? {
      RemovedValid(table, KeyOf(call).value, jsonValid);
    } else {
      RowValid(call, jsonValid);
      UpsertValid(table, RowOf(call, jsonValid).value, jsonValid);
    }
  }

  /** The table after a call; a failed call leaves it as it was. */
  function Step(table: Table, call: Call, nanoseconds: Int64, jsonValid: JsonValid): Table {
    var r := Apply(table, call, nanoseconds, jsonValid);
    if r.Ok? then r.value else table
  }

  lemma {:induction false} StepKeepsValid(table: Table, call: Call, nanoseconds: Int64, jsonValid: JsonValid)
    requires ValidTable(table, jsonValid)
    ensures ValidTable(Step(table, call, nanoseconds, jsonValid), jsonValid)
  {
    MarkerEntryValid(nanoseconds, jsonValid);
    var changed := Changed(table, call, jsonValid);
    if changed.Ok? {
      ChangedValid(table, call, jsonValid);
      UpsertValid(changed.value, MarkerEntry(nanoseconds), jsonValid);
    }
  }

  function Run(table: Table, calls: seq<(Call, Int64)>, jsonValid: JsonValid): Table {
    if calls == [] then table
    else Step(Run(table, calls[..|calls| - 1], jsonValid), calls[|calls| - 1].0, calls[|calls| - 1].1, jsonValid)
  }

  /** From a valid table, every sequence of calls, failing ones included, leads to valid tables. */
  lemma {:induction false} RunKeepsValid(table: Table, calls: seq<(Call, Int64)>, jsonValid: JsonValid)
    requires ValidTable(table, jsonValid)
    ensures ValidTable(Run(table, calls, jsonValid), jsonValid)
  {
    if calls != [] {
      RunKeepsValid(table, calls[..|calls| - 1], jsonValid);
      StepKeepsValid(Run(table, calls[..|calls| - 1], jsonValid), calls[|calls| - 1].0, calls[|calls| - 1].1,
        jsonValid);
    }
  }

  predicate Deletes(call: Call, key: string) {
    call.Delete? && NormalizeName(call.name) == Ok(key)
  }

  lemma StepKeepsFormat(table: Table, call: Call, nanoseconds: Int64, jsonValid: JsonValid, key: string)
    requires key in table && !Deletes(call, key)
    ensures var later := Step(table, call, nanoseconds, jsonValid);
      key in later && later[key].format == table[key].format
  {
  }

  /** A key keeps its row and its format until a call deletes it. */
  lemma {:induction false} FormatChangesOnlyByDeletion(table: Table, calls: seq<(Call, Int64)>,
      jsonValid: JsonValid, key: string)
    requires key in table && forall i :: 0 <= i < |calls| ==> !Deletes(calls[i].0, key)
    ensures var later := Run(table, calls, jsonValid); key in later && later[key].format == table[key].format
  {
    if calls != [] {
      var front := calls[..|calls| - 1];
      FormatChangesOnlyByDeletion(table, front, jsonValid, key);
      StepKeepsFormat(Run(table, front, jsonValid), calls[|calls| - 1].0, calls[|calls| - 1].1, jsonValid, key);
    }
  }

  function NameOf(call: Call): string {
    match call
    case Set(name, _, _, _) => name
    case SetRecord(entry) => entry.key
    case Delete(name) => name
  }

  lemma ChangedFrame(table: Table, call: Call, jsonValid: JsonValid, key: string)
    requires Changed(table, call, jsonValid).Ok? && NormalizeName(NameOf(call)) != Ok(key)
    ensures var later := Changed(table, call, jsonValid).value;
      (key in later <==> key in table) && (key in table ==> later[key] == table[key])
  {
  }

  /** In a valid table no call fails for the marker's sake: it fails exactly when its own change does,
      and otherwise writes the marker, its own row, and no other row. */
  lemma {:induction false} StepFrame(table: Table, call: Call, nanoseconds: Int64, jsonValid: JsonValid, key: string)
    requires ValidTable(table, jsonValid)
    ensures var r, changed := Apply(table, call, nanoseconds, jsonValid), Changed(table, call, jsonValid);
      && (r.Ok? <==> changed.Ok?)
      && (r.Ok? ==> r.value[MARKER_KEY] == MarkerEntry(nanoseconds))
      && (r.Ok? && key != MARKER_KEY && NormalizeName(NameOf(call)) != Ok(key) ==>
            (key in r.value <==> key in table) && (key in table ==> r.value[key] == table[key]))
  {
    MarkerEntryValid(nanoseconds, jsonValid);
    if Changed(table, call, jsonValid).Ok? {
      ChangedValid(table, call, jsonValid);
      if NormalizeName(NameOf(call)) != Ok(key) {
        ChangedFrame(table, call, jsonValid, key);
      }
    }
  }
}
