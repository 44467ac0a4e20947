/** The cached snapshot of the key-value table and the refreshes that keep it fresh.

  `Snapshot` follows one load and one undisturbed refresh. `Next` is a state machine in which writers and any
  number of refreshes interleave step by step; `NilMeansFresh` is what every interleaving promises. */
module DbkvRefresh {
  import opened Seqs
  import opened Dbkv
  import Decimal

  datatype Loaded = Loaded(table: Table) | Broken

  predicate Readable(entry: Entry, jsonValid: JsonValid) {
    DecodeValue(entry.format, entry.value, jsonValid).Some?
  }

  predicate AllReadable(table: Table, jsonValid: JsonValid) {
    forall key :: key in table ==> Readable(table[key], jsonValid)
  }

  /** What a load makes of the whole table: every row must be readable and the marker must be there as an int64. */
  function SnapshotOf(table: Table, jsonValid: JsonValid): Loaded {
    if AllReadable(table, jsonValid) && MARKER_KEY in table && table[MARKER_KEY].format == FormatInt64
    then Loaded(table) else Broken
  }

  /** A missing row reads as the empty value. */
  function MarkerOf(table: Table): string {
    if MARKER_KEY in table then table[MARKER_KEY].value else ""
  }

  // ----- one refresh at a time -----

  /** The rows of a table, each once, in whatever order the database returns them. */
  ghost predicate RowsOf(rows: seq<Entry>, table: Table) {
    && (forall i, j :: 0 <= i < j < |rows| ==> rows[i].key != rows[j].key)
    && (forall i :: 0 <= i < |rows| ==> rows[i].key in table && table[rows[i].key] == rows[i])
    && (forall key :: key in table ==> exists i :: 0 <= i < |rows| && rows[i].key == key)
  }

  /** The rows collected so far agree with the table. */
  ghost predicate Collected(snapshot: Table, rows: seq<Entry>, table: Table, jsonValid: JsonValid) {
    && (forall key :: key in snapshot ==> key in table && snapshot[key] == table[key])
    && (forall j :: 0 <= j < |rows| ==> rows[j].key in snapshot && Readable(rows[j], jsonValid))
  }

  lemma CollectNext(snapshot: Table, rows: seq<Entry>, table: Table, jsonValid: JsonValid, i: nat)
    requires i < |rows| && Collected(snapshot, rows[..i], table, jsonValid)
    requires rows[i].key in table && table[rows[i].key] == rows[i] && Readable(rows[i], jsonValid)
    ensures Collected(snapshot[rows[i].key := rows[i]], rows[..i + 1], table, jsonValid)
  {
    assert rows[..i + 1] == rows[..i] + [rows[i]];
  }

  lemma CollectedAll(snapshot: Table, rows: seq<Entry>, table: Table, jsonValid: JsonValid)
    requires RowsOf(rows, table) && Collected(snapshot, rows, table, jsonValid)
    ensures snapshot == table && AllReadable(table, jsonValid)
  {
    forall key | key in table ensures key in snapshot && Readable(table[key], jsonValid) {
      var i :| 0 <= i < |rows| && rows[i].key == key;
    }
  }

  method LoadSnapshot(rows: seq<Entry>, ghost table: Table, jsonValid: JsonValid) returns (loaded: Loaded)
    requires RowsOf(rows, table)
    ensures loaded == SnapshotOf(table, jsonValid)
  {
    var snapshot: Table := map[];
    for i := 0 to |rows|
      invariant Collected(snapshot, rows[..i], table, jsonValid)
    {
      if DecodeValue(rows[i].format, rows[i].value, jsonValid).None? {
        assert !Readable(table[rows[i].key], jsonValid);
        return Broken;
      }
      CollectNext(snapshot, rows, table, jsonValid, i);
      snapshot := snapshot[rows[i].key := rows[i]];
    }
    assert rows[..|rows|] == rows;
    CollectedAll(snapshot, rows, table, jsonValid);
    if MARKER_KEY !in snapshot || snapshot[MARKER_KEY].format != FormatInt64 {
      return Broken;
    }
    loaded := Loaded(snapshot);
  }

  class Snapshot {
    var cache: Option<Table>
    const jsonValid: JsonValid

    constructor (table: Table, jsonValid: JsonValid)
      ensures cache == Some(table) && this.jsonValid == jsonValid
    {
      cache := Some(table);
      this.jsonValid := jsonValid;
    }

    /** A refresh no writer disturbs: it keeps a cache with the same marker and otherwise stores the whole table, or
        fails without touching the cache. */
    method Refresh(rows: seq<Entry>, ghost table: Table) returns (ok: bool)
      requires RowsOf(rows, table)
      modifies this
      ensures !ok ==> cache == old(cache) && SnapshotOf(table, jsonValid) == Broken
      ensures ok ==>
        || cache == Some(table)
        || (cache == old(cache) && cache.Some? && MarkerOf(cache.value) == MarkerOf(table))
      ensures ok ==> MARKER_KEY in table
    {
      var i := 0;
      while i < |rows| && rows[i].key != MARKER_KEY
        invariant 0 <= i <= |rows|
        invariant forall j :: 0 <= j < i ==> rows[j].key != MARKER_KEY
      {
        i := i + 1;
      }
      if i == |rows| || DecodeValue(rows[i].format, rows[i].value, jsonValid).None? {
        assert i < |rows| ==> !Readable(table[rows[i].key], jsonValid);
        return false;
      }
      assert table[MARKER_KEY] == rows[i];
      if cache.Some? && MarkerOf(cache.value) == rows[i].value {
        return true;
      }
      var loaded := LoadSnapshot(rows, table, jsonValid);
      if loaded.Broken? {
        return false;
      }
      cache := Some(loaded.table);
      ok := true;
    }
  }

  // ----- all interleavings -----

  /** How far one refresh has come. `since` is the number of the table that was current when it was called. */
  datatype Phase =
    | Called(since: nat)
    | MarkerRead(since: nat, marker: string)
    | Outdated(since: nat)
    | Holding(since: nat, snapshot: Table)

  /** A refresh that returned nil: the tables current at its call and at its return, and the snapshot it relied on. */
  datatype Return = Return(since: nat, until: nat, relied: Table)

  /** `history` holds every committed table; the last one is current. */
  datatype State = State(
    history: seq<Table>, open: bool, cache: Option<Table>, refreshes: map<nat, Phase>, returned: seq<Return>)

  datatype Event =
    | Write(call: Call, nanoseconds: Int64)
    | Call(id: nat)
    | ReadMarker(id: nat)
    | Compare(id: nat)
    | Load(id: nat)
    | Publish(id: nat)
    | Fail(id: nat)
    | Close
    | Init(version: nat)

  predicate Start(s: State) {
    |s.history| == 1 && s.cache == None && s.refreshes == map[] && s.returned == []
  }

  function Current(s: State): Table
    requires s.history != []
  {
    s.history[|s.history| - 1]
  }

  function Advance(s: State, id: nat, phase: Phase): State {
    s.(refreshes := s.refreshes[id := phase])
  }

  function Drop(s: State, id: nat): State {
    s.(refreshes := s.refreshes - {id})
  }

  /** The refresh returns nil, relying on a snapshot. */
  function Succeed(s: State, id: nat, relied: Table): State
    requires s.history != [] && id in s.refreshes
  {
    Drop(s, id).(returned := s.returned + [Return(s.refreshes[id].since, |s.history| - 1, relied)])
  }

  /** A committed call adds a table; a rolled back one adds none. */
  function Commit(s: State, call: Dbkv.Call, nanoseconds: Int64, jsonValid: JsonValid): State
    requires s.history != []
  {
    var r := Apply(Current(s), call, nanoseconds, jsonValid);
    if r.Ok? then s.(history := s.history + [r.value]) else s
  }

  /** The current marker, read and decoded when the store is open. */
  function ReadStep(s: State, id: nat, jsonValid: JsonValid): State
    requires s.history != [] && id in s.refreshes
  {
    if s.open && MARKER_KEY in Current(s) && Readable(Current(s)[MARKER_KEY], jsonValid)
    then Advance(s, id, MarkerRead(s.refreshes[id].since, MarkerOf(Current(s)))) else Drop(s, id)
  }

  /** The marker compared with the cache. */
  function CompareStep(s: State, id: nat): State
    requires s.history != [] && id in s.refreshes && s.refreshes[id].MarkerRead?
  {
    if s.cache.Some? && MarkerOf(s.cache.value) == s.refreshes[id].marker
    then Succeed(s, id, s.cache.value) else Advance(s, id, Outdated(s.refreshes[id].since))
  }

  /** The whole table, loaded when the store is open. */
  function LoadStep(s: State, id: nat, jsonValid: JsonValid): State
    requires s.history != [] && id in s.refreshes
  {
    var loaded := SnapshotOf(Current(s), jsonValid);
    if s.open && loaded.Loaded? then Advance(s, id, Holding(s.refreshes[id].since, loaded.table)) else Drop(s, id)
  }

  /** The loaded table put into the cache, even after others have been. */
  function PublishStep(s: State, id: nat): State
    requires s.history != [] && id in s.refreshes && s.refreshes[id].Holding?
  {
    Succeed(s.(cache := Some(s.refreshes[id].snapshot)), id, s.refreshes[id].snapshot)
  }

  /** One atomic step of the database, of a refresh, or of the store's life cycle; an event that cannot happen changes
      nothing. */
  function Next(s: State, event: Event, jsonValid: JsonValid): State
    requires s.history != []
  {
    match event
    case Write(call, nanoseconds) => Commit(s, call, nanoseconds, jsonValid)
    case Call(id) => if id in s.refreshes then s else Advance(s, id, Called(|s.history| - 1))
    case ReadMarker(id) => if id in s.refreshes && s.refreshes[id].Called? then ReadStep(s, id, jsonValid) else s
    case Compare(id) => if id in s.refreshes && s.refreshes[id].MarkerRead? then CompareStep(s, id) else s
    case Load(id) => if id in s.refreshes && s.refreshes[id].Outdated? then LoadStep(s, id, jsonValid) else s
    case Publish(id) => if id in s.refreshes && s.refreshes[id].Holding? then PublishStep(s, id) else s
    case Fail(id) => Drop(s, id)
    case Close => s.(open := false, cache := None)
    // The snapshot that opens the store was loaded earlier: it may be any committed table.
    case Init(version) =>
      if s.open || version >= |s.history| then s else s.(open := true, cache := Some(s.history[version]))
  }

  function After(s: State, events: seq<Event>, jsonValid: JsonValid): (t: State)
    requires s.history != []
    ensures s.history <= t.history
  {
    if events == [] then s
    else Next(After(s, events[..|events| - 1], jsonValid), events[|events| - 1], jsonValid)
  }

  /** Closing empties the cache, and until the store is opened again a refresh that is called fails, whatever its next
      steps find, unless another one, called before, publishes what it had loaded. */
  lemma ClosedFails(s: State, id: nat, jsonValid: JsonValid)
    requires s.history != [] && id !in s.refreshes
    ensures var closed := Next(s, Close, jsonValid);
      && !closed.open && closed.cache == None && closed.history == s.history && closed.refreshes == s.refreshes
      && var read := Next(Next(closed, Call(id), jsonValid), ReadMarker(id), jsonValid);
         read.refreshes == s.refreshes && read.returned == s.returned
  {
    var closed := Next(s, Close, jsonValid);
    var called := Next(closed, Call(id), jsonValid);
    assert called.refreshes == s.refreshes[id := Called(|s.history| - 1)];
    assert Next(called, ReadMarker(id), jsonValid).refreshes == s.refreshes - {id} == s.refreshes;
  }

  /** A refresh that has been called goes on with the marker's text if the store is open and the marker is there and
      readable, and otherwise fails. */
  lemma ReadIs(s: State, id: nat, jsonValid: JsonValid)
    requires s.history != [] && id in s.refreshes && s.refreshes[id].Called?
    ensures var table := s.history[|s.history| - 1];
      Next(s, ReadMarker(id), jsonValid) == s.(refreshes :=
        if s.open && "__last_updated__" in table
          && DecodeValue(table["__last_updated__"].format, table["__last_updated__"].value, jsonValid).Some?
        then s.refreshes[id := MarkerRead(s.refreshes[id].since, table["__last_updated__"].value)]
        else s.refreshes - {id})
  {
  }

  /** The steps of a refresh come in their order, each once. */
  lemma OutOfTurn(s: State, id: nat, jsonValid: JsonValid)
    requires s.history != [] && id in s.refreshes
    ensures Next(s, Call(id), jsonValid) == s
    ensures !s.refreshes[id].Called? ==> Next(s, ReadMarker(id), jsonValid) == s
    ensures !s.refreshes[id].MarkerRead? ==> Next(s, Compare(id), jsonValid) == s
    ensures !s.refreshes[id].Outdated? ==> Next(s, Load(id), jsonValid) == s
    ensures !s.refreshes[id].Holding? ==> Next(s, Publish(id), jsonValid) == s
  {
  }

  /** Opening a closed store puts some committed table into the cache; an open one stays as it is. */
  lemma OpensOnce(s: State, version: nat, jsonValid: JsonValid)
    requires s.history != [] && version < |s.history|
    ensures var later := Next(s, Init(version), jsonValid);
      if s.open then later == s
      else later == s.(open := true, cache := Some(s.history[version]))
  {
  }

  /** A refresh that fails leaves everything but itself. */
  lemma FailsAlone(s: State, id: nat, jsonValid: JsonValid)
    requires s.history != []
    ensures Next(s, Fail(id), jsonValid) == s.(refreshes := s.refreshes - {id})
  {
  }

  /** The marker a committed call leaves is the decimal text of its time. */
  lemma CommitMarks(s: State, call: Dbkv.Call, nanoseconds: Int64, jsonValid: JsonValid)
    requires s.history != [] && ValidTable(Current(s), jsonValid)
    ensures var later := Next(s, Write(call, nanoseconds), jsonValid);
      && (later.history == s.history || |later.history| == |s.history| + 1)
      && (later.history != s.history ==> MarkerOf(Current(later)) == Decimal.FormatInt(nanoseconds as int))
  {
    StepFrame(Current(s), call, nanoseconds, jsonValid, "");
  }

  /** So changes at different times carry different markers. */
  lemma TimesAreMarkers(a: Table, b: Table, m: Int64, n: Int64)
    requires MarkerOf(a) == Decimal.FormatInt(m as int) && MarkerOf(b) == Decimal.FormatInt(n as int)
    ensures MarkerOf(a) == MarkerOf(b) <==> m == n
  {
    Decimal.ParseFormatInt(m as int);
    Decimal.ParseFormatInt(n as int);
  }

  predicate DistinctMarkers(history: seq<Table>) {
    forall i, j :: 0 <= i < j < |history| ==> MarkerOf(history[i]) != MarkerOf(history[j])
  }

  predicate CommittedBetween(history: seq<Table>, since: nat, until: nat, table: Table) {
    exists v :: since <= v <= until && v < |history| && history[v] == table
  }

  predicate MarkerBetween(history: seq<Table>, since: nat, until: nat, marker: string) {
    exists v :: since <= v <= until && v < |history| && MarkerOf(history[v]) == marker
  }

  predicate GoodPhase(history: seq<Table>, phase: Phase) {
    phase.since < |history| &&
    match phase
    case MarkerRead(since, marker) => MarkerBetween(history, since, |history| - 1, marker)
    case Holding(since, snapshot) => CommittedBetween(history, since, |history| - 1, snapshot)
    case _ => true
  }

  predicate GoodReturn(history: seq<Table>, r: Return) {
    r.since <= r.until < |history| && CommittedBetween(history, r.since, r.until, r.relied)
  }

  ghost predicate Inv(s: State, jsonValid: JsonValid) {
    && s.history != []
    && (forall i :: 0 <= i < |s.history| ==> ValidTable(s.history[i], jsonValid))
    && (s.cache.Some? ==> s.cache.value in s.history)
    && (forall id :: id in s.refreshes ==> GoodPhase(s.history, s.refreshes[id]))
    && (forall i :: 0 <= i < |s.returned| ==> GoodReturn(s.history, s.returned[i]))
  }

  lemma PhaseLater(history: seq<Table>, table: Table, phase: Phase)
    requires GoodPhase(history, phase)
    ensures GoodPhase(history + [table], phase)
  {
    var later := history + [table];
    if phase.MarkerRead? {
      var v :| phase.since <= v < |history| && MarkerOf(history[v]) == phase.marker;
      assert later[v] == history[v];
    }
    if phase.Holding? {
      var v :| phase.since <= v < |history| && history[v] == phase.snapshot;
      assert later[v] == history[v];
    }
  }

  lemma ReturnLater(history: seq<Table>, table: Table, r: Return)
    requires GoodReturn(history, r)
    ensures GoodReturn(history + [table], r)
  {
    var v :| r.since <= v <= r.until && v < |history| && history[v] == r.relied;
    assert (history + [table])[v] == r.relied;
  }

  lemma CommitKeeps(s: State, call: Dbkv.Call, nanoseconds: Int64, jsonValid: JsonValid)
    requires Inv(s, jsonValid)
    ensures Inv(Commit(s, call, nanoseconds, jsonValid), jsonValid)
  {
    var r := Apply(Current(s), call, nanoseconds, jsonValid);
    if r.Ok? {
      StepKeepsValid(Current(s), call, nanoseconds, jsonValid);
      forall id | id in s.refreshes ensures GoodPhase(s.history + [r.value], s.refreshes[id]) {
        PhaseLater(s.history, r.value, s.refreshes[id]);
      }
      forall i | 0 <= i < |s.returned| ensures GoodReturn(s.history + [r.value], s.returned[i]) {
        ReturnLater(s.history, r.value, s.returned[i]);
      }
    }
  }

  /** A cache whose marker was current during the call is itself a table that was current during the call. */
  lemma MarkerIdentifies(history: seq<Table>, since: nat, until: nat, table: Table)
    requires DistinctMarkers(history) && table in history && MarkerBetween(history, since, until, MarkerOf(table))
    ensures CommittedBetween(history, since, until, table)
  {
    var v :| since <= v <= until && v < |history| && MarkerOf(history[v]) == MarkerOf(table);
    var w :| 0 <= w < |history| && history[w] == table;
    assert v == w;
  }

  lemma SucceedKeeps(s: State, id: nat, relied: Table, jsonValid: JsonValid)
    requires Inv(s, jsonValid) && id in s.refreshes
    requires CommittedBetween(s.history, s.refreshes[id].since, |s.history| - 1, relied)
    ensures Inv(Succeed(s, id, relied), jsonValid)
  {
  }

  lemma ReadKeeps(s: State, id: nat, jsonValid: JsonValid)
    requires Inv(s, jsonValid) && id in s.refreshes
    ensures Inv(ReadStep(s, id, jsonValid), jsonValid)
  {
    assert GoodPhase(s.history, s.refreshes[id]);
    assert MarkerBetween(s.history, s.refreshes[id].since, |s.history| - 1, MarkerOf(Current(s)));
  }

  lemma CompareKeeps(s: State, id: nat, jsonValid: JsonValid)
    requires Inv(s, jsonValid) && DistinctMarkers(s.history) && id in s.refreshes && s.refreshes[id].MarkerRead?
    ensures Inv(CompareStep(s, id), jsonValid)
  {
    assert GoodPhase(s.history, s.refreshes[id]);
    if s.cache.Some? && MarkerOf(s.cache.value) == s.refreshes[id].marker {
      MarkerIdentifies(s.history, s.refreshes[id].since, |s.history| - 1, s.cache.value);
      SucceedKeeps(s, id, s.cache.value, jsonValid);
    }
  }

  lemma LoadKeeps(s: State, id: nat, jsonValid: JsonValid)
    requires Inv(s, jsonValid) && id in s.refreshes
    ensures Inv(LoadStep(s, id, jsonValid), jsonValid)
  {
    assert GoodPhase(s.history, s.refreshes[id]);
    assert CommittedBetween(s.history, s.refreshes[id].since, |s.history| - 1, Current(s));
  }

  lemma PublishKeeps(s: State, id: nat, jsonValid: JsonValid)
    requires Inv(s, jsonValid) && id in s.refreshes && s.refreshes[id].Holding?
    ensures Inv(PublishStep(s, id), jsonValid)
  {
    assert GoodPhase(s.history, s.refreshes[id]);
    assert s.refreshes[id].snapshot in s.history;
    SucceedKeeps(s.(cache := Some(s.refreshes[id].snapshot)), id, s.refreshes[id].snapshot, jsonValid);
  }

  lemma NextKeeps(s: State, event: Event, jsonValid: JsonValid)
    requires Inv(s, jsonValid) && DistinctMarkers(s.history)
    ensures Inv(Next(s, event, jsonValid), jsonValid)
  {
    match event
    case Write(call, nanoseconds) => CommitKeeps(s, call, nanoseconds, jsonValid);
    case ReadMarker(id) => if id in s.refreshes { ReadKeeps(s, id, jsonValid); }
    case Compare(id) => if id in s.refreshes && s.refreshes[id].MarkerRead? { CompareKeeps(s, id, jsonValid); }
    case Load(id) => if id in s.refreshes { LoadKeeps(s, id, jsonValid); }
    case Publish(id) => if id in s.refreshes && s.refreshes[id].Holding? { PublishKeeps(s, id, jsonValid); }
    case _ =>
  }

  lemma {:induction false} AfterKeeps(s: State, events: seq<Event>, jsonValid: JsonValid)
    requires Inv(s, jsonValid) && DistinctMarkers(After(s, events, jsonValid).history)
    ensures Inv(After(s, events, jsonValid), jsonValid)
  {
    if events != [] {
      var before := After(s, events[..|events| - 1], jsonValid);
      HistoryGrows(before, events[|events| - 1], jsonValid);
      AfterKeeps(s, events[..|events| - 1], jsonValid);
      NextKeeps(before, events[|events| - 1], jsonValid);
    }
  }

  lemma HistoryGrows(s: State, event: Event, jsonValid: JsonValid)
    requires s.history != []
    ensures s.history <= Next(s, event, jsonValid).history
  {
  }

  /** Distinct commits carrying distinct markers, every refresh that returns nil relied on a snapshot equal to the whole
      table at some moment between its call and its return, whatever writers, other refreshes and closings interleave.
      What is cached is always some whole committed table, never a mixture. */
  lemma {:induction false} NilMeansFresh(start: State, events: seq<Event>, jsonValid: JsonValid, k: nat)
    requires Start(start) && ValidTable(start.history[0], jsonValid)
    requires DistinctMarkers(After(start, events, jsonValid).history)
    ensures var s := After(start, events, jsonValid);
      && (s.cache.Some? ==> s.cache.value in s.history && ValidTable(s.cache.value, jsonValid))
      && (k < |s.returned| ==> GoodReturn(s.history, s.returned[k]))
  {
    AfterKeeps(start, events, jsonValid);
  }

  /** No valid table stops a refresh: while the store is open only a failing read or a cancelled call does. */
  lemma ValidTablesLoad(table: Table, jsonValid: JsonValid)
    requires ValidTable(table, jsonValid)
    ensures SnapshotOf(table, jsonValid) == Loaded(table)
    ensures MARKER_KEY in table && Readable(table[MARKER_KEY], jsonValid)
  {
    forall key | key in table ensures Readable(table[key], jsonValid) {
      assert ValidRow(key, table[key], jsonValid);
    }
  }

  function Finish(s: State, id: nat, jsonValid: JsonValid): State
    requires s.history != []
  {
    Next(Next(s, Load(id), jsonValid), Publish(id), jsonValid)
  }

  /** From the comparison on, with the current marker read. */
  function Settled(s: State, id: nat, jsonValid: JsonValid): State
    requires s.history != []
  {
    Finish(Next(s, Compare(id), jsonValid), id, jsonValid)
  }

  /** A refresh that has just been called and has read the current marker. */
  function JustRead(s: State, id: nat): State
    requires s.history != []
  {
    Advance(s, id, MarkerRead(|s.history| - 1, MarkerOf(Current(s))))
  }

  /** The first two steps of a refresh of an open store. */
  lemma CallAndRead(s: State, id: nat, jsonValid: JsonValid)
    requires s.history != [] && s.open && id !in s.refreshes
    requires MARKER_KEY in Current(s) && Readable(Current(s)[MARKER_KEY], jsonValid)
    ensures Next(Next(s, Call(id), jsonValid), ReadMarker(id), jsonValid) == JustRead(s, id)
  {
    var phase := Called(|s.history| - 1);
    assert s.refreshes[id := phase][id := MarkerRead(|s.history| - 1, MarkerOf(Current(s)))]
      == JustRead(s, id).refreshes;
  }

  lemma Finishes(s: State, id: nat, jsonValid: JsonValid)
    requires s.history != [] && ValidTable(Current(s), jsonValid) && s.open && id in s.refreshes
      && s.refreshes[id].Outdated?
    ensures var later := Finish(s, id, jsonValid);
      && later.cache == Some(Current(s))
      && later.returned == s.returned + [Return(s.refreshes[id].since, |s.history| - 1, Current(s))]
  {
    ValidTablesLoad(Current(s), jsonValid);
    var loaded := Advance(s, id, Holding(s.refreshes[id].since, Current(s)));
    assert LoadStep(s, id, jsonValid) == loaded;
    assert PublishStep(loaded, id) == Succeed(loaded.(cache := Some(Current(s))), id, Current(s));
  }

  /** The cache is another table with the current marker. */
  predicate Mistaken(s: State)
    requires s.history != []
  {
    s.cache.Some? && s.cache.value != Current(s) && MarkerOf(s.cache.value) == MarkerOf(Current(s))
  }

  lemma Matching(s: State, id: nat, jsonValid: JsonValid)
    requires s.history != [] && id in s.refreshes && s.refreshes[id].MarkerRead?
    requires s.cache.Some? && MarkerOf(s.cache.value) == s.refreshes[id].marker
    ensures Settled(s, id, jsonValid) == Succeed(s, id, s.cache.value)
  {
    assert Next(s, Compare(id), jsonValid) == Succeed(s, id, s.cache.value);
  }

  lemma Differing(s: State, id: nat, jsonValid: JsonValid)
    requires s.history != [] && ValidTable(Current(s), jsonValid) && s.open && id in s.refreshes
      && s.refreshes[id].MarkerRead?
    requires !(s.cache.Some? && MarkerOf(s.cache.value) == s.refreshes[id].marker)
    ensures var later := Settled(s, id, jsonValid);
      && later.cache == Some(Current(s))
      && later.returned == s.returned + [Return(s.refreshes[id].since, |s.history| - 1, Current(s))]
  {
    var outdated := Advance(s, id, Outdated(s.refreshes[id].since));
    assert Next(s, Compare(id), jsonValid) == outdated;
    Finishes(outdated, id, jsonValid);
  }

  /** An undisturbed refresh of an open store returns nil and leaves the current table in the cache, unless the cache is
      another table with the current marker: then, and only then, it returns nil and keeps the wrong one. */
  lemma {:induction false} UndisturbedIsExact(s: State, id: nat, jsonValid: JsonValid)
    requires s.history != [] && ValidTable(Current(s), jsonValid) && s.open && id in s.refreshes
    requires s.refreshes[id] == MarkerRead(|s.history| - 1, MarkerOf(Current(s)))
    ensures var later, now := Settled(s, id, jsonValid), |s.history| - 1;
      && (Mistaken(s) ==> later.cache == s.cache && later.returned == s.returned + [Return(now, now, s.cache.value)])
      && (!Mistaken(s) ==>
            && later.cache == Some(Current(s))
            && later.returned == s.returned + [Return(now, now, Current(s))])
  {
    if s.cache.Some? && MarkerOf(s.cache.value) == MarkerOf(Current(s)) {
      Matching(s, id, jsonValid);
    } else {
      Differing(s, id, jsonValid);
    }
  }

  /** Why markers must differ: a call that commits with the marker already there, and changes the table, goes
      unnoticed. */
  lemma {:induction false} SharedMarkerMisleads(s: State, call: Dbkv.Call, nanoseconds: Int64, jsonValid: JsonValid)
    requires Inv(s, jsonValid) && s.cache == Some(Current(s)) && Current(s)[MARKER_KEY] == MarkerEntry(nanoseconds)
    requires Apply(Current(s), call, nanoseconds, jsonValid).Ok?
      && Apply(Current(s), call, nanoseconds, jsonValid).value != Current(s)
    ensures Mistaken(Commit(s, call, nanoseconds, jsonValid))
  {
    StepFrame(Current(s), call, nanoseconds, jsonValid, MARKER_KEY);
  }
}
