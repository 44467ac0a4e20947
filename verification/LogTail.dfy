/** Tail selection of the log viewer: each level is cut to `limit` records while reading newest first,
  then one stable time sort and a second cut choose what is shown.

  The main lemma, `CutLosesNothing`, says the first cut never drops a record the full sort would keep. */
module LogTail {
  import opened Octets
  import opened Seqs
  import opened LogLines
  import opened LogNames

  /** A record with the level of the file it came from, by which the reading is cut. */
  datatype StoredRecord = StoredRecord(level: string, time: int, data: Bytes)

  /** What the JSON decoder makes of a trimmed line: a time, a missing one, a value cut short, or garbage. */
  datatype Decoded = Timed(time: int) | Untimed | CutShort | Malformed

  /** Trimming and JSON decoding are parameters; so are the two size constants. */
  datatype Settings = Settings(trim: Bytes -> Bytes, decode: Bytes -> Decoded, chunkBytes: nat, maxBytes: nat) {
    predicate Valid() { 1 <= chunkBytes }
  }

  datatype Failure = RecordTooLong | DecodeFailed(position: nat) | TimeMissing(position: nat) | TailNotPositive
  datatype Result<+T> = Ok(value: T) | Err(failure: Failure)

  datatype Item = Skip | Keep(record: StoredRecord) | Reject(failure: Failure)

  /** One piece of the file; only the very last piece may be a value cut short. */
  function Classify(p: Piece, settings: Settings, level: string, trailing: bool): Item {
    var line := StripReturn(p.data);
    if |line| > settings.maxBytes then Reject(RecordTooLong)
    else
      var data := settings.trim(line);
      if data == [] then Skip
      else match settings.decode(data)
        case Timed(time) => Keep(StoredRecord(level, time, data))
        case Untimed => Reject(TimeMissing(p.position))
        case CutShort => if trailing then Skip else Reject(DecodeFailed(p.position))
        case Malformed => Reject(DecodeFailed(p.position))
  }

  /** What a line is read as: too long without its carriage return; nothing, when it is blank or the fragment of a value
      at the very end of the file; garbage, or without a time, at its position; or a record of that time and text. */
  predicate ReadsAs(item: Item, p: Piece, settings: Settings, level: string, trailing: bool) {
    var line := if p.data != [] && p.data[|p.data| - 1] == 13 then p.data[..|p.data| - 1] else p.data;
    var data := settings.trim(line);
    var decoded := settings.decode(data);
    && (item == Reject(RecordTooLong) <==> |line| > settings.maxBytes)
    && (|line| <= settings.maxBytes ==>
          && (item == Skip <==> data == [] || (decoded == CutShort && trailing))
          && (data != [] && (decoded == Malformed || (decoded == CutShort && !trailing)) ==>
                item == Reject(DecodeFailed(p.position)))
          && (data != [] && decoded == Untimed ==> item == Reject(TimeMissing(p.position)))
          && (data != [] && decoded.Timed? ==> item == Keep(StoredRecord(level, decoded.time, data))))
  }

  lemma ClassifyReads(p: Piece, settings: Settings, level: string, trailing: bool)
    ensures ReadsAs(Classify(p, settings, level, trailing), p, settings, level, trailing)
  {
  }

  /** Reading on from `got`, newest piece first, until `limit` records are there; later pieces are not looked at. */
  function ReadOn(pieces: seq<Piece>, settings: Settings, level: string, limit: nat, trailing: bool,
      got: seq<StoredRecord>): Result<seq<StoredRecord>> {
    if limit <= |got| || pieces == [] then Ok(got)
    else match Classify(pieces[0], settings, level, trailing)
      case Reject(failure) => Err(failure)
      case Skip => ReadOn(pieces[1..], settings, level, limit, false, got)
      case Keep(record) => ReadOn(pieces[1..], settings, level, limit, false, got + [record])
  }

  /** The newest `limit` records of a file. */
  function Newest(pieces: seq<Piece>, settings: Settings, level: string, limit: nat): Result<seq<StoredRecord>> {
    ReadOn(pieces, settings, level, limit, true, [])
  }

  /** All records of a file, newest first. */
  function All(pieces: seq<Piece>, settings: Settings, level: string, trailing: bool): Result<seq<StoredRecord>> {
    if pieces == [] then Ok([])
    else match Classify(pieces[0], settings, level, trailing)
      case Reject(failure) => Err(failure)
      case Skip => All(pieces[1..], settings, level, false)
      case Keep(record) =>
        var rest := All(pieces[1..], settings, level, false);
        if rest.Ok? then Ok([record] + rest.value) else rest
  }

  /** The records among what the lines are read as. */
  function RecordsOf(items: seq<Item>): seq<StoredRecord> {
    if items == [] then []
    else (if items[0].Keep? then [items[0].record] else []) + RecordsOf(items[1..])
  }

  /** What each line of a file is read as; only the first one read may be a fragment. */
  ghost predicate ReadThrough(items: seq<Item>, pieces: seq<Piece>, settings: Settings, level: string, trailing: bool) {
    |items| == |pieces| && forall k :: 0 <= k < |items| ==>
      ReadsAs(items[k], pieces[k], settings, level, trailing && k == 0) && !items[k].Reject?
  }

  /** A file is readable if and only if no line is refused, and then its records are those its lines hold. */
  lemma {:induction false} AllAreRead(pieces: seq<Piece>, settings: Settings, level: string, trailing: bool)
    returns (items: seq<Item>)
    ensures All(pieces, settings, level, trailing).Ok? ==>
      ReadThrough(items, pieces, settings, level, trailing)
      && All(pieces, settings, level, trailing).value == RecordsOf(items)
    ensures All(pieces, settings, level, trailing).Err? ==>
      forall items :: !ReadThrough(items, pieces, settings, level, trailing)
  {
    if pieces == [] {
      items := [];
    } else {
      var first := Classify(pieces[0], settings, level, trailing);
      ClassifyReads(pieces[0], settings, level, trailing);
      var rest := AllAreRead(pieces[1..], settings, level, false);
      items := [first] + rest;
      assert items[1..] == rest;
      if All(pieces, settings, level, trailing).Err? {
        forall other: seq<Item> ensures !ReadThrough(other, pieces, settings, level, trailing) {
          if ReadThrough(other, pieces, settings, level, trailing) {
            assert ReadsAs(other[0], pieces[0], settings, level, trailing) && !other[0].Reject?;
            assert ReadThrough(other[1..], pieces[1..], settings, level, false);
          }
        }
      }
    }
  }

  function Take<T>(s: seq<T>, k: nat): seq<T> {
    if |s| <= k then s else s[..k]
  }

  /** On a readable file the limit cuts and changes nothing else. */
  lemma {:induction false} ReadOnIsPrefix(pieces: seq<Piece>, settings: Settings, level: string, limit: nat,
      trailing: bool, got: seq<StoredRecord>)
    requires All(pieces, settings, level, trailing).Ok? && |got| <= limit
    ensures ReadOn(pieces, settings, level, limit, trailing, got)
         == Ok(got + Take(All(pieces, settings, level, trailing).value, limit - |got|))
  {
    var all := All(pieces, settings, level, trailing).value;
    if |got| < limit && pieces != [] {
      var item := Classify(pieces[0], settings, level, trailing);
      if item.Keep? {
        var rest, n := All(pieces[1..], settings, level, false).value, limit - |got| - 1;
        assert |got + [item.record]| == |got| + 1;
        ReadOnIsPrefix(pieces[1..], settings, level, limit, false, got + [item.record]);
        TakeCons(item.record, rest, n + 1);
        Associative(got, [item.record], Take(rest, n));
      } else {
        ReadOnIsPrefix(pieces[1..], settings, level, limit, false, got);
      }
    } else {
      assert got + [] == got;
    }
  }

  lemma TakeCons<T>(x: T, s: seq<T>, k: nat)
    requires 0 < k
    ensures Take([x] + s, k) == [x] + Take(s, k - 1)
  {
  }

  lemma NothingBefore<T>(s: seq<T>)
    ensures [] + s == s
  {
  }

  lemma FrontOfConcat<T>(a: seq<T>, b: seq<T>)
    requires b != []
    ensures (a + b)[..|a + b| - 1] == a + b[..|b| - 1] && (a + b)[|a + b| - 1] == b[|b| - 1]
  {
  }

  lemma FrontAndLast<T>(s: seq<T>)
    requires s != []
    ensures s == s[..|s| - 1] + [s[|s| - 1]]
  {
  }

  lemma Associative<T>(a: seq<T>, b: seq<T>, c: seq<T>)
    ensures a + (b + c) == (a + b) + c
  {
  }

  lemma NewestIsPrefix(pieces: seq<Piece>, settings: Settings, level: string, limit: nat)
    requires All(pieces, settings, level, true).Ok?
    ensures Newest(pieces, settings, level, limit) == Ok(Take(All(pieces, settings, level, true).value, limit))
  {
    var all := All(pieces, settings, level, true).value;
    ReadOnIsPrefix(pieces, settings, level, limit, true, []);
    NothingBefore(Take(all, limit));
  }

  /** The part of the loop body that reads and decodes one line; absent at the end of the file. */
  method NextItem(reader: ReverseLogReader, settings: Settings, level: string, trailingFragment: bool)
    returns (item: Option<Item>)
    requires reader.Valid() && reader.maxBytes == settings.maxBytes
    modifies reader`offset, reader`buffer
    ensures reader.Valid()
    ensures item.None? <==> old(reader.Unread()) == []
    ensures item.Some? ==> item.value == Classify(LastPiece(old(reader.Unread())), settings, level, trailingFragment)
    ensures item.Some? ==> ReadsAs(item.value, LastPiece(old(reader.Unread())), settings, level, trailingFragment)
    ensures item.Some? && !item.value.Reject? ==> reader.Unread() == Before(old(reader.Unread()))
  {
    ghost var expected := Classify(LastPiece(reader.Unread()), settings, level, trailingFragment);
    ClassifyReads(LastPiece(reader.Unread()), settings, level, trailingFragment);
    var line := reader.Line();
    if line.Eof? {
      return None;
    }
    if line.TooLong? {
      return Some(Reject(RecordTooLong));
    }
    var data := settings.trim(line.data);
    if data == [] {
      assert expected == Skip;
      return Some(Skip);
    }
    var decoded := settings.decode(data);
    if decoded.CutShort? || decoded.Malformed? {
      if trailingFragment && decoded.CutShort? {
        return Some(Skip);
      }
      return Some(Reject(DecodeFailed(line.position)));
    }
    if decoded.Untimed? {
      return Some(Reject(TimeMissing(line.position)));
    }
    return Some(Keep(StoredRecord(level, decoded.time, data)));
  }

  method ReadLogFile(content: Bytes, settings: Settings, level: string, limit: nat)
    returns (r: Result<seq<StoredRecord>>)
    requires settings.Valid()
    ensures r == Newest(Backwards(content), settings, level, limit)
  {
    var reader := new ReverseLogReader(content, settings.chunkBytes, settings.maxBytes);
    var records: seq<StoredRecord> := [];
    var firstLine := true;
    ghost var pieces := Backwards(content);
    while |records| < limit
      invariant reader.Valid() && fresh(reader) && reader.maxBytes == settings.maxBytes
      invariant pieces == Backwards(reader.Unread())
      invariant ReadOn(pieces, settings, level, limit, firstLine, records)
        == Newest(Backwards(content), settings, level, limit)
      decreases |pieces|
    {
      ghost var unread := reader.Unread();
      var item := NextItem(reader, settings, level, firstLine);
      if item == None {
        break;
      }
      assert pieces[0] == LastPiece(unread) && pieces[1..] == Backwards(Before(unread));
      pieces := pieces[1..];
      firstLine := false;
      if item.value.Reject? {
        return Err(item.value.failure);
      }
      if item.value.Keep? {
        records := records + [item.value.record];
      }
    }
    return Ok(records);
  }

  // ----- the files of the log directory -----

  /** `content` is absent when the file has vanished by the time it is opened. */
  datatype DirEntry = DirEntry(name: string, isDir: bool, content: Option<Bytes>)
  datatype LogFile = LogFile(name: string, level: string, date: string, sequence: nat, content: Option<Bytes>)

  predicate Wanted(entry: DirEntry, prefix: string) {
    var parsed := ParseName(entry.name);
    !entry.isDir && parsed.Some? && (prefix == "" || parsed.value.level == prefix)
  }

  function FileOf(entry: DirEntry): LogFile
    requires ParseName(entry.name).Some?
  {
    var FileName(level, date, sequence) := ParseName(entry.name).value;
    LogFile(entry.name, level, date, sequence, entry.content)
  }

  function Selected(entries: seq<DirEntry>, prefix: string): seq<LogFile> {
    if entries == [] then []
    else
      var front, entry := Selected(entries[..|entries| - 1], prefix), entries[|entries| - 1];
      if Wanted(entry, prefix) then front + [FileOf(entry)] else front
  }

  predicate TextBefore(a: string, b: string) {
    if b == [] then false else if a == [] then true
    else a[0] < b[0] || (a[0] == b[0] && TextBefore(a[1..], b[1..]))
  }

  /** The file order: newest date first, then highest sequence, then greatest name. */
  predicate Newer(a: LogFile, b: LogFile) {
    if a.date != b.date then TextBefore(b.date, a.date)
    else if a.sequence != b.sequence then a.sequence > b.sequence
    else TextBefore(b.name, a.name)
  }

  function InsertFile(files: seq<LogFile>, file: LogFile): seq<LogFile> {
    if files == [] then [file]
    else if Newer(file, files[|files| - 1]) then InsertFile(files[..|files| - 1], file) + [files[|files| - 1]]
    else files + [file]
  }

  /** `sort.Slice` with the file order. */
  function SortFiles(files: seq<LogFile>): seq<LogFile> {
    if files == [] then [] else InsertFile(SortFiles(files[..|files| - 1]), files[|files| - 1])
  }

  lemma {:induction false} TextOrder(a: string, b: string, c: string)
    ensures TextBefore(a, b) && TextBefore(b, c) ==> TextBefore(a, c)
    ensures !(TextBefore(a, b) && TextBefore(b, a))
    ensures TextBefore(a, b) || TextBefore(b, a) || a == b
  {
    if a != [] && b != [] {
      TextOrder(a[1..], b[1..], if c == [] then [] else c[1..]);
      if a[1..] == b[1..] && a[0] == b[0] {
        assert a == [a[0]] + a[1..] && b == [b[0]] + b[1..];
      }
    }
  }

  ghost predicate InOrder(files: seq<LogFile>) {
    forall i, j :: 0 <= i < j < |files| ==> !Newer(files[j], files[i])
  }

  lemma TextsOrdered(a: string, b: string, c: string)
    ensures TextBefore(a, b) || TextBefore(b, a) || a == b
    ensures TextBefore(b, c) || TextBefore(c, b) || b == c
    ensures TextBefore(a, c) || TextBefore(c, a) || a == c
    ensures !(TextBefore(a, b) && TextBefore(b, a)) && !(TextBefore(b, c) && TextBefore(c, b))
      && !(TextBefore(a, c) && TextBefore(c, a))
    ensures (TextBefore(a, b) && TextBefore(b, c) ==> TextBefore(a, c))
      && (TextBefore(c, b) && TextBefore(b, a) ==> TextBefore(c, a))
    ensures (TextBefore(b, a) && TextBefore(a, c) ==> TextBefore(b, c))
      && (TextBefore(c, a) && TextBefore(a, b) ==> TextBefore(c, b))
    ensures (TextBefore(a, c) && TextBefore(c, b) ==> TextBefore(a, b))
      && (TextBefore(b, c) && TextBefore(c, a) ==> TextBefore(b, a))
  {
    TextOrder(a, b, c);
    TextOrder(c, b, a);
    TextOrder(b, a, c);
    TextOrder(c, a, b);
    TextOrder(a, c, b);
    TextOrder(b, c, a);
  }

  lemma NewerTransitive(a: LogFile, b: LogFile, c: LogFile)
    requires !Newer(b, a) && !Newer(c, b)
    ensures !Newer(c, a)
  {
    TextsOrdered(a.date, b.date, c.date);
    TextsOrdered(a.name, b.name, c.name);
  }

  lemma {:induction false} InsertFileKeeps(files: seq<LogFile>, file: LogFile)
    ensures multiset(InsertFile(files, file)) == multiset(files) + multiset{file}
  {
    if files != [] {
      InsertFileKeeps(files[..|files| - 1], file);
      FrontAndLast(files);
    }
  }

  /** `last` stays behind whatever is inserted before it. */
  lemma NoneNewer(front: seq<LogFile>, file: LogFile, last: LogFile, k: nat)
    requires Newer(file, last) && InOrder(front + [last]) && k < |InsertFile(front, file)|
    ensures !Newer(last, InsertFile(front, file)[k])
  {
    var r := InsertFile(front, file);
    InsertFileKeeps(front, file);
    TextOrder(last.name, file.name, "");
    TextOrder(last.date, file.date, "");
    assert r[k] in multiset(r);
    if r[k] != file {
      var j :| 0 <= j < |front| && front[j] == r[k];
      assert (front + [last])[j] == r[k] && (front + [last])[|front|] == last;
    }
  }

  lemma OrderedSnoc(files: seq<LogFile>, last: LogFile)
    requires InOrder(files) && forall k :: 0 <= k < |files| ==> !Newer(last, files[k])
    ensures InOrder(files + [last])
  {
  }

  lemma {:induction false} InsertFileOrdered(files: seq<LogFile>, file: LogFile)
    requires InOrder(files)
    ensures InOrder(InsertFile(files, file))
  {
    if files != [] {
      var front, last := files[..|files| - 1], files[|files| - 1];
      if Newer(file, last) {
        var r := InsertFile(front, file);
        assert files == front + [last];
        InsertFileOrdered(front, file);
        forall k | 0 <= k < |r|
          ensures !Newer(last, r[k])
        {
          NoneNewer(front, file, last, k);
        }
        OrderedSnoc(r, last);
      } else {
        forall k | 0 <= k < |files|
          ensures !Newer(file, files[k])
        {
          if k < |front| {
            NewerTransitive(files[k], last, file);
          }
        }
        OrderedSnoc(files, file);
      }
    }
  }

  /** The texts agree up to some place, where `a` ends or has the smaller character. */
  ghost predicate Earlier(a: string, b: string) {
    exists k :: 0 <= k <= |a| && k < |b| && a[..k] == b[..k] && (k == |a| || a[k] < b[k])
  }

  lemma HeadsEqual(a: string, b: string, k: int)
    requires 0 < k <= |a| && k <= |b| && a[..k] == b[..k]
    ensures a[0] == b[0]
  {
    assert a[0] == a[..k][0] && b[0] == b[..k][0];
  }

  lemma {:induction false} TextBeforeIs(a: string, b: string)
    ensures TextBefore(a, b) <==> Earlier(a, b)
  {
    if a != [] && b != [] && a[0] == b[0] {
      TextBeforeIs(a[1..], b[1..]);
      if Earlier(a[1..], b[1..]) {
        var k :| 0 <= k <= |a[1..]| && k < |b[1..]| && a[1..][..k] == b[1..][..k]
          && (k == |a[1..]| || a[1..][k] < b[1..][k]);
        assert a[..k + 1] == [a[0]] + a[1..][..k] && b[..k + 1] == [b[0]] + b[1..][..k];
      }
      if Earlier(a, b) {
        var k :| 0 <= k <= |a| && k < |b| && a[..k] == b[..k] && (k == |a| || a[k] < b[k]);
        assert a[1..][..k - 1] == a[..k][1..] && b[1..][..k - 1] == b[..k][1..];
      }
    } else if a != [] && b != [] {
      assert a[..0] == b[..0];
      if Earlier(a, b) {
        var k :| 0 <= k <= |a| && k < |b| && a[..k] == b[..k] && (k == |a| || a[k] < b[k]);
        if k > 0 {
          HeadsEqual(a, b, k);
          assert false;
        }
      }
    } else {
      assert a[..0] == [] == b[..0];
    }
  }

  /** A later date comes first, then of one date a higher sequence number, and then the greater name. */
  lemma {:induction false} NewestFileFirst(files: seq<LogFile>, i: nat, j: nat)
    requires i < j < |SortFiles(files)|
    ensures var a, b := SortFiles(files)[i], SortFiles(files)[j];
      if a.date != b.date then Earlier(b.date, a.date)
      else if a.sequence != b.sequence then a.sequence > b.sequence
      else !Earlier(a.name, b.name)
  {
    var a, b := SortFiles(files)[i], SortFiles(files)[j];
    SortFilesSorts(files);
    TextOrder(a.date, b.date, "");
    TextBeforeIs(b.date, a.date);
    TextBeforeIs(a.date, b.date);
    TextBeforeIs(a.name, b.name);
  }

  /** The files are read in the file order, every one of them exactly once. */
  lemma {:induction false} SortFilesSorts(files: seq<LogFile>)
    ensures InOrder(SortFiles(files)) && multiset(SortFiles(files)) == multiset(files)
  {
    if files != [] {
      SortFilesSorts(files[..|files| - 1]);
      InsertFileOrdered(SortFiles(files[..|files| - 1]), files[|files| - 1]);
      InsertFileKeeps(SortFiles(files[..|files| - 1]), files[|files| - 1]);
      FrontAndLast(files);
    }
  }

  /** A file that vanished before it was opened has no pieces. */
  function PiecesOf(file: LogFile): seq<Piece> {
    if file.content.Some? then Backwards(file.content.value) else []
  }

  function CountOf(counts: map<string, nat>, level: string): nat {
    if level in counts then counts[level] else 0
  }

  ghost function Count(l: seq<StoredRecord>, level: string): nat {
    if l == [] then 0 else Count(l[..|l| - 1], level) + if l[|l| - 1].level == level then 1 else 0
  }

  /** How many more records of a level are wanted. */
  ghost function Room(got: seq<StoredRecord>, level: string, limit: nat): nat {
    if Count(got, level) < limit then limit - Count(got, level) else 0
  }

  /** Reading the files in turn, each cut to what its level still lacks. */
  ghost function Collect(files: seq<LogFile>, settings: Settings, limit: nat,
      got: seq<StoredRecord>): Result<seq<StoredRecord>> {
    if files == [] then Ok(got)
    else
      var tail := Newest(PiecesOf(files[0]), settings, files[0].level, Room(got, files[0].level, limit));
      if tail.Err? then tail else Collect(files[1..], settings, limit, got + tail.value)
  }

  ghost predicate OneLevel(records: seq<StoredRecord>, level: string) {
    forall i :: 0 <= i < |records| ==> records[i].level == level
  }

  lemma {:induction false} ReadOnOneLevel(pieces: seq<Piece>, settings: Settings, level: string, limit: nat,
      trailing: bool, got: seq<StoredRecord>)
    requires OneLevel(got, level)
    ensures var r := ReadOn(pieces, settings, level, limit, trailing, got); r.Ok? ==> OneLevel(r.value, level)
    ensures var r := ReadOn(pieces, settings, level, limit, trailing, got);
      r.Ok? && |got| <= limit ==> |r.value| <= limit
  {
    if |got| < limit && pieces != [] {
      var item := Classify(pieces[0], settings, level, trailing);
      ReadOnOneLevel(pieces[1..], settings, level, limit, false, if item.Keep? then got + [item.record] else got);
    }
  }

  lemma {:induction false} CountFile(l: seq<StoredRecord>, level: string, records: seq<StoredRecord>, other: string)
    requires OneLevel(records, level)
    ensures Count(l + records, other) == Count(l, other) + if other == level then |records| else 0
  {
    var whole := l + records;
    if records == [] {
      assert whole == l;
    } else {
      CountFile(l, level, records[..|records| - 1], other);
      FrontOfConcat(l, records);
    }
  }

  /** The file of an entry: its name is written from its level, date and sequence number. */
  ghost predicate IsFileOf(file: LogFile, entry: DirEntry) {
    && file.name == entry.name && file.content == entry.content
    && exists digits :: Written(entry.name, file.level, file.date, digits) && Decimal.Number(digits) == file.sequence
  }

  lemma FileIs(entry: DirEntry, file: LogFile)
    ensures ParseName(entry.name).Some? && FileOf(entry) == file <==> IsFileOf(file, entry)
  {
    NamesAreRead(entry.name, FileName(file.level, file.date, file.sequence));
  }

  /** A directory entry is read as this file if and only if it is no directory, has the name of a log file, and has the
      selected level, if any is selected. */
  ghost predicate Picks(entry: DirEntry, prefix: string, file: LogFile) {
    !entry.isDir && IsFileOf(file, entry) && (prefix == "" || file.level == prefix)
  }

  lemma {:induction false} SelectedAre(entries: seq<DirEntry>, prefix: string, file: LogFile)
    ensures file in Selected(entries, prefix) <==> exists i :: 0 <= i < |entries| && Picks(entries[i], prefix, file)
  {
    if entries != [] {
      var front, last := entries[..|entries| - 1], entries[|entries| - 1];
      SelectedAre(front, prefix, file);
      FileIs(last, file);
      assert forall i :: 0 <= i < |front| ==> front[i] == entries[i];
      if Picks(last, prefix, file) {
        assert Picks(entries[|entries| - 1], prefix, file);
      }
    }
  }

  method SelectFiles(entries: seq<DirEntry>, prefix: string) returns (files: seq<LogFile>)
    ensures files == Selected(entries, prefix)
    ensures forall file :: file in files <==> exists i :: 0 <= i < |entries| && Picks(entries[i], prefix, file)
  {
    forall file
      ensures file in Selected(entries, prefix) <==> exists i :: 0 <= i < |entries| && Picks(entries[i], prefix, file)
    {
      SelectedAre(entries, prefix, file);
    }
    files := [];
    for i := 0 to |entries|
      invariant files == Selected(entries[..i], prefix)
    {
      var entry := entries[i];
      assert entries[..i + 1][..i] == entries[..i];
      if Wanted(entry, prefix) {
        files := files + [FileOf(entry)];
      }
    }
    assert entries[..|entries|] == entries;
  }

  /** A missing directory (`entries` absent) has no records. */
  method ReadRecords(entries: Option<seq<DirEntry>>, prefix: string, settings: Settings, limit: nat)
    returns (r: Result<seq<StoredRecord>>)
    requires settings.Valid()
    ensures r == if entries.None? then Ok([])
                 else Collect(SortFiles(Selected(entries.value, prefix)), settings, limit, [])
  {
    if entries.None? {
      return Ok([]);
    }
    var files := SelectFiles(entries.value, prefix);
    files := SortFiles(files);
    r := ReadFiles(files, settings, limit);
  }

  /** One step of `Collect`. */
  lemma CollectNext(files: seq<LogFile>, settings: Settings, limit: nat, got: seq<StoredRecord>, room: nat,
      tail: Result<seq<StoredRecord>>)
    requires files != [] && room == Room(got, files[0].level, limit)
    requires tail == Newest(PiecesOf(files[0]), settings, files[0].level, room)
    ensures tail.Err? ==> Collect(files, settings, limit, got) == tail
    ensures tail.Ok? ==> Collect(files, settings, limit, got) == Collect(files[1..], settings, limit, got + tail.value)
  {
  }

  ghost predicate Tracks(counts: map<string, nat>, records: seq<StoredRecord>, limit: nat) {
    forall level :: CountOf(counts, level) == Count(records, level) <= limit
  }

  /** The map of counts keeps counting what has been read. */
  lemma CountsFollow(counts: map<string, nat>, records: seq<StoredRecord>, level: string, tail: seq<StoredRecord>,
      limit: nat)
    requires Tracks(counts, records, limit)
    requires OneLevel(tail, level) && |tail| <= limit - CountOf(counts, level)
    ensures Tracks(counts[level := CountOf(counts, level) + |tail|], records + tail, limit)
  {
    forall other
      ensures Count(records + tail, other) == Count(records, other) + if other == level then |tail| else 0
    {
      CountFile(records, level, tail, other);
    }
  }

  method ReadFiles(files: seq<LogFile>, settings: Settings, limit: nat) returns (r: Result<seq<StoredRecord>>)
    requires settings.Valid()
    ensures r == Collect(files, settings, limit, [])
  {
    var records: seq<StoredRecord> := [];
    var counts: map<string, nat> := map[];
    ghost var left, wanted := files, Collect(files, settings, limit, []);
    for i := 0 to |files|
      invariant left == files[i..]
      invariant Tracks(counts, records, limit)
      invariant wanted == Collect(left, settings, limit, records)
    {
      var file := files[i];
      assert left[0] == file;
      var remaining := limit - CountOf(counts, file.level);
      if remaining == 0 {
        CollectNext(left, settings, limit, records, 0, Ok([]));
        assert records + [] == records;
      } else {
        var tail := ReadFile(file, settings, remaining);
        CollectNext(left, settings, limit, records, remaining, tail);
        if tail.Err? {
          return tail;
        }
        ReadOnOneLevel(PiecesOf(file), settings, file.level, remaining, true, []);
        CountsFollow(counts, records, file.level, tail.value, limit);
        counts := counts[file.level := CountOf(counts, file.level) + |tail.value|];
        records := records + tail.value;
      }
      left := left[1..];
    }
    return Ok(records);
  }

  /** Opening a file that has vanished since the listing yields no records and no error. */
  method ReadFile(file: LogFile, settings: Settings, limit: nat) returns (r: Result<seq<StoredRecord>>)
    requires settings.Valid()
    ensures r == Newest(PiecesOf(file), settings, file.level, limit)
  {
    if file.content.None? {
      return Ok([]);
    }
    r := ReadLogFile(file.content.value, settings, file.level, limit);
  }

  // ----- the stable sort -----

  /** Where a record of the given time goes: after every record that is not older. */
  function Place(sorted: seq<StoredRecord>, time: int): (p: nat)
    ensures p <= |sorted|
  {
    if sorted == [] then 0
    else if sorted[|sorted| - 1].time >= time then |sorted|
    else Place(sorted[..|sorted| - 1], time)
  }

  function Insert(sorted: seq<StoredRecord>, x: StoredRecord): seq<StoredRecord> {
    var p := Place(sorted, x.time);
    sorted[..p] + [x] + sorted[p..]
  }

  /** `sort.SliceStable`, newest first. */
  function SortNewestFirst(records: seq<StoredRecord>): seq<StoredRecord> {
    if records == [] then [] else Insert(SortNewestFirst(records[..|records| - 1]), records[|records| - 1])
  }

  ghost predicate NewestFirst(s: seq<StoredRecord>) {
    forall i, j :: 0 <= i < j < |s| ==> s[i].time >= s[j].time
  }

  /** The records of one time, in their order. */
  ghost function At(s: seq<StoredRecord>, time: int): seq<StoredRecord> {
    if s == [] then []
    else At(s[..|s| - 1], time) + if s[|s| - 1].time == time then [s[|s| - 1]] else []
  }

  ghost function AtLeast(s: seq<StoredRecord>, time: int): nat {
    if s == [] then 0
    else AtLeast(s[..|s| - 1], time) + if s[|s| - 1].time >= time then 1 else 0
  }

  lemma {:induction false} PlaceFacts(s: seq<StoredRecord>, time: int)
    requires NewestFirst(s)
    ensures var p := Place(s, time);
      && (forall k :: 0 <= k < p ==> s[k].time >= time)
      && (forall k :: p <= k < |s| ==> s[k].time < time)
      && AtLeast(s, time) == p
  {
    if s != [] {
      var front := s[..|s| - 1];
      PlaceFacts(front, time);
      if s[|s| - 1].time >= time {
        var p := Place(front, time);
        assert p == |front|;
      }
    }
  }

  lemma {:induction false} AtConcat(a: seq<StoredRecord>, b: seq<StoredRecord>, time: int)
    ensures At(a + b, time) == At(a, time) + At(b, time)
    ensures AtLeast(a + b, time) == AtLeast(a, time) + AtLeast(b, time)
  {
    if b == [] {
      assert a + b == a;
    } else {
      assert (a + b)[..|a + b| - 1] == a + b[..|b| - 1];
      AtConcat(a, b[..|b| - 1], time);
    }
  }

  lemma {:induction false} AtNone(s: seq<StoredRecord>, time: int)
    requires forall k :: 0 <= k < |s| ==> s[k].time != time
    ensures At(s, time) == []
  {
    if s != [] {
      AtNone(s[..|s| - 1], time);
    }
  }

  lemma InsertSorted(s: seq<StoredRecord>, x: StoredRecord)
    requires NewestFirst(s)
    ensures NewestFirst(Insert(s, x))
  {
    PlaceFacts(s, x.time);
  }

  lemma InsertAt(s: seq<StoredRecord>, x: StoredRecord, time: int)
    requires NewestFirst(s)
    ensures At(Insert(s, x), time) == At(s, time) + At([x], time)
    ensures AtLeast(Insert(s, x), time) == AtLeast(s, time) + AtLeast([x], time)
  {
    var p := Place(s, x.time);
    PlaceFacts(s, x.time);
    assert s == s[..p] + s[p..];
    AtBetween(s[..p], x, s[p..], time);
  }

  lemma AtBetween(a: seq<StoredRecord>, x: StoredRecord, b: seq<StoredRecord>, time: int)
    requires forall k :: 0 <= k < |b| ==> b[k].time < x.time
    ensures At(a + [x] + b, time) == At(a + b, time) + At([x], time)
    ensures AtLeast(a + [x] + b, time) == AtLeast(a + b, time) + AtLeast([x], time)
  {
    AtConcat(a + [x], b, time);
    AtConcat(a, [x], time);
    AtConcat(a, b, time);
    if time == x.time {
      AtNone(b, time);
    } else {
      AtNone([x], time);
    }
    SwapEmpty(At(a, time), At([x], time), At(b, time));
  }

  lemma SwapEmpty<T>(a: seq<T>, x: seq<T>, b: seq<T>)
    requires x == [] || b == []
    ensures (a + x) + b == (a + b) + x
  {
  }

  /** The sort sorts, and is stable: records of equal time keep their order. */
  lemma {:induction false} SortIsStable(records: seq<StoredRecord>, time: int)
    ensures NewestFirst(SortNewestFirst(records))
    ensures var sorted := SortNewestFirst(records);
      forall i, j :: 0 <= i < j < |sorted| ==> sorted[i].time >= sorted[j].time
    ensures At(SortNewestFirst(records), time) == At(records, time)
    ensures AtLeast(SortNewestFirst(records), time) == AtLeast(records, time)
  {
    if records != [] {
      var front, last := records[..|records| - 1], records[|records| - 1];
      SortIsStable(front, time);
      InsertSorted(SortNewestFirst(front), last);
      InsertAt(SortNewestFirst(front), last, time);
      AtConcat(front, [last], time);
      assert records == front + [last];
    }
  }

  lemma {:induction false} AtHead(s: seq<StoredRecord>, time: int)
    requires s != []
    ensures At(s, time) == (if s[0].time == time then [s[0]] else []) + At(s[1..], time)
  {
    AtConcat([s[0]], s[1..], time);
    assert s == [s[0]] + s[1..];
    assert [s[0]][..0] == [];
    assert At([s[0]], time) == At([], time) + (if s[0].time == time then [s[0]] else []);
  }

  /** Two non-empty sorted sequences with the same records of every time start alike. */
  lemma HeadsAgree(a: seq<StoredRecord>, b: seq<StoredRecord>)
    requires a != [] && b != [] && NewestFirst(a) && NewestFirst(b)
    requires At(a, a[0].time) == At(b, a[0].time) && At(a, b[0].time) == At(b, b[0].time)
    ensures a[0] == b[0]
  {
    AtHead(a, a[0].time);
    AtHead(b, b[0].time);
    if a[0].time > b[0].time {
      AtNone(b, a[0].time);
    } else if b[0].time > a[0].time {
      AtNone(a, b[0].time);
    } else {
      assert At(a, a[0].time)[0] == a[0] && At(b, b[0].time)[0] == b[0];
    }
  }

  lemma SameTail<T>(x: seq<T>, a: seq<T>, b: seq<T>)
    requires x + a == x + b
    ensures a == b
  {
    assert a == (x + a)[|x|..] && b == (x + b)[|x|..];
  }

  /** Sorted and stable determine the result, so `SortNewestFirst` is the stable sort. */
  lemma {:induction false} StableSortIsUnique(a: seq<StoredRecord>, b: seq<StoredRecord>)
    requires NewestFirst(a) && NewestFirst(b)
    requires forall time :: At(a, time) == At(b, time)
    ensures a == b
  {
    if a == [] && b != [] {
      AtHead(b, b[0].time);
    } else if a != [] && b == [] {
      AtHead(a, a[0].time);
    } else if a != [] {
      HeadsAgree(a, b);
      forall time
        ensures At(a[1..], time) == At(b[1..], time)
      {
        AtHead(a, time);
        AtHead(b, time);
        SameTail(if a[0].time == time then [a[0]] else [], At(a[1..], time), At(b[1..], time));
      }
      StableSortIsUnique(a[1..], b[1..]);
      assert a == [a[0]] + a[1..] && b == [b[0]] + b[1..];
    }
  }

  // ----- the cut per level -----

  function AllOf(file: LogFile, settings: Settings): Result<seq<StoredRecord>> {
    All(PiecesOf(file), settings, file.level, true)
  }

  ghost predicate Readable(files: seq<LogFile>, settings: Settings) {
    forall i :: 0 <= i < |files| ==> AllOf(files[i], settings).Ok?
  }

  /** Every record of every file, in reading order. */
  ghost function Everything(files: seq<LogFile>, settings: Settings): seq<StoredRecord>
    requires Readable(files, settings)
  {
    if files == [] then [] else AllOf(files[0], settings).value + Everything(files[1..], settings)
  }

  /** The first `limit` records of each level. */
  ghost function Kept(l: seq<StoredRecord>, limit: nat): seq<StoredRecord> {
    if l == [] then []
    else
      var front, x := l[..|l| - 1], l[|l| - 1];
      Kept(front, limit) + if Count(front, x.level) < limit then [x] else []
  }

  /** The records of one level, in their order. */
  ghost function OfLevel(l: seq<StoredRecord>, level: string): seq<StoredRecord> {
    if l == [] then []
    else OfLevel(l[..|l| - 1], level) + if l[|l| - 1].level == level then [l[|l| - 1]] else []
  }

  lemma OfLevelSnoc(s: seq<StoredRecord>, x: StoredRecord, level: string)
    ensures OfLevel(s + [x], level) == OfLevel(s, level) + if x.level == level then [x] else []
  {
    assert (s + [x])[..|s|] == s;
  }

  lemma {:induction false} OfLevelCount(l: seq<StoredRecord>, level: string)
    ensures |OfLevel(l, level)| == Count(l, level)
  {
    if l != [] {
      OfLevelCount(l[..|l| - 1], level);
    }
  }

  lemma KeptSnoc(front: seq<StoredRecord>, x: StoredRecord, limit: nat)
    ensures Kept(front + [x], limit)
      == if Count(front, x.level) < limit then Kept(front, limit) + [x] else Kept(front, limit)
  {
    assert (front + [x])[..|front|] == front;
  }

  /** Of each level the first `limit` records are kept, in their order. */
  lemma {:induction false} KeptOfLevel(l: seq<StoredRecord>, limit: nat, level: string)
    ensures OfLevel(Kept(l, limit), level) == Take(OfLevel(l, level), limit)
  {
    if l != [] {
      var front, x := l[..|l| - 1], l[|l| - 1];
      FrontAndLast(l);
      KeptOfLevel(front, limit, level);
      KeptSnoc(front, x, limit);
      OfLevelSnoc(front, x, level);
      OfLevelSnoc(Kept(front, limit), x, level);
      if x.level == level {
        OfLevelCount(front, level);
        TakeSnoc(OfLevel(front, level), x, limit);
      } else {
        assert OfLevel(Kept(front, limit), level) + [] == OfLevel(Kept(front, limit), level);
        assert OfLevel(front, level) + [] == OfLevel(front, level);
      }
    }
  }

  function Min(a: int, b: int): int { if a < b then a else b }

  lemma {:induction false} KeptFile(l: seq<StoredRecord>, limit: nat, level: string, records: seq<StoredRecord>,
      room: nat)
    requires OneLevel(records, level) && room == Room(l, level, limit)
    ensures Kept(l + records, limit) == Kept(l, limit) + Take(records, room)
  {
    var whole := l + records;
    if records == [] {
      assert whole == l;
    } else {
      var front, x := records[..|records| - 1], records[|records| - 1];
      KeptFile(l, limit, level, front, room);
      CountFile(l, level, front, level);
      FrontOfConcat(l, records);
      FrontAndLast(records);
      TakeSnoc(front, x, room);
      Associative(Kept(l, limit), Take(front, room), if |front| < room then [x] else []);
      assert Take(front, room) + [] == Take(front, room);
    }
  }

  lemma TakeSnoc<T>(s: seq<T>, x: T, k: nat)
    ensures Take(s + [x], k) == if |s| < k then Take(s, k) + [x] else Take(s, k)
  {
  }

  lemma {:induction false} CountKept(l: seq<StoredRecord>, limit: nat, level: string)
    ensures Count(Kept(l, limit), level) == Min(limit, Count(l, level))
  {
    if l != [] {
      var front, x := l[..|l| - 1], l[|l| - 1];
      CountKept(front, limit, level);
      CountFile(Kept(front, limit), x.level, [x], level);
      assert Kept(front, limit) + [] == Kept(front, limit);
    }
  }

  /** One readable file: its cut tail brings the records read to the kept part of all records so far. */
  lemma CollectStep(files: seq<LogFile>, settings: Settings, limit: nat, before: seq<StoredRecord>,
      records: seq<StoredRecord>)
    requires files != [] && AllOf(files[0], settings) == Ok(records)
    ensures Collect(files, settings, limit, Kept(before, limit))
      == Collect(files[1..], settings, limit, Kept(before + records, limit))
  {
    var level := files[0].level;
    var room := Room(Kept(before, limit), level, limit);
    CountKept(before, limit, level);
    NewestIsPrefix(PiecesOf(files[0]), settings, level, room);
    NewestIsPrefix(PiecesOf(files[0]), settings, level, |records|);
    ReadOnOneLevel(PiecesOf(files[0]), settings, level, |records|, true, []);
    KeptFile(before, limit, level, records, room);
  }

  /** What is read under the per-level limits is the first `limit` records of each level. */
  lemma {:induction false} CollectKeeps(files: seq<LogFile>, settings: Settings, limit: nat, before: seq<StoredRecord>)
    requires Readable(files, settings)
    ensures Collect(files, settings, limit, Kept(before, limit))
      == Ok(Kept(before + Everything(files, settings), limit))
  {
    if files == [] {
      assert before + [] == before;
    } else {
      var records := AllOf(files[0], settings).value;
      CollectStep(files, settings, limit, before, records);
      CollectKeeps(files[1..], settings, limit, before + records);
      Associative(before, records, Everything(files[1..], settings));
    }
  }

  /** Within each level the reading order never goes forward in time. */
  ghost predicate NewestFirstPerLevel(l: seq<StoredRecord>) {
    forall i, j :: 0 <= i < j < |l| && l[i].level == l[j].level ==> l[i].time >= l[j].time
  }

  lemma {:induction false} EnoughNotOlder(l: seq<StoredRecord>, level: string, time: int)
    requires forall i :: 0 <= i < |l| && l[i].level == level ==> l[i].time >= time
    ensures AtLeast(l, time) >= Count(l, level)
  {
    if l != [] {
      EnoughNotOlder(l[..|l| - 1], level, time);
    }
  }

  /** The first k of an insertion depend only on the first k before it. */
  lemma TakeInsert(s: seq<StoredRecord>, x: StoredRecord, k: nat)
    requires NewestFirst(s)
    ensures Take(Insert(s, x), k) == Take(Insert(Take(s, k), x), k)
  {
    if k < |s| {
      var p := Place(s, x.time);
      PlaceInPrefix(s, x.time, k);
      TakeOfInsertion(s, p, x, k);
      if p < k {
        TakeOfInsertion(s[..k], p, x, k);
        assert s[..k][..p] == s[..p] && s[..k][p..k - 1] == s[p..k - 1];
      } else {
        assert Insert(s[..k], x)[..k] == s[..k];
      }
    }
  }

  lemma TakeOfInsertion<T>(s: seq<T>, p: nat, x: T, k: nat)
    requires p <= |s| && k <= |s|
    ensures (s[..p] + [x] + s[p..])[..k] == if p < k then s[..p] + [x] + s[p..k - 1] else s[..k]
  {
  }

  lemma PlaceInPrefix(s: seq<StoredRecord>, time: int, k: nat)
    requires NewestFirst(s) && k <= |s|
    ensures Place(s[..k], time) == Min(Place(s, time), k)
  {
    var p, q := Place(s, time), Place(s[..k], time);
    PlaceFacts(s, time);
    PlaceFacts(s[..k], time);
    assert forall j :: 0 <= j < k ==> s[..k][j] == s[j];
    assert p < k ==> s[..k][p] == s[p];
    assert q < k ==> s[..k][q] == s[q];
  }

  lemma InsertBeyond(s: seq<StoredRecord>, x: StoredRecord, k: nat)
    requires NewestFirst(s) && AtLeast(s, x.time) >= k
    ensures Take(Insert(s, x), k) == Take(s, k)
  {
    PlaceFacts(s, x.time);
  }

  /** Cutting every level to k records before the global sort loses none of its first k. */
  lemma {:induction false} CutLosesNothing(l: seq<StoredRecord>, k: nat)
    requires NewestFirstPerLevel(l)
    ensures Take(SortNewestFirst(l), k) == Take(SortNewestFirst(Kept(l, k)), k)
  {
    if l != [] {
      var front, x := l[..|l| - 1], l[|l| - 1];
      CutLosesNothing(front, k);
      var s, kept := SortNewestFirst(front), Kept(front, k);
      SortIsStable(front, x.time);
      if Count(front, x.level) < k {
        assert (kept + [x])[..|kept|] == kept;
        SortIsStable(kept, x.time);
        TakeInsert(s, x, k);
        TakeInsert(SortNewestFirst(kept), x, k);
      } else {
        assert Kept(l, k) == kept;
        EnoughNotOlder(front, x.level, x.time);
        InsertBeyond(s, x, k);
      }
    }
  }

  // ----- Show -----

  function Render(records: seq<StoredRecord>): Bytes {
    if records == [] then [] else Render(records[..|records| - 1]) + (records[|records| - 1].data + [NEWLINE])
  }

  function DataOf(records: seq<StoredRecord>): seq<Bytes> {
    seq(|records|, i requires 0 <= i < |records| => records[i].data)
  }

  /** Every record is a line of its own, in order, and the last one ends in a newline too. */
  lemma {:induction false} RenderIsLines(records: seq<StoredRecord>)
    requires records != [] && forall i :: 0 <= i < |records| ==> 10 !in records[i].data
    ensures var text := Render(records);
      text != [] && text[|text| - 1] == 10 && Split(text[..|text| - 1], 10) == DataOf(records)
  {
    var front, last := records[..|records| - 1], records[|records| - 1];
    FrontAndLast(records);
    RenderSnoc(front, last);
    DataOfSnoc(front, last);
    if front == [] {
      FirstLine(last.data);
      assert DataOf(front) + [last.data] == [last.data] && Render(front) + (last.data + [10]) == last.data + [10];
    } else {
      RenderIsLines(front);
      LineAfter(Render(front), DataOf(front), last.data);
    }
  }

  lemma RenderSnoc(front: seq<StoredRecord>, last: StoredRecord)
    ensures Render(front + [last]) == Render(front) + (last.data + [10])
  {
    assert (front + [last])[..|front|] == front;
  }

  lemma FirstLine(last: Bytes)
    requires 10 !in last
    ensures (last + [10])[..|last|] == last && Split(last, 10) == [last]
  {
    SplitNone(last, 10);
  }

  /** A text of lines with one more. */
  lemma LineAfter(text: Bytes, lines: seq<Bytes>, last: Bytes)
    requires text != [] && text[|text| - 1] == 10 && Split(text[..|text| - 1], 10) == lines && 10 !in last
    ensures var later := text + (last + [10]);
      later[|later| - 1] == 10 && Split(later[..|later| - 1], 10) == lines + [last]
  {
    var body := text[..|text| - 1];
    assert text == body + [10];
    OneMoreLine(body, last);
    SplitConcat(body, 10, last);
    SplitNone(last, 10);
  }

  lemma OneMoreLine(body: Bytes, last: Bytes)
    ensures (body + [10]) + (last + [10]) == (body + [10] + last) + [10]
    ensures ((body + [10]) + (last + [10]))[..|body| + 1 + |last|] == body + [10] + last
  {
  }

  lemma DataOfSnoc(front: seq<StoredRecord>, last: StoredRecord)
    ensures DataOf(front + [last]) == DataOf(front) + [last.data]
  {
  }

  /** The writing loop of `Show`, from the oldest record to the newest. */
  method Write(records: seq<StoredRecord>) returns (output: Bytes)
    ensures output == Render(Reverse(records))
  {
    output := [];
    var index := |records| - 1;
    while index >= 0
      invariant -1 <= index < |records|
      invariant output == Render(Reverse(records)[..|records| - 1 - index])
    {
      var done := |records| - 1 - index;
      assert Reverse(records)[..done + 1][..done] == Reverse(records)[..done];
      output := output + (records[index].data + [NEWLINE]);
      index := index - 1;
    }
    assert Reverse(records)[..|records|] == Reverse(records);
  }

  method Show(entries: Option<seq<DirEntry>>, prefix: string, tail: int, settings: Settings) returns (r: Result<Bytes>)
    requires settings.Valid()
    ensures tail < 1 ==> r == Err(TailNotPositive)
    ensures 1 <= tail ==>
      var read := if entries.None? then Ok([])
                  else Collect(SortFiles(Selected(entries.value, prefix)), settings, tail, []);
      r == if read.Err? then Err(read.failure) else Ok(Render(Reverse(Take(SortNewestFirst(read.value), tail))))
  {
    if tail < 1 {
      return Err(TailNotPositive);
    }
    var read := ReadRecords(entries, prefix, settings, tail);
    if read.Err? {
      return Err(read.failure);
    }
    var records := SortNewestFirst(read.value);
    if |records| > tail {
      records := records[..tail];
    }
    var output := Write(records);
    return Ok(output);
  }

  lemma {:induction false} ReadingIsKept(files: seq<LogFile>, settings: Settings, limit: nat)
    requires Readable(files, settings)
    ensures Collect(files, settings, limit, []) == Ok(Kept(Everything(files, settings), limit))
  {
    CollectKeeps(files, settings, limit, []);
    assert Kept([], limit) == [];
    NothingBefore(Everything(files, settings));
  }

  /** What `Show` computes from the cut reading is the last `tail` records of the stable time sort of
      everything in the selected files, oldest first. */
  lemma {:induction false} ShowIsTheTail(files: seq<LogFile>, settings: Settings, tail: nat)
    requires Readable(files, settings) && NewestFirstPerLevel(Everything(files, settings))
    ensures var read := Collect(files, settings, tail, []);
      var chronicle := Reverse(SortNewestFirst(Everything(files, settings)));
      && read.Ok?
      && Reverse(Take(SortNewestFirst(read.value), tail))
         == if |chronicle| <= tail then chronicle else chronicle[|chronicle| - tail..]
  {
    var l := Everything(files, settings);
    ReadingIsKept(files, settings, tail);
    CutLosesNothing(l, tail);
    ReverseTake(SortNewestFirst(l), tail);
  }

  lemma ReverseTake(s: seq<StoredRecord>, k: nat)
    ensures Reverse(Take(s, k)) == if |s| <= k then Reverse(s) else Reverse(s)[|s| - k..]
  {
    if k < |s| {
      ReverseConcat(s[..k], s[k..]);
      assert s == s[..k] + s[k..];
    }
  }
}
