/** The backwards line reader of the log viewer.

  `ReverseLogReader.Line` walks a file from its end in chunks.  Its contract says that one call takes
  the last newline-separated piece off what is still unread, whatever the chunk size; the lemmas below
  say that the pieces so obtained are the forward split of the file, reversed. */
module LogLines {
  import opened Octets
  import opened Seqs

  const NEWLINE: Byte := 10
  const RETURN: Byte := 13

  datatype Piece = Piece(data: Bytes, position: nat)

  /** Where the last piece of an unread prefix starts. */
  function LastStart(unread: Bytes): (start: nat)
    ensures start <= |unread|
  {
    LastIndexOf(unread, NEWLINE) + 1
  }

  lemma LastStartFacts(unread: Bytes)
    ensures forall k :: LastStart(unread) <= k < |unread| ==> unread[k] != NEWLINE
    ensures 0 < LastStart(unread) ==> unread[LastStart(unread) - 1] == NEWLINE
  {
    LastIndexOfFacts(unread, NEWLINE);
  }

  function LastPiece(unread: Bytes): Piece {
    Piece(unread[LastStart(unread)..], LastStart(unread))
  }

  /** What is unread after the last piece and its separating newline are gone. */
  function Before(unread: Bytes): (r: Bytes)
    ensures unread != [] ==> |r| < |unread|
  {
    var start := LastStart(unread);
    if start == 0 then [] else unread[..start - 1]
  }

  /** The pieces in reading order, newest first. */
  function Backwards(unread: Bytes): seq<Piece>
    decreases |unread|
  {
    if unread == [] then [] else [LastPiece(unread)] + Backwards(Before(unread))
  }

  function Data(pieces: seq<Piece>): (r: seq<Bytes>)
    ensures |r| == |pieces|
  {
    seq(|pieces|, i requires 0 <= i < |pieces| => pieces[i].data)
  }

  /** The forward split of the file, without its first piece when that is empty. */
  function Lines(content: Bytes): seq<Bytes> {
    var pieces := Split(content, NEWLINE);
    if pieces[0] == [] then pieces[1..] else pieces
  }

  lemma LinesSnoc(before: Bytes, data: Bytes)
    requires NEWLINE !in data
    ensures Lines(before + [NEWLINE] + data) == Lines(before) + [data]
  {
    SplitNone(data, NEWLINE);
    SplitConcat(before, NEWLINE, data);
    var front := Split(before, NEWLINE);
    assert (front + [data])[1..] == front[1..] + [data];
  }

  /** Reading backwards gives the newline-split pieces in reverse, all but an empty first one. */
  lemma {:induction false} BackwardsIsReversedSplit(content: Bytes)
    ensures Data(Backwards(content)) == Reverse(Lines(content))
    decreases |content|
  {
    if content != [] {
      var start, last, before := LastStart(content), content[LastStart(content)..], Before(content);
      BackwardsIsReversedSplit(before);
      LastStartFacts(content);
      DataCons(LastPiece(content), Backwards(before));
      assert NEWLINE !in last;
      if start == 0 {
        assert last == content;
        SplitNone(content, NEWLINE);
      } else {
        assert content == before + [NEWLINE] + last;
        LinesSnoc(before, last);
        ReverseConcat(Lines(before), [last]);
      }
    }
  }

  lemma DataCons(p: Piece, pieces: seq<Piece>)
    ensures Data([p] + pieces) == [p.data] + Data(pieces)
  {
  }

  /** `p` is a newline-delimited piece of `content`, at its true byte offset. */
  ghost predicate PieceOf(content: Bytes, p: Piece) {
    && p.position + |p.data| <= |content|
    && (forall j :: 0 <= j < |p.data| ==> content[p.position + j] == p.data[j] != NEWLINE)
    && (0 < p.position ==> content[p.position - 1] == NEWLINE)
    && (p.position + |p.data| < |content| ==> content[p.position + |p.data|] == NEWLINE)
  }

  lemma PieceOfLonger(before: Bytes, content: Bytes, p: Piece)
    requires PieceOf(before, p)
    requires |before| < |content| && content[..|before|] == before && content[|before|] == NEWLINE
    ensures PieceOf(content, p)
  {
    assert forall j :: 0 <= j < |before| ==> content[j] == before[j];
  }

  /** Every piece carries its true starting byte offset. */
  lemma {:induction false} BackwardsPositions(content: Bytes, k: nat)
    requires k < |Backwards(content)|
    ensures PieceOf(content, Backwards(content)[k])
    decreases |content|
  {
    var rest := Backwards(Before(content));
    LastStartFacts(content);
    assert Backwards(content) == [LastPiece(content)] + rest;
    if 0 < k {
      BackwardsPositions(Before(content), k - 1);
      PieceOfLonger(Before(content), content, rest[k - 1]);
    }
  }

  function StripReturn(data: Bytes): Bytes {
    if data != [] && data[|data| - 1] == RETURN then data[..|data| - 1] else data
  }

  /** One trailing carriage return goes, and no more. */
  lemma StripReturnIs(data: Bytes)
    ensures StripReturn(data + [13]) == data
    ensures data == [] || data[|data| - 1] != 13 ==> StripReturn(data) == data
  {
  }

  datatype LineResult = Line(data: Bytes, position: nat) | Eof | TooLong(position: nat)

  /** Chunks in the order they were read, put back into file order. */
  ghost function Assemble(parts: seq<Bytes>): Bytes {
    if parts == [] then [] else parts[|parts| - 1] + Assemble(parts[..|parts| - 1])
  }

  lemma AssembleSnoc(parts: seq<Bytes>, part: Bytes)
    ensures Assemble(parts + [part]) == part + Assemble(parts)
  {
    assert (parts + [part])[..|parts|] == parts;
  }

  /** The chunks taken make up what follows a position. */
  ghost predicate TakenFrom(source: Bytes, position: nat, total: nat, parts: seq<Bytes>) {
    position <= total <= |source| && Assemble(parts) == source[position..total]
  }

  /** The buffer holds the bytes of the source from the offset on. */
  ghost predicate Mirrors(source: Bytes, offset: nat, buffer: Bytes) {
    offset + |buffer| <= |source| && buffer == source[offset..offset + |buffer|]
  }

  lemma ChunkEnds(source: Bytes, offset: nat, buffer: Bytes, n: nat, total: nat)
    requires Mirrors(source, offset, buffer) && n <= |buffer| && offset + |buffer| <= total <= |source|
    ensures source[offset + n..total] == buffer[n..] + source[offset + |buffer|..total]
  {
    assert buffer[n..] == source[offset + n..offset + |buffer|];
  }

  /** What follows the last newline of a chunk cannot start before the last piece does. */
  lemma PartTaken(source: Bytes, offset: nat, buffer: Bytes, newline: int, total: nat)
    requires Mirrors(source, offset, buffer) && offset + |buffer| <= total <= |source|
    requires newline == LastIndexOf(buffer, NEWLINE)
    requires LastStart(source[..total]) <= offset + |buffer|
    ensures var start := LastStart(source[..total]);
      if newline >= 0 then start == offset + (newline + 1) else start <= offset
  {
    var unread := source[..total];
    LastStartFacts(unread);
    LastIndexOfFacts(buffer, NEWLINE);
    assert forall k :: offset <= k < offset + |buffer| ==> unread[k] == buffer[k - offset];
  }

  lemma PartAssembled(source: Bytes, offset: nat, buffer: Bytes, newline: int, total: nat, parts: seq<Bytes>,
      part: Bytes)
    requires Mirrors(source, offset, buffer) && newline == LastIndexOf(buffer, NEWLINE) && part == buffer[newline + 1..]
    requires TakenFrom(source, offset + |buffer|, total, parts) && LastStart(source[..total]) <= offset + |buffer|
    ensures TakenFrom(source, offset + (newline + 1), total, parts + [part])
    ensures var start := LastStart(source[..total]);
      if newline >= 0 then start == offset + (newline + 1) else start <= offset
  {
    PartTaken(source, offset, buffer, newline, total);
    ChunkEnds(source, offset, buffer, newline + 1, total);
    AssembleSnoc(parts, part);
  }

  lemma {:induction false} AssemblePrefix(parts: seq<Bytes>, n: nat)
    requires n <= |parts|
    ensures |Assemble(parts[..n])| <= |Assemble(parts)|
  {
    if n < |parts| {
      AssemblePrefix(parts[..|parts| - 1], n);
      assert parts[..|parts| - 1][..n] == parts[..n];
    } else {
      assert parts[..n] == parts;
    }
  }

  /** `copy(data[from:], part)` */
  method Copy(data: array<Byte>, from: nat, part: Bytes)
    requires from + |part| <= data.Length
    modifies data
    ensures data[..] == old(data[..from]) + part + old(data[from + |part|..])
  {
    forall k | 0 <= k < |part| {
      data[from + k] := part[k];
    }
  }

  /** Lays the chunks out from the end of a fresh array of their total size. */
  method Gather(parts: seq<Bytes>, total: nat) returns (r: Bytes)
    requires total == |Assemble(parts)|
    ensures r == Assemble(parts)
  {
    var data := new Byte[total];
    var size := total;
    for i := 0 to |parts|
      invariant size + |Assemble(parts[..i])| == data.Length == |Assemble(parts)|
      invariant data[size..] == Assemble(parts[..i])
    {
      AssemblePrefix(parts, i + 1);
      AssembleSnoc(parts[..i], parts[i]);
      assert parts[..i + 1] == parts[..i] + [parts[i]];
      size := size - |parts[i]|;
      Copy(data, size, parts[i]);
      assert data[size..] == parts[i] + Assemble(parts[..i]);
    }
    assert parts[..|parts|] == parts;
    return data[..];
  }

  /** Drops one trailing carriage return. */
  method Stripped(data: Bytes) returns (r: Bytes)
    ensures r == StripReturn(data)
  {
    r := data;
    if data != [] && data[|data| - 1] == RETURN {
      r := data[..|data| - 1];
    }
  }

  class ReverseLogReader {
    const source: Bytes
    const chunkBytes: nat
    const maxBytes: nat
    var offset: nat
    var buffer: Bytes

    /** `chunkBytes` and `maxBytes` are the source's 64 KiB and 16 MiB. */
    constructor (source: Bytes, chunkBytes: nat, maxBytes: nat)
      requires 1 <= chunkBytes
      ensures this.source == source && this.chunkBytes == chunkBytes && this.maxBytes == maxBytes
      ensures Valid() && Unread() == source
    {
      this.source, this.chunkBytes, this.maxBytes := source, chunkBytes, maxBytes;
      offset, buffer := |source|, [];
    }

    ghost predicate Valid()
      reads this
    {
      1 <= chunkBytes && Mirrors(source, offset, buffer)
    }

    ghost function Unread(): Bytes
      requires Valid()
      reads this
    {
      source[..offset + |buffer|]
    }

    /** Reads the chunk before the current offset. */
    method LoadChunk()
      requires Valid() && buffer == [] && 0 < offset
      modifies this`offset, this`buffer
      ensures Valid() && buffer != [] && offset + |buffer| == old(offset)
    {
      var chunkSize := if chunkBytes < offset then chunkBytes else offset;
      offset := offset - chunkSize;
      buffer := source[offset..offset + chunkSize];
    }

    /** What follows the last newline of the buffer; it cannot start before the last piece does. */
    method LastPart(ghost total: nat, ghost start: nat, ghost parts: seq<Bytes>) returns (newline: int, part: Bytes)
      requires Valid() && TakenFrom(source, offset + |buffer|, total, parts)
      requires start == LastStart(source[..total]) <= offset + |buffer|
      ensures -1 <= newline < |buffer| && |part| == |buffer| - (newline + 1)
      ensures TakenFrom(source, offset + (newline + 1), total, parts + [part])
      ensures if newline >= 0 then start == offset + (newline + 1) else start <= offset
    {
      newline := LastIndexOf(buffer, NEWLINE);
      part := buffer[newline + 1..];
      PartAssembled(source, offset, buffer, newline, total, parts, part);
    }

    /** Drops the newline and what follows it, or the whole buffer when it has none. */
    method KeepBefore(newline: int)
      requires Valid() && -1 <= newline < |buffer|
      modifies this`buffer
      ensures Valid() && |buffer| == if newline >= 0 then newline else 0
    {
      buffer := if newline >= 0 then buffer[..newline] else [];
    }

    /** The chunks taken so far reach from the end of the buffer to the end of the piece that starts at `start`. */
    ghost predicate Scanning(total: nat, start: nat, parts: seq<Bytes>, size: nat, position: nat)
      reads this
    {
      && Valid() && start <= offset + |buffer| && TakenFrom(source, offset + |buffer|, total, parts)
      && size == total - (offset + |buffer|) <= maxBytes + 1
      && (size > 0 ==> position == offset + |buffer|)
    }

    /** The piece is complete, and its newline, if it has one, is gone. */
    ghost predicate Scanned(total: nat, start: nat, parts: seq<Bytes>, size: nat, position: nat)
      reads this
    {
      && Valid() && 0 < total && position == start && offset + |buffer| == (if start == 0 then 0 else start - 1)
      && TakenFrom(source, start, total, parts) && size == total - start
    }

    /** One turn of the scanning loop, with a chunk at hand. */
    method Take(ghost total: nat, ghost start: nat, parts: seq<Bytes>, size: nat, position: nat)
      returns (newline: int, parts': seq<Bytes>, size': nat, position': nat)
      requires Scanning(total, start, parts, size, position) && start == LastStart(source[..total]) && buffer != []
      modifies this`buffer
      ensures Valid()
      ensures size' > maxBytes + 1 ==> start <= position' <= total && size' == total - position'
      ensures size' <= maxBytes + 1 && newline >= 0 ==> Scanned(total, start, parts', size', position')
      ensures size' <= maxBytes + 1 && newline < 0 ==> Scanning(total, start, parts', size', position') && buffer == []
    {
      var part: Bytes;
      newline, part := LastPart(total, start, parts);
      position' := offset + (newline + 1);
      size' := size + |part|;
      parts' := parts + [part];
      if size' <= maxBytes + 1 {
        KeepBefore(newline);
      }
    }

    /** The scanning loop of `Line`: chunks are loaded until one holds a newline or the file starts. */
    method Scan() returns (stop: Option<LineResult>, parts: seq<Bytes>, size: nat, position: nat)
      requires Valid()
      modifies this`offset, this`buffer
      ensures Valid()
      ensures var total, start := old(offset + |buffer|), LastStart(old(Unread()));
        if stop.Some? then
          || (stop.value.Eof? && total == 0)
          || (stop.value.TooLong? && start <= stop.value.position <= total
            && total - stop.value.position > maxBytes + 1)
        else Scanned(total, start, parts, size, position)
    {
      ghost var total := offset + |buffer|;
      ghost var start := LastStart(source[..total]);
      parts, size, position := [], 0, 0;
      stop := None;
      while true
        invariant Scanning(total, start, parts, size, position)
        decreases offset + |buffer|
      {
        if |buffer| == 0 {
          if offset == 0 {
            if size == 0 {
              stop := Some(Eof);
            }
            return;
          }
          LoadChunk();
        }
        var newline;
        newline, parts, size, position := Take(total, start, parts, size, position);
        if size > maxBytes + 1 {
          stop := Some(TooLong(position));
          return;
        }
        if newline >= 0 {
          return;
        }
      }
    }

    /** One call takes the last piece off the unread bytes: end of file if and only if nothing is unread,
        too long if and only if the piece without its carriage return exceeds the maximum. */
    method Line() returns (r: LineResult)
      requires Valid()
      modifies this`offset, this`buffer
      ensures Valid()
      ensures var unread := old(Unread());
        && (r.Eof? <==> unread == [])
        && (r.TooLong? <==> unread != [] && |StripReturn(LastPiece(unread).data)| > maxBytes)
        && (r.Line? ==> r.data == StripReturn(LastPiece(unread).data) && r.position == LastPiece(unread).position
                        && Unread() == Before(unread))
        && (r.TooLong? ==> LastPiece(unread).position <= r.position <= |unread|)
    {
      ghost var unread := Unread();
      var stop, parts, size, position := Scan();
      assert LastPiece(unread).data == source[LastStart(unread)..|unread|];
      if stop.Some? {
        return stop.value;
      }
      var data := Gather(parts, size);
      data := Stripped(data);
      if |data| > maxBytes {
        return TooLong(position);
      }
      return LineResult.Line(data, position);
    }
  }
}
