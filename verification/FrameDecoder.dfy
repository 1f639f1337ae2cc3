/** The incremental frame decoder of web/src/api/http.ts: `(u32 index, u32 length, payload)` frames
    out of a byte stream that arrives in arbitrary chunks. */
module FrameDecoder {
  import opened Seqs
  import opened Bytes

  const HEADER: nat := 8
  const MAX_IPC_FRAME_BYTES: nat := 512 * 1024 * 1024

  datatype Tile = Tile(index: nat, payload: seq<Byte>)

  function IndexOf(b: seq<Byte>): nat
    requires |b| >= HEADER
  {
    Decoded(b[..4])
  }

  function LengthOf(b: seq<Byte>): nat
    requires |b| >= HEADER
  {
    Decoded(b[4..8])
  }

  /** A whole frame is there. */
  predicate HasFrame(b: seq<Byte>) {
    |b| >= HEADER && |b| >= HEADER + LengthOf(b)
  }

  /** The tiles a frame announces: none if it is empty, too long, or not a table. */
  function Announced(index: nat, payload: seq<Byte>, isTable: seq<Byte> -> bool): seq<Tile> {
    if 0 < |payload| <= MAX_IPC_FRAME_BYTES && isTable(payload) then [Tile(index, payload)] else []
  }

  /** Reading a whole stream at once: the tiles, in order, and the bytes of an unfinished frame. */
  function Tiles(b: seq<Byte>, isTable: seq<Byte> -> bool): seq<Tile>
    decreases |b|
  {
    if !HasFrame(b) then []
    else Announced(IndexOf(b), b[HEADER..HEADER + LengthOf(b)], isTable) + Tiles(b[HEADER + LengthOf(b)..], isTable)
  }

  function Rest(b: seq<Byte>): seq<Byte>
    decreases |b|
  {
    if !HasFrame(b) then b else Rest(b[HEADER + LengthOf(b)..])
  }

  /** No complete frame is left behind. */
  lemma {:induction false} RestIsUnfinished(b: seq<Byte>)
    ensures !HasFrame(Rest(b))
    decreases |b|
  {
    if HasFrame(b) {
      RestIsUnfinished(b[HEADER + LengthOf(b)..]);
    }
  }

  /** More bytes behind a stream do not change the frames already whole. */
  lemma {:induction false} MoreBytes(a: seq<Byte>, b: seq<Byte>, isTable: seq<Byte> -> bool)
    ensures Tiles(a + b, isTable) == Tiles(a, isTable) + Tiles(Rest(a) + b, isTable)
    ensures Rest(a + b) == Rest(Rest(a) + b)
    decreases |a|
  {
    if HasFrame(a) {
      var n := HEADER + LengthOf(a);
      assert (a + b)[..4] == a[..4] && (a + b)[4..8] == a[4..8];
      assert (a + b)[HEADER..n] == a[HEADER..n] && (a + b)[n..] == a[n..] + b;
      MoreBytes(a[n..], b, isTable);
      Reassociate(Announced(IndexOf(a), a[HEADER..n], isTable), Tiles(a[n..], isTable), Tiles(Rest(a[n..]) + b, isTable));
    }
  }

  /** The read loop: whatever the chunks, the tiles are those of the whole stream. */
  method DecodeStream(chunks: seq<seq<Byte>>, isTable: seq<Byte> -> bool) returns (tiles: seq<Tile>, pending: seq<Byte>)
    ensures tiles == Tiles(Flatten(chunks), isTable) && pending == Rest(Flatten(chunks))
  {
    tiles, pending := [], [];
    for i := 0 to |chunks|
      invariant tiles == Tiles(Flatten(chunks[..i]), isTable) && pending == Rest(Flatten(chunks[..i]))
    {
      FlattenNext(chunks, i);
      MoreBytes(Flatten(chunks[..i]), chunks[i], isTable);
      var more;
      more, pending := DecodePending(pending + chunks[i], isTable);
      tiles := tiles + more;
    }
    assert chunks[..|chunks|] == chunks;
  }

  /** Taking the first frame off the pending bytes moves what it announces to the tiles. */
  lemma TakeFrame(tiles: seq<Tile>, pending: seq<Byte>, isTable: seq<Byte> -> bool)
    requires HasFrame(pending)
    ensures var n := HEADER + LengthOf(pending);
            var announced := Announced(IndexOf(pending), pending[HEADER..n], isTable);
            && tiles + Tiles(pending, isTable) == tiles + announced + Tiles(pending[n..], isTable)
            && (announced == [] ==> tiles + announced == tiles) && Rest(pending) == Rest(pending[n..])
  {
    var n := HEADER + LengthOf(pending);
    Reassociate(tiles, Announced(IndexOf(pending), pending[HEADER..n], isTable), Tiles(pending[n..], isTable));
  }

  /** The inner loop: frames are taken off the front while whole ones are pending. */
  method DecodePending(bytes: seq<Byte>, isTable: seq<Byte> -> bool) returns (tiles: seq<Tile>, pending: seq<Byte>)
    ensures tiles == Tiles(bytes, isTable) && pending == Rest(bytes)
  {
    tiles, pending := [], bytes;
    while |pending| >= HEADER
      invariant tiles + Tiles(pending, isTable) == Tiles(bytes, isTable) && Rest(pending) == Rest(bytes)
      decreases |pending|
    {
      var tileIdx, ipcLen := Decoded(pending[..4]), Decoded(pending[4..8]);
      if |pending| < HEADER + ipcLen {
        assert tiles + [] == tiles;
        return;
      }
      TakeFrame(tiles, pending, isTable);
      if ipcLen > MAX_IPC_FRAME_BYTES {
        pending := pending[HEADER + ipcLen..];
        continue;
      }
      if ipcLen > 0 && isTable(pending[HEADER..HEADER + ipcLen]) {
        tiles := tiles + [Tile(tileIdx, pending[HEADER..HEADER + ipcLen])];
      }
      pending := pending[HEADER + ipcLen..];
    }
    assert tiles + [] == tiles;
  }

  // ---- encoded frames

  function Frame(t: Tile): seq<Byte> {
    LittleEndian(t.index, 4) + LittleEndian(|t.payload|, 4) + t.payload
  }

  function Stream(frames: seq<Tile>): seq<Byte> {
    if frames == [] then [] else Frame(frames[0]) + Stream(frames[1..])
  }

  /** The frames a decoder reports. */
  function Reported(frames: seq<Tile>, isTable: seq<Byte> -> bool): seq<Tile> {
    if frames == [] then [] else Announced(frames[0].index, frames[0].payload, isTable) + Reported(frames[1..], isTable)
  }

  lemma FrameParts(t: Tile, more: seq<Byte>)
    requires t.index < U32 && |t.payload| < U32
    ensures var b := Frame(t) + more;
            HasFrame(b) && IndexOf(b) == t.index && LengthOf(b) == |t.payload|
            && b[HEADER..HEADER + |t.payload|] == t.payload && b[HEADER + |t.payload|..] == more
  {
    var b := Frame(t) + more;
    FourBytes();
    DecodeEncode(t.index, 4);
    DecodeEncode(|t.payload|, 4);
    assert b[..4] == LittleEndian(t.index, 4);
    assert b[4..8] == LittleEndian(|t.payload|, 4);
  }

  /** Decoding what was encoded reports exactly the frames within the size cap, and leaves nothing pending. */
  lemma {:induction false} DecodingUndoesEncoding(frames: seq<Tile>, isTable: seq<Byte> -> bool)
    requires forall i :: 0 <= i < |frames| ==> frames[i].index < U32 && |frames[i].payload| < U32
    ensures Tiles(Stream(frames), isTable) == Reported(frames, isTable) && Rest(Stream(frames)) == []
  {
    if frames != [] {
      FrameParts(frames[0], Stream(frames[1..]));
      DecodingUndoesEncoding(frames[1..], isTable);
    }
  }
}
