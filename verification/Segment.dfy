/** One shared-memory segment: a 4-byte length word followed by the chunk. */
module Segment {
  import opened Wrappers

  newtype Byte = b: int | 0 <= b < 256

  const WORD := 4
  /** What the cache leaves unused in every segment (`segsize - 16`). */
  const RESERVED := 16
  const MIN_SEGSIZE := 128

  // --- The length word: a C int, least significant byte first ---------------------------

  function IntBytes(n: int): seq<Byte> {
    var u := n % 0x1_0000_0000;
    [ (u % 256) as Byte, (u / 256 % 256) as Byte, (u / 65536 % 256) as Byte, (u / 16777216) as Byte ]
  }

  function BytesInt(w: seq<Byte>): int
    requires |w| == WORD
  {
    var u := w[0] as int + 256 * w[1] as int + 65536 * w[2] as int + 16777216 * w[3] as int;
    if u < 0x8000_0000 then u else u - 0x1_0000_0000
  }

  lemma IntRoundTrip(n: int)
    requires -0x8000_0000 <= n < 0x8000_0000
    ensures BytesInt(IntBytes(n)) == n
  {
    var u := n % 0x1_0000_0000;
    assert u == if n < 0 then n + 0x1_0000_0000 else n;
    assert u / 65536 == u / 256 / 256;
    assert u / 16777216 == u / 65536 / 256;
  }

  // --- Writing and reading a chunk ------------------------------------------------------

  /** The `read` into `shared_buffer + 4`: only the bytes of the chunk change. */
  function PutChunk(mem: seq<Byte>, chunk: seq<Byte>): seq<Byte>
    requires WORD + |chunk| <= |mem|
  {
    mem[..WORD] + chunk + mem[WORD + |chunk|..]
  }

  /** The store through `(int *) shared_buffer`. */
  function PutLength(mem: seq<Byte>, n: int): seq<Byte>
    requires WORD <= |mem|
  {
    IntBytes(n) + mem[WORD..]
  }

  /** What the reader takes out: as many bytes behind the length word as the word says. A word
      that reaches outside the segment has no meaning. */
  function Load(mem: seq<Byte>): Option<seq<Byte>> {
    if |mem| < WORD then None
    else
      var n := BytesInt(mem[..WORD]);
      if 0 <= n && WORD + n <= |mem| then Some(mem[WORD..WORD + n]) else None
  }

  lemma ChunkStored(mem: seq<Byte>, chunk: seq<Byte>)
    requires WORD + |chunk| <= |mem|
    ensures |PutChunk(mem, chunk)| == |mem| && PutChunk(mem, chunk)[WORD..WORD + |chunk|] == chunk
    ensures PutChunk(mem, chunk)[..WORD] == mem[..WORD]
    ensures PutChunk(mem, chunk)[WORD + |chunk|..] == mem[WORD + |chunk|..]
  {
    var stored := PutChunk(mem, chunk);
    assert stored == (mem[..WORD] + chunk) + mem[WORD + |chunk|..];
    assert stored[..WORD + |chunk|] == mem[..WORD] + chunk;
  }

  /** A round of the writer touches the length word and the bytes of the chunk, and nothing
      behind them. */
  lemma WriteTouches(mem: seq<Byte>, chunk: seq<Byte>)
    requires 4 + |chunk| <= |mem| && |chunk| < 0x8000_0000
    ensures var after := PutLength(PutChunk(mem, chunk), |chunk|);
      && |after| == |mem| && after[4..4 + |chunk|] == chunk
      && after[4 + |chunk|..] == mem[4 + |chunk|..]
  {
    ChunkStored(mem, chunk);
    var stored := PutChunk(mem, chunk);
    var after := PutLength(stored, |chunk|);
    assert after[4..] == stored[4..];
    assert after[4..4 + |chunk|] == stored[4..][..|chunk|] == stored[4..4 + |chunk|];
    assert after[4 + |chunk|..] == stored[4..][|chunk|..] == stored[4 + |chunk|..];
  }

  /** The chunk stored first and the length stored second come back as they were, whatever the
      segment held before. */
  lemma ChunkRoundTrip(mem: seq<Byte>, chunk: seq<Byte>)
    requires WORD + |chunk| <= |mem| && |chunk| < 0x8000_0000
    ensures Load(PutLength(PutChunk(mem, chunk), |chunk|)) == Some(chunk)
  {
    LengthExposesChunk(PutChunk(mem, chunk), |chunk|);
  }

  lemma LengthExposesChunk(mem: seq<Byte>, n: nat)
    requires WORD + n <= |mem| && n < 0x8000_0000
    ensures Load(PutLength(mem, n)) == Some(mem[WORD..WORD + n])
  {
    var w := PutLength(mem, n);
    assert w[..WORD] == IntBytes(n);
    IntRoundTrip(n);
    assert w[WORD..WORD + n] == mem[WORD..WORD + n];
  }

  /** The room for a chunk never wraps below zero, and a chunk that fits the room lies inside
      the segment with its length representable. */
  lemma ChunkFits(segsize: nat, n: nat)
    requires 128 <= segsize < 0x8000_0000
    requires n <= segsize - RESERVED
    ensures segsize - RESERVED == segsize - 16 >= 112 && 4 + n <= segsize && n < 0x8000_0000
  {
  }

  /** A mapped segment with its two semaphores. */
  class SharedSegment {
    const mem: array<Byte>
    var writer: nat
    var reader: nat

    constructor (segsize: nat)
      ensures fresh(mem) && mem.Length == segsize
      ensures writer == 1 && reader == 0
    {
      mem := new Byte[segsize];
      writer := 1;
      reader := 0;
    }

    /** The cache side between `sem_wait(sem_writer)` and `sem_post(sem_reader)`. */
    method Write(chunk: seq<Byte>)
      requires writer == 1 && reader == 0
      requires WORD + |chunk| <= mem.Length && |chunk| < 0x8000_0000
      modifies this, mem
      ensures mem[..] == PutLength(PutChunk(old(mem[..]), chunk), |chunk|)
      ensures mem[4..4 + |chunk|] == chunk && mem[4 + |chunk|..] == old(mem[4 + |chunk|..])
      ensures Load(mem[..]) == Some(chunk)
      ensures writer == 0 && reader == 1
    {
      writer := 0;
      ghost var was := mem[..];
      forall i | 0 <= i < |chunk| {
        mem[WORD + i] := chunk[i];
      }
      assert mem[..] == PutChunk(was, chunk);
      var w := IntBytes(|chunk|);
      mem[0], mem[1], mem[2], mem[3] := w[0], w[1], w[2], w[3];
      assert mem[..] == PutLength(PutChunk(was, chunk), |chunk|);
      ChunkRoundTrip(was, chunk);
      WriteTouches(was, chunk);
      assert mem[4..4 + |chunk|] == mem[..][4..4 + |chunk|];
      assert mem[4 + |chunk|..] == mem[..][4 + |chunk|..];
      reader := 1;
    }

    /** The proxy side between `sem_wait(sem_reader)` and `sem_post(sem_writer)`. */
    method Read() returns (chunk: seq<Byte>)
      requires writer == 0 && reader == 1
      requires Load(mem[..]).Some?
      modifies this
      ensures Load(mem[..]) == Some(chunk)
      ensures writer == 1 && reader == 0
    {
      reader := 0;
      var n := BytesInt(mem[..WORD]);
      assert mem[..][..WORD] == mem[..WORD];
      chunk := mem[WORD..WORD + n];
      writer := 1;
    }
  }
}
