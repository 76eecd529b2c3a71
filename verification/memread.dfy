/** The unpacker's memory helpers: a chunked reader that never fails and
    fills unreadable chunks with zeros, and a whole-process dump. The
    emulator's `virtual_memory_read` becomes a reader function that may
    fail (`None`, where the source catches an exception). */
module MemRead {
  import opened Wrappers
  import opened ByteFmt
  import opened Signed

  /** `virtual_memory_read(cpu, addr, n)`. */
  type Reader = (nat, nat) -> Option<seq<byte>>

  /** What one attempt appends: the bytes read, or `p` zeros on failure. */
  function Chunk(read: Reader, addr: nat, p: nat): seq<byte> {
    match read(addr, p)
    case Some(d) => d
    case None => Repeat(0 as byte, p)
  }

  /** The address of attempt `j`. */
  function ChunkAddr(start: nat, p: nat, j: nat): nat {
    start + j * p
  }

  /** The concatenation of the first `count` attempts, at start, start + p, … */
  function Chunks(read: Reader, start: nat, p: nat, count: nat): seq<byte> {
    if count == 0 then [] else Chunks(read, start, p, count - 1) + Chunk(read, ChunkAddr(start, p, count - 1), p)
  }

  /** `output[:size]`: Python slicing stops at the end of a shorter string. */
  function Prefix(s: seq<byte>, size: nat): (r: seq<byte>)
    ensures |r| == if size <= |s| then size else |s|
    ensures r == s[..|r|]
  {
    if size <= |s| then s[..size] else s
  }

  /** `read_memory(panda, cpu, start, size, read_portion_size)`: reads
      `p`-byte chunks at start, start + p, … while the address does not
      pass start + size (that is, size / p + 1 attempts), replacing a chunk
      that cannot be read by zeros, and cuts the result to `size` bytes.
      It never fails. */
  method ReadMemory(read: Reader, start: nat, size: nat, p: nat) returns (out: seq<byte>)
    requires p > 0
    ensures out == Prefix(Chunks(read, start, p, size / p + 1), size)
    ensures |out| <= size && (size == 0 ==> out == [])
  {
    var output: seq<byte> := [];
    var loc := start;
    ghost var i := 0;
    while loc <= start + size
      invariant loc == ChunkAddr(start, p, i)
      invariant i <= size / p + 1
      invariant i * p <= size + p
      invariant output == Chunks(read, start, p, i)
      decreases start + size + p - loc
    {
      output := output + Chunk(read, loc, p);
      AttemptBound(size, p, i);
      loc := loc + p;
      i := i + 1;
    }
    AttemptCount(size, p, i);
    out := Prefix(output, size);
  }

  lemma AttemptBound(size: nat, p: nat, i: nat)
    requires p > 0 && i * p <= size
    ensures i + 1 <= size / p + 1 && (i + 1) * p <= size + p
  {
    DivMod(size, p);
    if i > size / p {
      MulMonotone(p, size / p + 1, i);
    }
  }

  lemma AttemptCount(size: nat, p: nat, i: nat)
    requires p > 0 && i * p > size && i <= size / p + 1
    ensures i == size / p + 1
  {
    DivMod(size, p);
    if i <= size / p {
      MulMonotone(p, i, size / p);
    }
  }

  /** The reader returns as many bytes as asked for on every chunk of the
      scan. */
  ghost predicate WholeChunks(read: Reader, start: nat, p: nat, count: nat) {
    forall j :: 0 <= j < count ==> read(ChunkAddr(start, p, j), p).Some? ==> |read(ChunkAddr(start, p, j), p).value| == p
  }

  /** Byte `o` of chunk `q` of the scan, or 0 if that chunk cannot be read. */
  function ChunkByte(read: Reader, start: nat, p: nat, q: nat, o: nat): byte
    requires o < p
    requires var c := read(ChunkAddr(start, p, q), p); c.Some? ==> |c.value| == p
  {
    match read(ChunkAddr(start, p, q), p)
    case Some(d) => d[o]
    case None => 0
  }

  lemma {:induction false} ChunksLength(read: Reader, start: nat, p: nat, count: nat)
    requires p > 0 && WholeChunks(read, start, p, count)
    ensures |Chunks(read, start, p, count)| == count * p
  {
    if count > 0 {
      var c := count - 1;
      ChunksLength(read, start, p, c);
      assert |Chunk(read, ChunkAddr(start, p, c), p)| == p;
      Slot(p, c, c, 0);
    }
  }

  /** Byte `o` of chunk `q` sits at q * p + o. */
  lemma {:induction false} ChunkSlot(read: Reader, start: nat, p: nat, count: nat, q: nat, o: nat)
    requires p > 0 && WholeChunks(read, start, p, count)
    requires q < count && o < p
    ensures |Chunks(read, start, p, count)| == count * p
    ensures q * p + o < count * p && Chunks(read, start, p, count)[q * p + o] == ChunkByte(read, start, p, q, o)
  {
    var c := count - 1;
    ChunksLength(read, start, p, count);
    ChunksLength(read, start, p, c);
    var prev := Chunks(read, start, p, c);
    var last := Chunk(read, ChunkAddr(start, p, c), p);
    assert Chunks(read, start, p, count) == prev + last;
    Slot(p, c, q, o);
    var k := q * p + o;
    if q < c {
      ChunkSlot(read, start, p, c, q, o);
      assert Chunks(read, start, p, count)[k] == prev[k];
    } else {
      assert k - |prev| == o;
      assert Chunks(read, start, p, count)[k] == last[o];
    }
  }

  /** Where byte `o` of chunk `q` lies among `c + 1` chunks of `p` bytes. */
  lemma Slot(p: nat, c: nat, q: nat, o: nat)
    requires o < p && q <= c
    ensures (c + 1) * p == c * p + p
    ensures q < c ==> q * p + o < c * p
    ensures q * p + o < (c + 1) * p
  {
    if q < c {
      MulMonotone(p, q + 1, c);
    }
  }

  /** A scan of size / p + 1 chunks covers `size` bytes. */
  lemma ScanCovers(size: nat, p: nat)
    requires p > 0
    ensures size < (size / p + 1) * p
  {
    DivMod(size, p);
    assert (size / p + 1) * p == p * (size / p) + p;
  }

  /** Byte `q * p + o` of the result is byte `o` of chunk `q`. */
  lemma ReadMemorySlot(read: Reader, start: nat, size: nat, p: nat, n: nat, q: nat, o: nat)
    requires p > 0 && n == size / p + 1 && WholeChunks(read, start, p, n)
    requires q < n && o < p && q * p + o < size
    ensures |Prefix(Chunks(read, start, p, n), size)| == size
    ensures Prefix(Chunks(read, start, p, n), size)[q * p + o] == ChunkByte(read, start, p, q, o)
  {
    ScanCovers(size, p);
    ChunksLength(read, start, p, n);
    ChunkSlot(read, start, p, n, q, o);
    var all := Chunks(read, start, p, n);
    var k := q * p + o;
    assert size <= |all|;
    assert Prefix(all, size) == all[..size];
    assert Prefix(all, size)[k] == all[k];
  }

  /** When every chunk read returns `p` bytes, the result is exactly `size`
      bytes long and byte `o` of chunk `q` holds what memory holds there
      where the chunk is readable and zero where it is not; `size` 0 gives
      nothing. */
  lemma ReadMemoryContent(read: Reader, start: nat, size: nat, p: nat)
    requires p > 0 && WholeChunks(read, start, p, size / p + 1)
    ensures |Prefix(Chunks(read, start, p, size / p + 1), size)| == size
    ensures forall q: nat, o: nat :: q <= size / p && o < p && q * p + o < size ==>
      Prefix(Chunks(read, start, p, size / p + 1), size)[q * p + o] == ChunkByte(read, start, p, q, o)
  {
    var n := size / p + 1;
    ScanCovers(size, p);
    ChunksLength(read, start, p, n);
    forall q: nat, o: nat | q < n && o < p && q * p + o < size
      ensures Prefix(Chunks(read, start, p, n), size)[q * p + o] == ChunkByte(read, start, p, q, o)
    {
      ReadMemorySlot(read, start, size, p, n, q, o);
    }
  }

  /** One entry of `get_mappings`. */
  datatype Mapping = Mapping(base: nat, size: nat)

  /** The retry loop of `read_all_process_memory` as written: `size` shrinks
      by a page on every failure, but every attempt reads the whole mapping
      again, so the loop only ever repeats the same read. */
  function MappingAsWritten(read: Reader, mp: Mapping, size: int): seq<byte>
    decreases size
  {
    if size <= 0 then []
    else match read(mp.base, mp.size)
      case Some(d) => d
      case None => MappingAsWritten(read, mp, size - 0x1000)
  }

  /** As written, a mapping contributes its full contents or nothing. */
  lemma {:induction false} AsWrittenAllOrNothing(read: Reader, mp: Mapping, size: int)
    ensures MappingAsWritten(read, mp, size) ==
      if size > 0 && read(mp.base, mp.size).Some? then read(mp.base, mp.size).value else []
    decreases size
  {
    if size > 0 && read(mp.base, mp.size).None? {
      AsWrittenAllOrNothing(read, mp, size - 0x1000);
    }
  }

  /** The retry loop as its comment describes it: on failure, try again
      without the last page. */
  function MappingCorrected(read: Reader, mp: Mapping, size: int): seq<byte>
    decreases size
  {
    if size <= 0 then []
    else match read(mp.base, size as nat)
      case Some(d) => d
      case None => MappingCorrected(read, mp, size - 0x1000)
  }

  /** Attempt `j` reads `size - j` pages' worth less. */
  function Tried(size: int, j: nat): int {
    size - j * 0x1000
  }

  /** Attempt `j` is the first one that succeeds. */
  ghost predicate FirstReadable(read: Reader, mp: Mapping, size: int, j: nat) {
    && Tried(size, j) > 0 && read(mp.base, Tried(size, j) as nat).Some?
    && forall j' :: 0 <= j' < j ==> read(mp.base, Tried(size, j') as nat).None?
  }

  /** The result is what attempt `j`, the first to succeed, read. */
  ghost predicate KeepsAttempt(read: Reader, mp: Mapping, size: int, j: nat, r: seq<byte>) {
    FirstReadable(read, mp, size, j) && r == read(mp.base, Tried(size, j) as nat).value
  }

  ghost predicate AttemptKept(read: Reader, mp: Mapping, size: int, r: seq<byte>) {
    exists j: nat :: KeepsAttempt(read, mp, size, j, r)
  }

  /** The corrected loop keeps the longest readable prefix among the sizes it
      tries, and gives nothing only when none of them can be read. */
  lemma {:induction false} CorrectedLongestReadable(read: Reader, mp: Mapping, size: int)
    ensures var r := MappingCorrected(read, mp, size);
      || AttemptKept(read, mp, size, r)
      || (r == [] && forall j: nat :: Tried(size, j) > 0 ==> read(mp.base, Tried(size, j) as nat).None?)
    decreases size
  {
    if size > 0 {
      if read(mp.base, size as nat).Some? {
        assert KeepsAttempt(read, mp, size, 0, MappingCorrected(read, mp, size));
      } else {
        CorrectedLongestReadable(read, mp, size - 0x1000);
        var r := MappingCorrected(read, mp, size);
        if AttemptKept(read, mp, size - 0x1000, r) {
          var j: nat :| KeepsAttempt(read, mp, size - 0x1000, j, r);
          assert KeepsAttempt(read, mp, size, j + 1, r) by {
            forall j' | 0 <= j' < j + 1 ensures read(mp.base, Tried(size, j') as nat).None? {
              if j' > 0 { assert Tried(size, j') == Tried(size - 0x1000, j' - 1); }
            }
          }
        } else {
          forall j: nat | Tried(size, j) > 0 ensures read(mp.base, Tried(size, j) as nat).None? {
            if j > 0 { assert Tried(size, j) == Tried(size - 0x1000, j - 1); }
          }
        }
      }
    } else {
      forall j: nat | Tried(size, j) > 0 ensures false {}
    }
  }

  /** `read_all_process_memory` as written: the mappings' contributions in
      order. */
  function ReadAllAsWritten(read: Reader, mps: seq<Mapping>): seq<byte> {
    if |mps| == 0 then []
    else ReadAllAsWritten(read, mps[..|mps| - 1]) + MappingAsWritten(read, mps[|mps| - 1], mps[|mps| - 1].size)
  }

  /** The same with the corrected retry loop. */
  function ReadAllCorrected(read: Reader, mps: seq<Mapping>): seq<byte> {
    if |mps| == 0 then []
    else ReadAllCorrected(read, mps[..|mps| - 1]) + MappingCorrected(read, mps[|mps| - 1], mps[|mps| - 1].size)
  }

  /** The correction changes only what the original drops: when every
      mapping can be read whole, both loops give the same dump. */
  lemma {:induction false} CorrectedKeepsWholeDumps(read: Reader, mps: seq<Mapping>)
    requires forall i :: 0 <= i < |mps| ==> mps[i].size == 0 || read(mps[i].base, mps[i].size).Some?
    ensures ReadAllCorrected(read, mps) == ReadAllAsWritten(read, mps)
    decreases |mps|
  {
    if |mps| > 0 {
      var n := |mps| - 1;
      CorrectedKeepsWholeDumps(read, mps[..n]);
      AsWrittenAllOrNothing(read, mps[n], mps[n].size);
    }
  }

  /** As written, the dump is the concatenation, in mapping order, of the
      full contents of every mapping that can be read whole. */
  function WholeMappings(read: Reader, mps: seq<Mapping>): seq<byte> {
    if |mps| == 0 then []
    else
      var mp := mps[0];
      (if mp.size > 0 && read(mp.base, mp.size).Some? then read(mp.base, mp.size).value else [])
      + WholeMappings(read, mps[1..])
  }

  lemma {:induction false} ReadAllAsWrittenWhole(read: Reader, mps: seq<Mapping>)
    ensures ReadAllAsWritten(read, mps) == WholeMappings(read, mps)
    decreases |mps|
  {
    if |mps| > 0 {
      var n := |mps| - 1;
      ReadAllAsWrittenWhole(read, mps[..n]);
      AsWrittenAllOrNothing(read, mps[n], mps[n].size);
      WholeMappingsSnoc(read, mps[..n], mps[n]);
      assert mps[..n] + [mps[n]] == mps;
    }
  }

  lemma {:induction false} WholeMappingsSnoc(read: Reader, mps: seq<Mapping>, mp: Mapping)
    ensures WholeMappings(read, mps + [mp]) == WholeMappings(read, mps) + WholeMappings(read, [mp])
    decreases |mps|
  {
    if |mps| == 0 {
      assert [] + [mp] == [mp];
    } else {
      assert (mps + [mp])[0] == mps[0];
      assert (mps + [mp])[1..] == mps[1..] + [mp];
      WholeMappingsSnoc(read, mps[1..], mp);
    }
  }

  /** Memory where only the first page of anything is readable: a two-page
      mapping at 0 whose second page is unmapped. */
  const FirstPageOnly: Reader := (a: nat, n: nat) => if n <= 0x1000 then Some(Repeat(0 as byte, n)) else None

  /** As written, that mapping contributes nothing, although its first page
      is readable; the corrected loop keeps the page. */
  lemma PartialMappingDropped()
    ensures MappingAsWritten(FirstPageOnly, Mapping(0, 0x2000), 0x2000) == []
    ensures MappingCorrected(FirstPageOnly, Mapping(0, 0x2000), 0x2000) == Repeat(0 as byte, 0x1000)
  {
    AsWrittenAllOrNothing(FirstPageOnly, Mapping(0, 0x2000), 0x2000);
    assert FirstPageOnly(0, 0x2000).None?;
    assert MappingCorrected(FirstPageOnly, Mapping(0, 0x2000), 0x1000) == Repeat(0 as byte, 0x1000);
  }
}
