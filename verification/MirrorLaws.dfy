/** What the mirror's operations mean, byte by byte.  By the refinement theorems all of this
    holds of the device as well. */
module MirrorLaws {
  import opened Geometry
  import opened Ring
  import opened MirrorSpec
  import opened Clock
  import opened Bus
  import opened EndToEnd
  import W = WriteRefinement

  // Erasing.

  lemma {:induction false} ZeroWrites(base: seq<Byte>, pos: nat, n: nat, a: nat)
    requires a < |base|
    ensures Put(base, pos, Zeros(n))[a] == if exists j :: 0 <= j < n && At(pos, j, |base|) == a then 0 else base[a]
  {
    if n > 0 {
      ZeroWrites(base, pos, n - 1, a);
      assert Zeros(n) == Zeros(n - 1) + [0];
      PutSnoc(base, pos, Zeros(n - 1), 0);
      if j :| 0 <= j < n - 1 && At(pos, j, |base|) == a {
        assert 0 <= j < n;
      }
    } else {
      assert Zeros(0) == [];
    }
  }

  /** Block number k of a range that begins at offset, wrapped to the store. */
  function BlockNumber(offset: nat, k: nat): nat {
    (offset / BLOCK_SIZE + k) % 256
  }

  lemma BlockIsHit(offset: nat, k: nat, a: nat)
    requires a < STORE_SIZE && BlockNumber(offset, k) == a / BLOCK_SIZE
    ensures At(BlockStart(offset), k * BLOCK_SIZE + a % BLOCK_SIZE, STORE_SIZE) == a
  {
    var b := offset / BLOCK_SIZE + k;
    Division(b * BLOCK_SIZE + a % BLOCK_SIZE, STORE_SIZE, b / 256, b % 256 * BLOCK_SIZE + a % BLOCK_SIZE);
  }

  lemma HitIsBlock(offset: nat, j: nat)
    ensures At(BlockStart(offset), j, STORE_SIZE) / BLOCK_SIZE == BlockNumber(offset, j / BLOCK_SIZE)
  {
    var b := offset / BLOCK_SIZE + j / BLOCK_SIZE;
    Division(BlockStart(offset) + j, STORE_SIZE, b / 256, b % 256 * BLOCK_SIZE + j % BLOCK_SIZE);
    Division(b % 256 * BLOCK_SIZE + j % BLOCK_SIZE, BLOCK_SIZE, b % 256, j % BLOCK_SIZE);
  }

  /** An erase zeroes the bytes of the blocks that its range touches, wrapped to the store
      however long the range is, and nothing else. */
  lemma EraseMeaning(mirror: seq<Byte>, offset: nat, size: nat, a: nat)
    requires |mirror| == STORE_SIZE && a < STORE_SIZE
    ensures EraseMirror(mirror, offset, size)[a]
         == if exists k :: 0 <= k < BlockCount(offset, size) && BlockNumber(offset, k) == a / BLOCK_SIZE
            then 0 else mirror[a]
  {
    var blocks := BlockCount(offset, size);
    ZeroWrites(mirror, BlockStart(offset), blocks * BLOCK_SIZE, a);
    if k :| 0 <= k < blocks && BlockNumber(offset, k) == a / BLOCK_SIZE {
      BlockIsHit(offset, k, a);
      assert 0 <= k * BLOCK_SIZE + a % BLOCK_SIZE < blocks * BLOCK_SIZE;
    }
    if j :| 0 <= j < blocks * BLOCK_SIZE && At(BlockStart(offset), j, STORE_SIZE) == a {
      HitIsBlock(offset, j);
      assert 0 <= j / BLOCK_SIZE < blocks;
    }
  }

  // Reading back what has been written.

  /** Bytes of the pages that a write touches. */
  function Span(offset: nat, size: nat): nat {
    offset % PAGE_SIZE + size + PagePadding(offset + size)
  }

  /** Two writes of one request hit the same byte only if they are a multiple of the size of the
      store apart. */
  lemma SameIndex(pos: nat, j: nat, k: nat)
    requires j <= k
    ensures At(pos, j, STORE_SIZE) == At(pos, k, STORE_SIZE) <==> (k - j) % STORE_SIZE == 0
  {
  }

  lemma DataIndex(offset: nat, i: nat)
    ensures At(offset, i, STORE_SIZE) == At(PageStart(offset), offset % PAGE_SIZE + i, STORE_SIZE)
  {
  }

  lemma WrittenElement(mirror: seq<Byte>, bytes: seq<Byte>, offset: nat, k: nat)
    requires |mirror| == STORE_SIZE && k < |W.Image(offset, bytes)|
    requires |W.Image(offset, bytes)| - k <= STORE_SIZE
    ensures WriteMirror(mirror, bytes, offset)[At(PageStart(offset), k, STORE_SIZE)] == W.Image(offset, bytes)[k]
  {
    var image := W.Image(offset, bytes);
    var a := At(PageStart(offset), k, STORE_SIZE);
    W.WrittenIsPut(mirror, offset, bytes);
    W.WrittenIsMirrored(mirror, bytes, offset);
    forall j | k < j < |image| ensures At(PageStart(offset), j, STORE_SIZE) != a {
      SameIndex(PageStart(offset), k, j);
    }
    LastWriteWins(mirror, PageStart(offset), image, a);
    assert LastHit(STORE_SIZE, PageStart(offset), |image|, a, k);
  }

  /** What has been written can be read back, if the write touches no page twice. */
  lemma ReadBack(mirror: seq<Byte>, bytes: seq<Byte>, offset: nat)
    requires |mirror| == STORE_SIZE && Span(offset, |bytes|) <= STORE_SIZE
    ensures ReadMirror(WriteMirror(mirror, bytes, offset), offset, |bytes|) == bytes
  {
    var first := offset % PAGE_SIZE;
    forall i | 0 <= i < |bytes|
      ensures ReadMirror(WriteMirror(mirror, bytes, offset), offset, |bytes|)[i] == bytes[i]
    {
      DataIndex(offset, i);
      WrittenElement(mirror, bytes, offset, first + i);
    }
  }

  /** One byte that is 1 among zeroes. */
  function Mark(size: nat, t: nat): (r: seq<Byte>)
    ensures |r| == size
  {
    seq(size, i => if i == t then 1 else 0)
  }

  /** Otherwise the write laps itself, and some contents are lost. */
  lemma LapLosesBytes(mirror: seq<Byte>, offset: nat, size: nat) returns (bytes: seq<Byte>)
    requires |mirror| == STORE_SIZE && size > 0 && Span(offset, size) > STORE_SIZE
    ensures |bytes| == size && ReadMirror(WriteMirror(mirror, bytes, offset), offset, size) != bytes
  {
    var first := offset % PAGE_SIZE;
    var last := Span(offset, size) - 1;
    WholePages(offset, size);
    var t := last - STORE_SIZE - first;
    bytes := Mark(size, t);
    WrittenElement(mirror, bytes, offset, last);
    SameIndex(PageStart(offset), first + t, last);
    DataIndex(offset, t);
    assert W.Image(offset, bytes)[last] == 0;
    assert ReadMirror(WriteMirror(mirror, bytes, offset), offset, size)[t] == 0;
  }

  lemma WholePages(offset: nat, size: nat)
    requires Span(offset, size) > STORE_SIZE
    ensures Span(offset, size) >= STORE_SIZE + PAGE_SIZE
  {
  }

  /** Every content of a write can be read back if and only if the pages it touches fit into the
      store. */
  lemma ReadBackExactly(mirror: seq<Byte>, offset: nat, size: nat)
    requires |mirror| == STORE_SIZE && size > 0
    ensures (forall bytes :: |bytes| == size ==> ReadMirror(WriteMirror(mirror, bytes, offset), offset, size) == bytes)
       <==> Span(offset, size) <= STORE_SIZE
  {
    if Span(offset, size) <= STORE_SIZE {
      forall bytes | |bytes| == size
        ensures ReadMirror(WriteMirror(mirror, bytes, offset), offset, size) == bytes
      {
        ReadBack(mirror, bytes, offset);
      }
    } else {
      var bytes := LapLosesBytes(mirror, offset, size);
    }
  }

  /** The stack, after any requests: a read of what has just been written returns it. */
  lemma StackReadsBack(device: Device, tick: Schedule, requests: seq<Request>,
                       bytes: seq<Byte>, buffer: seq<Byte>, offset: nat)
    requires Emulates(device, tick) && NoneEmpty(requests)
    requires 0 < |bytes| == |buffer| && Span(offset, |bytes|) <= STORE_SIZE
    ensures var all := requests + [Write(bytes, offset), Read(buffer, offset)];
            var r := ServeAll(device, World(POWER_ON, 0, [], []), all);
            r.ok && |r.buffers| == |all| && r.buffers[|all| - 1] == bytes
  {
    var write := requests + [Write(bytes, offset)];
    var all := requests + [Write(bytes, offset), Read(buffer, offset)];
    StackAgreesWithMirror(device, tick, all);
    assert write[..|requests|] == requests && all[..|requests| + 1] == write;
    ReadBack(AnswerAll(Zeros(STORE_SIZE), requests).mirror, bytes, offset);
    assert AnswerAll(Zeros(STORE_SIZE), all).buffers == AnswerAll(Zeros(STORE_SIZE), write).buffers + [bytes];
    BufferPerRequest(Zeros(STORE_SIZE), write);
  }

  lemma {:induction false} BufferPerRequest(mirror: seq<Byte>, requests: seq<Request>)
    requires |mirror| == STORE_SIZE
    ensures |AnswerAll(mirror, requests).buffers| == |requests|
  {
    if requests != [] {
      BufferPerRequest(mirror, requests[..|requests| - 1]);
    }
  }
}
