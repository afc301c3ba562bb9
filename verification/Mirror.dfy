/** The answer key of the tester, tester/st_mirror.c. */
module Mirror {
  import opened Geometry
  import opened Ring
  import Spec = MirrorSpec

  function PageEnd(o: nat): nat {
    PageStart(o) + PAGE_SIZE - 1
  }

  function BlockEnd(o: nat): nat {
    BlockStart(o) + BLOCK_SIZE - 1
  }

  function Wrap(o: nat): nat {
    o % STORE_SIZE
  }

  /** The value of a sum of unsigned ints. */
  function Unsigned(x: nat): nat {
    x % UINT_LIMIT
  }

  lemma ZerosSnoc(n: nat)
    ensures Zeros(n) + [0] == Zeros(n + 1)
  {
  }

  lemma EraseRange(offset: nat, size: nat)
    requires size > 0
    ensures BlockEnd(offset + size - 1) + 1 == BlockStart(offset) + Spec.BlockCount(offset, size) * BLOCK_SIZE
  {
  }

  class Mirror {
    const mirror: array<Byte>

    ghost predicate Valid() {
      mirror.Length == STORE_SIZE
    }

    constructor ()
      ensures Valid() && fresh(mirror) && mirror[..] == Zeros(STORE_SIZE)
    {
      mirror := new Byte[STORE_SIZE](_ => 0);
    }

    /** read_mirror */
    method ReadMirror(buffer: array<Byte>, offset: nat, size: nat)
      requires Valid() && buffer != mirror && size <= buffer.Length
      modifies buffer
      ensures buffer[..size] == Spec.ReadMirror(mirror[..], offset, size)
      ensures buffer[size..] == old(buffer[size..])
    {
      for i := 0 to size
        invariant buffer[..i] == Get(mirror[..], offset, size)[..i]
        invariant buffer[size..] == old(buffer[size..])
      {
        UnsignedWraps(offset + i);
        buffer[i] := mirror[Wrap(Unsigned(offset + i))];
      }
    }

    /** Zero the bytes from index `first` up to, but not including, index `end`. */
    method ZeroRange(first: nat, end: nat)
      requires Valid() && first <= end
      modifies mirror
      ensures mirror[..] == Put(old(mirror[..]), first, Zeros(end - first))
    {
      PutNothing(mirror[..], first);
      assert Zeros(0) == [];
      for i := first to end
        invariant mirror[..] == Put(old(mirror[..]), first, Zeros(i - first))
      {
        PutSnoc(old(mirror[..]), first, Zeros(i - first), 0);
        ZerosSnoc(i - first);
        mirror[Wrap(i)] := 0;
      }
    }

    /** The actual data bytes of write_mirror. */
    method WriteData(buffer: array<Byte>, offset: nat, size: nat)
      requires Valid() && buffer != mirror && size <= buffer.Length
      modifies mirror
      ensures mirror[..] == Put(old(mirror[..]), offset, buffer[..size])
    {
      PutNothing(mirror[..], offset);
      for i := 0 to size
        invariant mirror[..] == Put(old(mirror[..]), offset, buffer[..i])
      {
        PutSnoc(old(mirror[..]), offset, buffer[..i], buffer[i]);
        assert buffer[..i + 1] == buffer[..i] + [buffer[i]];
        UnsignedWraps(offset + i);
        mirror[Wrap(Unsigned(offset + i))] := buffer[i];
      }
    }

    /** write_mirror.  An unsigned int is never greater than the last address of the 32-bit
        space, so the last loop does not end if the range ends on the last page of that space.
        A range that goes beyond it and wraps around does no harm. */
    method WriteMirror(buffer: array<Byte>, offset: nat, size: nat)
      requires Valid() && buffer != mirror && size <= buffer.Length
      requires 0 < size && Unsigned(offset + size - 1) < LAST_PAGE
      modifies mirror
      ensures mirror[..] == Spec.WriteMirror(old(mirror[..]), buffer[..size], offset)
    {
      ZeroRange(PageStart(offset), offset);
      WriteData(buffer, offset, size);
      LastPage(mirror[..], offset + size);
      ZeroRange(Unsigned(offset + size), PageEnd(Unsigned(offset + size - 1)) + 1);
    }

    static lemma LastPage(m: seq<Byte>, end: nat)
      requires |m| == STORE_SIZE && end > 0 && Unsigned(end - 1) < LAST_PAGE
      ensures PageEnd(Unsigned(end - 1)) + 1 == Unsigned(end) + Spec.PagePadding(end)
      ensures forall s: seq<Byte> :: Put(m, Unsigned(end), s) == Put(m, end, s)
    {
      Division(end, UINT_LIMIT, (end - 1) / UINT_LIMIT, Unsigned(end - 1) + 1);
      PageEndOf(Unsigned(end));
      UnsignedWraps(end);
      forall s: seq<Byte> ensures Put(m, Unsigned(end), s) == Put(m, end, s) {
        PutWraps(m, Unsigned(end), s);
        PutWraps(m, end, s);
      }
    }

    static lemma PageEndOf(end: nat)
      requires end > 0
      ensures PageEnd(end - 1) + 1 == end + Spec.PagePadding(end)
    {
    }

    /** erase_mirror.  For the same reason the range must end before the last block; and one that
        wraps around is not erased, as it ends below its beginning. */
    method EraseMirror(offset: nat, size: nat)
      requires Valid()
      requires 0 < size && offset + size <= LAST_BLOCK
      modifies mirror
      ensures mirror[..] == Spec.EraseMirror(old(mirror[..]), offset, size)
    {
      EraseRange(offset, size);
      ZeroRange(BlockStart(offset), BlockEnd(offset + size - 1) + 1);
    }
  }
}
