/** The storage module of the device emulator, device/de_store.c. */
module Store {
  import opened Geometry
  import opened Ring
  import opened StoreSpec
  import opened CursorWord

  class Store {
    var cursor: bv32
    const cache: array<Byte>
    const data: array<Byte>
    /** The address that the cursor denotes. */
    ghost var address: nat

    /** The quantifier is over one value only; it keeps the solver from looking into the bits
        of the cursor except where a proof mentions Address. */
    ghost predicate Valid()
      reads this
    {
      && (forall c: bv32 {:trigger Address(c)} :: c == cursor ==> c < CURSOR_LIMIT && Address(c) == address)
      && address < STORE_SIZE
      && cache.Length == PAGE_SIZE && data.Length == STORE_SIZE && cache != data
    }

    ghost function State(): (s: StoreState)
      requires Valid()
      reads this, cache, data
    {
      StoreSpec.Store(address, cache[..], data[..])
    }

    /** store_init */
    constructor ()
      ensures Valid() && fresh(cache) && fresh(data)
      ensures State() == BLANK
    {
      cursor, address := 0, 0;
      cache := new Byte[PAGE_SIZE](_ => 0);
      data := new Byte[STORE_SIZE](_ => 0);
      new;
      ZeroIsZero();
    }

    lemma CursorBits()
      requires Valid()
      ensures cursor < CURSOR_LIMIT && Address(cursor) == address
    {
      var a := Address(cursor);
    }

    /** Give the cursor a new value. */
    method Move(c: bv32)
      requires Valid() && c < CURSOR_LIMIT
      modifies this
      ensures Valid() && cursor == c && address == Address(c)
    {
      cursor, address := c, Address(c);
    }

    /** store_clear_cache: memset over the whole cache. */
    method ClearCache()
      requires Valid()
      modifies cache
      ensures Valid() && State() == old(State()).ClearCache()
    {
      forall i | 0 <= i < PAGE_SIZE {
        cache[i] := 0;
      }
    }

    method ClearCursor()
      requires Valid()
      modifies this
      ensures Valid() && State() == old(State()).ClearCursor()
    {
      cursor, address := 0, 0;
      ZeroIsZero();
    }

    method IncrementCursor(remain: bool)
      requires Valid()
      modifies this
      ensures Valid() && State() == old(State()).IncrementCursor(remain)
    {
      if remain {
        IncrementOnPage();
      } else {
        IncrementInStore();
      }
    }

    method IncrementOnPage()
      requires Valid()
      modifies this
      ensures Valid() && State() == old(State()).IncrementCursor(true)
    {
      CursorBits();
      NextOnPageCounts(cursor);
      Move(NextOnPage(cursor));
    }

    method IncrementInStore()
      requires Valid()
      modifies this
      ensures Valid() && State() == old(State()).IncrementCursor(false)
    {
      CursorBits();
      NextInStoreCounts(cursor);
      Move(NextInStore(cursor));
    }

    method IncrementPage()
      requires Valid()
      modifies this
      ensures Valid() && State() == old(State()).IncrementPage()
    {
      CursorBits();
      NextPageCounts(cursor);
      Move(NextPage(cursor));
    }

    method IncrementBlock()
      requires Valid()
      modifies this
      ensures Valid() && State() == old(State()).IncrementBlock()
    {
      CursorBits();
      NextBlockCounts(cursor);
      Move(NextBlock(cursor));
    }

    method SetCursorByte(value: Byte, place: Place)
      requires Valid()
      modifies this
      ensures Valid() && State() == old(State()).SetCursorByte(value, place)
    {
      CursorBits();
      match place
      case BlockPlace =>
        SetBlockReplacesDigit(cursor, value);
        Move(SetByte(cursor, Digit(value) as bv32, CURSOR_BLOCK_SHIFT));
      case PagePlace =>
        SetPageReplacesDigit(cursor, value);
        Move(SetByte(cursor, Digit(value) as bv32, CURSOR_PAGE_SHIFT));
      case BytePlace =>
        SetByteReplacesDigit(cursor, value);
        Move(SetByte(cursor, Digit(value) as bv32, CURSOR_BYTE_SHIFT));
    }

    /** store_copy_page_to_cache: memcpy of the page that contains the cursor. */
    method CopyPageToCache()
      requires Valid()
      modifies cache
      ensures Valid() && State() == old(State()).CopyPageToCache()
    {
      CursorBits();
      var start := PageIndex(cursor);
      forall i | 0 <= i < PAGE_SIZE {
        cache[i] := data[start + i];
      }
    }

    method CopyPageFromCache()
      requires Valid()
      modifies data
      ensures Valid() && State() == old(State()).CopyPageFromCache()
    {
      ghost var start := PageStart(State().cursor);
      ghost var before := data[..];
      StartsFit(State().cursor);
      CursorBits();
      for i := 0 to PAGE_SIZE
        invariant data[..] == Put(before, start, cache[..i])
        invariant cache[..] == old(cache[..])
      {
        PutSnoc(before, start, cache[..i], cache[i]);
        assert cache[..i + 1] == cache[..i] + [cache[i]];
        var idx := PageIndex(cursor);
        idx := idx + i;
        data[idx] := cache[i];
      }
      assert cache[..PAGE_SIZE] == cache[..];
    }

    method GetCacheByte() returns (b: Byte)
      requires Valid()
      ensures b == State().CacheByte()
    {
      CursorBits();
      var offset := ByteIndex(cursor);
      b := cache[offset];
    }

    method SetCacheByte(b: Byte)
      requires Valid()
      modifies cache
      ensures Valid() && State() == old(State()).SetCacheByte(b)
    {
      CursorBits();
      var offset := ByteIndex(cursor);
      cache[offset] := b;
    }

    /** store_erase_block: memset over the block that contains the cursor. */
    method EraseBlock()
      requires Valid()
      modifies data
      ensures Valid() && State() == old(State()).EraseBlock()
    {
      CursorBits();
      var start := BlockIndex(cursor);
      ghost var before := data[..];
      forall i | start <= i < start + BLOCK_SIZE {
        data[i] := 0;
      }
      PutIsSplice(before, start, Zeros(BLOCK_SIZE));
    }
  }
}
