/** What the operations of device/de_store.c mean: the cursor as a number, the page cache
    and the data store as sequences. */
module StoreSpec {
  import opened Geometry
  import opened Ring

  /** The digit of the cursor that an address byte sets. */
  datatype Place = BlockPlace | PagePlace | BytePlace

  /** A store whose cursor is in range and whose cache and data have their proper sizes. */
  type StoreState = s: RawStore | s.Valid() witness BLANK

  datatype RawStore = Store(cursor: nat, cache: seq<Byte>, data: seq<Byte>) {

    ghost predicate Valid() {
      cursor < STORE_SIZE && |cache| == PAGE_SIZE && |data| == STORE_SIZE
    }

    function ClearCache(): RawStore {
      this.(cache := Zeros(PAGE_SIZE))
    }

    function ClearCursor(): RawStore {
      this.(cursor := 0)
    }

    function IncrementCursor(remain: bool): RawStore {
      this.(cursor := if remain then PageStart(cursor) + (cursor + 1) % PAGE_SIZE else (cursor + 1) % STORE_SIZE)
    }

    function IncrementPage(): RawStore {
      this.(cursor := (PageStart(cursor) + PAGE_SIZE) % STORE_SIZE)
    }

    function IncrementBlock(): RawStore {
      this.(cursor := (BlockStart(cursor) + BLOCK_SIZE) % STORE_SIZE)
    }

    function SetCursorByte(value: Byte, place: Place): RawStore {
      this.(cursor :=
        match place
        case BlockPlace => value * BLOCK_SIZE + cursor % BLOCK_SIZE
        case PagePlace => BlockStart(cursor) + value * PAGE_SIZE + cursor % PAGE_SIZE
        case BytePlace => PageStart(cursor) + value)
    }

    function CopyPageToCache(): RawStore
      requires Valid()
    {
      this.(cache := data[PageStart(cursor)..PageStart(cursor) + PAGE_SIZE])
    }

    function CopyPageFromCache(): RawStore
      requires Valid()
    {
      this.(data := Put(data, PageStart(cursor), cache))
    }

    function CacheByte(): Byte
      requires Valid()
    {
      cache[cursor % PAGE_SIZE]
    }

    function SetCacheByte(b: Byte): RawStore
      requires Valid()
    {
      this.(cache := cache[cursor % PAGE_SIZE := b])
    }

    function EraseBlock(): RawStore
      requires Valid()
    {
      this.(data := Put(data, BlockStart(cursor), Zeros(BLOCK_SIZE)))
    }
  }

  /** An address byte replaces its digit of the cursor and leaves the other two. */
  lemma DigitsAfterSet(s: StoreState, value: Byte, place: Place)
    ensures var c, d := s.cursor, s.SetCursorByte(value, place).cursor;
            && d / BLOCK_SIZE == (if place == BlockPlace then value else c / BLOCK_SIZE)
            && d / PAGE_SIZE % 256 == (if place == PagePlace then value else c / PAGE_SIZE % 256)
            && d % PAGE_SIZE == (if place == BytePlace then value else c % PAGE_SIZE)
  {
    var b, p, y := s.cursor / BLOCK_SIZE, s.cursor / PAGE_SIZE % 256, s.cursor % PAGE_SIZE;
    SumOfDigits(s.cursor);
    match place
    case BlockPlace => ThreeDigits(value, p, y);
    case PagePlace => ThreeDigits(b, value, y);
    case BytePlace => ThreeDigits(b, p, value);
  }

  lemma SumOfDigits(c: nat)
    ensures var b, p, y := c / BLOCK_SIZE, c / PAGE_SIZE % 256, c % PAGE_SIZE;
            && c % BLOCK_SIZE == p * PAGE_SIZE + y
            && BlockStart(c) == b * BLOCK_SIZE
            && PageStart(c) == b * BLOCK_SIZE + p * PAGE_SIZE
  {
  }

  lemma ThreeDigits(b: nat, p: nat, y: nat)
    requires p < 256 && y < 256
    ensures var c := b * BLOCK_SIZE + p * PAGE_SIZE + y;
            && c / BLOCK_SIZE == b && c / PAGE_SIZE == b * 256 + p && c / PAGE_SIZE % 256 == p && c % PAGE_SIZE == y
  {
    var c := b * BLOCK_SIZE + p * PAGE_SIZE + y;
    Division(c, BLOCK_SIZE, b, p * PAGE_SIZE + y);
    Division(c, PAGE_SIZE, b * 256 + p, y);
    Division(b * 256 + p, 256, b, p);
  }

  /** After a page or a block the cursor is at the beginning of the next one, and after the last of
      them at the beginning of the store. */
  lemma NextBeginning(s: StoreState)
    ensures var p, b := s.IncrementPage().cursor, s.IncrementBlock().cursor;
            && p % PAGE_SIZE == 0 && p / PAGE_SIZE == (s.cursor / PAGE_SIZE + 1) % 65536
            && b % BLOCK_SIZE == 0 && b / BLOCK_SIZE == (s.cursor / BLOCK_SIZE + 1) % 256
  {
  }

  const BLANK: RawStore := Store(0, Zeros(PAGE_SIZE), Zeros(STORE_SIZE))
}
