/** The 24-bit cursor as device/de_store.c computes it, with the masks and shifts of
    device/de_store.h on a machine word, and proofs that each operation is plain
    arithmetic on the address that the word denotes. */
module CursorWord {
  import opened Geometry

  const CURSOR_BLOCK_MASK: bv32 := 0x00FF0000
  const CURSOR_PAGE_MASK: bv32 := 0x0000FF00
  const CURSOR_BYTE_MASK: bv32 := 0x000000FF

  const CURSOR_BLOCK_SHIFT: bv32 := 16
  const CURSOR_PAGE_SHIFT: bv32 := 8
  const CURSOR_BYTE_SHIFT: bv32 := 0

  const CURSOR_LIMIT: bv32 := 0x0100_0000

  function Low(c: bv32): bv8 { (c & CURSOR_BYTE_MASK) as bv8 }
  function Middle(c: bv32): bv8 { ((c & CURSOR_PAGE_MASK) >> 8) as bv8 }
  function High(c: bv32): bv8 { ((c & CURSOR_BLOCK_MASK) >> 16) as bv8 }

  // Conversions between machine bytes and numbers, by counting.  The conversions built
  // into the language would make the solver reason about bits and numbers at once.

  function Count(d: bv8): nat {
    if d == 0 then 0 else Count(d - 1) + 1
  }

  function Digit(b: Byte): bv8 {
    if b == 0 then 0 else Digit(b - 1) + 1
  }

  lemma {:induction false} CountIsValue(d: bv8)
    ensures Count(d) == d as int
  {
    if d != 0 {
      CountIsValue(d - 1);
    }
  }

  function ByteOf(d: bv8): (b: nat)
    ensures b < 256
  {
    CountIsValue(d);
    Count(d)
  }

  /** The device address that a cursor word denotes. */
  function Address(c: bv32): (a: nat)
    ensures a < STORE_SIZE
  {
    Radix256(ByteOf(High(c)), ByteOf(Middle(c)), ByteOf(Low(c)))
  }

  function Radix256(block: Byte, page: Byte, byte: Byte): nat {
    block * BLOCK_SIZE + page * PAGE_SIZE + byte
  }

  /** set_cursor_byte */
  function SetByte(c: bv32, value: bv32, shift: bv32): bv32
    requires shift <= 16
  {
    (c & !((0xFF as bv32) << shift)) | (value << shift)
  }

  /** increment_cursor with `remain` set: stay on the page. */
  function NextOnPage(c: bv32): bv32 {
    var bytes := c & CURSOR_BYTE_MASK;
    if bytes + 1 < 256 then c + 1 else c & !CURSOR_BYTE_MASK
  }

  /** increment_cursor with `remain` clear: wrap at the end of the store. */
  function NextInStore(c: bv32): bv32 {
    if c + 1 >= CURSOR_LIMIT then 0 else c + 1
  }

  /** increment_page */
  function NextPage(c: bv32): bv32 {
    var page := ((c & CURSOR_PAGE_MASK) >> CURSOR_PAGE_SHIFT) + 1;
    var block := (c & CURSOR_BLOCK_MASK) >> CURSOR_BLOCK_SHIFT;
    var carry := page >= 256;
    var page' := if carry then 0 else page;
    var block' := if !carry then block else if block + 1 >= 256 then 0 else block + 1;
    (block' << CURSOR_BLOCK_SHIFT) | (page' << CURSOR_PAGE_SHIFT)
  }

  /** increment_block */
  function NextBlock(c: bv32): bv32 {
    var block := ((c & CURSOR_BLOCK_MASK) >> CURSOR_BLOCK_SHIFT) + 1;
    (if block >= 256 then 0 else block) << CURSOR_BLOCK_SHIFT
  }

  // How the operations act on the three digits: machine-word reasoning only.

  lemma SetBlockDigit(c: bv32, d: bv8)
    requires c < CURSOR_LIMIT
    ensures var w := SetByte(c, d as bv32, CURSOR_BLOCK_SHIFT);
            w < CURSOR_LIMIT && High(w) == d && Middle(w) == Middle(c) && Low(w) == Low(c)
  {
  }

  lemma SetPageDigit(c: bv32, d: bv8)
    requires c < CURSOR_LIMIT
    ensures var w := SetByte(c, d as bv32, CURSOR_PAGE_SHIFT);
            w < CURSOR_LIMIT && High(w) == High(c) && Middle(w) == d && Low(w) == Low(c)
  {
  }

  lemma SetByteDigit(c: bv32, d: bv8)
    requires c < CURSOR_LIMIT
    ensures var w := SetByte(c, d as bv32, CURSOR_BYTE_SHIFT);
            w < CURSOR_LIMIT && High(w) == High(c) && Middle(w) == Middle(c) && Low(w) == d
  {
  }

  lemma NextOnPageDigits(c: bv32)
    requires c < CURSOR_LIMIT
    ensures var w := NextOnPage(c);
            w < CURSOR_LIMIT && High(w) == High(c) && Middle(w) == Middle(c) && Low(w) == Low(c) + 1
  {
  }

  lemma NextInStoreLow(c: bv32)
    requires c < CURSOR_LIMIT
    ensures NextInStore(c) < CURSOR_LIMIT && Low(NextInStore(c)) == Low(c) + 1
  {
  }

  lemma NextInStoreMiddle(c: bv32)
    requires c < CURSOR_LIMIT
    ensures Middle(NextInStore(c)) == if Low(c) == 255 then Middle(c) + 1 else Middle(c)
  {
  }

  lemma NextInStoreHigh(c: bv32)
    requires c < CURSOR_LIMIT
    ensures High(NextInStore(c)) == if Low(c) == 255 && Middle(c) == 255 then High(c) + 1 else High(c)
  {
  }

  lemma NextPageDigits(c: bv32)
    requires c < CURSOR_LIMIT
    ensures var w := NextPage(c);
            w < CURSOR_LIMIT && Low(w) == 0 && Middle(w) == Middle(c) + 1
            && High(w) == if Middle(c) == 255 then High(c) + 1 else High(c)
  {
  }

  lemma NextBlockDigits(c: bv32)
    requires c < CURSOR_LIMIT
    ensures var w := NextBlock(c);
            w < CURSOR_LIMIT && Low(w) == 0 && Middle(w) == 0 && High(w) == High(c) + 1
  {
  }

  lemma PageMaskDigits(c: bv32)
    ensures var p := c & !CURSOR_BYTE_MASK; High(p) == High(c) && Middle(p) == Middle(c) && Low(p) == 0
  {
  }

  lemma BlockMaskDigits(c: bv32)
    ensures var b := c & CURSOR_BLOCK_MASK; High(b) == High(c) && Middle(b) == 0 && Low(b) == 0
  {
  }

  lemma ByteMaskDigits(c: bv32)
    ensures var y := c & CURSOR_BYTE_MASK; High(y) == 0 && Middle(y) == 0 && Low(y) == Low(c)
  {
  }

  // What that means for the address.

  lemma DigitSuccessor(d: bv8)
    ensures ByteOf(d + 1) == (ByteOf(d) + 1) % 256
    ensures ByteOf(d) == 255 <==> d == 255
  {
    CountIsValue(d);
    CountIsValue(d + 1);
  }

  lemma {:induction false} CountOfDigit(b: Byte)
    ensures ByteOf(Digit(b)) == b
  {
    if b != 0 {
      CountOfDigit(b - 1);
      DigitSuccessor(Digit(b - 1));
    }
  }

  lemma ZeroIsZero()
    ensures Address(0) == 0
  {
    assert High(0) == 0 && Middle(0) == 0 && Low(0) == 0;
  }

  lemma RadixParts(b: Byte, p: Byte, y: Byte)
    ensures BlockStart(Radix256(b, p, y)) == Radix256(b, 0, 0)
    ensures PageStart(Radix256(b, p, y)) == Radix256(b, p, 0)
    ensures Radix256(b, p, y) % BLOCK_SIZE == Radix256(0, p, y)
    ensures Radix256(b, p, y) % PAGE_SIZE == y
  {
  }

  lemma RadixSuccessor(b: Byte, p: Byte, y: Byte)
    ensures (Radix256(b, p, y) + 1) % STORE_SIZE
         == Radix256(if p == 255 && y == 255 then (b + 1) % 256 else b,
                     if y == 255 then (p + 1) % 256 else p, (y + 1) % 256)
    ensures (Radix256(b, p, 0) + PAGE_SIZE) % STORE_SIZE
         == Radix256(if p == 255 then (b + 1) % 256 else b, (p + 1) % 256, 0)
    ensures (Radix256(b, 0, 0) + BLOCK_SIZE) % STORE_SIZE == Radix256((b + 1) % 256, 0, 0)
  {
  }

  /** The digits of the address that c denotes. */
  lemma Parts(c: bv32)
    ensures BlockStart(Address(c)) == Radix256(ByteOf(High(c)), 0, 0)
    ensures PageStart(Address(c)) == Radix256(ByteOf(High(c)), ByteOf(Middle(c)), 0)
    ensures Address(c) % BLOCK_SIZE == Radix256(0, ByteOf(Middle(c)), ByteOf(Low(c)))
    ensures Address(c) % PAGE_SIZE == ByteOf(Low(c))
  {
    RadixParts(ByteOf(High(c)), ByteOf(Middle(c)), ByteOf(Low(c)));
  }

  // Overwriting one byte of the word replaces one digit of the address.

  lemma SetBlockReplacesDigit(c: bv32, v: Byte)
    requires c < CURSOR_LIMIT
    ensures SetByte(c, Digit(v) as bv32, CURSOR_BLOCK_SHIFT) < CURSOR_LIMIT
    ensures Address(SetByte(c, Digit(v) as bv32, CURSOR_BLOCK_SHIFT)) == v * BLOCK_SIZE + Address(c) % BLOCK_SIZE
  {
    SetBlockDigit(c, Digit(v));
    CountOfDigit(v);
    Parts(c);
  }

  lemma SetPageReplacesDigit(c: bv32, v: Byte)
    requires c < CURSOR_LIMIT
    ensures SetByte(c, Digit(v) as bv32, CURSOR_PAGE_SHIFT) < CURSOR_LIMIT
    ensures Address(SetByte(c, Digit(v) as bv32, CURSOR_PAGE_SHIFT))
         == BlockStart(Address(c)) + v * PAGE_SIZE + Address(c) % PAGE_SIZE
  {
    SetPageDigit(c, Digit(v));
    CountOfDigit(v);
    Parts(c);
  }

  lemma SetByteReplacesDigit(c: bv32, v: Byte)
    requires c < CURSOR_LIMIT
    ensures SetByte(c, Digit(v) as bv32, CURSOR_BYTE_SHIFT) < CURSOR_LIMIT
    ensures Address(SetByte(c, Digit(v) as bv32, CURSOR_BYTE_SHIFT)) == PageStart(Address(c)) + v
  {
    SetByteDigit(c, Digit(v));
    CountOfDigit(v);
    Parts(c);
  }

  /** On a page the cursor counts modulo 256 and keeps the page. */
  lemma NextOnPageCounts(c: bv32)
    requires c < CURSOR_LIMIT
    ensures NextOnPage(c) < CURSOR_LIMIT
    ensures Address(NextOnPage(c)) == PageStart(Address(c)) + (Address(c) + 1) % PAGE_SIZE
  {
    NextOnPageDigits(c);
    DigitSuccessor(Low(c));
    Parts(c);
  }

  /** Otherwise it counts modulo the size of the store, carrying from digit to digit. */
  lemma NextInStoreCounts(c: bv32)
    requires c < CURSOR_LIMIT
    ensures NextInStore(c) < CURSOR_LIMIT
    ensures Address(NextInStore(c)) == (Address(c) + 1) % STORE_SIZE
  {
    NextInStoreLow(c); NextInStoreMiddle(c); NextInStoreHigh(c);
    Carries(c, NextInStore(c));
  }

  lemma Carries(c: bv32, w: bv32)
    requires Low(w) == Low(c) + 1
    requires Middle(w) == if Low(c) == 255 then Middle(c) + 1 else Middle(c)
    requires High(w) == if Low(c) == 255 && Middle(c) == 255 then High(c) + 1 else High(c)
    ensures Address(w) == (Address(c) + 1) % STORE_SIZE
  {
    DigitSuccessor(Low(c)); DigitSuccessor(Middle(c)); DigitSuccessor(High(c));
    RadixSuccessor(ByteOf(High(c)), ByteOf(Middle(c)), ByteOf(Low(c)));
  }

  /** The next page begins right after this one, modulo the size of the store. */
  lemma NextPageCounts(c: bv32)
    requires c < CURSOR_LIMIT
    ensures NextPage(c) < CURSOR_LIMIT
    ensures Address(NextPage(c)) == (PageStart(Address(c)) + PAGE_SIZE) % STORE_SIZE
  {
    NextPageDigits(c);
    DigitSuccessor(Middle(c)); DigitSuccessor(High(c));
    Parts(c);
    RadixSuccessor(ByteOf(High(c)), ByteOf(Middle(c)), 0);
  }

  /** The next block begins right after this one, modulo the size of the store. */
  lemma NextBlockCounts(c: bv32)
    requires c < CURSOR_LIMIT
    ensures NextBlock(c) < CURSOR_LIMIT
    ensures Address(NextBlock(c)) == (BlockStart(Address(c)) + BLOCK_SIZE) % STORE_SIZE
  {
    NextBlockDigits(c);
    DigitSuccessor(High(c));
    Parts(c);
    RadixSuccessor(ByteOf(High(c)), 0, 0);
  }

  // Masking the byte digit away gives the start of the page; masking all but the block
  // digit gives the start of the block.

  lemma PageMaskFindsStart(c: bv32)
    requires c < CURSOR_LIMIT
    ensures Address(c & !CURSOR_BYTE_MASK) == PageStart(Address(c))
  {
    PageMaskDigits(c);
    Parts(c);
  }

  lemma BlockMaskFindsStart(c: bv32)
    requires c < CURSOR_LIMIT
    ensures Address(c & CURSOR_BLOCK_MASK) == BlockStart(Address(c))
  {
    BlockMaskDigits(c);
    Parts(c);
  }

  lemma ByteMaskFindsOffset(c: bv32)
    requires c < CURSOR_LIMIT
    ensures Address(c & CURSOR_BYTE_MASK) == Address(c) % PAGE_SIZE
  {
    ByteMaskDigits(c);
    Parts(c);
  }

  // The array indices that device/de_store.c computes from the cursor.

  method PageIndex(c: bv32) returns (start: nat)
    requires c < CURSOR_LIMIT
    ensures start == PageStart(Address(c))
  {
    PageMaskFindsStart(c);
    start := Address(c & !CURSOR_BYTE_MASK);
  }

  method BlockIndex(c: bv32) returns (start: nat)
    requires c < CURSOR_LIMIT
    ensures start == BlockStart(Address(c))
  {
    BlockMaskFindsStart(c);
    start := Address(c & CURSOR_BLOCK_MASK);
  }

  method ByteIndex(c: bv32) returns (offset: nat)
    requires c < CURSOR_LIMIT
    ensures offset == Address(c) % PAGE_SIZE
  {
    ByteMaskFindsOffset(c);
    offset := Address(c & CURSOR_BYTE_MASK);
  }
}
