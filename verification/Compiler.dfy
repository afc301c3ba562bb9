/** The framework for interpreting drivers, framework/fw_execop.c: each request becomes an
    array of instructions. */
module Compiler {
  import opened Geometry
  import opened Bus
  import opened Requests
  import opened MirrorSpec
  import opened BlockRange
  import opened ExecOp
  import opened EndToEnd
  import D = Driver

  // The programs.

  /** Block, page and byte number of an offset, as the macros BLOCK, PAGE and BYTE have it. */
  function Digits(offset: nat): seq<Byte> {
    [ToByte(offset / BLOCK_SIZE), ToByte(offset % BLOCK_SIZE / PAGE_SIZE), ToByte(offset % PAGE_SIZE)]
  }

  function WriteTrios(a: nat, start: nat, left: nat): seq<Instr>
    decreases left
  {
    if left == 0 then []
    else
      var n := Chunk(a, left);
      [DataIn(start, n), Cmd(C_PROGRAM_EXECUTE), WaitRdy(TIMEOUT_WRITE_PAGE_US)]
      + WriteTrios(a + n, start + n, left - n)
  }

  function CompiledWrite(offset: nat, size: nat): seq<Instr> {
    [Cmd(C_PROGRAM_SETUP), Addr(Digits(offset))] + WriteTrios(offset, 0, size)
  }

  function ReadTrios(a: nat, start: nat, left: nat): seq<Instr>
    decreases left
  {
    if left == 0 then []
    else
      var n := Chunk(a, left);
      [Cmd(C_READ_EXECUTE), WaitRdy(TIMEOUT_READ_PAGE_US), DataOut(start, n)] + ReadTrios(a + n, start + n, left - n)
  }

  function CompiledRead(offset: nat, size: nat): seq<Instr> {
    [Cmd(C_READ_SETUP), Addr(Digits(offset))] + ReadTrios(offset, 0, size)
  }

  function ErasePairs(blocks: nat): seq<Instr> {
    if blocks == 0 then [] else [Cmd(C_ERASE_EXECUTE), WaitRdy(TIMEOUT_ERASE_BLOCK_US)] + ErasePairs(blocks - 1)
  }

  function CompiledEraseSession(offset: nat, blocks: nat): seq<Instr> {
    [Cmd(C_ERASE_SETUP), Addr([ToByte(offset / BLOCK_SIZE)])] + ErasePairs(blocks)
  }

  function CompiledErase(offset: nat, size: nat): seq<Instr> {
    CompiledEraseSession(offset, BlockCount(offset, size))
  }

  // Compiling and interpreting is the same as driving the device directly.

  lemma Associate(x: seq<Action>, y: seq<Action>, z: seq<Action>)
    ensures x + (y + z) == x + y + z
  {
  }

  lemma FlattenOne(i: Instr, rest: seq<Instr>)
    ensures Flatten([i] + rest) == Effects(i) + Flatten(rest)
  {
    assert ([i] + rest)[1..] == rest;
  }

  lemma FlattenTwo(i: Instr, j: Instr, rest: seq<Instr>)
    ensures Flatten([i, j] + rest) == Effects(i) + Effects(j) + Flatten(rest)
  {
    assert [i, j] + rest == [i] + ([j] + rest);
    FlattenOne(i, [j] + rest);
    FlattenOne(j, rest);
    Associate(Effects(i), Effects(j), Flatten(rest));
  }

  lemma FlattenThree(i: Instr, j: Instr, k: Instr, rest: seq<Instr>)
    ensures Flatten([i, j, k] + rest) == Effects(i) + Effects(j) + Effects(k) + Flatten(rest)
  {
    assert [i, j, k] + rest == [i, j] + ([k] + rest);
    FlattenTwo(i, j, [k] + rest);
    FlattenOne(k, rest);
  }

  lemma ThreeAddressActions(x: Byte, y: Byte, z: Byte)
    ensures AddressActions([x, y, z]) == [Address(x), Address(y), Address(z)]
    ensures AddressActions([z]) == [Address(z)]
  {
    assert [x, y, z][1..] == [y, z] && [y, z][1..] == [z];
    assert AddressActions([y, z]) == [Address(y)] + AddressActions([z]);
  }

  lemma DigitsAreAddresses(offset: nat)
    ensures AddressActions(Digits(offset)) == Addresses(offset)
    ensures AddressActions([ToByte(offset / BLOCK_SIZE)]) == [Address(ToByte(offset / BLOCK_SIZE))]
  {
    AddressDigits(offset);
    ThreeAddressActions(ToByte(offset / BLOCK_SIZE), ToByte(offset % BLOCK_SIZE / PAGE_SIZE),
                        ToByte(offset % PAGE_SIZE));
    ThreeAddressActions(0, 0, ToByte(offset / BLOCK_SIZE));
  }

  lemma PairUp(s: seq<Action>, a: Action, b: Action)
    ensures s + [a] + [b] == s + [a, b]
    ensures [a] + [b] + s == [a, b] + s
  {
  }

  lemma {:induction false} WriteTriosFlatten(a: nat, start: nat, left: nat)
    ensures Flatten(WriteTrios(a, start, left)) == WriteBody(a, start, left)
    decreases left
  {
    if left > 0 {
      var n := Chunk(a, left);
      WriteTriosFlatten(a + n, start + n, left - n);
      FlattenThree(DataIn(start, n), Cmd(C_PROGRAM_EXECUTE), WaitRdy(TIMEOUT_WRITE_PAGE_US),
                   WriteTrios(a + n, start + n, left - n));
      PairUp(Sends(start, n), Command(C_PROGRAM_EXECUTE), Wait(TIMEOUT_WRITE_PAGE_US));
    }
  }

  lemma {:induction false} ReadTriosFlatten(a: nat, start: nat, left: nat)
    ensures Flatten(ReadTrios(a, start, left)) == ReadBody(a, start, left)
    decreases left
  {
    if left > 0 {
      var n := Chunk(a, left);
      ReadTriosFlatten(a + n, start + n, left - n);
      FlattenThree(Cmd(C_READ_EXECUTE), WaitRdy(TIMEOUT_READ_PAGE_US), DataOut(start, n),
                   ReadTrios(a + n, start + n, left - n));
      PairUp(Recvs(start, n), Command(C_READ_EXECUTE), Wait(TIMEOUT_READ_PAGE_US));
    }
  }

  lemma {:induction false} ErasePairsFlatten(blocks: nat)
    ensures Flatten(ErasePairs(blocks)) == EraseBody(blocks)
  {
    if blocks > 0 {
      ErasePairsFlatten(blocks - 1);
      FlattenTwo(Cmd(C_ERASE_EXECUTE), WaitRdy(TIMEOUT_ERASE_BLOCK_US), ErasePairs(blocks - 1));
    }
  }

  /** The interpreter performs, in order, exactly the register writes, transfers and waits that
      the jump-table framework performs for the same request. */
  lemma CompiledEqualsDirect(offset: nat, size: nat)
    ensures Flatten(CompiledWrite(offset, size)) == WriteActions(offset, size)
    ensures Flatten(CompiledRead(offset, size)) == ReadActions(offset, size)
    ensures Flatten(CompiledErase(offset, size)) == EraseActions(offset, size)
  {
    DigitsAreAddresses(offset);
    WriteTriosFlatten(offset, 0, size);
    FlattenTwo(Cmd(C_PROGRAM_SETUP), Addr(Digits(offset)), WriteTrios(offset, 0, size));
    ReadTriosFlatten(offset, 0, size);
    FlattenTwo(Cmd(C_READ_SETUP), Addr(Digits(offset)), ReadTrios(offset, 0, size));
    CompiledEraseEqualsDirect(offset, BlockCount(offset, size));
  }

  lemma CompiledEraseEqualsDirect(offset: nat, blocks: nat)
    ensures Flatten(CompiledEraseSession(offset, blocks)) == EraseSession(offset, blocks)
  {
    DigitsAreAddresses(offset);
    ErasePairsFlatten(blocks);
    FlattenTwo(Cmd(C_ERASE_SETUP), Addr([ToByte(offset / BLOCK_SIZE)]), ErasePairs(blocks));
  }

  function CompiledRequest(request: Request): seq<Instr> {
    match request
    case Write(bytes, offset) => CompiledWrite(offset, |bytes|)
    case Read(buffer, offset) => CompiledRead(offset, |buffer|)
    case Erase(offset, size) => CompiledErase(offset, size)
  }

  /** So whatever the device does and however the waits come out, both kinds of framework leave
      the same world behind and return the same result. */
  lemma CompiledServesAlike(device: Device, w: World, request: Request)
    ensures Run(device, w.(buf := request.Buffer()), Flatten(CompiledRequest(request))) == Serve(device, w, request)
  {
    var offset := match request case Write(_, o) => o case Read(_, o) => o case Erase(o, _) => o;
    CompiledEqualsDirect(offset, request.Size());
  }

  // The shape of the programs.

  lemma {:induction false} TrioCount(a: nat, start: nat, left: nat)
    requires left > 0 || a % PAGE_SIZE == 0
    ensures |WriteTrios(a, start, left)| == |ReadTrios(a, start, left)| == 3 * PageCount(a, left)
    decreases left
  {
    if left > 0 {
      var n := Chunk(a, left);
      OnePageLess(a, left);
      if n < left {
        TrioCount(a + n, start + n, left - n);
      }
    }
  }

  /** The pages that contain a byte of the range are PageCount pages in a row. */
  lemma PageCountMeaning(offset: nat, size: nat, k: nat)
    requires size > 0
    ensures (exists x :: offset <= x < offset + size && x / PAGE_SIZE == k)
       <==> offset / PAGE_SIZE <= k < offset / PAGE_SIZE + PageCount(offset, size)
  {
    var x := if k == offset / PAGE_SIZE then offset else k * PAGE_SIZE;
    assert x / PAGE_SIZE == k;
  }

  /** Pages needed for a number of bytes. */
  function PagesFor(total: nat): nat {
    total / PAGE_SIZE + if total % PAGE_SIZE != 0 then 1 else 0
  }

  /** The number of instructions that the framework counts in advance with unsigned ints. */
  function UnsignedCount(offset: nat, size: nat): nat {
    2 + 3 * PagesFor((offset % PAGE_SIZE + size) % UINT_LIMIT)
  }

  /** On overflow at most one page is counted where at least 2^24 are touched. */
  lemma UnsignedPages(offset: nat, size: nat)
    requires offset < UINT_LIMIT && size < UINT_LIMIT
    ensures var sum := offset % PAGE_SIZE + size;
            if sum < UINT_LIMIT then PagesFor(sum % UINT_LIMIT) == PageCount(offset, size)
            else PagesFor(sum % UINT_LIMIT) <= 1 && PageCount(offset, size) >= 16777216
  {
    var sum := offset % PAGE_SIZE + size;
    if sum >= UINT_LIMIT {
      Division(sum, UINT_LIMIT, 1, sum - UINT_LIMIT);
    }
  }

  /** The compiled operation has as many instructions as were counted in advance if and only if
      the sum does not overflow and the request is not empty or is page-aligned.  If the sum
      overflows, room for at most 5 instructions is allocated and more than 50 million follow. */
  lemma CountExactly(offset: nat, size: nat)
    requires offset < UINT_LIMIT && size < UINT_LIMIT
    ensures |CompiledWrite(offset, size)| == |CompiledRead(offset, size)|
    ensures |CompiledWrite(offset, size)| == UnsignedCount(offset, size)
       <==> (size > 0 || offset % PAGE_SIZE == 0) && offset % PAGE_SIZE + size < UINT_LIMIT
    ensures offset % PAGE_SIZE + size >= UINT_LIMIT ==>
              UnsignedCount(offset, size) <= 5 && |CompiledWrite(offset, size)| > 50_000_000
  {
    UnsignedPages(offset, size);
    if size > 0 || offset % PAGE_SIZE == 0 {
      TrioCount(offset, 0, size);
    }
  }

  lemma {:induction false} PairCount(blocks: nat)
    ensures |ErasePairs(blocks)| == 2 * blocks
  {
    if blocks > 0 {
      PairCount(blocks - 1);
    }
  }

  /** Where the slice of the k-th page begins in the caller's buffer. */
  function SliceStart(a: nat, left: nat, k: nat): nat {
    var s := k * PAGE_SIZE - a % PAGE_SIZE;
    if k == 0 then 0 else if s < left then s else left
  }

  /** The slices begin at 0, follow one another without gap or overlap, end at the size of the
      request, are never empty, and each stays within one page. */
  lemma SlicesPartition(a: nat, left: nat, k: nat)
    requires k < PageCount(a, left) && left > 0
    ensures SliceStart(a, left, 0) == 0 && SliceStart(a, left, PageCount(a, left)) == left
    ensures var s, e := SliceStart(a, left, k), SliceStart(a, left, k + 1);
            s < e <= left && (a + s) / PAGE_SIZE == (a + e - 1) / PAGE_SIZE == a / PAGE_SIZE + k
  {
  }

  datatype Slice = Slice(start: nat, len: nat)

  /** The slices that the loops cut, one for each page. */
  function Slices(a: nat, start: nat, left: nat): seq<Slice>
    decreases left
  {
    if left == 0 then []
    else
      var n := Chunk(a, left);
      [Slice(start, n)] + Slices(a + n, start + n, left - n)
  }

  lemma {:induction false} SlicesClosedForm(a: nat, start: nat, left: nat, k: nat)
    requires left > 0 && k < PageCount(a, left)
    ensures k < |Slices(a, start, left)|
    ensures var s, e := SliceStart(a, left, k), SliceStart(a, left, k + 1);
            s <= e && Slices(a, start, left)[k] == Slice(start + s, e - s)
    decreases left
  {
    var n := Chunk(a, left);
    SlicesPartition(a, left, k);
    if k > 0 {
      OnePageLess(a, left);
      ShiftSlice(a, left, k);
      SlicesClosedForm(a + n, start + n, left - n, k - 1);
    } else {
      FirstSlice(a, left);
    }
  }

  function WriteTrio(s: Slice): seq<Instr> {
    [DataIn(s.start, s.len), Cmd(C_PROGRAM_EXECUTE), WaitRdy(TIMEOUT_WRITE_PAGE_US)]
  }

  function ReadTrio(s: Slice): seq<Instr> {
    [Cmd(C_READ_EXECUTE), WaitRdy(TIMEOUT_READ_PAGE_US), DataOut(s.start, s.len)]
  }

  lemma {:induction false} TriosOfSlices(a: nat, start: nat, left: nat, k: nat)
    requires k < |Slices(a, start, left)|
    ensures 3 * k + 2 < |WriteTrios(a, start, left)| && 3 * k + 2 < |ReadTrios(a, start, left)|
    ensures WriteTrios(a, start, left)[3 * k..3 * k + 3] == WriteTrio(Slices(a, start, left)[k])
    ensures ReadTrios(a, start, left)[3 * k..3 * k + 3] == ReadTrio(Slices(a, start, left)[k])
    decreases left
  {
    var n := Chunk(a, left);
    if k > 0 {
      TriosOfSlices(a + n, start + n, left - n, k - 1);
      NextSlice(WriteTrio(Slice(start, n)), WriteTrios(a + n, start + n, left - n), k);
      NextSlice(ReadTrio(Slice(start, n)), ReadTrios(a + n, start + n, left - n), k);
    }
  }

  lemma NextSlice(trio: seq<Instr>, rest: seq<Instr>, k: nat)
    requires |trio| == 3 && 0 < k && 3 * (k - 1) + 2 < |rest|
    ensures (trio + rest)[3 * k..3 * k + 3] == rest[3 * (k - 1)..3 * (k - 1) + 3]
  {
  }

  /** The k-th trio of a compiled transfer carries the k-th slice. */
  lemma TriosCarrySlices(a: nat, start: nat, left: nat, k: nat)
    requires left > 0 && k < PageCount(a, left)
    ensures var s, e := SliceStart(a, left, k), SliceStart(a, left, k + 1);
            && s <= e
            && 3 * k + 2 < |WriteTrios(a, start, left)| && 3 * k + 2 < |ReadTrios(a, start, left)|
            && WriteTrios(a, start, left)[3 * k..3 * k + 3] == WriteTrio(Slice(start + s, e - s))
            && ReadTrios(a, start, left)[3 * k..3 * k + 3] == ReadTrio(Slice(start + s, e - s))
  {
    SlicesClosedForm(a, start, left, k);
    TriosOfSlices(a, start, left, k);
  }

  lemma FirstSlice(a: nat, left: nat)
    requires left > 0
    ensures SliceStart(a, left, 0) == 0 && SliceStart(a, left, 1) == Chunk(a, left)
  {
  }

  lemma ShiftSlice(a: nat, left: nat, k: nat)
    requires 0 < k < PageCount(a, left) && left > 0
    ensures var n := Chunk(a, left);
            && n < left
            && SliceStart(a, left, k) == n + SliceStart(a + n, left - n, k - 1)
            && SliceStart(a, left, k + 1) == n + SliceStart(a + n, left - n, k)
  {
  }

  // The framework functions.

  /** instruction_count_data_xfer, with unsigned addition. */
  method InstructionCountDataXfer(byteAddr: nat, size: nat) returns (count: nat)
    requires byteAddr < UINT_LIMIT && size < UINT_LIMIT
    ensures count == 2 + 3 * PagesFor((byteAddr + size) % UINT_LIMIT)
    ensures byteAddr + size < UINT_LIMIT ==> count == 2 + 3 * ((byteAddr + size + PAGE_SIZE - 1) / PAGE_SIZE)
  {
    count := 0;
    count := count + 1;
    count := count + 1;
    var total := (size + byteAddr) % UINT_LIMIT;
    count := count + 3 * (total / PAGE_SIZE);
    count := count + if total % PAGE_SIZE != 0 then 3 else 0;
  }

  /** instruction_count_erase */
  method InstructionCountErase(numBlocks: nat) returns (count: nat)
    ensures count == 2 + 2 * numBlocks
  {
    count := 0;
    count := count + 1;
    count := count + 1;
    count := count + 2 * numBlocks;
  }

  /** The instruction array that exec_write fills in. */
  method CompileWrite(offset: nat, size: nat) returns (instrs: array<Instr>, ninstrs: nat)
    requires (size > 0 || offset % PAGE_SIZE == 0) && offset % PAGE_SIZE + size < UINT_LIMIT
    ensures fresh(instrs) && ninstrs == instrs.Length && instrs[..ninstrs] == CompiledWrite(offset, size)
  {
    TrioCount(offset, 0, size);
    var count := InstructionCountDataXfer(offset % PAGE_SIZE, size);
    instrs := new Instr[count](_ => Other);
    var i := 0;
    instrs[i] := Cmd(C_PROGRAM_SETUP);
    i := i + 1;
    instrs[i] := Addr(Digits(offset));
    i := i + 1;
    assert instrs[..i] == [Cmd(C_PROGRAM_SETUP), Addr(Digits(offset))];
    i := AddWriteTrios(instrs, i, offset, size);
    ninstrs := i;
    assert ninstrs == count;
  }

  /** The loop of exec_write: one trio for each page. */
  method AddWriteTrios(instrs: array<Instr>, first: nat, offset: nat, size: nat) returns (i: nat)
    requires first + |WriteTrios(offset, 0, size)| <= instrs.Length
    modifies instrs
    ensures i <= instrs.Length && instrs[..i] == old(instrs[..first]) + WriteTrios(offset, 0, size)
  {
    ghost var all := instrs[..first] + WriteTrios(offset, 0, size);
    i := first;
    var cursor: nat := 0;
    var sizeRemaining: nat := size;
    var available := PAGE_SIZE - offset % PAGE_SIZE;
    while sizeRemaining > 0
      invariant cursor + sizeRemaining == size && i <= instrs.Length
      invariant sizeRemaining > 0 ==> available == PAGE_SIZE - (offset + cursor) % PAGE_SIZE
      invariant instrs[..i] + WriteTrios(offset + cursor, cursor, sizeRemaining) == all
    {
      var sizeThisPage := if sizeRemaining < available then sizeRemaining else available;
      NextWriteTrio(instrs[..i], offset + cursor, cursor, sizeRemaining, sizeThisPage, all);
      AddTrio(instrs, i, DataIn(cursor, sizeThisPage), Cmd(C_PROGRAM_EXECUTE), WaitRdy(TIMEOUT_WRITE_PAGE_US));
      i := i + 3;
      sizeRemaining := sizeRemaining - sizeThisPage;
      cursor := cursor + sizeThisPage;
      assert cursor + sizeRemaining == size;
      available := PAGE_SIZE;
    }
  }

  lemma PartFits(before: seq<Instr>, part: seq<Instr>, rest: seq<Instr>, all: seq<Instr>)
    requires before + (part + rest) == all
    ensures |before| + |part| <= |all| && before + part + rest == all
  {
  }

  lemma NextWriteTrio(before: seq<Instr>, a: nat, start: nat, left: nat, n: nat, all: seq<Instr>)
    requires 0 < left && before + WriteTrios(a, start, left) == all
    requires n == if left < PAGE_SIZE - a % PAGE_SIZE then left else PAGE_SIZE - a % PAGE_SIZE
    ensures |before| + 3 <= |all| && 0 < n <= left && (n < left ==> (a + n) % PAGE_SIZE == 0)
    ensures before + [DataIn(start, n), Cmd(C_PROGRAM_EXECUTE), WaitRdy(TIMEOUT_WRITE_PAGE_US)]
            + WriteTrios(a + n, start + n, left - n) == all
  {
    PartFits(before, [DataIn(start, n), Cmd(C_PROGRAM_EXECUTE), WaitRdy(TIMEOUT_WRITE_PAGE_US)],
             WriteTrios(a + n, start + n, left - n), all);
  }

  lemma NextReadTrio(before: seq<Instr>, a: nat, start: nat, left: nat, n: nat, all: seq<Instr>)
    requires 0 < left && before + ReadTrios(a, start, left) == all
    requires n == if left < PAGE_SIZE - a % PAGE_SIZE then left else PAGE_SIZE - a % PAGE_SIZE
    ensures |before| + 3 <= |all| && 0 < n <= left && (n < left ==> (a + n) % PAGE_SIZE == 0)
    ensures before + [Cmd(C_READ_EXECUTE), WaitRdy(TIMEOUT_READ_PAGE_US), DataOut(start, n)]
            + ReadTrios(a + n, start + n, left - n) == all
  {
    PartFits(before, [Cmd(C_READ_EXECUTE), WaitRdy(TIMEOUT_READ_PAGE_US), DataOut(start, n)],
             ReadTrios(a + n, start + n, left - n), all);
  }

  /** Three instructions in a row. */
  method AddTrio(instrs: array<Instr>, i: nat, a: Instr, b: Instr, c: Instr)
    requires i + 3 <= instrs.Length
    modifies instrs
    ensures instrs[..i + 3] == old(instrs[..i]) + [a, b, c]
  {
    instrs[i] := a;
    instrs[i + 1] := b;
    instrs[i + 2] := c;
  }

  /** The instruction array that exec_read fills in. */
  method CompileRead(offset: nat, size: nat) returns (instrs: array<Instr>, ninstrs: nat)
    requires (size > 0 || offset % PAGE_SIZE == 0) && offset % PAGE_SIZE + size < UINT_LIMIT
    ensures fresh(instrs) && ninstrs == instrs.Length && instrs[..ninstrs] == CompiledRead(offset, size)
  {
    TrioCount(offset, 0, size);
    var count := InstructionCountDataXfer(offset % PAGE_SIZE, size);
    instrs := new Instr[count](_ => Other);
    var i := 0;
    instrs[i] := Cmd(C_READ_SETUP);
    i := i + 1;
    instrs[i] := Addr(Digits(offset));
    i := i + 1;
    assert instrs[..i] == [Cmd(C_READ_SETUP), Addr(Digits(offset))];
    i := AddReadTrios(instrs, i, offset, size);
    ninstrs := i;
    assert ninstrs == count;
  }

  /** The loop of exec_read: one trio for each page. */
  method AddReadTrios(instrs: array<Instr>, first: nat, offset: nat, size: nat) returns (i: nat)
    requires first + |ReadTrios(offset, 0, size)| <= instrs.Length
    modifies instrs
    ensures i <= instrs.Length && instrs[..i] == old(instrs[..first]) + ReadTrios(offset, 0, size)
  {
    ghost var all := instrs[..first] + ReadTrios(offset, 0, size);
    i := first;
    var cursor: nat := 0;
    var sizeRemaining: nat := size;
    var available := PAGE_SIZE - offset % PAGE_SIZE;
    while sizeRemaining > 0
      invariant cursor + sizeRemaining == size && i <= instrs.Length
      invariant sizeRemaining > 0 ==> available == PAGE_SIZE - (offset + cursor) % PAGE_SIZE
      invariant instrs[..i] + ReadTrios(offset + cursor, cursor, sizeRemaining) == all
    {
      var sizeThisPage := if sizeRemaining < available then sizeRemaining else available;
      NextReadTrio(instrs[..i], offset + cursor, cursor, sizeRemaining, sizeThisPage, all);
      AddTrio(instrs, i, Cmd(C_READ_EXECUTE), WaitRdy(TIMEOUT_READ_PAGE_US), DataOut(cursor, sizeThisPage));
      i := i + 3;
      sizeRemaining := sizeRemaining - sizeThisPage;
      cursor := cursor + sizeThisPage;
      assert cursor + sizeRemaining == size;
      available := PAGE_SIZE;
    }
  }

  /** The instruction array that exec_erase fills in. */
  method CompileErase(offset: nat, size: nat) returns (instrs: array<Instr>, ninstrs: nat)
    requires offset < UINT_LIMIT && size < UINT_LIMIT
    ensures fresh(instrs) && ninstrs == instrs.Length
    ensures instrs[..ninstrs] == CompiledEraseSession(offset, UnsignedBlockCount(offset, size))
  {
    var startBlock := ToByte(offset / BLOCK_SIZE);
    var numBlocks := NumBlocks(offset, size);
    PairCount(numBlocks);

    var count := InstructionCountErase(numBlocks);
    instrs := new Instr[count](_ => Other);
    var i := 0;
    instrs[i] := Cmd(C_ERASE_SETUP);
    i := i + 1;
    instrs[i] := Addr([startBlock]);
    i := i + 1;
    assert instrs[..i] == [Cmd(C_ERASE_SETUP), Addr([startBlock])];
    ninstrs := AddErasePairs(instrs, i, numBlocks);
    assert ninstrs == count;
  }

  /** The loop of exec_erase: one pair for each block. */
  method AddErasePairs(instrs: array<Instr>, first: nat, numBlocks: nat) returns (i: nat)
    requires first + |ErasePairs(numBlocks)| <= instrs.Length
    modifies instrs
    ensures i <= instrs.Length && instrs[..i] == old(instrs[..first]) + ErasePairs(numBlocks)
  {
    ghost var all := instrs[..first] + ErasePairs(numBlocks);
    i := first;
    var b: nat := 0;
    while b < numBlocks
      invariant b <= numBlocks && i <= instrs.Length
      invariant instrs[..i] + ErasePairs(numBlocks - b) == all
    {
      PartFits(instrs[..i], [Cmd(C_ERASE_EXECUTE), WaitRdy(TIMEOUT_ERASE_BLOCK_US)], ErasePairs(numBlocks - b - 1),
               all);
      AddPair(instrs, i, Cmd(C_ERASE_EXECUTE), WaitRdy(TIMEOUT_ERASE_BLOCK_US));
      i := i + 2;
      b := b + 1;
    }
  }

  /** Two instructions in a row. */
  method AddPair(instrs: array<Instr>, i: nat, a: Instr, b: Instr)
    requires i + 2 <= instrs.Length
    modifies instrs
    ensures instrs[..i + 2] == old(instrs[..i]) + [a, b]
  {
    instrs[i] := a;
    instrs[i + 1] := b;
  }

  lemma {:induction false} TriosInBuffer(a: nat, start: nat, left: nat, length: nat)
    requires start + left <= length
    ensures forall k :: 0 <= k < |WriteTrios(a, start, left)| ==> InBuffer(WriteTrios(a, start, left)[k], length)
    ensures forall k :: 0 <= k < |ReadTrios(a, start, left)| ==> InBuffer(ReadTrios(a, start, left)[k], length)
    decreases left
  {
    if left > 0 {
      var n := Chunk(a, left);
      TriosInBuffer(a + n, start + n, left - n, length);
    }
  }

  lemma {:induction false} PairsInBuffer(blocks: nat, length: nat)
    ensures forall k :: 0 <= k < |ErasePairs(blocks)| ==> InBuffer(ErasePairs(blocks)[k], length)
  {
    if blocks > 0 {
      PairsInBuffer(blocks - 1, length);
    }
  }

  /** Every compiled transfer stays within the caller's buffer. */
  lemma CompiledInBuffer(offset: nat, size: nat, length: nat)
    requires size <= length
    ensures AllInBuffer(CompiledWrite(offset, size), length)
    ensures AllInBuffer(CompiledRead(offset, size), length)
  {
    TriosInBuffer(offset, 0, size, length);
  }

  /** exec_write */
  method ExecWrite(driver: D.Driver, buffer: array<Byte>, offset: nat, size: nat) returns (ret: int)
    requires driver.Valid() && driver.Separate(buffer) && size <= buffer.Length
    requires (size > 0 || offset % PAGE_SIZE == 0) && offset % PAGE_SIZE + size < UINT_LIMIT
    modifies driver.Repr(), buffer
    ensures driver.Valid() && ret in {0, -1}
    ensures Result(driver.World(buffer), ret == 0)
         == Run(driver.step, old(driver.World(buffer)), WriteActions(offset, size))
    ensures driver.trace
         == old(driver.trace) + Performed(driver.step, old(driver.World(buffer)), WriteActions(offset, size))
    ensures ret == 0 ==> driver.trace == old(driver.trace) + WriteActions(offset, size)
  {
    var instrs, ninstrs := CompileWrite(offset, size);
    CompiledInBuffer(offset, size, buffer.Length);
    CompiledEqualsDirect(offset, size);
    ret := ExecOp.ExecOp(driver, instrs, ninstrs, buffer);
  }

  /** exec_read */
  method ExecRead(driver: D.Driver, buffer: array<Byte>, offset: nat, size: nat) returns (ret: int)
    requires driver.Valid() && driver.Separate(buffer) && size <= buffer.Length
    requires (size > 0 || offset % PAGE_SIZE == 0) && offset % PAGE_SIZE + size < UINT_LIMIT
    modifies driver.Repr(), buffer
    ensures driver.Valid() && ret in {0, -1}
    ensures Result(driver.World(buffer), ret == 0)
         == Run(driver.step, old(driver.World(buffer)), ReadActions(offset, size))
    ensures driver.trace
         == old(driver.trace) + Performed(driver.step, old(driver.World(buffer)), ReadActions(offset, size))
    ensures ret == 0 ==> driver.trace == old(driver.trace) + ReadActions(offset, size)
  {
    var instrs, ninstrs := CompileRead(offset, size);
    CompiledInBuffer(offset, size, buffer.Length);
    CompiledEqualsDirect(offset, size);
    ret := ExecOp.ExecOp(driver, instrs, ninstrs, buffer);
  }

  /** exec_erase.  The number of blocks is the one that unsigned ints yield. */
  method ExecErase(driver: D.Driver, offset: nat, size: nat, buffer: array<Byte>) returns (ret: int)
    requires driver.Valid() && driver.Separate(buffer)
    requires offset < UINT_LIMIT && size < UINT_LIMIT
    modifies driver.Repr(), buffer
    ensures driver.Valid() && ret in {0, -1}
    ensures Result(driver.World(buffer), ret == 0)
         == Run(driver.step, old(driver.World(buffer)), EraseSession(offset, UnsignedBlockCount(offset, size)))
    ensures driver.trace
         == old(driver.trace)
          + Performed(driver.step, old(driver.World(buffer)), EraseSession(offset, UnsignedBlockCount(offset, size)))
    ensures ret == 0 ==>
              driver.trace == old(driver.trace) + EraseSession(offset, UnsignedBlockCount(offset, size))
  {
    var instrs, ninstrs := CompileErase(offset, size);
    PairsInBuffer(UnsignedBlockCount(offset, size), buffer.Length);
    CompiledEraseEqualsDirect(offset, UnsignedBlockCount(offset, size));
    ret := ExecOp.ExecOp(driver, instrs, ninstrs, buffer);
  }
}
