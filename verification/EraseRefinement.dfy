/** Erasing block by block amounts to one run of zeroes written to a flat ring. */
module EraseRefinement {
  import opened Geometry
  import opened Ring
  import opened StoreSpec
  import opened Clock
  import opened ParserSpec
  import opened Bus
  import opened Requests
  import opened MirrorSpec
  import opened WaitLoop
  import opened Sessions

  ghost predicate Erasing(tick: Schedule, w: World) {
    w.m.state == EraseAwaitingExecute && !Busy(tick, w)
  }

  lemma ExecuteErase(device: Device, tick: Schedule, w: World)
    requires Emulates(device, tick) && Erasing(tick, w)
    ensures var r := device(w, Command(C_ERASE_EXECUTE));
            && r.ok && r.world.buf == w.buf
            && r.world.m.state == EraseAwaitingExecute
            && r.world.m.store == w.m.store.EraseBlock().IncrementBlock()
            && r.world.m.deadline <= tick(r.world.clk) + TIMEOUT_ERASE_BLOCK_US
  {
    var r := Perform(tick, w, Command(C_ERASE_EXECUTE));
  }

  const EXECUTE_AND_WAIT: seq<Action> := [Command(C_ERASE_EXECUTE), Wait(TIMEOUT_ERASE_BLOCK_US)]

  lemma EraseOneBlock(device: Device, tick: Schedule, w: World)
    requires Emulates(device, tick) && Erasing(tick, w)
    ensures var r := Run(device, w, EXECUTE_AND_WAIT);
            && r.ok && Erasing(tick, r.world) && r.world.buf == w.buf
            && r.world.m.store == w.m.store.EraseBlock().IncrementBlock()
  {
    var v := device(w, Command(C_ERASE_EXECUTE)).world;
    ExecuteErase(device, tick, w);
    WaitSucceeds(device, tick, v, TIMEOUT_ERASE_BLOCK_US);
    RunStep(device, w, Command(C_ERASE_EXECUTE), [Wait(TIMEOUT_ERASE_BLOCK_US)]);
    RunStep(device, v, Wait(TIMEOUT_ERASE_BLOCK_US), []);
    assert [Wait(TIMEOUT_ERASE_BLOCK_US)] + [] == [Wait(TIMEOUT_ERASE_BLOCK_US)];
    assert EXECUTE_AND_WAIT == [Command(C_ERASE_EXECUTE)] + [Wait(TIMEOUT_ERASE_BLOCK_US)];
  }

  /** Block b, counted without regard to the size of the store. */
  lemma EraseNumberedBlock(s: StoreState, b: nat)
    requires s.cursor == b * BLOCK_SIZE % STORE_SIZE
    ensures s.EraseBlock().IncrementBlock()
         == Store((b + 1) * BLOCK_SIZE % STORE_SIZE, s.cache, Put(s.data, b * BLOCK_SIZE, Zeros(BLOCK_SIZE)))
  {
    BlockArithmetic(b);
    PutWraps(s.data, b * BLOCK_SIZE, Zeros(BLOCK_SIZE));
  }

  lemma BlockArithmetic(b: nat)
    ensures BlockStart(b * BLOCK_SIZE % STORE_SIZE) == b * BLOCK_SIZE % STORE_SIZE
    ensures (b * BLOCK_SIZE % STORE_SIZE + BLOCK_SIZE) % STORE_SIZE == (b + 1) * BLOCK_SIZE % STORE_SIZE
  {
    Division(b * BLOCK_SIZE, STORE_SIZE, b / 256, b % 256 * BLOCK_SIZE);
    Division((b + 1) * BLOCK_SIZE, STORE_SIZE, (b + 1) / 256, (b + 1) % 256 * BLOCK_SIZE);
  }

  /** Block by block, wrapping at the end of the store as often as it takes. */
  lemma {:induction false} EraseBodyZeroesRing(device: Device, tick: Schedule, w: World, b: nat, blocks: nat)
    requires Emulates(device, tick) && Erasing(tick, w)
    requires w.m.store.cursor == b * BLOCK_SIZE % STORE_SIZE
    ensures var r := Run(device, w, EraseBody(blocks));
            && r.ok && Erasing(tick, r.world) && r.world.buf == w.buf
            && r.world.m.store.data == Put(w.m.store.data, b * BLOCK_SIZE, Zeros(blocks * BLOCK_SIZE))
    decreases blocks
  {
    if blocks == 0 {
      PutNothing(w.m.store.data, b * BLOCK_SIZE);
      assert Zeros(0 * BLOCK_SIZE) == [];
    } else {
      var v := Run(device, w, EXECUTE_AND_WAIT).world;
      EraseOneBlock(device, tick, w);
      RunAppend(device, w, EXECUTE_AND_WAIT, EraseBody(blocks - 1));
      EraseNumberedBlock(w.m.store, b);
      EraseBodyZeroesRing(device, tick, v, b + 1, blocks - 1);
      PutJoin(w.m.store.data, b * BLOCK_SIZE, Zeros(BLOCK_SIZE), (b + 1) * BLOCK_SIZE,
              Zeros((blocks - 1) * BLOCK_SIZE), Zeros(blocks * BLOCK_SIZE));
    }
  }

  lemma FirstBlock(offset: nat)
    ensures ToByte(offset / BLOCK_SIZE) * BLOCK_SIZE == offset / BLOCK_SIZE * BLOCK_SIZE % STORE_SIZE
  {
  }

  /** An erase request served by the device does to its store what erase_mirror does. */
  lemma EraseRefinesMirror(device: Device, tick: Schedule, w: World, offset: nat, size: nat)
    requires Emulates(device, tick) && Idle(tick, w)
    ensures var r := Run(device, w, EraseActions(offset, size));
            && r.ok && Idle(tick, r.world) && r.world.buf == w.buf
            && r.world.m.store.data == EraseMirror(w.m.store.data, offset, size)
  {
    var first := ToByte(offset / BLOCK_SIZE);
    var body := EraseBody(BlockCount(offset, size));
    var w1 := device(w, Command(C_ERASE_SETUP)).world;
    Begin(device, tick, w, C_ERASE_SETUP);
    var w2 := device(w1, Address(first)).world;
    OneAddress(device, tick, w1, C_ERASE_SETUP, EraseAwaitingBlock, first);
    FirstBlock(offset);
    EraseBodyZeroesRing(device, tick, w2, offset / BLOCK_SIZE, BlockCount(offset, size));
    assert EraseActions(offset, size) == [Command(C_ERASE_SETUP)] + ([Address(first)] + body);
    RunStep(device, w, Command(C_ERASE_SETUP), [Address(first)] + body);
    RunStep(device, w1, Address(first), body);
  }
}
