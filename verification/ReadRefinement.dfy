/** Reading page by page through the cache amounts to one read from a flat ring. */
module ReadRefinement {
  import opened Geometry
  import opened Ring
  import opened StoreSpec
  import opened Clock
  import opened ParserSpec
  import opened Bus
  import opened Requests
  import opened MirrorSpec
  import opened WaitLoop
  import opened Sessions

  ghost predicate Providing(tick: Schedule, w: World) {
    w.m.state == ReadProvidingData && w.m.word.command == C_DUMMY && !Busy(tick, w)
  }

  lemma OneRecv(device: Device, tick: Schedule, w: World, dst: nat)
    requires Emulates(device, tick) && Providing(tick, w) && dst < |w.buf|
    ensures var r := device(w, Recv(dst)); var s := w.m.store;
            && r.ok && Providing(tick, r.world)
            && r.world.buf == w.buf[dst := s.CacheByte()]
            && r.world.m.store == s.IncrementCursor(false)
  {
    var r := Perform(tick, w, Recv(dst));
  }

  /** The bytes that n data reads return when the cursor is c. */
  ghost function Drained(cache: seq<Byte>, c: nat, n: nat): (r: seq<Byte>)
    requires |cache| == PAGE_SIZE
    ensures |r| == n
  {
    seq(n, i requires 0 <= i < n => cache[(c + i) % PAGE_SIZE])
  }

  lemma NextRead(c: nat, i: nat)
    ensures ((c + 1) % STORE_SIZE + i) % PAGE_SIZE == (c + (i + 1)) % PAGE_SIZE
    ensures ((c + 1) % STORE_SIZE + i) % STORE_SIZE == (c + (i + 1)) % STORE_SIZE
  {
  }

  lemma DrainedCons(cache: seq<Byte>, c: nat, n: nat)
    requires |cache| == PAGE_SIZE && n > 0
    ensures Drained(cache, c, n) == [cache[c % PAGE_SIZE]] + Drained(cache, (c + 1) % STORE_SIZE, n - 1)
  {
    var rest := Drained(cache, (c + 1) % STORE_SIZE, n - 1);
    forall i | 0 <= i < n - 1
      ensures rest[i] == Drained(cache, c, n)[i + 1]
    {
      NextRead(c, i);
    }
  }

  lemma PutFirst(buf: seq<Byte>, start: nat, b: Byte)
    requires start < |buf|
    ensures buf[start := b] == Put(buf, start, [b])
  {
    PutIsSplice(buf, start, [b]);
  }

  /** One byte and then n - 1 bytes are n bytes. */
  lemma DrainStep(s: StoreState, buf: seq<Byte>, start: nat, n: nat)
    requires 0 < n && start + n <= |buf|
    ensures var c := s.IncrementCursor(false).cursor;
            && Put(buf[start := s.CacheByte()], start + 1, Drained(s.cache, c, n - 1))
            == Put(buf, start, Drained(s.cache, s.cursor, n))
            && (c + (n - 1)) % STORE_SIZE == (s.cursor + n) % STORE_SIZE
  {
    var b := s.CacheByte();
    DrainedCons(s.cache, s.cursor, n);
    NextRead(s.cursor, n - 1);
    PutFirst(buf, start, b);
    PutJoin(buf, start, [b], start + 1,
            Drained(s.cache, (s.cursor + 1) % STORE_SIZE, n - 1), Drained(s.cache, s.cursor, n));
  }

  /** However many bytes are read, they come from the loaded page, around its end if need
      be, while the cursor runs on through the store. */
  lemma {:induction false} RecvsDrainCache(device: Device, tick: Schedule, w: World, start: nat, n: nat)
    requires Emulates(device, tick) && Providing(tick, w)
    requires start + n <= |w.buf| && |w.buf| > 0
    ensures var r := Run(device, w, Recvs(start, n)); var s := w.m.store;
            && r.ok && Providing(tick, r.world)
            && r.world.buf == Put(w.buf, start, Drained(s.cache, s.cursor, n))
            && r.world.m.store == Store((s.cursor + n) % STORE_SIZE, s.cache, s.data)
    decreases n
  {
    var s := w.m.store;
    if n == 0 {
      PutNothing(w.buf, start);
    } else {
      var v := device(w, Recv(start)).world;
      OneRecv(device, tick, w, start);
      RunStep(device, w, Recv(start), Recvs(start + 1, n - 1));
      RecvsDrainCache(device, tick, v, start + 1, n - 1);
      DrainStep(s, w.buf, start, n);
    }
  }

  /** The next page may be loaded. */
  ghost predicate Fetching(tick: Schedule, w: World) {
    w.m.state in {ReadAwaitingExecute, ReadProvidingData} && !Busy(tick, w)
  }

  lemma ExecuteRead(device: Device, tick: Schedule, w: World)
    requires Emulates(device, tick) && Fetching(tick, w)
    ensures var r := device(w, Command(C_READ_EXECUTE));
            && r.ok && r.world.buf == w.buf
            && r.world.m.state == ReadProvidingData
            && r.world.m.word.command == C_DUMMY
            && r.world.m.store == w.m.store.CopyPageToCache()
            && r.world.m.deadline <= tick(r.world.clk) + TIMEOUT_READ_PAGE_US
  {
    var r := Perform(tick, w, Command(C_READ_EXECUTE));
  }

  const EXECUTE_AND_WAIT: seq<Action> := [Command(C_READ_EXECUTE), Wait(TIMEOUT_READ_PAGE_US)]

  lemma LoadOnePage(device: Device, tick: Schedule, w: World)
    requires Emulates(device, tick) && Fetching(tick, w)
    ensures var r := Run(device, w, EXECUTE_AND_WAIT);
            && r.ok && Providing(tick, r.world) && r.world.buf == w.buf
            && r.world.m.store == w.m.store.CopyPageToCache()
  {
    var v := device(w, Command(C_READ_EXECUTE)).world;
    ExecuteRead(device, tick, w);
    WaitSucceeds(device, tick, v, TIMEOUT_READ_PAGE_US);
    RunStep(device, w, Command(C_READ_EXECUTE), [Wait(TIMEOUT_READ_PAGE_US)]);
    RunStep(device, v, Wait(TIMEOUT_READ_PAGE_US), []);
    assert [Wait(TIMEOUT_READ_PAGE_US)] + [] == [Wait(TIMEOUT_READ_PAGE_US)];
    assert EXECUTE_AND_WAIT == [Command(C_READ_EXECUTE)] + [Wait(TIMEOUT_READ_PAGE_US)];
  }

  /** The part of the loaded page that a chunk reads is the part of the ring it asks for. */
  lemma ChunkOfRing(s: StoreState, a: nat, n: nat)
    requires s.cursor == a % STORE_SIZE && a % PAGE_SIZE + n <= PAGE_SIZE
    ensures Drained(s.CopyPageToCache().cache, s.cursor, n) == Get(s.data, a, n)
  {
    var drained := Drained(s.CopyPageToCache().cache, s.cursor, n);
    forall i | 0 <= i < n
      ensures drained[i] == Get(s.data, a, n)[i]
    {
      WithinStore(a, i);
    }
  }

  lemma WithinStore(a: nat, i: nat)
    requires a % PAGE_SIZE + i < PAGE_SIZE
    ensures PageStart(a % STORE_SIZE) + (a % STORE_SIZE + i) % PAGE_SIZE == (a + i) % STORE_SIZE
  {
  }

  lemma WrappedSum(a: nat, n: nat)
    ensures (a % STORE_SIZE + n) % STORE_SIZE == (a + n) % STORE_SIZE
  {
  }

  lemma ReadBodyUnfolds(a: nat, start: nat, left: nat)
    requires left > 0
    ensures var n := Chunk(a, left);
            ReadBody(a, start, left) == EXECUTE_AND_WAIT + Recvs(start, n) + ReadBody(a + n, start + n, left - n)
  {
  }

  /** Loading a page and reading any number of bytes. */
  lemma ReadLoadedPage(device: Device, tick: Schedule, w: World, start: nat, n: nat)
    requires Emulates(device, tick) && Fetching(tick, w)
    requires start + n <= |w.buf| && |w.buf| > 0
    ensures var r := Run(device, w, EXECUTE_AND_WAIT + Recvs(start, n)); var s := w.m.store;
            && r.ok && Providing(tick, r.world)
            && r.world.m.store.cursor == (s.cursor + n) % STORE_SIZE
            && r.world.m.store.data == s.data
            && r.world.buf == Put(w.buf, start, Drained(s.CopyPageToCache().cache, s.cursor, n))
  {
    LoadOnePage(device, tick, w);
    RunAppend(device, w, EXECUTE_AND_WAIT, Recvs(start, n));
    RecvsDrainCache(device, tick, Run(device, w, EXECUTE_AND_WAIT).world, start, n);
  }

  /** Loading a page and reading a part of it. */
  lemma ReadOneChunk(device: Device, tick: Schedule, w: World, a: nat, start: nat, n: nat)
    requires Emulates(device, tick) && Fetching(tick, w)
    requires 0 < n <= PAGE_SIZE - a % PAGE_SIZE && start + n <= |w.buf|
    requires w.m.store.cursor == a % STORE_SIZE
    ensures var r := Run(device, w, EXECUTE_AND_WAIT + Recvs(start, n));
            && r.ok && Providing(tick, r.world)
            && r.world.m.store.cursor == (a + n) % STORE_SIZE
            && r.world.m.store.data == w.m.store.data
            && r.world.buf == Put(w.buf, start, Get(w.m.store.data, a, n))
  {
    ReadLoadedPage(device, tick, w, start, n);
    ChunkOfRing(w.m.store, a, n);
    WrappedSum(a, n);
  }

  /** The first round of the loop, and the state from which the other rounds go on. */
  lemma FirstChunk(device: Device, tick: Schedule, w: World, a: nat, start: nat, left: nat) returns (v: World)
    requires Emulates(device, tick) && Fetching(tick, w)
    requires 0 < left && start + left <= |w.buf|
    requires w.m.store.cursor == a % STORE_SIZE
    ensures var n := Chunk(a, left);
            && Run(device, w, ReadBody(a, start, left)) == Run(device, v, ReadBody(a + n, start + n, left - n))
            && Providing(tick, v)
            && v.m.store.cursor == (a + n) % STORE_SIZE
            && v.m.store.data == w.m.store.data
            && v.buf == Put(w.buf, start, Get(w.m.store.data, a, n))
  {
    var n := Chunk(a, left);
    var chunk := EXECUTE_AND_WAIT + Recvs(start, n);
    ReadBodyUnfolds(a, start, left);
    ReadOneChunk(device, tick, w, a, start, n);
    RunAppend(device, w, chunk, ReadBody(a + n, start + n, left - n));
    v := Run(device, w, chunk).world;
  }

  lemma SplitRing(data: seq<Byte>, a: nat, n: nat, left: nat)
    requires |data| == STORE_SIZE && n <= left
    ensures Get(data, a, left) == Get(data, a, n) + Get(data, a + n, left - n)
  {
    assert forall i :: n <= i < left ==> At(a, i, |data|) == At(a + n, i - n, |data|);
  }

  lemma {:induction false} ReadBodyReadsRing(device: Device, tick: Schedule, w: World, a: nat, start: nat, left: nat)
    requires Emulates(device, tick) && Fetching(tick, w)
    requires 0 < left && start + left <= |w.buf|
    requires w.m.store.cursor == a % STORE_SIZE
    ensures var r := Run(device, w, ReadBody(a, start, left));
            && r.ok && Providing(tick, r.world)
            && r.world.m.store.data == w.m.store.data
            && r.world.m.store.cursor == (a + left) % STORE_SIZE
            && r.world.buf == Put(w.buf, start, Get(w.m.store.data, a, left))
    decreases left
  {
    var n := Chunk(a, left);
    var v := FirstChunk(device, tick, w, a, start, left);
    var data := w.m.store.data;
    if n < left {
      ReadBodyReadsRing(device, tick, v, a + n, start + n, left - n);
      SplitRing(data, a, n, left);
      PutJoin(w.buf, start, Get(data, a, n), start + n, Get(data, a + n, left - n), Get(data, a, left));
    } else {
      assert ReadBody(a + n, start + n, left - n) == [];
    }
  }

  /** A read request served by the device leaves the store alone and fills the first `size`
      bytes of the caller's buffer as read_mirror does. */
  lemma ReadRefinesMirror(device: Device, tick: Schedule, w: World, offset: nat, size: nat)
    requires Emulates(device, tick) && Idle(tick, w)
    requires 0 < size <= |w.buf|
    ensures var r := Run(device, w, ReadActions(offset, size));
            && r.ok && Idle(tick, r.world)
            && r.world.m.store.data == w.m.store.data
            && r.world.buf == ReadMirror(w.m.store.data, offset, size) + w.buf[size..]
  {
    Open(device, tick, w, C_READ_SETUP, offset);
    var v := Run(device, w, Preamble(C_READ_SETUP, offset)).world;
    ReadBodyReadsRing(device, tick, v, offset, 0, size);
    RunAppend(device, w, Preamble(C_READ_SETUP, offset), ReadBody(offset, 0, size));
    FillsPrefix(w.buf, w.m.store.data, offset, size);
  }

  lemma FillsPrefix(buf: seq<Byte>, data: seq<Byte>, offset: nat, size: nat)
    requires |data| == STORE_SIZE && 0 < size <= |buf|
    ensures Put(buf, 0, Get(data, offset, size)) == ReadMirror(data, offset, size) + buf[size..]
  {
    PutIsSplice(buf, 0, Get(data, offset, size));
  }
}
