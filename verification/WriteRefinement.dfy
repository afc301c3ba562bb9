/** Programming page by page through the cache amounts to one write to a flat ring. */
module WriteRefinement {
  import opened Geometry
  import opened Ring
  import opened StoreSpec
  import opened Clock
  import opened ParserSpec
  import opened Bus
  import opened Requests
  import opened MirrorSpec
  import opened WaitLoop
  import opened Sessions

  /** Ready for data: the driver may send bytes for address a. */
  ghost predicate Accepting(tick: Schedule, w: World) {
    && w.m.state == ProgramAcceptingData
    && w.m.word.command == C_DUMMY
    && !Busy(tick, w)
  }

  lemma OneSend(device: Device, tick: Schedule, w: World, src: nat)
    requires Emulates(device, tick) && Accepting(tick, w) && src < |w.buf|
    ensures var r := device(w, Send(src));
            && r.ok && Accepting(tick, r.world)
            && r.world.buf == w.buf
            && r.world.m.deadline == w.m.deadline
            && r.world.m.store == w.m.store.SetCacheByte(w.buf[src]).IncrementCursor(true)
  {
    var r := Perform(tick, w, Send(src));
  }

  /** The store after it has accepted some bytes: they land in the cache one after the
      other from the cursor's byte on, around its end if need be, and the cursor stays on
      its page. */
  ghost function Accept(s: StoreState, bytes: seq<Byte>): StoreState
  {
    Store(PageStart(s.cursor) + (s.cursor + |bytes|) % PAGE_SIZE, Put(s.cache, s.cursor % PAGE_SIZE, bytes), s.data)
  }

  lemma AcceptCons(s: StoreState, bytes: seq<Byte>)
    requires |bytes| > 0
    ensures Accept(s.SetCacheByte(bytes[0]).IncrementCursor(true), bytes[1..]) == Accept(s, bytes)
  {
    var b, rest := bytes[0], bytes[1..];
    assert bytes == [b] + rest;
    var v := s.SetCacheByte(b).IncrementCursor(true);
    var c := s.cursor % PAGE_SIZE;
    StepOnPage(s.cursor, |rest|);
    PutSnoc(s.cache, c, [], b);
    assert [] + [b] == [b];
    assert v.cache == Put(s.cache, c, [b]);
    PutWraps(v.cache, c + 1, rest);
    PutConcat(s.cache, c, [b], rest);
  }

  lemma {:induction false} SendsFillCache(device: Device, tick: Schedule, w: World, start: nat, n: nat)
    requires Emulates(device, tick) && Accepting(tick, w) && start + n <= |w.buf|
    ensures var r := Run(device, w, Sends(start, n));
            && r.ok && Accepting(tick, r.world)
            && r.world.buf == w.buf
            && r.world.m.deadline == w.m.deadline
            && r.world.m.store == Accept(w.m.store, w.buf[start..start + n])
    decreases n
  {
    var bytes := w.buf[start..start + n];
    if n > 0 {
      var v := device(w, Send(start)).world;
      OneSend(device, tick, w, start);
      RunStep(device, w, Send(start), Sends(start + 1, n - 1));
      SendsFillCache(device, tick, v, start + 1, n - 1);
      AcceptCons(w.m.store, bytes);
      assert w.buf[start + 1..start + n] == bytes[1..];
    }
  }

  lemma ExecuteProgram(device: Device, tick: Schedule, w: World)
    requires Emulates(device, tick) && Accepting(tick, w)
    ensures var r := device(w, Command(C_PROGRAM_EXECUTE));
            && r.ok && r.world.buf == w.buf
            && r.world.m.state == ProgramAcceptingData
            && r.world.m.word.command == C_DUMMY
            && r.world.m.store == w.m.store.CopyPageFromCache().ClearCache().IncrementPage()
            && r.world.m.deadline <= tick(r.world.clk) + TIMEOUT_WRITE_PAGE_US
  {
    var r := Perform(tick, w, Command(C_PROGRAM_EXECUTE));
  }

  const EXECUTE_AND_WAIT: seq<Action> := [Command(C_PROGRAM_EXECUTE), Wait(TIMEOUT_WRITE_PAGE_US)]

  lemma ProgramOnePage(device: Device, tick: Schedule, w: World)
    requires Emulates(device, tick) && Accepting(tick, w)
    ensures var r := Run(device, w, EXECUTE_AND_WAIT);
            && r.ok && Accepting(tick, r.world) && r.world.buf == w.buf
            && r.world.m.store == w.m.store.CopyPageFromCache().ClearCache().IncrementPage()
  {
    var v := device(w, Command(C_PROGRAM_EXECUTE)).world;
    ExecuteProgram(device, tick, w);
    WaitSucceeds(device, tick, v, TIMEOUT_WRITE_PAGE_US);
    RunStep(device, w, Command(C_PROGRAM_EXECUTE), [Wait(TIMEOUT_WRITE_PAGE_US)]);
    RunStep(device, v, Wait(TIMEOUT_WRITE_PAGE_US), []);
    assert [Wait(TIMEOUT_WRITE_PAGE_US)] + [] == [Wait(TIMEOUT_WRITE_PAGE_US)];
    assert EXECUTE_AND_WAIT == [Command(C_PROGRAM_EXECUTE)] + [Wait(TIMEOUT_WRITE_PAGE_US)];
  }

  /** The bytes of whole pages that a write to address a puts into the store. */
  ghost function Image(a: nat, bytes: seq<Byte>): (r: seq<Byte>)
    ensures |r| == a % PAGE_SIZE + |bytes| + PagePadding(a + |bytes|)
  {
    var skipped := a % PAGE_SIZE;
    seq(skipped + |bytes| + PagePadding(a + |bytes|),
        i requires 0 <= i => if skipped <= i < skipped + |bytes| then bytes[i - skipped] else 0)
  }

  /** The ring after such a write. */
  ghost function Written(data: seq<Byte>, a: nat, bytes: seq<Byte>): (r: seq<Byte>)
    requires |data| == STORE_SIZE
    ensures |r| == STORE_SIZE
  {
    seq(STORE_SIZE, x requires 0 <= x < STORE_SIZE => Put(data, PageStart(a), Image(a, bytes))[x])
  }

  lemma WrittenIsPut(data: seq<Byte>, a: nat, bytes: seq<Byte>)
    requires |data| == STORE_SIZE
    ensures Written(data, a, bytes) == Put(data, PageStart(a), Image(a, bytes))
  {
  }

  lemma WithinPage(a: nat, n: nat)
    requires n <= PAGE_SIZE - a % PAGE_SIZE
    ensures n > 0 || a % PAGE_SIZE > 0 ==> PagePadding(a + n) == PAGE_SIZE - a % PAGE_SIZE - n
    ensures PageStart(PageStart(a) + (a + n) % PAGE_SIZE) == PageStart(a)
  {
  }

  /** Bytes accepted into a zeroed cache, with zeroes before and after them. */
  lemma AcceptedCache(s: StoreState, bytes: seq<Byte>)
    requires s.cache == ZEROED
    requires 0 < |bytes| <= PAGE_SIZE - s.cursor % PAGE_SIZE
    ensures Accept(s, bytes).cache == Image(s.cursor, bytes)
  {
    var c := s.cursor % PAGE_SIZE;
    WithinPage(s.cursor, |bytes|);
    PutIsSplice(s.cache, c, bytes);
  }

  lemma AcceptedCursor(s: StoreState, a: nat, bytes: seq<Byte>)
    requires s.cursor == a % STORE_SIZE && 0 < |bytes| <= PAGE_SIZE - a % PAGE_SIZE
    ensures var c := Accept(s, bytes).cursor;
            && PageStart(c) == PageStart(s.cursor)
            && (PageStart(c) + PAGE_SIZE) % STORE_SIZE == (PageStart(a) + PAGE_SIZE) % STORE_SIZE
  {
    PageOfWrapped(a);
    WithinPage(s.cursor, |bytes|);
  }

  /** The page programmed after some bytes have been accepted into a zeroed cache. */
  lemma AcceptedPage(s: StoreState, a: nat, bytes: seq<Byte>)
    requires s.cache == ZEROED && s.cursor == a % STORE_SIZE
    requires 0 < |bytes| <= PAGE_SIZE - a % PAGE_SIZE
    ensures Accept(s, bytes).CopyPageFromCache().ClearCache().IncrementPage()
         == Store((PageStart(a) + PAGE_SIZE) % STORE_SIZE, ZEROED, Written(s.data, a, bytes))
  {
    WrittenIsPut(s.data, a, bytes);
    PageOfWrapped(a);
    AcceptedCache(s, bytes);
    AcceptedCursor(s, a, bytes);
    SameImage(s, a, bytes);
  }

  lemma {:induction false} WriteOneChunk(device: Device, tick: Schedule, w: World, a: nat, start: nat, n: nat)
    requires Emulates(device, tick) && Accepting(tick, w) && start + n <= |w.buf|
    requires w.m.store.cache == ZEROED && w.m.store.cursor == a % STORE_SIZE
    requires 0 < n <= PAGE_SIZE - a % PAGE_SIZE
    ensures var r := Run(device, w, Sends(start, n) + EXECUTE_AND_WAIT); var s := w.m.store;
            && r.ok && Accepting(tick, r.world) && r.world.buf == w.buf
            && r.world.m.store == Store((PageStart(a) + PAGE_SIZE) % STORE_SIZE, ZEROED,
                                        Written(s.data, a, w.buf[start..start + n]))
  {
    SendsFillCache(device, tick, w, start, n);
    var v := Run(device, w, Sends(start, n)).world;
    ProgramOnePage(device, tick, v);
    RunAppend(device, w, Sends(start, n), EXECUTE_AND_WAIT);
    AcceptedPage(w.m.store, a, w.buf[start..start + n]);
  }

  lemma ImageOfSuffix(a: nat, bytes: seq<Byte>, n: nat)
    requires n < |bytes| && (a + n) % PAGE_SIZE == 0
    ensures Image(a, bytes) == Image(a, bytes[..n]) + Image(a + n, bytes[n..])
    ensures |Image(a, bytes[..n])| == a % PAGE_SIZE + n
  {
    assert PagePadding(a + n) == 0;
    assert bytes == bytes[..n] + bytes[n..];
  }

  lemma PageOfWrapped(a: nat)
    ensures PageStart(a % STORE_SIZE) == PageStart(a) % STORE_SIZE
    ensures a % STORE_SIZE % PAGE_SIZE == a % PAGE_SIZE
    ensures (PageStart(a % STORE_SIZE) + PAGE_SIZE) % STORE_SIZE == (PageStart(a) + PAGE_SIZE) % STORE_SIZE
  {
    var q, p, y := a / STORE_SIZE, a % STORE_SIZE / PAGE_SIZE, a % STORE_SIZE % PAGE_SIZE;
    Division(a, PAGE_SIZE, q * 65536 + p, y);
    Division(PageStart(a), STORE_SIZE, q, p * PAGE_SIZE);
  }

  lemma WriteBodyUnfolds(a: nat, start: nat, left: nat)
    requires left > 0
    ensures var n := Chunk(a, left);
            WriteBody(a, start, left) == Sends(start, n) + EXECUTE_AND_WAIT + WriteBody(a + n, start + n, left - n)
  {
  }

  /** The first round of the loop, and the state from which the other rounds go on. */
  lemma FirstChunk(device: Device, tick: Schedule, w: World, a: nat, start: nat, left: nat) returns (n: nat, v: World)
    requires Emulates(device, tick) && Accepting(tick, w)
    requires 0 < left && start + left <= |w.buf|
    requires w.m.store.cache == ZEROED && w.m.store.cursor == a % STORE_SIZE
    ensures 0 < n <= left && (n < left ==> a % PAGE_SIZE + n == PAGE_SIZE)
    ensures && Run(device, w, WriteBody(a, start, left)) == Run(device, v, WriteBody(a + n, start + n, left - n))
            && Accepting(tick, v) && v.buf == w.buf
            && v.m.store.cache == ZEROED
            && (n < left ==> v.m.store.cursor == (a + n) % STORE_SIZE)
            && v.m.store.data == Written(w.m.store.data, a, w.buf[start..start + n])
  {
    n := Chunk(a, left);
    var page := Sends(start, n) + EXECUTE_AND_WAIT;
    WriteBodyUnfolds(a, start, left);
    WriteOneChunk(device, tick, w, a, start, n);
    RunAppend(device, w, page, WriteBody(a + n, start + n, left - n));
    v := Run(device, w, page).world;
    if n < left {
      NextPageAddress(a, n);
    }
  }

  /** Chunk by chunk, wrapping at the end of the store and possibly over pages that this very
      write has programmed, the loop leaves one run of bytes in the ring. */
  lemma {:induction false} WriteBodyProgramsImage(device: Device, tick: Schedule, w: World,
                                                  a: nat, start: nat, left: nat)
    requires Emulates(device, tick) && Accepting(tick, w)
    requires 0 < left && start + left <= |w.buf|
    requires w.m.store.cache == ZEROED && w.m.store.cursor == a % STORE_SIZE
    ensures var r := Run(device, w, WriteBody(a, start, left));
            && r.ok && Accepting(tick, r.world) && r.world.buf == w.buf
            && r.world.m.store.data == Written(w.m.store.data, a, w.buf[start..start + left])
            && r.world.m.store.cache == ZEROED
    decreases left
  {
    var n, v := FirstChunk(device, tick, w, a, start, left);
    if n < left {
      WriteBodyProgramsImage(device, tick, v, a + n, start + n, left - n);
      JoinSlices(w.m.store.data, a, w.buf, start, left, n);
    } else {
      assert WriteBody(a + n, start + n, left - n) == [];
    }
  }

  lemma JoinSlices(data: seq<Byte>, a: nat, buf: seq<Byte>, start: nat, left: nat, n: nat)
    requires |data| == STORE_SIZE && start + left <= |buf|
    requires 0 < n < left && a % PAGE_SIZE + n == PAGE_SIZE
    ensures Written(Written(data, a, buf[start..start + n]), a + n, buf[start + n..start + n + (left - n)])
         == Written(data, a, buf[start..start + left])
  {
    var bytes := buf[start..start + left];
    assert bytes[..n] == buf[start..start + n] && bytes[n..] == buf[start + n..start + n + (left - n)];
    WrittenIsPut(data, a, bytes[..n]);
    WrittenIsPut(Written(data, a, bytes[..n]), a + n, bytes[n..]);
    WrittenIsPut(data, a, bytes);
    JoinImages(data, a, bytes, n);
  }

  lemma JoinImages(data: seq<Byte>, a: nat, bytes: seq<Byte>, n: nat)
    requires |data| == STORE_SIZE
    requires 0 < n < |bytes| && a % PAGE_SIZE + n == PAGE_SIZE
    ensures Put(Put(data, PageStart(a), Image(a, bytes[..n])), PageStart(a + n), Image(a + n, bytes[n..]))
         == Put(data, PageStart(a), Image(a, bytes))
  {
    NextPageAddress(a, n);
    ImageOfSuffix(a, bytes, n);
    PutJoin(data, PageStart(a), Image(a, bytes[..n]), PageStart(a + n), Image(a + n, bytes[n..]), Image(a, bytes));
  }

  lemma PaddingOfWrapped(a: nat, n: nat)
    ensures PagePadding(a % STORE_SIZE + n) == PagePadding(a + n)
  {
    var e := a % STORE_SIZE + n;
    Division(a + n, PAGE_SIZE, a / STORE_SIZE * 65536 + e / PAGE_SIZE, e % PAGE_SIZE);
  }

  lemma SameImage(s: StoreState, a: nat, bytes: seq<Byte>)
    requires s.cursor == a % STORE_SIZE
    ensures Put(s.data, PageStart(s.cursor), Image(s.cursor, bytes)) == Put(s.data, PageStart(a), Image(a, bytes))
  {
    PageOfWrapped(a);
    PaddingOfWrapped(a, |bytes|);
    PutWraps(s.data, PageStart(a), Image(a, bytes));
  }

  lemma NextPageAddress(a: nat, n: nat)
    requires 0 < n && a % PAGE_SIZE + n == PAGE_SIZE
    ensures PageStart(a) + PAGE_SIZE == a + n == PageStart(a + n) == PageStart(a) + a % PAGE_SIZE + n
  {
  }

  /** The image of a write is what the mirror lays down in three steps. */
  lemma WrittenIsMirrored(data: seq<Byte>, bytes: seq<Byte>, offset: nat)
    requires |data| == STORE_SIZE
    ensures Written(data, offset, bytes) == WriteMirror(data, bytes, offset)
  {
    WrittenIsPut(data, offset, bytes);
    var prefix := Zeros(offset % PAGE_SIZE);
    var suffix := Zeros(PagePadding(offset + |bytes|));
    assert Image(offset, bytes) == prefix + bytes + suffix;
    PutJoin(data, PageStart(offset), prefix, offset, bytes, prefix + bytes);
    PutJoin(data, PageStart(offset), prefix + bytes, offset + |bytes|, suffix, Image(offset, bytes));
  }

  /** A write request served by the device does to its store what write_mirror does. */
  lemma WriteRefinesMirror(device: Device, tick: Schedule, w: World, offset: nat, size: nat)
    requires Emulates(device, tick) && Idle(tick, w)
    requires 0 < size <= |w.buf|
    ensures var r := Run(device, w, WriteActions(offset, size));
            && r.ok && Idle(tick, r.world) && r.world.buf == w.buf
            && r.world.m.store.data == WriteMirror(w.m.store.data, w.buf[..size], offset)
  {
    Open(device, tick, w, C_PROGRAM_SETUP, offset);
    var v := Run(device, w, Preamble(C_PROGRAM_SETUP, offset)).world;
    WriteBodyProgramsImage(device, tick, v, offset, 0, size);
    RunAppend(device, w, Preamble(C_PROGRAM_SETUP, offset), WriteBody(offset, 0, size));
    assert w.buf[0..0 + size] == w.buf[..size];
    WrittenIsMirrored(w.m.store.data, w.buf[..size], offset);
  }
}
