/** The page cache beyond what the framework asks of it: any number of bytes sent before a
    program execute, and any number of bytes read after a read execute. */
module CacheRing {
  import opened Geometry
  import opened Ring
  import opened StoreSpec
  import opened Clock
  import opened Bus
  import opened Requests
  import opened Sessions
  import W = WriteRefinement
  import R = ReadRefinement

  /** After n data writes from a zero cache and one program execute, byte j of the page holds
      the last byte i that was sent to it, going around the page, or 0 if there is none; no
      byte outside the page changes. */
  lemma ProgramCacheIsRing(device: Device, tick: Schedule, w: World, start: nat, n: nat, a: nat)
    requires Emulates(device, tick) && W.Accepting(tick, w) && start + n <= |w.buf|
    requires w.m.store.cache == ZEROED && a < STORE_SIZE
    ensures var r := Run(device, w, Sends(start, n) + [Command(C_PROGRAM_EXECUTE)]);
            var s := w.m.store;
            var byte, first := a % PAGE_SIZE, s.cursor % PAGE_SIZE;
            && r.ok
            && (PageStart(a) != PageStart(s.cursor) ==> r.world.m.store.data[a] == s.data[a])
            && (PageStart(a) == PageStart(s.cursor) ==>
                  && (forall i: nat :: LastHit(PAGE_SIZE, first, n, byte, i) ==>
                        r.world.m.store.data[a] == w.buf[start + i])
                  && ((forall i :: 0 <= i < n ==> At(first, i, PAGE_SIZE) != byte) ==> r.world.m.store.data[a] == 0))
  {
    var s := w.m.store;
    var bytes := w.buf[start..start + n];
    W.SendsFillCache(device, tick, w, start, n);
    var v := Run(device, w, Sends(start, n)).world;
    W.ExecuteProgram(device, tick, v);
    RunAppend(device, w, Sends(start, n), [Command(C_PROGRAM_EXECUTE)]);
    RunStep(device, v, Command(C_PROGRAM_EXECUTE), []);
    assert [Command(C_PROGRAM_EXECUTE)] + [] == [Command(C_PROGRAM_EXECUTE)];
    PageByte(s, bytes, a);
  }

  lemma PageByte(s: StoreState, bytes: seq<Byte>, a: nat)
    requires s.cache == ZEROED && a < STORE_SIZE
    ensures var data := W.Accept(s, bytes).CopyPageFromCache().data;
            var byte, first := a % PAGE_SIZE, s.cursor % PAGE_SIZE;
            && (PageStart(a) != PageStart(s.cursor) ==> data[a] == s.data[a])
            && (PageStart(a) == PageStart(s.cursor) ==>
                  && (forall i: nat :: LastHit(PAGE_SIZE, first, |bytes|, byte, i) ==> data[a] == bytes[i])
                  && ((forall i :: 0 <= i < |bytes| ==> At(first, i, PAGE_SIZE) != byte) ==> data[a] == 0))
  {
    var t := W.Accept(s, bytes);
    StartsFit(s.cursor);
    StartsFit(a);
    SamePage(s.cursor, |bytes|);
    PutIsSplice(s.data, PageStart(s.cursor), t.cache);
    LastWriteWins(ZEROED, s.cursor % PAGE_SIZE, bytes, a % PAGE_SIZE);
  }

  lemma SamePage(c: nat, n: nat)
    ensures PageStart(PageStart(c) + (c + n) % PAGE_SIZE) == PageStart(c)
  {
  }

  /** The page that contains address c. */
  function PageAt(data: seq<Byte>, c: nat): seq<Byte>
    requires |data| == STORE_SIZE && c < STORE_SIZE
  {
    data[PageStart(c)..PageStart(c) + PAGE_SIZE]
  }

  /** After n data reads of a page that was loaded at address c, the buffer holds the page's
      bytes c, c + 1, ... around the end of the page, while the cursor has run on through the
      store, so that the next read execute loads the page that it names by then. */
  lemma OverlongReadsStayOnPage(device: Device, tick: Schedule, w: World, start: nat, n: nat)
    requires Emulates(device, tick) && R.Fetching(tick, w)
    requires 0 < n && start + n <= |w.buf|
    ensures var c := w.m.store.cursor;
            var next := (c + n) % STORE_SIZE;
            var data := w.m.store.data;
            var r := Run(device, w, R.EXECUTE_AND_WAIT + Recvs(start, n) + R.EXECUTE_AND_WAIT);
            && r.ok
            && r.world.buf == w.buf[..start] + R.Drained(PageAt(data, c), c, n) + w.buf[start + n..]
            && r.world.m.store == Store(next, PageAt(data, next), data)
  {
    R.ReadLoadedPage(device, tick, w, start, n);
    var v := Run(device, w, R.EXECUTE_AND_WAIT + Recvs(start, n)).world;
    R.LoadOnePage(device, tick, v);
    RunAppend(device, w, R.EXECUTE_AND_WAIT + Recvs(start, n), R.EXECUTE_AND_WAIT);
    PutIsSplice(w.buf, start, R.Drained(PageAt(w.m.store.data, w.m.store.cursor), w.m.store.cursor, n));
  }
}
