/** The reset pin, device/de_gpio.c and parser_reset of device/de_parser.c: whatever the device
    was doing, it is as good as new, except that it keeps its store. */
module Resets {
  import opened Clock
  import opened StoreSpec
  import opened ParserSpec
  import opened ParserLanguage
  import opened Bus
  import opened Sessions
  import opened EndToEnd

  /** Only the store and the IO word outlast a reset; the rest is as at power-on. */
  lemma ResetIsPowerOn(m: Machine)
    ensures Reset(m) == POWER_ON.(word := m.word, store := BLANK.(data := m.store.data))
  {
  }

  function AfterReset(w: World): World {
    w.(m := Reset(w.m))
  }

  /** A reset leads out of every state, MS_BUG and a busy device included, to an idle device
      with the same contents. */
  lemma ResetIsIdle(tick: Schedule, w: World)
    ensures Idle(tick, AfterReset(w)) && AfterReset(w).m.state == Initial
    ensures AfterReset(w).m.store.data == w.m.store.data
  {
  }

  /** After a reset the device understands whole sessions from their beginning and nothing of
      the session that was going on. */
  lemma LanguageAfterReset(m: Machine, words: seq<Word>)
    ensures Feed(Reset(m), words).state != Bug <==> InLanguage(Commands(words))
  {
    FromInitialState(Reset(m), words);
  }

  /** After a reset at any time, whatever drivers have done before, the stack serves requests as
      the mirror does from the contents that the reset has found. */
  lemma ResetRecovers(device: Device, tick: Schedule, w: World, requests: seq<Request>)
    requires Emulates(device, tick) && NoneEmpty(requests)
    ensures var r := ServeAll(device, AfterReset(w), requests);
            var key := AnswerAll(w.m.store.data, requests);
            && r.ok
            && r.world.m.state != Bug
            && r.world.m.store.data == key.mirror
            && r.buffers == key.buffers
            && AllOnTime(device, tick, AfterReset(w), requests)
  {
    ResetIsIdle(tick, w);
    ServeAllAgrees(device, tick, AfterReset(w), requests);
  }
}
