/** The language of command sequences that keep a ready device out of MS_BUG. */
module ParserLanguage {
  import opened Geometry
  import opened ParserSpec
  import opened EndToEnd

  const R: Byte := C_READ_SETUP
  const P: Byte := C_PROGRAM_SETUP
  const E: Byte := C_ERASE_SETUP

  // The grammar.

  predicate All(s: seq<Byte>, allowed: set<Byte>) {
    forall i :: 0 <= i < |s| ==> s[i] in allowed
  }

  /** R R R R execute (dummy | execute)* */
  predicate ReadSession(s: seq<Byte>) {
    [R, R, R, R, C_READ_EXECUTE] <= s && All(s[5..], {C_DUMMY, C_READ_EXECUTE})
  }

  /** P P P P (dummy | execute)* */
  predicate ProgramSession(s: seq<Byte>) {
    [P, P, P, P] <= s && All(s[4..], {C_DUMMY, C_PROGRAM_EXECUTE})
  }

  /** E E execute* */
  predicate EraseSession(s: seq<Byte>) {
    [E, E] <= s && All(s[2..], {C_ERASE_EXECUTE})
  }

  predicate Session(s: seq<Byte>) {
    ReadSession(s) || ProgramSession(s) || EraseSession(s)
  }

  predicate AllSessions(list: seq<seq<Byte>>) {
    forall i :: 0 <= i < |list| ==> Session(list[i])
  }

  /** One session after the other. */
  function Concat(list: seq<seq<Byte>>): seq<Byte> {
    if list == [] then []
    else
      var n := |list| - 1;
      Concat(list[..n]) + list[n]
  }

  /** A prefix of a sequence of sessions. */
  ghost predicate InLanguage(s: seq<Byte>) {
    exists list: seq<seq<Byte>> :: AllSessions(list) && s <= Concat(list)
  }

  // The parser.

  /** The machine after it has seen the given words, always ready. */
  function Feed(m: Machine, words: seq<Word>): Machine {
    if words == [] then m
    else
      var n := |words| - 1;
      Handle(Feed(m, words[..n]).(word := words[n]), false, 0)
  }

  function Commands(words: seq<Word>): (s: seq<Byte>)
    ensures |s| == |words|
  {
    seq(|words|, i requires 0 <= i < |words| => words[i].command)
  }

  /** What the command alone does to the state of a ready machine. */
  function Next(s: MachineState, c: Byte): MachineState {
    match s
    case Initial => SetupState(c)
    case Bug => Bug
    case ReadAwaitingBlock => if c == R then ReadAwaitingPage else Bug
    case ReadAwaitingPage => if c == R then ReadAwaitingByte else Bug
    case ReadAwaitingByte => if c == R then ReadAwaitingExecute else Bug
    case ReadAwaitingExecute => if c == C_READ_EXECUTE then ReadProvidingData else Bug
    case ReadProvidingData => if c == C_DUMMY || c == C_READ_EXECUTE then s else SetupState(c)
    case ProgramAwaitingBlock => if c == P then ProgramAwaitingPage else Bug
    case ProgramAwaitingPage => if c == P then ProgramAwaitingByte else Bug
    case ProgramAwaitingByte => if c == P then ProgramAcceptingData else Bug
    case ProgramAcceptingData => if c == C_DUMMY || c == C_PROGRAM_EXECUTE then s else SetupState(c)
    case EraseAwaitingBlock => if c == E then EraseAwaitingExecute else Bug
    case EraseAwaitingExecute => if c == C_ERASE_EXECUTE then s else SetupState(c)
  }

  lemma HandleFollowsNext(m: Machine)
    ensures Handle(m, false, 0).state == Next(m.state, m.word.command)
  {
  }

  function Walk(s: MachineState, commands: seq<Byte>): MachineState {
    if commands == [] then s
    else
      var n := |commands| - 1;
      Next(Walk(s, commands[..n]), commands[n])
  }

  lemma {:induction false} FeedFollowsWalk(m: Machine, words: seq<Word>)
    ensures Feed(m, words).state == Walk(m.state, Commands(words))
  {
    if words != [] {
      var n := |words| - 1;
      FeedFollowsWalk(m, words[..n]);
      HandleFollowsNext(Feed(m, words[..n]).(word := words[n]));
      assert Commands(words)[..n] == Commands(words[..n]);
    }
  }

  lemma {:induction false} WalkAppend(s: MachineState, u: seq<Byte>, v: seq<Byte>)
    ensures Walk(s, u + v) == Walk(Walk(s, u), v)
  {
    if v == [] {
      assert u + v == u;
    } else {
      var n := |v| - 1;
      WalkAppend(s, u, v[..n]);
      assert (u + v)[..|u| + n] == u + v[..n];
    }
  }

  lemma {:induction false} WalkFromBug(v: seq<Byte>)
    ensures Walk(Bug, v) == Bug
  {
    if v != [] {
      WalkFromBug(v[..|v| - 1]);
    }
  }

  // The grammar describes walks that avoid the bug state.

  /** A new session may begin. */
  predicate Open(s: MachineState) {
    s in {Initial, ReadProvidingData, ProgramAcceptingData, EraseAwaitingExecute}
  }

  /** The commands that lead from an open state to the given one, within one session. */
  predicate Partial(s: MachineState, v: seq<Byte>) {
    match s
    case Initial => v == []
    case Bug => false
    case ReadAwaitingBlock => v == [R]
    case ReadAwaitingPage => v == [R, R]
    case ReadAwaitingByte => v == [R, R, R]
    case ReadAwaitingExecute => v == [R, R, R, R]
    case ReadProvidingData => ReadSession(v)
    case ProgramAwaitingBlock => v == [P]
    case ProgramAwaitingPage => v == [P, P]
    case ProgramAwaitingByte => v == [P, P, P]
    case ProgramAcceptingData => ProgramSession(v)
    case EraseAwaitingBlock => v == [E]
    case EraseAwaitingExecute => EraseSession(v)
  }

  lemma PartialStep(s: MachineState, v: seq<Byte>, c: Byte)
    requires Partial(s, v) && Next(s, c) != Bug
    ensures !(Open(s) && IsSetup(c)) ==> Partial(Next(s, c), v + [c])
    ensures Open(s) && IsSetup(c) ==> Partial(Next(s, c), [c])
  {
  }

  lemma ConcatSnoc(list: seq<seq<Byte>>, v: seq<Byte>)
    ensures Concat(list + [v]) == Concat(list) + v
  {
    assert (list + [v])[..|list|] == list;
  }

  lemma OpenIsWhole(s: MachineState, v: seq<Byte>)
    requires Partial(s, v) && Open(s)
    ensures v == [] || Session(v)
  {
  }

  /** One command more: it extends the partial session, or it begins a new one. */
  lemma ExtendDecomposition(list: seq<seq<Byte>>, v: seq<Byte>, s: MachineState, c: Byte)
    returns (list': seq<seq<Byte>>, v': seq<Byte>)
    requires AllSessions(list) && Partial(s, v) && Next(s, c) != Bug
    ensures AllSessions(list') && Partial(Next(s, c), v') && Concat(list') + v' == Concat(list) + v + [c]
  {
    PartialStep(s, v, c);
    if !(Open(s) && IsSetup(c)) {
      list', v' := list, v + [c];
    } else if v == [] {
      list', v' := list, [c];
    } else {
      OpenIsWhole(s, v);
      ConcatSnoc(list, v);
      list', v' := list + [v], [c];
    }
  }

  /** Every walk that avoids the bug state consists of whole sessions and a partial one. */
  lemma {:induction false} WalkDecomposes(s: seq<Byte>)
    returns (list: seq<seq<Byte>>, v: seq<Byte>, state: MachineState)
    requires Walk(Initial, s) != Bug
    ensures Concat(list) + v == s && AllSessions(list)
    ensures state == Walk(Initial, s) && Partial(state, v)
  {
    if s == [] {
      list, v, state := [], [], Initial;
    } else {
      var k := |s| - 1;
      list, v, state := WalkDecomposes(s[..k]);
      list, v := ExtendDecomposition(list, v, state, s[k]);
      state := Next(state, s[k]);
      assert s == s[..k] + [s[k]];
    }
  }

  /** What completes a partial session. */
  function Completion(s: MachineState): seq<Byte> {
    match s
    case ReadAwaitingBlock => [R, R, R, C_READ_EXECUTE]
    case ReadAwaitingPage => [R, R, C_READ_EXECUTE]
    case ReadAwaitingByte => [R, C_READ_EXECUTE]
    case ReadAwaitingExecute => [C_READ_EXECUTE]
    case ProgramAwaitingBlock => [P, P, P]
    case ProgramAwaitingPage => [P, P]
    case ProgramAwaitingByte => [P]
    case EraseAwaitingBlock => [E]
    case _ => []
  }

  lemma PartialCompletes(s: MachineState, v: seq<Byte>)
    requires Partial(s, v) && s != Initial
    ensures Session(v + Completion(s))
  {
    assert v + [] == v;
  }

  lemma WalkOfSession(s: MachineState, v: seq<Byte>)
    requires Open(s) && Session(v)
    ensures Open(Walk(s, v))
  {
    if ReadSession(v) {
      WalkFive(s);
      assert v == [R, R, R, R, C_READ_EXECUTE] + v[5..];
      WalkAppend(s, [R, R, R, R, C_READ_EXECUTE], v[5..]);
      WalkStays(ReadProvidingData, v[5..], {C_DUMMY, C_READ_EXECUTE});
    } else if ProgramSession(v) {
      WalkFour(s);
      assert v == [P, P, P, P] + v[4..];
      WalkAppend(s, [P, P, P, P], v[4..]);
      WalkStays(ProgramAcceptingData, v[4..], {C_DUMMY, C_PROGRAM_EXECUTE});
    } else {
      WalkTwo(s);
      assert v == [E, E] + v[2..];
      WalkAppend(s, [E, E], v[2..]);
      WalkStays(EraseAwaitingExecute, v[2..], {C_ERASE_EXECUTE});
    }
  }

  lemma {:induction false} WalkStays(s: MachineState, v: seq<Byte>, allowed: set<Byte>)
    requires All(v, allowed) && forall c :: c in allowed ==> Next(s, c) == s
    ensures Walk(s, v) == s
  {
    if v != [] {
      WalkStays(s, v[..|v| - 1], allowed);
    }
  }

  lemma WalkOne(s: MachineState, u: seq<Byte>, c: Byte, v: seq<Byte>)
    requires v == u + [c]
    ensures Walk(s, v) == Next(Walk(s, u), c)
  {
    assert v[..|v| - 1] == u;
  }

  lemma WalkTwo(s: MachineState)
    requires Open(s)
    ensures Walk(s, [E, E]) == EraseAwaitingExecute
  {
    WalkOne(s, [], E, [E]);
    WalkOne(s, [E], E, [E, E]);
  }

  lemma WalkFour(s: MachineState)
    requires Open(s)
    ensures Walk(s, [P, P, P, P]) == ProgramAcceptingData
  {
    WalkOne(s, [], P, [P]);
    WalkOne(s, [P], P, [P, P]);
    WalkOne(s, [P, P], P, [P, P, P]);
    WalkOne(s, [P, P, P], P, [P, P, P, P]);
  }

  lemma WalkFive(s: MachineState)
    requires Open(s)
    ensures Walk(s, [R, R, R, R, C_READ_EXECUTE]) == ReadProvidingData
  {
    WalkOne(s, [], R, [R]);
    WalkOne(s, [R], R, [R, R]);
    WalkOne(s, [R, R], R, [R, R, R]);
    WalkOne(s, [R, R, R], R, [R, R, R, R]);
    WalkOne(s, [R, R, R, R], C_READ_EXECUTE, [R, R, R, R, C_READ_EXECUTE]);
  }

  lemma {:induction false} SessionsStayOpen(list: seq<seq<Byte>>)
    requires AllSessions(list)
    ensures Open(Walk(Initial, Concat(list)))
  {
    if list != [] {
      var n := |list| - 1;
      SessionsStayOpen(list[..n]);
      OneMoreSession(Concat(list[..n]), list[n]);
    }
  }

  lemma OneMoreSession(u: seq<Byte>, v: seq<Byte>)
    requires Open(Walk(Initial, u)) && Session(v)
    ensures Open(Walk(Initial, u + v))
  {
    WalkOfSession(Walk(Initial, u), v);
    WalkAppend(Initial, u, v);
  }

  lemma InLanguageBy(s: seq<Byte>, list: seq<seq<Byte>>)
    requires AllSessions(list) && s <= Concat(list)
    ensures InLanguage(s)
  {
  }

  lemma Completes(list: seq<seq<Byte>>, v: seq<Byte>, state: MachineState)
    requires AllSessions(list) && Partial(state, v)
    ensures InLanguage(Concat(list) + v)
  {
    if state == Initial {
      InLanguageBy(Concat(list) + v, list);
    } else {
      PartialCompletes(state, v);
      CompletedBy(list, v, Completion(state));
    }
  }

  lemma CompletedBy(list: seq<seq<Byte>>, v: seq<Byte>, rest: seq<Byte>)
    requires AllSessions(list) && Session(v + rest)
    ensures InLanguage(Concat(list) + v)
  {
    ConcatSnoc(list, v + rest);
    assert Concat(list) + (v + rest) == Concat(list) + v + rest;
    InLanguageBy(Concat(list) + v, list + [v + rest]);
  }

  lemma PrefixOfSessions(s: seq<Byte>, list: seq<seq<Byte>>)
    requires AllSessions(list) && s <= Concat(list)
    ensures Walk(Initial, s) != Bug
  {
    var all := Concat(list);
    SessionsStayOpen(list);
    assert all == s + all[|s|..];
    WalkAppend(Initial, s, all[|s|..]);
    WalkFromBug(all[|s|..]);
  }

  /** A device that is ready all the time avoids MS_BUG from the initial state if and only if the
      commands it sees are a prefix of a sequence of sessions. */
  lemma FromInitialState(m: Machine, words: seq<Word>)
    requires m.state == Initial
    ensures Feed(m, words).state != Bug <==> InLanguage(Commands(words))
  {
    var s := Commands(words);
    FeedFollowsWalk(m, words);
    if Walk(Initial, s) != Bug {
      var list, v, state := WalkDecomposes(s);
      Completes(list, v, state);
    }
    if InLanguage(s) {
      var list: seq<seq<Byte>> :| AllSessions(list) && s <= Concat(list);
      PrefixOfSessions(s, list);
    }
  }

  lemma BugFreeExactlyInLanguage(words: seq<Word>)
    ensures Feed(POWER_ON, words).state != Bug <==> InLanguage(Commands(words))
  {
    FromInitialState(POWER_ON, words);
  }
}
