/**
 When calls of `ExecSimpleQuery` come to an end.  `acquireSenderLock` waits for senderLock while it
 holds connectionLock; the receive loop and a caller whose write failed need connectionLock to let
 the owner of senderLock go on.  So two callers can block each other for ever.  That is the only
 way to get stuck: in every other state with calls under way, somebody can take a step.
 */
module ListenerConnProgress {
  import opened Basics
  import opened ListenerConn

  /** One call waits for senderLock with connectionLock in hand, and its owner needs that lock, or the loop does. */
  ghost predicate Blocks(s: State, d: Call, c: Call) {
    && s.connLock == Some(ByCall(d)) && At(s, d, WantSender) && s.senderLock == Some(c)
    && (At(s, c, Failed) || (At(s, c, Waiting) && s.replies == [] && s.loop == Ending && !s.closed))
  }

  ghost predicate Deadlocked(s: State) {
    exists d, c :: Blocks(s, d, c)
  }

  /** Runs from any state. */
  function From(s: State, run: seq<Action>): Option<State>
    decreases |run|
  {
    if run == [] then Some(s)
    else if Enabled(s, run[0]) then From(Do(s, run[0]), run[1..])
    else None
  }

  lemma CallKeepsBlocks(s: State, a: Action, d: Call, c: Call)
    requires Enabled(s, a) && Blocks(s, d, c) && Locks(s)
    requires a.Begin? || a.LockConn? || a.CheckErr? || a.LockSender? || a.UnlockConn? || a.SetState? || a.Send? || a.FailSend? || a.LockToFail? || a.FailConn?
    ensures Blocks(Do(s, a), d, c)
  {
  }

  lemma StepKeepsBlocks(s: State, a: Action, d: Call, c: Call)
    requires Enabled(s, a) && Blocks(s, d, c) && Locks(s)
    ensures Blocks(Do(s, a), d, c)
  {
    match a
    case TakeReply(_) =>
    case SeeClosed(_) =>
    case Leave(_) =>
    case Close =>
    case Receive =>
    case LoseConnection =>
    case Push =>
    case LockToEnd =>
    case EndConn =>
    case CloseReplies =>
    case ServerTake =>
    case ServerAnswer(_) =>
    case ServerReady =>
    case ServerAsync =>
    case ServerSend(_) =>
    case _ => CallKeepsBlocks(s, a, d, c);
  }

  /** For ever: neither call returns, and no other gets a lock. */
  lemma {:induction false} DeadlockIsForEver(s: State, run: seq<Action>, d: Call, c: Call)
    requires Inv(s) && Blocks(s, d, c) && From(s, run).Some?
    ensures Inv(From(s, run).value) && Blocks(From(s, run).value, d, c)
    decreases |run|
  {
    if run != [] {
      StepKeepsBlocks(s, run[0], d, c);
      StepKeepsInv(s, run[0]);
      DeadlockIsForEver(Do(s, run[0]), run[1..], d, c);
    }
  }

  // ----- How to get there ------------------------------------------------------------

  /** One more step. */
  lemma {:induction false} Extended(s: State, run: seq<Action>, t: State, a: Action) returns (longer: seq<Action>, u: State)
    requires From(s, run) == Some(t) && Enabled(t, a)
    ensures longer == run + [a] && u == Do(t, a) && From(s, longer) == Some(u)
    decreases |run|
  {
    longer, u := run + [a], Do(t, a);
    if run == [] {
      assert longer[1..] == [];
    } else {
      assert longer[0] == run[0] && longer[1..] == run[1..] + [a];
      var _, _ := Extended(Do(s, run[0]), run[1..], t, a);
    }
  }

  function Written(honest: bool, c: Call): State {
    Initial(honest).(connState := ExpectResponse, senderLock := Some(c), calls := map[c := Waiting], current := c, toServer := [c])
  }

  function WithLocks(honest: bool, c: Call): State {
    Initial(honest).(connLock := Some(ByCall(c)), senderLock := Some(c), calls := map[c := HasBoth])
  }

  lemma LocksAreTaken(honest: bool, c: Call) returns (run: seq<Action>)
    ensures From(Initial(honest), run) == Some(WithLocks(honest, c))
  {
    var s0 := Initial(honest);
    var s: State;
    run, s := Extended(s0, [], s0, Begin(c));
    run, s := Extended(s0, run, s, LockConn(c));
    run, s := Extended(s0, run, s, CheckErr(c));
    run, s := Extended(s0, run, s, LockSender(c));
    assert s.calls == map[c := HasBoth];
  }

  /** A call, up to when its query is written. */
  lemma QueryIsWritten(honest: bool, c: Call) returns (run: seq<Action>)
    ensures From(Initial(honest), run) == Some(Written(honest, c))
  {
    var s0, s := Initial(honest), WithLocks(honest, c);
    run := LocksAreTaken(honest, c);
    run, s := Extended(s0, run, s, UnlockConn(c));
    run, s := Extended(s0, run, s, SetState(c));
    run, s := Extended(s0, run, s, Send(c));
    assert s.calls == map[c := Waiting] && s.toServer == [c];
  }

  /** Two calls, and the connection is lost: they are blocked for ever. */
  lemma DeadlockHappens(honest: bool, c: Call, d: Call) returns (run: seq<Action>)
    requires c != d
    ensures From(Initial(honest), run).Some? && Blocks(From(Initial(honest), run).value, d, c)
  {
    var s0, s := Initial(honest), Written(honest, c);
    run := QueryIsWritten(honest, c);
    run, s := Extended(s0, run, s, Begin(d));
    run, s := Extended(s0, run, s, LockConn(d));
    run, s := Extended(s0, run, s, CheckErr(d));
    run, s := Extended(s0, run, s, LoseConnection);
  }

  /** Written, and the server has answered it with a response and ReadyForQuery. */
  function WithAnswer(honest: bool, c: Call, ok: bool): State {
    Written(honest, c).(toServer := [], fromServer := [Message(if ok then Complete else ErrorResponse, Some(c)), Message(ReadyForQuery, Some(c))])
  }

  lemma ServerDoesIt(honest: bool, c: Call, ok: bool) returns (run: seq<Action>)
    ensures From(Initial(honest), run) == Some(WithAnswer(honest, c, ok))
  {
    var s0, s := Initial(honest), Written(honest, c);
    run := QueryIsWritten(honest, c);
    run, s := Extended(s0, run, s, ServerTake);
    run, s := Extended(s0, run, s, ServerAnswer(ok));
    run, s := Extended(s0, run, s, ServerReady);
    assert s.fromServer == WithAnswer(honest, c, ok).fromServer && s.toServer == [];
  }

  /** The ReadyForQuery is left to be read. */
  function Told(honest: bool, c: Call): State {
    Written(honest, c).(toServer := [], connState := ExpectReady, fromServer := [Message(ReadyForQuery, Some(c))])
  }

  lemma CallerIsTold(honest: bool, c: Call, ok: bool) returns (run: seq<Action>)
    ensures From(Initial(honest), run) == Some(Told(honest, c))
  {
    var s0, s := Initial(honest), WithAnswer(honest, c, ok);
    run := ServerDoesIt(honest, c, ok);
    run, s := Extended(s0, run, s, Receive);
    if !ok {
      run, s := Extended(s0, run, s, Push);
      run, s := Extended(s0, run, s, TakeReply(c));
    }
    assert s.fromServer == Told(honest, c).fromServer && s.replies == [];
  }

  /** A query that is answered: its call returns, and the connection is as it was. */
  lemma QueryIsAnswered(honest: bool, c: Call, ok: bool) returns (run: seq<Action>)
    ensures From(Initial(honest), run) == Some(Initial(honest).(calls := map[c := Gone], current := c))
  {
    var s0, s := Initial(honest), Told(honest, c);
    run := CallerIsTold(honest, c, ok);
    run, s := Extended(s0, run, s, Receive);
    run, s := Extended(s0, run, s, Push);
    run, s := Extended(s0, run, s, TakeReply(c));
    run, s := Extended(s0, run, s, Leave(c));
    assert s.calls == map[c := Gone] && s.replies == [] && s.fromServer == [];
  }

  // ----- Otherwise somebody can go on ----------------------------------------------------

  /** A step of a call under way, of the loop, or of a server that does its work; a lost connection is none. */
  predicate IsProgress(a: Action) {
    !a.Begin? && !a.FailSend? && !a.Close? && !a.LoseConnection? && !a.ServerAsync? && !a.ServerSend?
  }

  ghost predicate CanGoOn(s: State) {
    exists a :: IsProgress(a) && Enabled(s, a)
  }

  /** The call is under way. */
  predicate UnderWay(s: State, c: Call) {
    c in s.calls && s.calls[c] != Gone && s.calls[c] != Panicked
  }

  /** A query that was written is on its way, or its answer is; a loop that has ended has closed the channel. */
  ghost predicate Sent(s: State) {
    && (s.honest && At(s, s.current, Waiting) && s.connState == ExpectResponse ==>
          s.toServer != [] || s.server != Listening || Answers(s.fromServer) != [])
    && (s.closed <==> s.loop == Ended)
  }

  lemma ReceiveKeepsSent(s: State)
    requires Inv(s) && Sent(s) && Enabled(s, Receive)
    ensures Sent(Do(s, Receive))
  {
    AnswersDrop(s.fromServer);
  }

  lemma ServerKeepsSent(s: State, a: Action)
    requires Sent(s) && Enabled(s, a) && (a.ServerTake? || a.ServerAnswer? || a.ServerReady? || a.ServerAsync? || a.ServerSend?)
    ensures Sent(Do(s, a))
  {
    if a.ServerAsync? { AnswersAppend(s.fromServer, Message(Async, None)); }
    if a.ServerReady? { AnswersAppend(s.fromServer, Message(ReadyForQuery, Some(s.server.call))); }
  }

  lemma LoopKeepsSent(s: State, a: Action)
    requires Sent(s) && Enabled(s, a)
    requires a.LoseConnection? || a.Push? || a.LockToEnd? || a.EndConn? || a.CloseReplies? || a.Close?
    ensures Sent(Do(s, a))
  {
  }

  lemma CallKeepsSent(s: State, a: Action)
    requires Inv(s) && Sent(s) && Enabled(s, a)
    requires a.Begin? || a.LockConn? || a.CheckErr? || a.LockSender? || a.UnlockConn? || a.LockToFail? || a.FailConn? || a.FailSend? || a.SeeClosed? || a.Leave?
    ensures Sent(Do(s, a))
  {
  }

  lemma QueryKeepsSent(s: State, a: Action)
    requires Inv(s) && Sent(s) && Enabled(s, a) && (a.SetState? || a.Send? || a.TakeReply?)
    ensures Sent(Do(s, a))
  {
  }

  lemma StepKeepsSent(s: State, a: Action)
    requires Inv(s) && Sent(s) && Enabled(s, a)
    ensures Sent(Do(s, a))
  {
    if a.Receive? {
      ReceiveKeepsSent(s);
    } else if a.ServerTake? || a.ServerAnswer? || a.ServerReady? || a.ServerAsync? || a.ServerSend? {
      ServerKeepsSent(s, a);
    } else if a.SetState? || a.Send? || a.TakeReply? {
      QueryKeepsSent(s, a);
    } else if a.LoseConnection? || a.Push? || a.LockToEnd? || a.EndConn? || a.CloseReplies? || a.Close? {
      LoopKeepsSent(s, a);
    } else {
      CallKeepsSent(s, a);
    }
  }

  lemma LoopGoesOn(s: State)
    requires s.loop != Receiving && s.loop != Ended && (s.loop == Ending ==> s.connLock.None?)
    ensures CanGoOn(s)
  {
    match s.loop
    case Pushing(_) => assert Enabled(s, Push);
    case Ending => assert Enabled(s, LockToEnd);
    case EndingHasConn => assert Enabled(s, EndConn);
    case ErrSet => assert Enabled(s, CloseReplies);
  }

  /** Somebody waits for a reply: it comes, or the loop ends. */
  lemma WaitingGoesOn(s: State, c: Call)
    requires Inv(s) && Sent(s) && s.honest && At(s, c, Waiting) && (s.loop == Ending ==> s.connLock.None?)
    ensures CanGoOn(s)
  {
    if s.replies != [] {
      assert Enabled(s, TakeReply(c));
    } else if s.closed {
      assert Enabled(s, SeeClosed(c));
    } else if s.loop != Receiving {
      LoopGoesOn(s);
    } else {
      ReceivingGoesOn(s, c);
    }
  }

  lemma ReceivingGoesOn(s: State, c: Call)
    requires Inv(s) && Sent(s) && s.honest && At(s, c, Waiting) && s.loop == Receiving && s.replies == []
    ensures CanGoOn(s)
  {
    if s.fromServer != [] {
      assert Enabled(s, Receive);
    } else if s.server.Working? {
      assert Enabled(s, ServerAnswer(true));
    } else if s.server.Answered? {
      assert Enabled(s, ServerReady);
    } else {
      assert s.senderLock == Some(c) && s.current == c;
      assert Enabled(s, ServerTake);
    }
  }

  /** The owner of senderLock goes on, unless it waits for connectionLock or for the loop that does. */
  lemma SenderGoesOn(s: State, c: Call)
    requires Inv(s) && Sent(s) && s.honest && s.senderLock == Some(c) && !HoldsConn(s.calls[c])
    requires s.connLock.Some? ==> s.calls[c] != Failed && (s.calls[c] == Waiting ==> s.replies != [] || s.closed || s.loop != Ending)
    ensures CanGoOn(s)
  {
    match s.calls[c]
    case HasSender => assert Enabled(s, SetState(c));
    case Begun => assert Enabled(s, Send(c));
    case Failed => assert Enabled(s, LockToFail(c));
    case Leaving => assert Enabled(s, Leave(c));
    case Waiting =>
      if s.replies != [] {
        assert Enabled(s, TakeReply(c));
      } else if s.closed {
        assert Enabled(s, SeeClosed(c));
      } else {
        WaitingGoesOn(s, c);
      }
    case _ =>
  }

  /** The owner of connectionLock goes on, unless it waits for senderLock. */
  lemma OwnerGoesOn(s: State, d: Call)
    requires Inv(s) && Sent(s) && s.honest && s.connLock == Some(ByCall(d)) && !Deadlocked(s)
    ensures CanGoOn(s)
  {
    match s.calls[d]
    case HasConn => assert Enabled(s, CheckErr(d));
    case HasBoth => assert Enabled(s, UnlockConn(d));
    case FailedHasConn => assert Enabled(s, FailConn(d));
    case WantSender =>
      if s.senderLock.None? {
        assert Enabled(s, LockSender(d));
      } else {
        var c := s.senderLock.value;
        assert !Blocks(s, d, c);
        SenderGoesOn(s, c);
      }
    case _ =>
  }

  /** While a call is under way, somebody can take a step, unless two calls block each other. */
  lemma NeverStuckUnlessDeadlocked(s: State, c: Call)
    requires Inv(s) && Sent(s) && s.honest && UnderWay(s, c) && !Deadlocked(s)
    ensures CanGoOn(s)
  {
    match s.connLock
    case Some(ByCall(d)) => OwnerGoesOn(s, d);
    case Some(ByLoop) => assert Enabled(s, EndConn);
    case None =>
      if s.calls[c] == Ready { assert Enabled(s, LockConn(c)); } else { SenderGoesOn(s, c); }
  }

  // ----- And it comes to an end --------------------------------------------------------

  /** How far a call is from its end, with what its query still causes. */
  function CallWeight(pc: Pc): nat {
    match pc
    case Ready => 21
    case HasConn => 20
    case WantSender => 19
    case HasBoth => 18
    case HasSender => 17
    case Begun => 16
    case Waiting => 3
    case Failed => 3
    case FailedHasConn => 2
    case Leaving => 1
    case Gone => 0
    case Panicked => 0
  }

  function LoopWeight(loop: LoopPc): nat {
    match loop
    case Receiving => 0
    case Pushing(_) => 3
    case Ending => 3
    case EndingHasConn => 2
    case ErrSet => 1
    case Ended => 0
  }

  function ServerWeight(server: Server): nat {
    match server
    case Listening => 0
    case Working(_) => 10
    case Answered(_) => 5
  }

  /** The calls below n. */
  function CallsWeight(calls: map<Call, Pc>, n: nat): nat {
    if n == 0 then 0 else CallsWeight(calls, n - 1) + if n - 1 in calls then CallWeight(calls[n - 1]) else 0
  }

  lemma {:induction false} CallsWeightUpdate(calls: map<Call, Pc>, c: Call, pc: Pc, n: nat)
    requires c in calls
    ensures CallsWeight(calls[c := pc], n) == CallsWeight(calls, n) + if c < n then CallWeight(pc) - CallWeight(calls[c]) else 0
  {
    if n > 0 { CallsWeightUpdate(calls, c, pc, n - 1); }
  }

  ghost predicate Below(s: State, n: nat) {
    forall c :: c in s.calls ==> c < n
  }

  /** What is left to do. */
  function Weight(s: State, n: nat): nat {
    CallsWeight(s.calls, n) + LoopWeight(s.loop) + ServerWeight(s.server) + 12 * |s.toServer| + 4 * |s.fromServer| + 2 * |s.replies|
  }

  lemma LockingShrinks(s: State, a: Action, n: nat)
    requires Enabled(s, a) && Below(s, n) && (a.LockConn? || a.CheckErr? || a.LockSender? || a.UnlockConn? || a.SetState?)
    ensures Weight(Do(s, a), n) < Weight(s, n) && Below(Do(s, a), n)
  {
    CallsWeightUpdate(s.calls, a.call, Do(s, a).calls[a.call], n);
    assert Do(s, a).calls == s.calls[a.call := Do(s, a).calls[a.call]];
  }

  lemma LeavingShrinks(s: State, a: Action, n: nat)
    requires Enabled(s, a) && Below(s, n) && (a.LockToFail? || a.FailConn? || a.SeeClosed? || a.Leave?)
    ensures Weight(Do(s, a), n) < Weight(s, n) && Below(Do(s, a), n)
  {
    CallsWeightUpdate(s.calls, a.call, Do(s, a).calls[a.call], n);
    assert Do(s, a).calls == s.calls[a.call := Do(s, a).calls[a.call]];
  }

  lemma QueryShrinks(s: State, a: Action, n: nat)
    requires Enabled(s, a) && Below(s, n) && (a.Send? || a.TakeReply?)
    ensures Weight(Do(s, a), n) < Weight(s, n) && Below(Do(s, a), n)
  {
    CallsWeightUpdate(s.calls, a.call, Do(s, a).calls[a.call], n);
    assert Do(s, a).calls == s.calls[a.call := Do(s, a).calls[a.call]];
  }

  lemma OthersShrink(s: State, a: Action, n: nat)
    requires Enabled(s, a) && Below(s, n)
    requires a.Receive? || a.Push? || a.LockToEnd? || a.EndConn? || a.CloseReplies? || a.ServerTake? || a.ServerAnswer? || a.ServerReady?
    ensures Weight(Do(s, a), n) < Weight(s, n) && Below(Do(s, a), n)
  {
  }

  lemma ProgressShrinks(s: State, a: Action, n: nat)
    requires Inv(s) && Enabled(s, a) && IsProgress(a) && Below(s, n)
    ensures Weight(Do(s, a), n) < Weight(s, n) && Below(Do(s, a), n)
  {
    if a.Send? || a.TakeReply? {
      QueryShrinks(s, a, n);
    } else if a.Receive? || a.Push? || a.LockToEnd? || a.EndConn? || a.CloseReplies? || a.ServerTake? || a.ServerAnswer? || a.ServerReady? {
      OthersShrink(s, a, n);
    } else if a.LockConn? || a.CheckErr? || a.LockSender? || a.UnlockConn? || a.SetState? {
      LockingShrinks(s, a, n);
    } else {
      LeavingShrinks(s, a, n);
    }
  }

  /** What every step keeps. */
  ghost predicate Sound(s: State) {
    Inv(s) && Sent(s) && s.honest
  }

  lemma StepKeepsSound(s: State, a: Action)
    requires Sound(s) && Enabled(s, a)
    ensures Sound(Do(s, a))
  {
    StepKeepsInv(s, a);
    StepKeepsSent(s, a);
  }

  lemma {:induction false} RunsKeepSound(s: State, run: seq<Action>)
    requires Sound(s) && From(s, run).Some?
    ensures Sound(From(s, run).value)
    decreases |run|
  {
    if run != [] {
      StepKeepsSound(s, run[0]);
      RunsKeepSound(Do(s, run[0]), run[1..]);
    }
  }

  /** Without new calls, the steps that are left are bounded. */
  lemma {:induction false} ProgressEnds(s: State, run: seq<Action>, n: nat)
    requires Inv(s) && Below(s, n) && From(s, run).Some? && forall k :: 0 <= k < |run| ==> IsProgress(run[k])
    ensures |run| + Weight(From(s, run).value, n) <= Weight(s, n)
    decreases |run|
  {
    if run != [] {
      StepKeepsInv(s, run[0]);
      ProgressShrinks(s, run[0], n);
      ProgressEnds(Do(s, run[0]), run[1..], n);
    }
  }

  /** When nothing can go on any more, all calls have returned, or two of them block each other. */
  lemma AllReturnUnlessDeadlocked(run: seq<Action>, c: Call)
    requires From(Initial(true), run).Some? && !CanGoOn(From(Initial(true), run).value)
    ensures var s := From(Initial(true), run).value; UnderWay(s, c) ==> Deadlocked(s)
  {
    InitialInv(true);
    RunsKeepSound(Initial(true), run);
    var s := From(Initial(true), run).value;
    if UnderWay(s, c) && !Deadlocked(s) { NeverStuckUnlessDeadlocked(s, c); }
  }
}
