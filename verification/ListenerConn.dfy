/**
 The two-sided protocol of pq.ListenerConn: any number of `ExecSimpleQuery` calls, the receive
 loop, `Close`, and the server, interleaved step by step.

 A state holds both mutexes, the connection state that is changed by compare-and-swap only, the
 reply channel of capacity 2, and the program counter of every call and of the loop.  The server
 is either `honest`, answering each query it takes with one response and one ReadyForQuery, or it
 may send anything at any time.  Safety does not depend on honesty; only the claim that a call
 gets the server's answers to its own query does.
 */
module ListenerConn {
  import opened Basics

  type Call = nat

  /** connStateIdle, connStateExpectResponse, connStateExpectReadyForQuery */
  datatype ConnState = Idle | ExpectResponse | ExpectReady

  /** Where a call of ExecSimpleQuery is. */
  datatype Pc =
    | Ready          // before connectionLock.Lock() in acquireSenderLock
    | HasConn        // holds connectionLock, has not looked at err
    | WantSender     // holds connectionLock, err was nil, at senderLock.Lock()
    | HasBoth        // holds both locks
    | HasSender      // connectionLock released: at setState in sendSimpleQuery
    | Begun          // state set, query not yet written
    | Waiting        // query written: in the reply loop
    | Failed         // writing failed: at connectionLock.Lock()
    | FailedHasConn  // holds both locks, to set err
    | Leaving        // to release senderLock
    | Gone
    | Panicked       // "two queries running at the same time"

  /** Where the receive loop is. */
  datatype LoopPc = Receiving | Pushing(reply: Reply) | Ending | EndingHasConn | ErrSet | Ended

  datatype Owner = ByCall(call: Call) | ByLoop

  /** What a message from the server is: E, C or I, Z, or A, N and S; anything else is Unknown. */
  datatype Kind = ErrorResponse | Complete | ReadyForQuery | Async | Unknown

  /** A message and the query that it answers, for a server that has one in mind. */
  datatype Message = Message(kind: Kind, answers: Option<Call>)

  /** An entry of replyChan: its kind, the query in flight when it was put in, and the message's own. */
  datatype Reply = Reply(ready: bool, inFlight: Call, answers: Option<Call>)

  datatype Server = Listening | Working(call: Call) | Answered(call: Call)

  datatype State = State(
    connState: ConnState,
    connLock: Option<Owner>,
    senderLock: Option<Call>,
    err: bool,
    replies: seq<Reply>,
    closed: bool,
    calls: map<Call, Pc>,
    loop: LoopPc,
    current: Call,
    honest: bool,
    toServer: seq<Call>,
    server: Server,
    fromServer: seq<Message>)

  // ----- Steps -----------------------------------------------------------------------

  datatype Action =
    | Begin(call: Call) | LockConn(call: Call) | CheckErr(call: Call) | LockSender(call: Call) | UnlockConn(call: Call)
    | SetState(call: Call) | Send(call: Call) | FailSend(call: Call, delivered: bool)
    | LockToFail(call: Call) | FailConn(call: Call)
    | TakeReply(call: Call) | SeeClosed(call: Call) | Leave(call: Call)
    | Close
    | Receive | LoseConnection | Push | LockToEnd | EndConn | CloseReplies
    | ServerTake | ServerAnswer(ok: bool) | ServerReady | ServerAsync | ServerSend(message: Message)

  predicate At(s: State, call: Call, pc: Pc) {
    call in s.calls && s.calls[call] == pc
  }

  predicate Enabled(s: State, a: Action) {
    match a
    case Begin(c) => c !in s.calls
    case LockConn(c) => At(s, c, Ready) && s.connLock.None?
    case CheckErr(c) => At(s, c, HasConn)
    case LockSender(c) => At(s, c, WantSender) && s.senderLock.None?
    case UnlockConn(c) => At(s, c, HasBoth)
    case SetState(c) => At(s, c, HasSender)
    case Send(c) => At(s, c, Begun)
    case FailSend(c, _) => At(s, c, Begun)
    case LockToFail(c) => At(s, c, Failed) && s.connLock.None?
    case FailConn(c) => At(s, c, FailedHasConn)
    case TakeReply(c) => At(s, c, Waiting) && s.replies != []
    case SeeClosed(c) => At(s, c, Waiting) && s.replies == [] && s.closed
    case Leave(c) => At(s, c, Leaving)
    case Close => s.connLock.None?
    case Receive => s.loop == Receiving && s.fromServer != []
    case LoseConnection => s.loop == Receiving
    case Push => s.loop.Pushing?
    case LockToEnd => s.loop == Ending && s.connLock.None?
    case EndConn => s.loop == EndingHasConn
    case CloseReplies => s.loop == ErrSet
    case ServerTake => s.server == Listening && s.toServer != []
    case ServerAnswer(_) => s.server.Working?
    case ServerReady => s.server.Answered?
    case ServerAsync => true
    case ServerSend(_) => !s.honest
  }

  function Go(s: State, call: Call, pc: Pc): State {
    s.(calls := s.calls[call := pc])
  }

  /** The effect of a step.  A full channel would block Push; `Push` is stated without the test. */
  function Do(s: State, a: Action): State
    requires Enabled(s, a)
  {
    match a
    case Begin(c) => Go(s, c, Ready)
    case LockConn(c) => Go(s, c, HasConn).(connLock := Some(ByCall(c)))
    case CheckErr(c) => if s.err then Go(s, c, Gone).(connLock := None) else Go(s, c, WantSender)
    case LockSender(c) => Go(s, c, HasBoth).(senderLock := Some(c))
    case UnlockConn(c) => Go(s, c, HasSender).(connLock := None)
    case SetState(c) =>
      if s.connState == Idle then Go(s, c, Begun).(connState := ExpectResponse, current := c) else Go(s, c, Panicked)
    case Send(c) => Go(s, c, Waiting).(toServer := s.toServer + [c])
    case FailSend(c, delivered) => Go(s, c, Failed).(toServer := if delivered then s.toServer + [c] else s.toServer)
    case LockToFail(c) => Go(s, c, FailedHasConn).(connLock := Some(ByCall(c)))
    case FailConn(c) => Go(s, c, Leaving).(err := true, connLock := None)
    case TakeReply(c) => (if s.replies[0].ready then Go(s, c, Leaving) else s).(replies := s.replies[1..])
    case SeeClosed(c) => Go(s, c, Leaving)
    case Leave(c) => Go(s, c, Gone).(senderLock := None)
    case Close => s.(err := true)
    case Receive => Handle(s.(fromServer := s.fromServer[1..]), s.fromServer[0])
    case LoseConnection => s.(loop := Ending)
    case Push => s.(replies := s.replies + [s.loop.reply], loop := Receiving)
    case LockToEnd => s.(loop := EndingHasConn, connLock := Some(ByLoop))
    case EndConn => s.(loop := ErrSet, err := true, connLock := None)
    case CloseReplies => s.(loop := Ended, closed := true)
    case ServerTake => s.(server := Working(s.toServer[0]), toServer := s.toServer[1..])
    case ServerAnswer(ok) =>
      s.(server := Answered(s.server.call),
         fromServer := s.fromServer + [Message(if ok then Complete else ErrorResponse, Some(s.server.call))])
    case ServerReady =>
      s.(server := Listening, fromServer := s.fromServer + [Message(ReadyForQuery, Some(s.server.call))])
    case ServerAsync => s.(fromServer := s.fromServer + [Message(Async, None)])
    case ServerSend(m) => s.(fromServer := s.fromServer + [m])
  }

  /** One message in listenerConnLoop: setState, and what to push or whether to end. */
  function Handle(s: State, m: Message): (t: State)
    ensures t == s.(connState := t.connState, loop := t.loop)
    ensures t.loop == s.loop || t.loop.Pushing? || t.loop == Ending
  {
    match m.kind
    case Async => s
    case ErrorResponse =>
      if s.connState == ExpectResponse
      then s.(connState := ExpectReady, loop := Pushing(Reply(false, s.current, m.answers)))
      else s.(loop := Ending)
    case Complete => if s.connState == ExpectResponse then s.(connState := ExpectReady) else s.(loop := Ending)
    case ReadyForQuery =>
      if s.connState == ExpectReady
      then s.(connState := Idle, loop := Pushing(Reply(true, s.current, m.answers)))
      else s.(loop := Ending)
    case Unknown => s.(loop := Ending)
  }

  function Initial(honest: bool): State {
    State(Idle, None, None, false, [], false, map[], Receiving, 0, honest, [], Listening, [])
  }

  /** The state after a run from the start; None if some step was not possible. */
  function After(honest: bool, run: seq<Action>): Option<State> {
    if run == [] then Some(Initial(honest))
    else match After(honest, run[..|run| - 1])
      case None => None
      case Some(s) => if Enabled(s, run[|run| - 1]) then Some(Do(s, run[|run| - 1])) else None
  }

  // ----- The invariant ---------------------------------------------------------------

  predicate HoldsConn(pc: Pc) {
    pc.HasConn? || pc.WantSender? || pc.HasBoth? || pc.FailedHasConn?
  }

  predicate HoldsSender(pc: Pc) {
    pc.HasBoth? || pc.HasSender? || pc.Begun? || pc.Waiting? || pc.Failed? || pc.FailedHasConn? || pc.Leaving?
  }

  /** The query of the call may be in flight. */
  predicate InQuery(pc: Pc) {
    pc.Begun? || pc.Waiting? || pc.Failed? || pc.FailedHasConn?
  }

  /** The locks are held by those whose program counter says so. */
  ghost predicate Locks(s: State) {
    && (forall c :: c in s.calls ==>
          && (HoldsConn(s.calls[c]) <==> s.connLock == Some(ByCall(c)))
          && (HoldsSender(s.calls[c]) <==> s.senderLock == Some(c))
          && s.calls[c] != Panicked)
    && (s.connLock.Some? && s.connLock.value.ByCall? ==> s.connLock.value.call in s.calls)
    && (s.senderLock.Some? ==> s.senderLock.value in s.calls)
    && (s.loop == EndingHasConn <==> s.connLock == Some(ByLoop))
  }

  /** Nobody passes the test of err and gets senderLock after err is set. */
  ghost predicate ErrGuards(s: State) {
    && (forall c :: c in s.calls && (s.calls[c].WantSender? || s.calls[c].HasBoth?) ==> !s.err)
    && (s.closed || s.loop == ErrSet || s.loop == Ended ==> s.err)
  }

  /** The replies in the channel and the one the loop is about to put there. */
  function AllReplies(s: State): seq<Reply> {
    s.replies + if s.loop.Pushing? then [s.loop.reply] else []
  }

  /** What the connection state allows to be undelivered: at most one error and one ready, in order. */
  ghost predicate Shape(s: State) {
    var all := AllReplies(s);
    && (forall i :: 0 <= i < |all| ==> all[i].inFlight == s.current && (s.honest ==> all[i].answers == Some(s.current)))
    && match s.connState
       case ExpectResponse => all == []
       case ExpectReady => all == [] || (|all| == 1 && !all[0].ready)
       case Idle => all == [] || (|all| == 1 && all[0].ready) || (|all| == 2 && !all[0].ready && all[1].ready)
  }

  /** Outside a query the connection is idle and nothing is undelivered, or it is abandoned. */
  ghost predicate Quiet(s: State) {
    s.connState == Idle && AllReplies(s) == []
  }

  ghost predicate Phase(s: State) {
    match s.senderLock
    case None => s.err || Quiet(s)
    case Some(c) =>
      c in s.calls &&
      if InQuery(s.calls[c]) then s.current == c && !Quiet(s)
      else if s.calls[c] == Leaving then s.err || Quiet(s)
      else Quiet(s)
  }

  /** The messages that are not asynchronous. */
  function Answers(ms: seq<Message>): seq<Message> {
    if ms == [] then []
    else Answers(ms[..|ms| - 1]) + if ms[|ms| - 1].kind == Async then [] else [ms[|ms| - 1]]
  }

  predicate IsAnswer(m: Message, c: Call) {
    (m.kind == Complete || m.kind == ErrorResponse) && m.answers == Some(c)
  }

  predicate IsReady(m: Message, c: Call) {
    m.kind == ReadyForQuery && m.answers == Some(c)
  }

  /** Between an honest server and the loop there is only the rest of the current query's exchange. */
  ghost predicate Wire(s: State) {
    var ms := Answers(s.fromServer);
    match s.connState
    case Idle => ms == [] && s.toServer == [] && s.server == Listening
    case ExpectReady =>
      && s.toServer == []
      && ((ms == [] && s.server == Answered(s.current))
          || (|ms| == 1 && IsReady(ms[0], s.current) && s.server == Listening))
    case ExpectResponse =>
      || (ms == [] && s.server == Listening && (s.toServer == [] || s.toServer == [s.current]))
      || (ms == [] && s.server == Working(s.current) && s.toServer == [])
      || (|ms| == 1 && IsAnswer(ms[0], s.current) && s.server == Answered(s.current) && s.toServer == [])
      || (|ms| == 2 && IsAnswer(ms[0], s.current) && IsReady(ms[1], s.current) && s.server == Listening && s.toServer == [])
  }

  /** A query that was begun but not written has not reached the server. */
  ghost predicate Unsent(s: State) {
    At(s, s.current, Begun) ==>
      s.connState == ExpectResponse && Answers(s.fromServer) == [] && s.toServer == [] && s.server == Listening
  }

  /** The query in flight and what is left of it. */
  ghost predicate Exchange(s: State) {
    Shape(s) && Phase(s) && (s.honest ==> Wire(s) && Unsent(s))
  }

  ghost predicate Inv(s: State) {
    Locks(s) && ErrGuards(s) && Exchange(s)
  }

  // ----- Every step keeps it -----------------------------------------------------------

  lemma AnswersAppend(ms: seq<Message>, m: Message)
    ensures Answers(ms + [m]) == Answers(ms) + if m.kind == Async then [] else [m]
  {
    assert (ms + [m])[..|ms|] == ms;
  }

  lemma {:induction false} AnswersDrop(ms: seq<Message>)
    requires ms != []
    ensures Answers(ms) == (if ms[0].kind == Async then [] else [ms[0]]) + Answers(ms[1..])
  {
    var k := |ms| - 1;
    if k == 0 {
      assert ms[..0] == [] && ms[1..] == [];
    } else {
      var front, rest := ms[..k], ms[1..];
      AnswersDrop(front);
      assert rest[..k - 1] == front[1..] && rest[k - 1] == ms[k];
      Associate(if ms[0].kind == Async then [] else [ms[0]], Answers(front[1..]), if ms[k].kind == Async then [] else [ms[k]]);
    }
  }

  lemma Associate(a: seq<Message>, b: seq<Message>, c: seq<Message>)
    ensures a + b + c == a + (b + c)
  {
  }

  lemma ServerTakes(s: State)
    requires Inv(s) && Enabled(s, ServerTake)
    ensures Exchange(Do(s, ServerTake))
  {
    assert AllReplies(Do(s, ServerTake)) == AllReplies(s);
  }

  lemma ServerSends(s: State, a: Action)
    requires Inv(s) && Enabled(s, a) && (a.ServerAsync? || a.ServerSend?)
    ensures Exchange(Do(s, a))
  {
    assert AllReplies(Do(s, a)) == AllReplies(s);
    if a.ServerAsync? {
      AnswersAppend(s.fromServer, Message(Async, None));
    }
  }

  lemma AnswerKeepsWire(s: State, ok: bool)
    requires s.honest && Wire(s) && Unsent(s) && Enabled(s, ServerAnswer(ok))
    ensures Wire(Do(s, ServerAnswer(ok))) && Unsent(Do(s, ServerAnswer(ok)))
  {
    AnswersAppend(s.fromServer, Message(if ok then Complete else ErrorResponse, Some(s.server.call)));
  }

  lemma ServerAnswers(s: State, ok: bool)
    requires Inv(s) && Enabled(s, ServerAnswer(ok))
    ensures Exchange(Do(s, ServerAnswer(ok)))
  {
    assert AllReplies(Do(s, ServerAnswer(ok))) == AllReplies(s);
    if s.honest { AnswerKeepsWire(s, ok); }
  }

  lemma ServerGetsReady(s: State)
    requires Inv(s) && Enabled(s, ServerReady)
    ensures Exchange(Do(s, ServerReady))
  {
    var s' := Do(s, ServerReady);
    assert AllReplies(s') == AllReplies(s);
    AnswersAppend(s.fromServer, Message(ReadyForQuery, Some(s.server.call)));
  }

  lemma LoopSteps(s: State, a: Action)
    requires Inv(s) && Enabled(s, a)
    requires a.LoseConnection? || a.Push? || a.CloseReplies?
    ensures Exchange(Do(s, a))
  {
    var s' := Do(s, a);
    assert AllReplies(s') == AllReplies(s);
  }

  lemma EndSteps(s: State, a: Action)
    requires Inv(s) && Enabled(s, a) && (a.LockToEnd? || a.EndConn? || a.Close?)
    ensures Exchange(Do(s, a))
  {
    var s' := Do(s, a);
    assert AllReplies(s') == AllReplies(s);
  }

  /** Taking the first message off the wire, without looking at it yet. */
  lemma WireDrop(s: State)
    requires s.honest && Wire(s) && s.fromServer != [] && s.fromServer[0].kind != Async
    ensures Answers(s.fromServer) == [s.fromServer[0]] + Answers(s.fromServer[1..])
    ensures match s.connState
      case Idle => false
      case ExpectReady => IsReady(s.fromServer[0], s.current) && Answers(s.fromServer[1..]) == [] && s.server == Listening
      case ExpectResponse => IsAnswer(s.fromServer[0], s.current) && s.toServer == []
  {
    AnswersDrop(s.fromServer);
    var ms, rest := Answers(s.fromServer), Answers(s.fromServer[1..]);
    assert ms[0] == s.fromServer[0] && |ms| == 1 + |rest|;
  }

  lemma ReceiveAsync(s: State)
    requires Inv(s) && Enabled(s, Receive) && s.fromServer[0].kind == Async
    ensures Exchange(Do(s, Receive))
  {
    var s' := Do(s, Receive);
    AnswersDrop(s.fromServer);
    assert AllReplies(s') == AllReplies(s);
  }

  /** The wire and the query after a message that is not asynchronous. */
  lemma ReceiveKeepsWire(s: State)
    requires s.honest && Wire(s) && Unsent(s) && Enabled(s, Receive) && s.fromServer[0].kind != Async
    ensures Wire(Do(s, Receive)) && Unsent(Do(s, Receive))
  {
    WireDrop(s);
  }

  lemma ReceiveAnswer(s: State)
    requires Inv(s) && Enabled(s, Receive)
    requires s.fromServer[0].kind == ErrorResponse || s.fromServer[0].kind == Complete
    ensures Exchange(Do(s, Receive))
  {
    if s.honest {
      WireDrop(s);
      ReceiveKeepsWire(s);
    }
    assert AllReplies(s) == s.replies;
  }

  lemma ReceiveReady(s: State)
    requires Inv(s) && Enabled(s, Receive) && s.fromServer[0].kind == ReadyForQuery
    ensures Exchange(Do(s, Receive))
  {
    if s.honest {
      WireDrop(s);
      ReceiveKeepsWire(s);
    }
    assert AllReplies(s) == s.replies;
  }

  lemma ReceiveUnknown(s: State)
    requires Inv(s) && Enabled(s, Receive) && s.fromServer[0].kind == Unknown
    ensures Exchange(Do(s, Receive))
  {
    var s' := Do(s, Receive);
    if s.honest { WireDrop(s); }
    assert AllReplies(s') == AllReplies(s);
  }

  lemma LockSteps(s: State, a: Action)
    requires Inv(s) && Enabled(s, a) && (a.Begin? || a.LockConn?)
    ensures Exchange(Do(s, a))
  {
    assert AllReplies(Do(s, a)) == AllReplies(s);
  }

  lemma CheckStep(s: State, c: Call)
    requires Inv(s) && Enabled(s, CheckErr(c))
    ensures Exchange(Do(s, CheckErr(c)))
  {
    assert AllReplies(Do(s, CheckErr(c))) == AllReplies(s);
  }

  /** Here senderLock is acquired: err is not set, so the connection is quiet. */
  lemma SenderSteps(s: State, a: Action)
    requires Inv(s) && Enabled(s, a) && (a.LockSender? || a.UnlockConn? || a.Leave?)
    ensures Exchange(Do(s, a))
  {
    assert AllReplies(Do(s, a)) == AllReplies(s);
  }

  lemma FailSteps(s: State, a: Action)
    requires Inv(s) && Enabled(s, a) && (a.LockToFail? || a.FailConn?)
    ensures Exchange(Do(s, a))
  {
    assert AllReplies(Do(s, a)) == AllReplies(s);
  }

  lemma QuerySteps(s: State, a: Action)
    requires Inv(s) && Enabled(s, a) && (a.SetState? || a.Send? || a.FailSend? || a.SeeClosed?)
    ensures Exchange(Do(s, a))
  {
    var s' := Do(s, a);
    assert AllReplies(s') == AllReplies(s);
  }

  /** A call takes only replies that were put in for its own query. */
  lemma TakesOwn(s: State, c: Call)
    requires Inv(s) && Enabled(s, TakeReply(c))
    ensures s.replies[0].inFlight == c && (s.honest ==> s.replies[0].answers == Some(c))
  {
    assert AllReplies(s)[0] == s.replies[0];
  }

  lemma TakeError(s: State, c: Call)
    requires Inv(s) && Enabled(s, TakeReply(c)) && !s.replies[0].ready
    ensures Exchange(Do(s, TakeReply(c)))
  {
    var s' := Do(s, TakeReply(c));
    var all := AllReplies(s);
    assert all[0] == s.replies[0] && AllReplies(s') == all[1..];
    assert s' == s.(replies := s.replies[1..]);
  }

  /** With ReadyForQuery taken, nothing of the query is left: the next call finds the connection quiet. */
  lemma TakeReady(s: State, c: Call)
    requires Inv(s) && Enabled(s, TakeReply(c)) && s.replies[0].ready
    ensures Exchange(Do(s, TakeReply(c)))
  {
    var s' := Do(s, TakeReply(c));
    var all := AllReplies(s);
    assert all[0] == s.replies[0] && AllReplies(s') == all[1..] == [];
    assert s' == Go(s, c, Leaving).(replies := []);
  }

  /** Neither the calls nor the locks have changed, and the loop is not at its end. */
  lemma SameLocks(s: State, t: State)
    requires Locks(s) && ErrGuards(s)
    requires t.calls == s.calls && t.connLock == s.connLock && t.senderLock == s.senderLock && t.err == s.err
    requires t.loop == s.loop || s.loop == ErrSet || (s.loop != EndingHasConn && t.loop != EndingHasConn && t.loop != ErrSet && t.loop != Ended)
    requires t.loop != EndingHasConn || s.loop == EndingHasConn
    requires t.closed == s.closed || s.loop == ErrSet
    ensures Locks(t) && ErrGuards(t)
  {
  }

  /** A call has moved on with the locks that it has. */
  lemma MovesOn(s: State, t: State, c: Call)
    requires Locks(s) && ErrGuards(s) && c in s.calls && t.calls.Keys == s.calls.Keys && t.calls == s.calls[c := t.calls[c]]
    requires HoldsConn(t.calls[c]) == HoldsConn(s.calls[c]) && HoldsSender(t.calls[c]) == HoldsSender(s.calls[c])
    requires t.calls[c] != Panicked && !t.calls[c].WantSender? && !t.calls[c].HasBoth?
    requires t.connLock == s.connLock && t.senderLock == s.senderLock && t.err == s.err && t.loop == s.loop && t.closed == s.closed
    ensures Locks(t) && ErrGuards(t)
  {
  }

  lemma TakingKeepsLocks(s: State, a: Action)
    requires Locks(s) && ErrGuards(s) && Enabled(s, a) && (a.Begin? || a.LockConn? || a.LockSender? || a.LockToFail?)
    ensures Locks(Do(s, a)) && ErrGuards(Do(s, a))
  {
  }

  lemma CheckingKeepsLocks(s: State, a: Action)
    requires Locks(s) && ErrGuards(s) && Enabled(s, a) && a.CheckErr?
    ensures Locks(Do(s, a)) && ErrGuards(Do(s, a))
  {
  }

  lemma UnlockingKeepsLocks(s: State, a: Action)
    requires Locks(s) && ErrGuards(s) && Enabled(s, a) && (a.UnlockConn? || a.Leave?)
    ensures Locks(Do(s, a)) && ErrGuards(Do(s, a))
  {
  }

  lemma FailingKeepsLocks(s: State, a: Action)
    requires Locks(s) && ErrGuards(s) && Enabled(s, a) && a.FailConn?
    ensures Locks(Do(s, a)) && ErrGuards(Do(s, a))
  {
  }

  lemma SendingKeepsLocks(s: State, a: Action)
    requires Locks(s) && ErrGuards(s) && Enabled(s, a) && (a.SetState? || a.Send? || a.FailSend?)
    requires a.SetState? ==> s.connState == Idle
    ensures Locks(Do(s, a)) && ErrGuards(Do(s, a))
  {
    MovesOn(s, Do(s, a), a.call);
  }

  lemma WaitingKeepsLocks(s: State, a: Action)
    requires Locks(s) && ErrGuards(s) && Enabled(s, a) && (a.TakeReply? || a.SeeClosed?)
    ensures Locks(Do(s, a)) && ErrGuards(Do(s, a))
  {
    var t := Do(s, a);
    if t.calls == s.calls { SameLocks(s, t); } else { MovesOn(s, t, a.call); }
  }

  lemma ReceivingKeepsLocks(s: State, a: Action)
    requires Locks(s) && ErrGuards(s) && Enabled(s, a) && (a.Receive? || a.LoseConnection?)
    ensures Locks(Do(s, a)) && ErrGuards(Do(s, a))
  {
    SameLocks(s, Do(s, a));
  }

  lemma PushingKeepsLocks(s: State, a: Action)
    requires Locks(s) && ErrGuards(s) && Enabled(s, a) && (a.Push? || a.CloseReplies?)
    ensures Locks(Do(s, a)) && ErrGuards(Do(s, a))
  {
    SameLocks(s, Do(s, a));
  }

  lemma EndingKeepsLocks(s: State, a: Action)
    requires Locks(s) && ErrGuards(s) && Enabled(s, a) && (a.LockToEnd? || a.EndConn? || a.Close?)
    ensures Locks(Do(s, a)) && ErrGuards(Do(s, a))
  {
  }

  lemma ServerKeepsLocks(s: State, a: Action)
    requires Locks(s) && ErrGuards(s) && Enabled(s, a) && (a.ServerTake? || a.ServerAnswer? || a.ServerReady? || a.ServerAsync? || a.ServerSend?)
    ensures Locks(Do(s, a)) && ErrGuards(Do(s, a))
  {
    SameLocks(s, Do(s, a));
  }

  lemma StepKeepsLocks(s: State, a: Action)
    requires Inv(s) && Enabled(s, a)
    ensures Locks(Do(s, a)) && ErrGuards(Do(s, a))
  {
    if a.Begin? || a.LockConn? || a.LockSender? || a.LockToFail? {
      TakingKeepsLocks(s, a);
    } else if a.CheckErr? {
      CheckingKeepsLocks(s, a);
    } else if a.UnlockConn? || a.Leave? {
      UnlockingKeepsLocks(s, a);
    } else if a.FailConn? {
      FailingKeepsLocks(s, a);
    } else if a.SetState? || a.Send? || a.FailSend? {
      SendingKeepsLocks(s, a);
    } else if a.TakeReply? || a.SeeClosed? {
      WaitingKeepsLocks(s, a);
    } else if a.Receive? || a.LoseConnection? {
      ReceivingKeepsLocks(s, a);
    } else if a.Push? || a.CloseReplies? {
      PushingKeepsLocks(s, a);
    } else if a.LockToEnd? || a.EndConn? || a.Close? {
      EndingKeepsLocks(s, a);
    } else {
      ServerKeepsLocks(s, a);
    }
  }

  lemma StepKeepsInv(s: State, a: Action)
    requires Inv(s) && Enabled(s, a)
    ensures Inv(Do(s, a))
  {
    StepKeepsLocks(s, a);
    StepKeepsExchange(s, a);
  }

  lemma StepKeepsExchange(s: State, a: Action)
    requires Inv(s) && Enabled(s, a)
    ensures Exchange(Do(s, a))
  {
    if a.TakeReply? {
      if s.replies[0].ready { TakeReady(s, a.call); } else { TakeError(s, a.call); }
    } else if a.Receive? {
      if s.fromServer[0].kind == Async { ReceiveAsync(s); }
      else if s.fromServer[0].kind == ReadyForQuery { ReceiveReady(s); }
      else if s.fromServer[0].kind == Unknown { ReceiveUnknown(s); }
      else { ReceiveAnswer(s); }
    } else if a.SetState? || a.Send? || a.FailSend? || a.SeeClosed? {
      QuerySteps(s, a);
    } else if a.ServerTake? {
      ServerTakes(s);
    } else if a.ServerAsync? || a.ServerSend? {
      ServerSends(s, a);
    } else if a.ServerAnswer? {
      ServerAnswers(s, a.ok);
    } else if a.ServerReady? {
      ServerGetsReady(s);
    } else if a.LoseConnection? || a.Push? || a.CloseReplies? {
      LoopSteps(s, a);
    } else if a.LockToEnd? || a.EndConn? || a.Close? {
      EndSteps(s, a);
    } else if a.LockSender? || a.UnlockConn? || a.Leave? {
      SenderSteps(s, a);
    } else if a.LockToFail? || a.FailConn? {
      FailSteps(s, a);
    } else if a.CheckErr? {
      CheckStep(s, a.call);
    } else {
      LockSteps(s, a);
    }
  }

  lemma LastStep(honest: bool, run: seq<Action>) returns (s: State, a: Action)
    requires run != [] && After(honest, run).Some?
    ensures After(honest, run[..|run| - 1]) == Some(s) && Enabled(s, a) && After(honest, run) == Some(Do(s, a))
    ensures Do(s, a).honest == s.honest
  {
    s, a := After(honest, run[..|run| - 1]).value, run[|run| - 1];
  }

  lemma {:induction false} RunsKeepInv(honest: bool, run: seq<Action>)
    requires After(honest, run).Some?
    ensures Inv(After(honest, run).value) && After(honest, run).value.honest == honest
  {
    if run == [] {
      InitialInv(honest);
    } else {
      var s, a := LastStep(honest, run);
      RunsKeepInv(honest, run[..|run| - 1]);
      StepKeepsInv(s, a);
    }
  }

  lemma InitialInv(honest: bool)
    ensures Inv(Initial(honest))
  {
  }

  // ----- What follows -------------------------------------------------------------------

  /** In every run, with any server: one query at a time, no panic, and a channel that never blocks. */
  lemma Safety(honest: bool, run: seq<Action>)
    requires After(honest, run).Some?
    ensures var s := After(honest, run).value;
      && (forall c :: c in s.calls ==> s.calls[c] != Panicked)
      && (forall c, d :: c in s.calls && d in s.calls && InQuery(s.calls[c]) && InQuery(s.calls[d]) ==> c == d)
      && |s.replies| <= 2
      && (Enabled(s, Push) ==> |s.replies| < 2)
  {
    RunsKeepInv(honest, run);
    var s := After(honest, run).value;
    assert |AllReplies(s)| <= 2;
  }

  /** Whenever a call takes a reply, it was put in for that call's query, and an honest server meant it so. */
  lemma RepliesAreOwn(honest: bool, run: seq<Action>, c: Call)
    requires After(honest, run).Some? && Enabled(After(honest, run).value, TakeReply(c))
    ensures var r := After(honest, run).value.replies[0];
      r.inFlight == c && (honest ==> r.answers == Some(c))
  {
    RunsKeepInv(honest, run);
    TakesOwn(After(honest, run).value, c);
  }
}
