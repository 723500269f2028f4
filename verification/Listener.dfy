/**
 The reconnecting Listener of pq: what it asks for (`channels`), what the server has recorded for
 the connection in use, and what it passes on over Notify, through any number of lost connections.

 A step is what one goroutine does while it holds the Listener's lock, or one receive or send of
 the main loop.  A query is sent as text; the server reads the quoted name back from it.
 */
module Listener {
  import opened Basics

  // ----- Channel names on the wire ---------------------------------------------------

  const NUL: char := 0 as char

  function UpToNul(name: string): string {
    if name == [] || name[0] == NUL then [] else [name[0]] + UpToNul(name[1..])
  }

  function Doubled(name: string): string {
    if name == [] then []
    else (if name[0] == '\"' then ['\"', '\"'] else [name[0]]) + Doubled(name[1..])
  }

  /** QuoteIdentifier: cut at the first NUL, double the quotes, quote. */
  function Quote(name: string): string {
    ['\"'] + Doubled(UpToNul(name)) + ['\"']
  }

  /** How a server reads the inside of a quoted identifier that ends the text. */
  function ReadInside(text: string): Option<string>
    decreases |text|
  {
    if text == [] then None
    else if text[0] != '\"' then
      match ReadInside(text[1..]) case None => None case Some(rest) => Some([text[0]] + rest)
    else if |text| == 1 then Some([])
    else if text[1] == '\"' then
      match ReadInside(text[2..]) case None => None case Some(rest) => Some(['\"'] + rest)
    else None
  }

  function ReadIdentifier(text: string): Option<string> {
    if text != [] && text[0] == '\"' then ReadInside(text[1..]) else None
  }

  predicate NulFree(name: string) {
    forall i :: 0 <= i < |name| ==> name[i] != '\0'
  }

  lemma {:induction false} InsideReads(name: string)
    ensures ReadInside(Doubled(name) + ['\"']) == Some(name)
  {
    if name == [] {
      assert Doubled(name) + ['\"'] == ['\"'];
    } else {
      InsideReads(name[1..]);
      var rest := Doubled(name[1..]) + ['\"'];
      if name[0] == '\"' {
        assert Doubled(name) + ['\"'] == ['\"', '\"'] + rest;
      } else {
        assert Doubled(name) + ['\"'] == [name[0]] + rest;
      }
      assert [name[0]] + name[1..] == name;
    }
  }

  lemma {:induction false} UpToNulIsWhole(name: string)
    ensures UpToNul(name) == name <==> NulFree(name)
  {
    if name != [] {
      UpToNulIsWhole(name[1..]);
      assert name == [name[0]] + name[1..];
      if name[0] != NUL && NulFree(name[1..]) {
        assert forall i :: 0 < i < |name| ==> name[i] == name[1..][i - 1];
      }
    }
  }

  /** The server sees exactly the caller's name if and only if that name has no NUL. */
  lemma QuotedNameIsRead(name: string)
    ensures ReadIdentifier(Quote(name)) == Some(UpToNul(name))
    ensures ReadIdentifier(Quote(name)) == Some(name) <==> NulFree(name)
  {
    InsideReads(UpToNul(name));
    UpToNulIsWhole(name);
    assert Quote(name)[1..] == Doubled(UpToNul(name)) + ['\"'];
  }

  // ----- States ----------------------------------------------------------------------

  /** A notification and the connection that it came over. */
  datatype Note = Note(conn: nat, payload: string)

  /**
   `listened` is what the server has recorded for this session; `answered` says that every query
   so far got a response.  `buffer` is the notification channel; `open` until it is closed.
   `received` is what was in it when the connection was put in use, and everything put in since.
   */
  datatype Conn = Conn(id: nat, listened: set<string>, answered: bool, open: bool, buffer: seq<Note>, received: seq<Note>)

  /** Where listenerConnLoop is: Connecting until it has dialled, Testing before it asks whether it is closed.  It holds the lock while Resyncing. */
  datatype MainPc =
    | Connecting | Resyncing(conn: Conn, todo: set<string>) | Announcing | Forwarding | Cleaning | Testing | Ended

  /** `dials` and `connects` count connections made and connections put in use; `log` is all that went over Notify. */
  datatype State = State(
    channels: set<string>, closed: bool, cn: Option<Conn>, main: MainPc,
    dials: nat, connects: nat, log: seq<Option<Note>>, panicked: bool)

  /** A response, or none: then the server may or may not have carried out the query. */
  datatype Answer = Success | Refused | NoResponse(executed: bool)

  // ----- Steps -----------------------------------------------------------------------

  datatype Action =
    | Listen(channel: string, answer: Answer) | Unlisten(channel: string, answer: Answer)
    | UnlistenAll(answer: Answer) | Ping(answer: Answer) | Close
    | Dial | FailDial | ResyncOne(channel: string, answer: Answer) | DropNote | EndResync | Test
    | Announce | Forward | SeeClosed | CleanUp
    | Arrive(payload: string) | Lose

  predicate Enabled(s: State, a: Action) {
    match a
    case Listen(_, _) => !s.main.Resyncing?
    case Unlisten(_, _) => !s.main.Resyncing?
    case UnlistenAll(_) => !s.main.Resyncing?
    case Ping(_) => !s.main.Resyncing?
    case Close => !s.main.Resyncing?
    case Dial => s.main.Connecting?
    case FailDial => s.main.Connecting?
    case ResyncOne(c, _) => s.main.Resyncing? && c in s.main.todo
    case DropNote => s.main.Resyncing? && s.main.conn.buffer != []
    case EndResync => s.main.Resyncing? && s.main.todo == {}
    case Test => s.main.Testing?
    case Announce => s.main.Announcing?
    case Forward => s.main.Forwarding? && s.cn.Some? && s.cn.value.buffer != []
    case SeeClosed => s.main.Forwarding? && s.cn.Some? && s.cn.value.buffer == [] && !s.cn.value.open
    case CleanUp => s.main.Cleaning?
    case Arrive(_) => (s.main.Resyncing? && s.main.conn.open) || (s.cn.Some? && s.cn.value.open)
    case Lose => s.main.Resyncing? || s.cn.Some?
  }

  datatype Command = ListenTo(text: string) | UnlistenTo(text: string) | UnlistenStar | Empty

  /** What the server does with a command that it carries out. */
  function Executed(listened: set<string>, command: Command): set<string> {
    match command
    case ListenTo(text) =>
      (match ReadIdentifier(text) case Some(name) => listened + {name} case None => listened)
    case UnlistenTo(text) =>
      (match ReadIdentifier(text) case Some(name) => listened - {name} case None => listened)
    case UnlistenStar => {}
    case Empty => listened
  }

  /** ExecSimpleQuery, seen from the Listener. */
  function Query(conn: Conn, command: Command, answer: Answer): Conn {
    match answer
    case Success => conn.(listened := Executed(conn.listened, command))
    case Refused => conn
    case NoResponse(executed) =>
      conn.(answered := false, listened := if executed then Executed(conn.listened, command) else conn.listened)
  }

  /** The query on the connection, if there is one; the change of `channels`, unless the server refused. */
  function Ask(s: State, command: Command, answer: Answer, channels: set<string>): State {
    if s.cn.None? then s.(channels := channels)
    else s.(cn := Some(Query(s.cn.value, command, answer)), channels := if answer == Refused then s.channels else channels)
  }

  function Do(s: State, a: Action): State
    requires Enabled(s, a)
  {
    match a
    case Listen(c, answer) =>
      if s.closed || c in s.channels then s else Ask(s, ListenTo(Quote(c)), answer, s.channels + {c})
    case Unlisten(c, answer) =>
      if s.closed || c !in s.channels then s else Ask(s, UnlistenTo(Quote(c)), answer, s.channels - {c})
    case UnlistenAll(answer) => if s.closed then s else Ask(s, UnlistenStar, answer, {})
    case Ping(answer) =>
      if s.closed || s.cn.None? then s else s.(cn := Some(Query(s.cn.value, Empty, answer)))
    case Close => s.(closed := true)
    case Dial => s.(main := Resyncing(Conn(s.dials, {}, true, true, [], []), s.channels), dials := s.dials + 1)
    case FailDial => s.(main := Testing)
    case ResyncOne(c, answer) =>
      if answer == Success
      then s.(main := Resyncing(Query(s.main.conn, ListenTo(Quote(c)), answer), s.main.todo - {c}))
      else s.(main := Testing)
    case DropNote =>
      s.(main := s.main.(conn := s.main.conn.(buffer := s.main.conn.buffer[1..])))
    case EndResync =>
      s.(main := if s.connects == 0 then Forwarding else Announcing,
         cn := Some(s.main.conn.(received := s.main.conn.buffer)), connects := s.connects + 1)
    case Test => s.(main := if s.closed then Ended else Connecting)
    case Announce => s.(main := Forwarding, log := s.log + [None])
    case Forward =>
      s.(log := s.log + [Some(s.cn.value.buffer[0])], cn := Some(s.cn.value.(buffer := s.cn.value.buffer[1..])))
    case SeeClosed => s.(main := Cleaning)
    case CleanUp =>
      if s.cn.None? || s.cn.value.open || s.cn.value.buffer != [] then s.(panicked := true)
      else s.(cn := None, main := Testing)
    case Arrive(p) => if s.main.Resyncing? then s.(main := s.main.(conn := Put(s.main.conn, p))) else s.(cn := Some(Put(s.cn.value, p)))
    case Lose =>
      if s.main.Resyncing? then s.(main := s.main.(conn := s.main.conn.(open := false)))
      else s.(cn := Some(s.cn.value.(open := false)))
  }

  function Put(conn: Conn, payload: string): Conn {
    var note := Note(conn.id, payload);
    conn.(buffer := conn.buffer + [note], received := conn.received + [note])
  }

  function Start(): State {
    State({}, false, None, Connecting, 0, 0, [], false)
  }

  function After(s: State, run: seq<Action>): Option<State>
    decreases |run|
  {
    if run == [] then Some(s)
    else if Enabled(s, run[0]) then After(Do(s, run[0]), run[1..])
    else None
  }

  /** Every name in the run is free of NUL. */
  predicate Named(a: Action) {
    (a.Listen? ==> NulFree(a.channel)) && (a.Unlisten? ==> NulFree(a.channel))
  }

  // ----- What the server has recorded ------------------------------------------------

  ghost predicate Synced(s: State) {
    && (forall c :: c in s.channels ==> NulFree(c))
    && (s.cn.Some? && s.cn.value.answered ==> s.cn.value.listened == s.channels)
    && (s.main.Resyncing? ==> s.cn.None? && s.main.todo <= s.channels && s.main.conn.answered
                              && s.main.conn.listened == s.channels - s.main.todo)
    && (s.main.Connecting? || s.main.Testing? ==> s.cn.None?)
  }

  lemma ListenKeepsSynced(s: State, a: Action)
    requires Synced(s) && Enabled(s, a) && Named(a) && (a.Listen? || a.Unlisten? || a.ResyncOne?)
    ensures Synced(Do(s, a))
  {
    QuotedNameIsRead(a.channel);
  }

  lemma StepKeepsSynced(s: State, a: Action)
    requires Synced(s) && Enabled(s, a) && Named(a)
    ensures Synced(Do(s, a))
  {
    if a.Listen? || a.Unlisten? || a.ResyncOne? { ListenKeepsSynced(s, a); }
  }

  /** What a call that succeeds, or has no connection to ask, makes of the set of names. */
  ghost predicate Takes(a: Action, before: set<string>, after: set<string>) {
    match a
    case Listen(c, _) => c in after && forall d :: d != c ==> (d in after <==> d in before)
    case Unlisten(c, _) => c !in after && forall d :: d != c ==> (d in after <==> d in before)
    case UnlistenAll(_) => after == {}
    case _ => after == before
  }

  /** A call that succeeds takes effect, with the Listener and on the connection; one that is refused, or comes after Close, does not. */
  lemma CallTakesEffect(s: State, a: Action)
    requires Synced(s) && Enabled(s, a) && Named(a) && (a.Listen? || a.Unlisten? || a.UnlistenAll?)
    ensures var t := Do(s, a);
      && (!s.closed && (s.cn.None? || a.answer == Success) ==> Takes(a, s.channels, t.channels))
      && (s.closed || (s.cn.Some? && a.answer == Refused) ==> t == s)
      && (t.cn.Some? && t.cn.value.answered ==> t.cn.value.listened == t.channels)
  {
    StepKeepsSynced(s, a);
  }

  /**
   On every connection in use, for as long as each query on it got a response, the server's set
   is exactly the Listener's.
   */
  lemma {:induction false} ServerListensToChannels(s: State, run: seq<Action>)
    requires Synced(s) && After(s, run).Some? && forall k :: 0 <= k < |run| ==> Named(run[k])
    ensures Synced(After(s, run).value)
    decreases |run|
  {
    if run != [] {
      StepKeepsSynced(s, run[0]);
      ServerListensToChannels(Do(s, run[0]), run[1..]);
    }
  }

  /** A name with a NUL in it is where the two sets part. */
  lemma NulNamesDiverge(name: string)
    requires !NulFree(name)
    ensures var s := After(Start(), [Dial] + ([EndResync] + [Listen(name, Success)]));
      && s.Some? && s.value.cn.Some? && s.value.cn.value.answered
      && s.value.channels == {name} && s.value.cn.value.listened == {UpToNul(name)} && UpToNul(name) != name
  {
    QuotedNameIsRead(name);
    UpToNulIsWhole(name);
    Stepped(Start(), Dial, [EndResync] + [Listen(name, Success)]);
    var dialed := Do(Start(), Dial);
    Stepped(dialed, EndResync, [Listen(name, Success)]);
    var connected := Do(dialed, EndResync);
    assert [Listen(name, Success)] == [Listen(name, Success)] + [];
    Stepped(connected, Listen(name, Success), []);
  }

  lemma Stepped(s: State, a: Action, rest: seq<Action>)
    requires Enabled(s, a)
    ensures After(s, [a] + rest) == After(Do(s, a), rest)
  {
    assert ([a] + rest)[1..] == rest;
  }

  // ----- What goes over Notify -------------------------------------------------------

  /** The notifications since the last nil. */
  function SinceNil(log: seq<Option<Note>>): seq<Note> {
    if log == [] || log[|log| - 1].None? then []
    else SinceNil(log[..|log| - 1]) + [log[|log| - 1].value]
  }

  function Nils(log: seq<Option<Note>>): nat {
    if log == [] then 0 else Nils(log[..|log| - 1]) + if log[|log| - 1].None? then 1 else 0
  }

  ghost predicate AllFrom(notes: seq<Note>, id: nat) {
    forall k :: 0 <= k < |notes| ==> notes[k].conn == id
  }

  /** Notifications between two nils are of one connection. */
  ghost predicate Separated(log: seq<Option<Note>>) {
    log == [] || (Separated(log[..|log| - 1])
                  && (log[|log| - 1].Some? ==> AllFrom(SinceNil(log[..|log| - 1]), log[|log| - 1].value.conn)))
  }

  ghost predicate ConnOk(c: Conn, dials: nat) {
    c.id < dials && AllFrom(c.buffer, c.id) && AllFrom(c.received, c.id)
  }

  ghost predicate Delivering(s: State) {
    && !s.panicked
    && (s.cn.Some? <==> s.main.Announcing? || s.main.Forwarding? || s.main.Cleaning?)
    && (s.cn.Some? ==> ConnOk(s.cn.value, s.dials) && s.connects > 0)
    && (s.main.Resyncing? ==> ConnOk(s.main.conn, s.dials))
    && (s.connects == 0 ==> s.log == [])
    && (s.main.Announcing? ==> s.cn.value.buffer == s.cn.value.received && s.connects > 1)
    && (s.main.Forwarding? || s.main.Cleaning? ==> SinceNil(s.log) + s.cn.value.buffer == s.cn.value.received)
    && (s.main.Cleaning? ==> s.cn.value.buffer == [] && !s.cn.value.open)
    && Separated(s.log)
    && (s.connects > 0 ==> Nils(s.log) + (if s.main.Announcing? then 1 else 0) + 1 == s.connects)
  }

  lemma ForwardKeeps(s: State)
    requires Delivering(s) && Enabled(s, Forward)
    ensures Delivering(Do(s, Forward))
  {
    var t, c := Do(s, Forward), s.cn.value;
    assert t.log[..|t.log| - 1] == s.log;
    assert SinceNil(t.log) == SinceNil(s.log) + [c.buffer[0]];
    assert SinceNil(t.log) + c.buffer[1..] == SinceNil(s.log) + c.buffer;
    assert AllFrom(SinceNil(s.log), c.id) by {
      assert forall k :: 0 <= k < |SinceNil(s.log)| ==> SinceNil(s.log)[k] == c.received[k];
    }
  }

  lemma ArriveKeeps(s: State, p: string)
    requires Delivering(s) && Enabled(s, Arrive(p))
    ensures Delivering(Do(s, Arrive(p)))
  {
    if s.main.Forwarding? {
      assert SinceNil(s.log) + Put(s.cn.value, p).buffer == Put(s.cn.value, p).received;
    }
  }

  /** Calls change the channels and the connection's record of them. */
  lemma CallKeeps(s: State, a: Action)
    requires Delivering(s) && Enabled(s, a) && (a.Listen? || a.Unlisten? || a.UnlistenAll? || a.Ping? || a.Close?)
    ensures Delivering(Do(s, a))
  {
  }

  lemma ConnectKeeps(s: State, a: Action)
    requires Delivering(s) && Enabled(s, a) && (a.Dial? || a.FailDial? || a.ResyncOne? || a.DropNote? || a.EndResync? || a.Test?)
    ensures Delivering(Do(s, a))
  {
  }

  lemma EndKeeps(s: State, a: Action)
    requires Delivering(s) && Enabled(s, a) && (a.SeeClosed? || a.CleanUp? || a.Lose?)
    ensures Delivering(Do(s, a))
  {
  }

  lemma AnnounceKeeps(s: State)
    requires Delivering(s) && Enabled(s, Announce)
    ensures Delivering(Do(s, Announce))
  {
    assert (s.log + [None])[..|s.log|] == s.log;
  }

  lemma StepKeepsDelivering(s: State, a: Action)
    requires Delivering(s) && Enabled(s, a)
    ensures Delivering(Do(s, a))
  {
    match a
    case Forward => ForwardKeeps(s);
    case Announce => AnnounceKeeps(s);
    case Arrive(p) => ArriveKeeps(s, p);
    case SeeClosed => EndKeeps(s, a);
    case CleanUp => EndKeeps(s, a);
    case Lose => EndKeeps(s, a);
    case Listen(_, _) => CallKeeps(s, a);
    case Unlisten(_, _) => CallKeeps(s, a);
    case UnlistenAll(_) => CallKeeps(s, a);
    case Ping(_) => CallKeeps(s, a);
    case Close => CallKeeps(s, a);
    case _ => ConnectKeeps(s, a);
  }

  /**
   At every point of every run: no panic; when the loop is done with a connection, all that it
   received went over Notify, in order, after the last nil; one nil went over for each reconnection.
   */
  lemma {:induction false} RunsKeepDelivering(s: State, run: seq<Action>)
    requires Delivering(s) && After(s, run).Some?
    ensures Delivering(After(s, run).value)
    decreases |run|
  {
    if run != [] {
      StepKeepsDelivering(s, run[0]);
      RunsKeepDelivering(Do(s, run[0]), run[1..]);
    }
  }

  lemma {:induction false} NilSince(log: seq<Option<Note>>, i: nat, id: nat) returns (k: nat)
    requires i < |log| && log[i].Some? && log[i].value.conn != id && AllFrom(SinceNil(log), id)
    ensures i < k < |log| && log[k].None?
  {
    var n := |log| - 1;
    if log[n].None? {
      k := n;
    } else {
      var since := SinceNil(log[..n]);
      assert SinceNil(log) == since + [log[n].value];
      assert forall j :: 0 <= j < |since| ==> since[j] == SinceNil(log)[j];
      assert SinceNil(log)[|since|] == log[n].value;
      k := NilSince(log[..n], i, id);
    }
  }

  /** Between notifications of two different connections there is a nil. */
  lemma {:induction false} NilBetween(log: seq<Option<Note>>, i: nat, j: nat) returns (k: nat)
    requires Separated(log) && i < j < |log|
    requires log[i].Some? && log[j].Some? && log[i].value.conn != log[j].value.conn
    ensures i < k < j && log[k].None?
    decreases |log|
  {
    if j == |log| - 1 {
      k := NilSince(log[..j], i, log[j].value.conn);
    } else {
      k := NilBetween(log[..|log| - 1], i, j);
    }
  }

  // ----- Runs from NewListener on ----------------------------------------------------

  /** While every query was answered, the server listens to exactly the Listener's channels. */
  lemma ListensFromStart(run: seq<Action>)
    requires After(Start(), run).Some? && forall k :: 0 <= k < |run| ==> Named(run[k])
    ensures var s := After(Start(), run).value; s.cn.Some? && s.cn.value.answered ==> s.cn.value.listened == s.channels
  {
    ServerListensToChannels(Start(), run);
  }

  /** No panic, and a nil for every connection after the first, sent or about to be. */
  lemma NeverPanics(run: seq<Action>)
    requires After(Start(), run).Some?
    ensures var s := After(Start(), run).value;
      !s.panicked && (s.connects > 0 ==> Nils(s.log) + (if s.main.Announcing? then 1 else 0) == s.connects - 1)
  {
    RunsKeepDelivering(Start(), run);
  }

  /** What a connection has received is what went over Notify since the last nil, and what is still in its buffer. */
  lemma NothingIsLost(run: seq<Action>)
    requires After(Start(), run).Some?
    ensures var s := After(Start(), run).value;
      s.main.Forwarding? || s.main.Cleaning? ==> s.cn.Some? && SinceNil(s.log) + s.cn.value.buffer == s.cn.value.received
    ensures After(Start(), run).value.main.Cleaning? ==> After(Start(), run).value.cn.value.buffer == [] && !After(Start(), run).value.cn.value.open
  {
    RunsKeepDelivering(Start(), run);
  }

  /** Between notifications of two different connections the caller sees a nil. */
  lemma Safety(run: seq<Action>, i: nat, j: nat) returns (k: nat)
    requires After(Start(), run).Some?
    requires var log := After(Start(), run).value.log;
      i < j < |log| && log[i].Some? && log[j].Some? && log[i].value.conn != log[j].value.conn
    ensures i < k < j && After(Start(), run).value.log[k].None?
  {
    RunsKeepDelivering(Start(), run);
    k := NilBetween(After(Start(), run).value.log, i, j);
  }

  // ----- Close -----------------------------------------------------------------------

  /** Closed, and not about to dial. */
  predicate Leaving(s: State) {
    s.closed && !s.main.Connecting?
  }

  /** A Listener that is closed at any other point than before dialling never makes another connection. */
  lemma {:induction false} CloseIsFinal(s: State, run: seq<Action>)
    requires Leaving(s) && After(s, run).Some?
    ensures Leaving(After(s, run).value)
    ensures After(s, run).value.dials == s.dials && After(s, run).value.channels == s.channels
    decreases |run|
  {
    if run != [] { CloseIsFinal(Do(s, run[0]), run[1..]); }
  }

  lemma {:induction false} AfterBoth(s: State, first: seq<Action>, second: seq<Action>)
    requires After(s, first).Some?
    ensures After(s, first + second) == After(After(s, first).value, second)
    decreases |first|
  {
    if first == [] {
      assert first + second == second;
    } else {
      assert (first + second)[1..] == first[1..] + second;
      AfterBoth(Do(s, first[0]), first[1..], second);
    }
  }

  lemma {:induction false} Resynced(s: State) returns (run: seq<Action>)
    requires s.main.Resyncing?
    ensures var t := After(s, run);
      t.Some? && t.value == s.(main := t.value.main) && t.value.main.Resyncing? && t.value.main.todo == {}
      && t.value.main.conn.buffer == s.main.conn.buffer && t.value.main.conn.id == s.main.conn.id
      && t.value.main.conn.open == s.main.conn.open
    decreases |s.main.todo|
  {
    if s.main.todo == {} {
      run := [];
    } else {
      var c :| c in s.main.todo;
      var next := Do(s, ResyncOne(c, Success));
      var rest := Resynced(next);
      Stepped(s, ResyncOne(c, Success), rest);
      run := [ResyncOne(c, Success)] + rest;
    }
  }

  lemma Passed(s: State, payload: string) returns (run: seq<Action>)
    requires (s.main.Forwarding? || s.main.Announcing?) && s.cn.Some? && s.cn.value.open && s.cn.value.buffer == []
    ensures var t := After(s, run);
      t.Some? && t.value.closed == s.closed && t.value.dials == s.dials
      && t.value.log == s.log + (if s.main.Announcing? then [None] else []) + [Some(Note(s.cn.value.id, payload))]
    decreases s.main.Announcing?
  {
    if s.main.Announcing? {
      var forwarding := Do(s, Announce);
      var rest := Passed(forwarding, payload);
      Stepped(s, Announce, rest);
      run := [Announce] + rest;
    } else {
      Stepped(s, Arrive(payload), [Forward] + []);
      Stepped(Do(s, Arrive(payload)), Forward, []);
      run := [Arrive(payload)] + ([Forward] + []);
    }
  }

  /** One that is closed when it is about to dial can still connect, and pass on what then arrives. */
  lemma CloseWithoutConnection(s: State, payload: string) returns (run: seq<Action>)
    requires s.closed && s.main.Connecting?
    ensures var t := After(s, run);
      t.Some? && t.value.closed && t.value.dials == s.dials + 1
      && t.value.log == s.log + (if s.connects > 0 then [None] else []) + [Some(Note(s.dials, payload))]
  {
    var dialed := Do(s, Dial);
    var resync := Resynced(dialed);
    var resynced := After(dialed, resync).value;
    var connected := Do(resynced, EndResync);
    var pass := Passed(connected, payload);
    Stepped(resynced, EndResync, pass);
    AfterBoth(dialed, resync, [EndResync] + pass);
    Stepped(s, Dial, resync + ([EndResync] + pass));
    run := [Dial] + (resync + ([EndResync] + pass));
  }

  /** A closed Listener never dials again, in any run, if and only if it is not about to. */
  lemma NeverDialsAgainIff(s: State)
    requires s.closed
    ensures !s.main.Connecting? <==> forall run :: After(s, run).Some? ==> After(s, run).value.dials == s.dials
  {
    if s.main.Connecting? {
      var run := CloseWithoutConnection(s, []);
      assert After(s, run).value.dials == s.dials + 1;
    } else {
      forall run | After(s, run).Some? ensures After(s, run).value.dials == s.dials { CloseIsFinal(s, run); }
    }
  }
}
