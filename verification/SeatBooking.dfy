/**
 Booking seats over Redis: any number of `BlockSeat` and `ConfirmSeat` calls on pooled connections,
 command by command, with loads of seats in between.

 A connection keeps its watches until an EXEC; a call that returns before its MULTI leaves them to
 the next call on that connection.  The log records every write to the store in order.
 */
module SeatBooking {
  import opened Basics

  type Key = string
  type ConnId = nat

  datatype Status = Free | Blocked | Confirmed | Other(text: string)

  datatype Op = Block | Confirm

  function Expected(op: Op): Status {
    if op == Block then Free else Blocked
  }

  function Target(op: Op): Status {
    if op == Block then Blocked else Confirmed
  }

  /** Where the call on a connection is; `read` is the reply to GET, None for a missing key. */
  datatype Pc = Idle | AtExists | AtWatch | AtGet | AtTest(read: Option<Status>) | AtSet | AtExec | Broken

  /** `since` maps each watched key to the length of the log when it was first watched. */
  datatype Conn = Conn(pc: Pc, op: Op, key: Key, since: map<Key, nat>, dirty: bool, queue: seq<(Key, Status)>, result: Option<bool>)

  /** A write: by a load of the seat, or by a call that took effect. */
  datatype Entry = Loaded(key: Key, status: Status) | Changed(key: Key, op: Op, conn: ConnId)

  datatype State = State(store: map<Key, Status>, conns: map<ConnId, Conn>, log: seq<Entry>)

  // ----- Steps -----------------------------------------------------------------------

  datatype Action =
    | Open(conn: ConnId)
    | Call(conn: ConnId, op: Op, key: Key)
    | Exists(conn: ConnId) | Watch(conn: ConnId) | Get(conn: ConnId) | Test(conn: ConnId) | Set(conn: ConnId)
    | Exec(conn: ConnId)
    /** EXEC whose reply is lost: the server may have carried it out */
    | ExecLost(conn: ConnId, executed: bool)
    /** SET by LoadSeatsIntoRedis */
    | Load(key: Key, status: Status)

  predicate At(s: State, c: ConnId, pc: Pc) {
    c in s.conns && s.conns[c].pc == pc
  }

  predicate Enabled(s: State, a: Action) {
    match a
    case Open(c) => c !in s.conns
    case Call(c, _, _) => At(s, c, Idle)
    case Exists(c) => At(s, c, AtExists)
    case Watch(c) => At(s, c, AtWatch)
    case Get(c) => At(s, c, AtGet)
    case Test(c) => c in s.conns && s.conns[c].pc.AtTest?
    case Set(c) => At(s, c, AtSet)
    case Exec(c) => At(s, c, AtExec)
    case ExecLost(c, _) => At(s, c, AtExec)
    case Load(_, _) => true
  }

  function Put(s: State, c: ConnId, conn: Conn): State {
    s.(conns := s.conns[c := conn])
  }

  /** A write marks every connection that watches the key. */
  function Touched(conns: map<ConnId, Conn>, key: Key): map<ConnId, Conn> {
    map c | c in conns :: if key in conns[c].since then conns[c].(dirty := true) else conns[c]
  }

  function Write(s: State, key: Key, status: Status, entry: Entry): State {
    State(s.store[key := status], Touched(s.conns, key), s.log + [entry])
  }

  /** EXEC drops the watches first; it carries out the queued SET unless a watched key was written. */
  function Executed(s: State, c: ConnId, pc: Pc, result: bool): State
    requires c in s.conns
  {
    var conn := s.conns[c];
    var clean := Put(s, c, conn.(pc := pc, since := map[], dirty := false, queue := [], result := Some(result)));
    if conn.dirty || conn.queue == [] then clean
    else Write(clean, conn.queue[0].0, conn.queue[0].1, Changed(conn.queue[0].0, conn.op, c))
  }

  function Finish(s: State, c: ConnId, pc: Pc, result: bool): State
    requires c in s.conns
  {
    Put(s, c, s.conns[c].(pc := pc, result := Some(result)))
  }

  function Do(s: State, a: Action): State
    requires Enabled(s, a)
  {
    match a
    case Open(c) => Put(s, c, Conn(Idle, Block, "", map[], false, [], None))
    case Call(c, op, key) =>
      Put(s, c, s.conns[c].(pc := if op == Block then AtExists else AtWatch, op := op, key := key, result := None))
    case Exists(c) =>
      if s.conns[c].key in s.store then Put(s, c, s.conns[c].(pc := AtWatch)) else Finish(s, c, Idle, false)
    case Watch(c) =>
      var conn := s.conns[c];
      Put(s, c, conn.(pc := AtGet, since := if conn.key in conn.since then conn.since else conn.since[conn.key := |s.log|]))
    case Get(c) =>
      var key := s.conns[c].key;
      Put(s, c, s.conns[c].(pc := AtTest(if key in s.store then Some(s.store[key]) else None)))
    case Test(c) =>
      var conn := s.conns[c];
      if conn.pc.read == Some(Expected(conn.op)) then Put(s, c, conn.(pc := AtSet, queue := [])) else Finish(s, c, Idle, false)
    case Set(c) => Put(s, c, s.conns[c].(pc := AtExec, queue := [(s.conns[c].key, Target(s.conns[c].op))]))
    case Exec(c) => Executed(s, c, Idle, true)
    case ExecLost(c, executed) => if executed then Executed(s, c, Broken, false) else Finish(s, c, Broken, false)
    case Load(key, status) => Write(s, key, status, Loaded(key, status))
  }

  function Start(): State {
    State(map[], map[], [])
  }

  function After(s: State, run: seq<Action>): Option<State>
    decreases |run|
  {
    if run == [] then Some(s)
    else if Enabled(s, run[0]) then After(Do(s, run[0]), run[1..])
    else None
  }

  // ----- The invariant ---------------------------------------------------------------

  function Lookup(store: map<Key, Status>, key: Key): Option<Status> {
    if key in store then Some(store[key]) else None
  }

  function StatusOf(e: Entry): Status {
    match e
    case Loaded(_, status) => status
    case Changed(_, op, _) => Target(op)
  }

  /** The status of a key after the writes of a log. */
  function StatusAfter(log: seq<Entry>, key: Key): Option<Status> {
    if log == [] then None
    else if log[|log| - 1].key == key then Some(StatusOf(log[|log| - 1]))
    else StatusAfter(log[..|log| - 1], key)
  }

  /** Each call that took effect found the status that it expects. */
  ghost predicate Legal(log: seq<Entry>) {
    forall i :: 0 <= i < |log| && log[i].Changed? ==> StatusAfter(log[..i], log[i].key) == Some(Expected(log[i].op))
  }

  predicate WrittenSince(log: seq<Entry>, key: Key, from: nat) {
    exists j :: from <= j < |log| && log[j].key == key
  }

  /** A key that the connection watches was written after the WATCH. */
  ghost predicate AnyWritten(log: seq<Entry>, conn: Conn) {
    exists k :: k in conn.since && WrittenSince(log, k, conn.since[k])
  }

  ghost predicate ConnOk(store: map<Key, Status>, log: seq<Entry>, conn: Conn) {
    && (forall k :: k in conn.since ==> conn.since[k] <= |log|)
    && (conn.dirty <==> AnyWritten(log, conn))
    && (conn.pc == AtGet || conn.pc.AtTest? || conn.pc == AtSet || conn.pc == AtExec ==> conn.key in conn.since)
    && (conn.pc.AtTest? && !conn.dirty ==> conn.pc.read == Lookup(store, conn.key))
    && (conn.pc == AtSet || conn.pc == AtExec ==> (!conn.dirty ==> Lookup(store, conn.key) == Some(Expected(conn.op))))
    && (conn.pc == AtExec ==> conn.queue == [(conn.key, Target(conn.op))])
  }

  ghost predicate Inv(s: State) {
    && (forall key :: Lookup(s.store, key) == StatusAfter(s.log, key))
    && Legal(s.log)
    && (forall c :: c in s.conns ==> ConnOk(s.store, s.log, s.conns[c]))
  }

  // ----- Every step keeps it ---------------------------------------------------------

  lemma WriteKeepsConn(store: map<Key, Status>, log: seq<Entry>, conn: Conn, entry: Entry)
    requires ConnOk(store, log, conn)
    ensures ConnOk(store[entry.key := StatusOf(entry)], log + [entry], if entry.key in conn.since then conn.(dirty := true) else conn)
  {
    var longer := log + [entry];
    if entry.key in conn.since {
      assert longer[|log|].key == entry.key;
      assert WrittenSince(longer, entry.key, conn.since[entry.key]);
    } else {
      forall k | k in conn.since ensures WrittenSince(longer, k, conn.since[k]) <==> WrittenSince(log, k, conn.since[k]) {
        if WrittenSince(log, k, conn.since[k]) {
          var j :| conn.since[k] <= j < |log| && log[j].key == k;
          assert longer[j].key == k;
        }
      }
    }
  }

  lemma WriteKeepsInv(s: State, key: Key, status: Status, entry: Entry)
    requires Inv(s) && entry.key == key && StatusOf(entry) == status
    requires entry.Changed? ==> Lookup(s.store, key) == Some(Expected(entry.op))
    ensures Inv(Write(s, key, status, entry))
  {
    var t := Write(s, key, status, entry);
    assert t.log[..|s.log|] == s.log;
    forall i | 0 <= i < |t.log| && t.log[i].Changed?
      ensures StatusAfter(t.log[..i], t.log[i].key) == Some(Expected(t.log[i].op))
    {
      assert i < |s.log| ==> t.log[..i] == s.log[..i];
    }
    forall c | c in t.conns ensures ConnOk(t.store, t.log, t.conns[c]) {
      WriteKeepsConn(s.store, s.log, s.conns[c], entry);
    }
  }

  /** Watches gone, the connection is clean. */
  lemma CleanKeepsInv(s: State, c: ConnId, pc: Pc, result: Option<bool>)
    requires Inv(s) && c in s.conns && (pc == Idle || pc == Broken)
    ensures Inv(Put(s, c, s.conns[c].(pc := pc, since := map[], dirty := false, queue := [], result := result)))
  {
  }

  lemma FinishKeepsInv(s: State, c: ConnId, pc: Pc, result: bool)
    requires Inv(s) && c in s.conns && (pc == Idle || pc == Broken)
    ensures Inv(Finish(s, c, pc, result))
  {
    var t := Finish(s, c, pc, result);
    assert ConnOk(s.store, s.log, s.conns[c]);
    assert AnyWritten(s.log, s.conns[c]) <==> AnyWritten(t.log, t.conns[c]);
  }

  lemma ExecutedKeepsInv(s: State, c: ConnId, pc: Pc, result: bool)
    requires Inv(s) && At(s, c, AtExec) && (pc == Idle || pc == Broken)
    ensures Inv(Executed(s, c, pc, result))
  {
    var conn := s.conns[c];
    assert ConnOk(s.store, s.log, conn);
    CleanKeepsInv(s, c, pc, Some(result));
    var clean := Put(s, c, conn.(pc := pc, since := map[], dirty := false, queue := [], result := Some(result)));
    if !conn.dirty { WriteKeepsInv(clean, conn.key, Target(conn.op), Changed(conn.key, conn.op, c)); }
  }

  lemma WatchKeepsInv(s: State, c: ConnId)
    requires Inv(s) && Enabled(s, Watch(c))
    ensures Inv(Do(s, Watch(c)))
  {
    var before, after := s.conns[c], Do(s, Watch(c)).conns[c];
    assert ConnOk(s.store, s.log, before);
    if AnyWritten(s.log, before) {
      var k :| k in before.since && WrittenSince(s.log, k, before.since[k]);
      assert k in after.since && after.since[k] == before.since[k];
    }
    if AnyWritten(s.log, after) {
      var k :| k in after.since && WrittenSince(s.log, k, after.since[k]);
      assert k in before.since && after.since[k] == before.since[k];
    }
  }

  /** Steps that change nothing but where the call is. */
  lemma MoveKeepsInv(s: State, c: ConnId, conn: Conn)
    requires Inv(s) && c in s.conns
    requires conn.since == s.conns[c].since && conn.dirty == s.conns[c].dirty
    requires ConnOk(s.store, s.log, s.conns[c].(pc := conn.pc, op := conn.op, key := conn.key, queue := conn.queue))
    ensures Inv(Put(s, c, conn))
  {
    var same := s.conns[c].(pc := conn.pc, op := conn.op, key := conn.key, queue := conn.queue);
    assert AnyWritten(s.log, conn) <==> AnyWritten(s.log, same);
  }

  lemma StepKeepsInv(s: State, a: Action)
    requires Inv(s) && Enabled(s, a)
    ensures Inv(Do(s, a))
  {
    match a
    case Watch(c) => WatchKeepsInv(s, c);
    case Exec(c) => ExecutedKeepsInv(s, c, Idle, true);
    case ExecLost(c, executed) =>
      if executed { ExecutedKeepsInv(s, c, Broken, false); } else { FinishKeepsInv(s, c, Broken, false); }
    case Load(key, status) => WriteKeepsInv(s, key, status, Loaded(key, status));
    case Open(c) =>
    case _ => CallKeepsInv(s, a);
  }

  lemma CallKeepsInv(s: State, a: Action)
    requires Inv(s) && Enabled(s, a) && (a.Call? || a.Exists? || a.Get? || a.Test? || a.Set?)
    ensures Inv(Do(s, a))
  {
    var before, after := s.conns[a.conn], Do(s, a).conns[a.conn];
    assert ConnOk(s.store, s.log, before);
    assert AnyWritten(s.log, before) <==>
      AnyWritten(s.log, before.(pc := after.pc, op := after.op, key := after.key, queue := after.queue));
    MoveKeepsInv(s, a.conn, after);
  }

  lemma {:induction false} RunsKeepInv(s: State, run: seq<Action>)
    requires Inv(s) && After(s, run).Some?
    ensures Inv(After(s, run).value)
    decreases |run|
  {
    if run != [] {
      StepKeepsInv(s, run[0]);
      RunsKeepInv(Do(s, run[0]), run[1..]);
    }
  }

  // ----- What this means for a seat --------------------------------------------------

  /** In every run a call changes a seat only from free to blocked or from blocked to confirmed. */
  lemma ChangesAreLegal(run: seq<Action>, i: nat)
    requires After(Start(), run).Some? && i < |After(Start(), run).value.log|
    ensures var log := After(Start(), run).value.log;
      log[i].Changed? ==>
        || (StatusAfter(log[..i], log[i].key) == Some(Free) && StatusAfter(log[..i + 1], log[i].key) == Some(Blocked))
        || (StatusAfter(log[..i], log[i].key) == Some(Blocked) && StatusAfter(log[..i + 1], log[i].key) == Some(Confirmed))
  {
    RunsKeepInv(Start(), run);
    var log := After(Start(), run).value.log;
    assert log[..i + 1][i] == log[i];
  }

  /** Without a load, a status only moves forward: from blocked never back to free. */
  lemma {:induction false} NotFreeAgain(log: seq<Entry>, i: nat, j: nat)
    requires Legal(log) && i < j <= |log| && log[i].Changed?
    requires forall k :: i < k < j && log[k].key == log[i].key ==> log[k].Changed?
    ensures var status := StatusAfter(log[..j], log[i].key);
      status == Some(Target(log[i].op)) || status == Some(Confirmed)
    decreases j
  {
    var prefix := log[..j];
    assert prefix[j - 1] == log[j - 1] && prefix[..j - 1] == log[..j - 1];
    if j - 1 > i {
      NotFreeAgain(log, i, j - 1);
      if log[j - 1].key == log[i].key {
        assert StatusAfter(log[..j - 1], log[j - 1].key) == Some(Expected(log[j - 1].op));
      }
    }
  }

  /** Between two calls of the same kind that took effect on a seat, the seat was loaded again. */
  lemma OneEffectPerLoad(log: seq<Entry>, i: nat, j: nat) returns (k: nat)
    requires Legal(log) && i < j < |log| && log[i].Changed? && log[j].Changed?
    requires log[i].key == log[j].key && log[i].op == log[j].op
    ensures i < k < j && log[k].Loaded? && log[k].key == log[i].key
  {
    if k' :| i < k' < j && log[k'].Loaded? && log[k'].key == log[i].key {
      k := k';
    } else {
      NotFreeAgain(log, i, j);
      k := i;
    }
  }

  // ----- What a call returns ---------------------------------------------------------

  /**
   A call that reaches EXEC returns true.  It took effect exactly when nobody wrote a key that its
   connection was watching, its own or one left over from earlier calls, after it was watched.
   */
  lemma TrueMeansEffectIff(s: State, c: ConnId)
    requires Inv(s) && At(s, c, AtExec)
    ensures var t := Do(s, Exec(c));
      && t.conns[c].result == Some(true)
      && (AnyWritten(s.log, s.conns[c]) ==> t.log == s.log && t.store == s.store)
      && (!AnyWritten(s.log, s.conns[c]) ==>
            t.log == s.log + [Changed(s.conns[c].key, s.conns[c].op, c)]
            && t.store == s.store[s.conns[c].key := Target(s.conns[c].op)])
  {
    assert ConnOk(s.store, s.log, s.conns[c]);
  }

  lemma Stepped(s: State, a: Action, rest: seq<Action>)
    requires Enabled(s, a)
    ensures After(s, [a] + rest) == After(Do(s, a), rest)
  {
    assert ([a] + rest)[1..] == rest;
  }

  lemma {:induction false} AfterBoth(s: State, first: seq<Action>, second: seq<Action>)
    requires After(s, first).Some?
    ensures After(s, first + second) == After(After(s, first).value, second)
    decreases |first|
  {
    if first == [] {
      assert first + second == second;
    } else {
      assert (first + second)[1..] == first[1..] + second;
      AfterBoth(Do(s, first[0]), first[1..], second);
    }
  }

  function WatchedToo(since: map<Key, nat>, key: Key, now: nat): map<Key, nat> {
    if key in since then since else since[key := now]
  }

  /** The commands of BlockSeat up to the test of the status. */
  lemma ToTest(s: State, c: ConnId, key: Key) returns (run: seq<Action>)
    requires At(s, c, Idle) && key in s.store
    ensures var conn := s.conns[c];
      After(s, run) == Some(Put(s, c, conn.(
        pc := AtTest(Some(s.store[key])), op := Block, key := key, since := WatchedToo(conn.since, key, |s.log|), result := None)))
  {
    var s1 := Do(s, Call(c, Block, key));
    var s2 := Do(s1, Exists(c));
    var s3 := Do(s2, Watch(c));
    run := [Call(c, Block, key)] + ([Exists(c)] + ([Watch(c)] + ([Get(c)] + [])));
    Stepped(s, Call(c, Block, key), [Exists(c)] + ([Watch(c)] + ([Get(c)] + [])));
    Stepped(s1, Exists(c), [Watch(c)] + ([Get(c)] + []));
    Stepped(s2, Watch(c), [Get(c)] + []);
    Stepped(s3, Get(c), []);
    assert Do(s3, Get(c)).conns == s.conns[c := Do(s3, Get(c)).conns[c]];
  }

  /** A call of BlockSeat alone, up to its EXEC, on a free seat. */
  lemma ToExec(s: State, c: ConnId, key: Key) returns (run: seq<Action>)
    requires At(s, c, Idle) && Lookup(s.store, key) == Some(Free)
    ensures var conn := s.conns[c];
      After(s, run) == Some(Put(s, c, conn.(
        pc := AtExec, op := Block, key := key, since := WatchedToo(conn.since, key, |s.log|), queue := [(key, Blocked)], result := None)))
  {
    var test := ToTest(s, c, key);
    var s4 := After(s, test).value;
    AfterBoth(s, test, [Test(c)] + ([Set(c)] + []));
    Stepped(s4, Test(c), [Set(c)] + []);
    var s5 := Do(s4, Test(c));
    Stepped(s5, Set(c), []);
    assert Do(s5, Set(c)).conns == s.conns[c := Do(s5, Set(c)).conns[c]];
    run := test + ([Test(c)] + ([Set(c)] + []));
  }

  /** Two calls of BlockSeat on one free seat can both return true; only one of them took effect. */
  lemma BothReturnTrue(s: State, c: ConnId, d: ConnId, key: Key) returns (run: seq<Action>)
    requires Inv(s) && At(s, c, Idle) && At(s, d, Idle) && c != d && s.conns[c].since == map[] && s.conns[d].since == map[]
    requires Lookup(s.store, key) == Some(Free)
    ensures var t := After(s, run);
      t.Some? && c in t.value.conns && d in t.value.conns
      && t.value.conns[c].result == Some(true) && t.value.conns[d].result == Some(true)
      && t.value.log == s.log + [Changed(key, Block, c)]
  {
    var first := ToExec(s, c, key);
    var s1 := After(s, first).value;
    var second := ToExec(s1, d, key);
    var s2 := After(s1, second).value;
    var s3 := Do(s2, Exec(c));
    AfterBoth(s, first, second + ([Exec(c)] + ([Exec(d)] + [])));
    AfterBoth(s1, second, [Exec(c)] + ([Exec(d)] + []));
    Stepped(s2, Exec(c), [Exec(d)] + []);
    Stepped(s3, Exec(d), []);
    RunsKeepInv(s, first);
    RunsKeepInv(s1, second);
    assert ConnOk(s2.store, s2.log, s2.conns[c]);
    assert !AnyWritten(s2.log, s2.conns[c]);
    assert s3.log == s.log + [Changed(key, Block, c)];
    assert s3.conns[d].dirty;
    run := first + (second + ([Exec(c)] + ([Exec(d)] + [])));
  }

  /**
   With one connection and nobody else calling: a BlockSeat that finds a seat taken leaves its
   watch behind, that seat is loaded again, and the next BlockSeat returns true without effect.
   */
  lemma LeftoverWatchAborts(s: State, c: ConnId, taken: Key, key: Key) returns (run: seq<Action>)
    requires Inv(s) && At(s, c, Idle) && taken != key
    requires Lookup(s.store, taken) == Some(Blocked) && Lookup(s.store, key) == Some(Free)
    ensures var t := After(s, run);
      t.Some? && c in t.value.conns && t.value.conns[c].result == Some(true)
      && t.value.log == s.log + [Loaded(taken, Free)] && Lookup(t.value.store, key) == Some(Free)
  {
    var test := ToTest(s, c, taken);
    var s1 := After(s, test).value;
    var s2 := Do(s1, Test(c));
    var s3 := Do(s2, Load(taken, Free));
    var next := ToExec(s3, c, key);
    var s4 := After(s3, next).value;
    assert s3.conns[c].dirty && s4.conns[c].dirty;
    AfterBoth(s, test, [Test(c)] + ([Load(taken, Free)] + (next + ([Exec(c)] + []))));
    Stepped(s1, Test(c), [Load(taken, Free)] + (next + ([Exec(c)] + [])));
    Stepped(s2, Load(taken, Free), next + ([Exec(c)] + []));
    AfterBoth(s3, next, [Exec(c)] + []);
    Stepped(s4, Exec(c), []);
    run := test + ([Test(c)] + ([Load(taken, Free)] + (next + ([Exec(c)] + []))));
  }

  /** Two connections are opened and a seat is loaded. */
  lemma TwoReady(c: ConnId, d: ConnId, key: Key) returns (run: seq<Action>, s: State)
    requires c != d
    ensures After(Start(), run) == Some(s) && Inv(s) && s.log == [Loaded(key, Free)] && Lookup(s.store, key) == Some(Free)
    ensures At(s, c, Idle) && At(s, d, Idle) && s.conns[c].since == map[] && s.conns[d].since == map[]
  {
    var s1 := Do(Start(), Open(c));
    var s2 := Do(s1, Open(d));
    run, s := [Open(c)] + ([Open(d)] + ([Load(key, Free)] + [])), Do(s2, Load(key, Free));
    Stepped(Start(), Open(c), [Open(d)] + ([Load(key, Free)] + []));
    Stepped(s1, Open(d), [Load(key, Free)] + []);
    Stepped(s2, Load(key, Free), []);
    RunsKeepInv(Start(), run);
  }

  /** So it can go from the very start: two connections are opened, one seat is loaded, and both callers get it. */
  lemma BothFromStart(c: ConnId, d: ConnId, key: Key) returns (run: seq<Action>)
    requires c != d
    ensures var t := After(Start(), run);
      t.Some? && c in t.value.conns && d in t.value.conns
      && t.value.conns[c].result == Some(true) && t.value.conns[d].result == Some(true)
      && t.value.log == [Loaded(key, Free), Changed(key, Block, c)]
  {
    var first, s := TwoReady(c, d, key);
    var rest := BothReturnTrue(s, c, d, key);
    AfterBoth(Start(), first, rest);
    run := first + rest;
  }

  /** The commands of ConfirmSeat alone, up to its EXEC, on a blocked seat. */
  lemma ToConfirm(s: State, c: ConnId, key: Key) returns (run: seq<Action>)
    requires At(s, c, Idle) && Lookup(s.store, key) == Some(Blocked)
    ensures var conn := s.conns[c];
      After(s, run) == Some(Put(s, c, conn.(
        pc := AtExec, op := Confirm, key := key, since := WatchedToo(conn.since, key, |s.log|), queue := [(key, Confirmed)], result := None)))
  {
    var s1 := Do(s, Call(c, Confirm, key));
    var s2 := Do(s1, Watch(c));
    var s3 := Do(s2, Get(c));
    var s4 := Do(s3, Test(c));
    run := [Call(c, Confirm, key)] + ([Watch(c)] + ([Get(c)] + ([Test(c)] + ([Set(c)] + []))));
    Stepped(s, Call(c, Confirm, key), [Watch(c)] + ([Get(c)] + ([Test(c)] + ([Set(c)] + []))));
    Stepped(s1, Watch(c), [Get(c)] + ([Test(c)] + ([Set(c)] + [])));
    Stepped(s2, Get(c), [Test(c)] + ([Set(c)] + []));
    Stepped(s3, Test(c), [Set(c)] + []);
    Stepped(s4, Set(c), []);
    assert Do(s4, Set(c)).conns == s.conns[c := Do(s4, Set(c)).conns[c]];
  }

  /** ConfirmSeat alone confirms a blocked seat. */
  lemma BlockedIsConfirmed(s: State, c: ConnId, key: Key) returns (run: seq<Action>)
    requires Inv(s) && At(s, c, Idle) && s.conns[c].since == map[] && Lookup(s.store, key) == Some(Blocked)
    ensures var t := After(s, run);
      t.Some? && c in t.value.conns && t.value.conns[c].result == Some(true)
      && t.value.log == s.log + [Changed(key, Confirm, c)] && Lookup(t.value.store, key) == Some(Confirmed)
  {
    var first := ToConfirm(s, c, key);
    var s1 := After(s, first).value;
    AfterBoth(s, first, [Exec(c)] + []);
    Stepped(s1, Exec(c), []);
    assert ConnOk(s.store, s.log, s.conns[c]) && !s1.conns[c].dirty;
    run := first + ([Exec(c)] + []);
  }

  /** The step ends the call of a connection. */
  ghost predicate EndsCall(s: State, a: Action, c: ConnId)
    requires Enabled(s, a)
  {
    c in s.conns && s.conns[c].result.None? && c in Do(s, a).conns && Do(s, a).conns[c].result.Some?
  }

  lemma ExecEnds(s: State, a: Action, c: ConnId)
    requires Enabled(s, a) && (a.Exec? || a.ExecLost?) && EndsCall(s, a, c)
    ensures a.conn == c && Do(s, a).conns[c].result == Some(a.Exec?) && (a == ExecLost(c, false) ==> Do(s, a).log == s.log)
  {
  }

  lemma OtherEnds(s: State, a: Action, c: ConnId)
    requires Enabled(s, a) && !a.Exec? && !a.ExecLost? && EndsCall(s, a, c)
    ensures Do(s, a).conns[c].result == Some(false) && Do(s, a).log == s.log
  {
  }

  /** A step ends a call with true exactly if it is its EXEC.  One that ends it with false had no effect, unless the reply to its EXEC was lost. */
  lemma FalseMeansNoEffect(s: State, a: Action, c: ConnId)
    requires Enabled(s, a) && EndsCall(s, a, c)
    ensures Do(s, a).conns[c].result == Some(a == Exec(c))
    ensures Do(s, a).conns[c].result == Some(false) ==> Do(s, a).log == s.log || a == ExecLost(c, true)
  {
    if a.Exec? || a.ExecLost? { ExecEnds(s, a, c); } else { OtherEnds(s, a, c); }
  }

  /** A call fails before EXEC exactly if the seat is missing or has another status than expected. */
  lemma FailsIff(s: State, c: ConnId)
    requires Inv(s) && c in s.conns && s.conns[c].result.None?
    ensures var conn := s.conns[c];
      && (conn.pc == AtExists ==> (Do(s, Exists(c)).conns[c].result == Some(false) <==> Lookup(s.store, conn.key).None?))
      && (conn.pc.AtTest? && !conn.dirty ==>
           (Do(s, Test(c)).conns[c].result == Some(false) <==> Lookup(s.store, conn.key) != Some(if conn.op == Block then Free else Blocked)))
  {
    assert ConnOk(s.store, s.log, s.conns[c]);
  }
}
