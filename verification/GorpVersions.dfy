/**
 gorp's optimistic locking: any number of clients that fetch, insert, update and delete rows of
 one table with a version column, each statement atomic, in any order, and transactions that are
 rolled back.  A transaction that commits is its statements, one by one: what it wrote is locked
 until then.

 Every row keeps the history of its writes.  A write carries the write that the writer had seen
 (`base`), which gorp does not know: it only compares versions.  A struct is backed when its
 version came from a Get of a committed write, from the committed INSERT of a struct without
 version, or from a committed UPDATE.  It is not when it was filled in by hand, when its INSERT or
 UPDATE failed, since binding a struct of version 0 changes its field to 1 before the statement is
 executed, or when its INSERT or UPDATE was rolled back, since the field keeps the new version.
 */
module GorpVersions {
  import opened Basics
  import opened GorpBind

  /** The values of the key columns. */
  type Key = seq<int>
  type Client = nat

  /** One successful INSERT or UPDATE of a row. */
  datatype Write = Write(id: nat, base: Option<nat>, version: int)

  /** A client's struct: its key, its version field, and the write it reflects, if it is backed. */
  datatype Held = Held(key: Key, version: int, base: Option<nat>)

  datatype State = State(rows: map<Key, seq<Write>>, held: map<Client, Held>, writes: nat)

  datatype Statement =
    /** a struct filled in by hand, with version 0 */
    | New(client: Client, key: Key)
    | Get(client: Client, key: Key)
    /** an INSERT, which fails if the row exists */
    | Insert(client: Client)
    | Update(client: Client)
    | Delete(client: Client)
    /** an INSERT or UPDATE that fails for any other reason */
    | Fail(client: Client)

  datatype Outcome = Done | LockError | NoEffect | Failed

  /** The current write of a row. */
  function Latest(h: seq<Write>): Write {
    if h == [] then Write(0, None, 0) else h[|h| - 1]
  }

  predicate Exists(s: State, key: Key) {
    key in s.rows && s.rows[key] != []
  }

  predicate Enabled(s: State, a: Statement) {
    match a
    case New(_, _) => true
    case Get(_, key) => Exists(s, key)
    case _ => a.client in s.held
  }

  /** The UPDATE of a client finds a row. */
  predicate UpdateHitsRow(s: State, h: Held) {
    Exists(s, h.key) && Latest(s.rows[h.key]).version == Sought(h.version)
  }

  predicate DeleteHitsRow(s: State, h: Held) {
    Exists(s, h.key) && Latest(s.rows[h.key]).version == h.version
  }

  /** No row was hit: an error for a positive version, silence otherwise. */
  function Missed(h: Held): Outcome {
    if h.version > 0 then LockError else NoEffect
  }

  function OutcomeOf(s: State, a: Statement): Outcome
    requires Enabled(s, a)
  {
    match a
    case Insert(c) => if Exists(s, s.held[c].key) then Failed else Done
    case Update(c) => if UpdateHitsRow(s, s.held[c]) then Done else Missed(s.held[c])
    case Delete(c) => if DeleteHitsRow(s, s.held[c]) then Done else Missed(s.held[c])
    case Fail(_) => Failed
    case _ => Done
  }

  /** What binding has done to a struct when its statement fails. */
  function Bound(h: Held): Held {
    h.(version := Sought(h.version))
  }

  function Do(s: State, a: Statement): State
    requires Enabled(s, a)
  {
    match a
    case New(c, key) => s.(held := s.held[c := Held(key, 0, None)])
    case Get(c, key) => s.(held := s.held[c := Held(key, Latest(s.rows[key]).version, Some(Latest(s.rows[key]).id))])
    case Insert(c) =>
      var h := s.held[c];
      if Exists(s, h.key) then s.(held := s.held[c := Bound(h)])
      else
        State(s.rows[h.key := [Write(s.writes, None, h.version + 1)]],
              s.held[c := if h.version == 0 then Held(h.key, 1, Some(s.writes)) else h.(base := None)],
              s.writes + 1)
    case Update(c) =>
      var h := s.held[c];
      if UpdateHitsRow(s, h) then
        State(s.rows[h.key := s.rows[h.key] + [Write(s.writes, h.base, h.version + 1)]],
              s.held[c := Held(h.key, h.version + 1, Some(s.writes))],
              s.writes + 1)
      else if h.version > 0 then s
      else s.(held := s.held[c := h.(version := h.version + 1)])
    case Delete(c) =>
      if DeleteHitsRow(s, s.held[c]) then s.(rows := s.rows - {s.held[c].key}) else s
    case Fail(c) => s.(held := s.held[c := Bound(s.held[c])])
  }

  function Start(): State {
    State(map[], map[], 0)
  }

  /** The statements of a transaction, for itself. */
  function Within(s: State, tx: seq<Statement>): Option<State>
    decreases |tx|
  {
    if tx == [] then Some(s)
    else if Enabled(s, tx[0]) then Within(Do(s, tx[0]), tx[1..])
    else None
  }

  datatype Action = Commits(statement: Statement) | RollsBack(tx: seq<Statement>)

  predicate Possible(s: State, a: Action) {
    match a
    case Commits(statement) => Enabled(s, statement)
    case RollsBack(tx) => Within(s, tx).Some?
  }

  /** What a write that never happened leaves in a struct: its version, and nothing behind it. */
  function Unbacked(s: State, h: Held): Held {
    if h.base.Some? && h.base.value >= s.writes then h.(base := None) else h
  }

  /** Rolling back restores the rows; the structs keep what the statements left in them. */
  function Step(s: State, a: Action): State
    requires Possible(s, a)
  {
    match a
    case Commits(statement) => Do(s, statement)
    case RollsBack(tx) =>
      var t := Within(s, tx).value;
      s.(held := map c | c in t.held :: Unbacked(s, t.held[c]))
  }

  function After(s: State, run: seq<Action>): Option<State>
    decreases |run|
  {
    if run == [] then Some(s)
    else if Possible(s, run[0]) then After(Step(s, run[0]), run[1..])
    else None
  }

  // ----- What clients have to keep to ------------------------------------------------

  /** Nobody else still has a backed struct of that key with a higher version than the new row's struct. */
  predicate NoneAhead(s: State, c: Client)
    requires c in s.held
  {
    forall d :: d in s.held && d != c && s.held[d].key == s.held[c].key && s.held[d].base.Some? ==>
      s.held[d].version <= s.held[c].version
  }

  /**
   Only backed structs are updated: after an INSERT or UPDATE that failed or was rolled back a struct
   is fetched or filled in again.  A key is inserted only when no old struct of it is ahead.  What is
   rolled back need not be careful.
   */
  predicate Careful(s: State, a: Action)
    requires Possible(s, a)
  {
    a.Commits? ==>
      && (a.statement.Update? ==> s.held[a.statement.client].base.Some?)
      && (a.statement.Insert? && !Exists(s, s.held[a.statement.client].key) ==> NoneAhead(s, a.statement.client))
  }

  predicate CarefulRun(s: State, run: seq<Action>)
    decreases |run|
  {
    run == [] || (Possible(s, run[0]) && Careful(s, run[0]) && CarefulRun(Step(s, run[0]), run[1..]))
  }

  // ----- No update is lost -----------------------------------------------------------

  /** Versions are consecutive from 1 up, and each update was built on its immediate predecessor. */
  ghost predicate Chain(h: seq<Write>) {
    && h != [] && h[0].version >= 1 && h[0].base == None
    && forall k :: 0 < k < |h| ==> h[k].version == h[k - 1].version + 1 && h[k].base == Some(h[k - 1].id)
  }

  ghost predicate AllChains(s: State) {
    forall key :: key in s.rows ==> Chain(s.rows[key])
  }

  ghost predicate RowOk(s: State, key: Key)
    requires key in s.rows
  {
    Chain(s.rows[key]) && Latest(s.rows[key]).version >= 1 && Latest(s.rows[key]).id < s.writes
  }

  /** A backed struct never runs ahead of its row, and has its version exactly when it reflects its latest write. */
  ghost predicate HeldOk(s: State, h: Held) {
    && h.version >= 0
    && (h.base.Some? ==> h.version >= 1 && h.base.value < s.writes)
    && (h.base.Some? && h.key in s.rows ==>
          && h.version <= Latest(s.rows[h.key]).version
          && (h.version == Latest(s.rows[h.key]).version <==> h.base == Some(Latest(s.rows[h.key]).id)))
  }

  ghost predicate Inv(s: State) {
    && (forall key :: key in s.rows ==> RowOk(s, key))
    && (forall c :: c in s.held ==> HeldOk(s, s.held[c]))
  }

  lemma UpdateKeepsInv(s: State, c: Client)
    requires Inv(s) && c in s.held && s.held[c].base.Some?
    ensures Inv(Do(s, Update(c)))
  {
    var t, h := Do(s, Update(c)), s.held[c];
    assert HeldOk(s, h);
    if UpdateHitsRow(s, h) {
      assert RowOk(s, h.key);
      assert RowOk(t, h.key) by { assert Chain(t.rows[h.key]); }
      forall key | key in t.rows ensures RowOk(t, key) {
        if key != h.key { assert RowOk(s, key); }
      }
      forall d | d in t.held ensures HeldOk(t, t.held[d]) {
        if d != c { assert HeldOk(s, s.held[d]); }
      }
    }
  }

  /** An INSERT that goes through keeps the invariant if and only if no old struct is ahead of it. */
  lemma InsertKeepsInvIff(s: State, c: Client)
    requires Inv(s) && c in s.held && !Exists(s, s.held[c].key)
    ensures Inv(Do(s, Insert(c))) <==> NoneAhead(s, c)
  {
    var t, h := Do(s, Insert(c)), s.held[c];
    assert HeldOk(s, h);
    if NoneAhead(s, c) {
      forall d | d in t.held ensures HeldOk(t, t.held[d]) {
        if d != c { assert HeldOk(s, s.held[d]); }
      }
    } else {
      var d :| d in s.held && d != c && s.held[d].key == h.key && s.held[d].base.Some? && s.held[d].version > h.version;
      assert HeldOk(s, s.held[d]);
      assert !HeldOk(t, t.held[d]);
    }
  }

  lemma StatementKeepsInv(s: State, a: Statement)
    requires Inv(s) && Enabled(s, a) && Careful(s, Commits(a))
    ensures Inv(Do(s, a))
  {
    match a
    case Update(c) => UpdateKeepsInv(s, c);
    case Insert(c) =>
      assert HeldOk(s, s.held[c]);
      if !Exists(s, s.held[c].key) { InsertKeepsInvIff(s, c); }
    case _ =>
  }

  /** In a transaction begun at s: what was written before it is as it was, and seen as it was. */
  ghost predicate SeenFrom(s: State, t: State) {
    && s.writes <= t.writes
    && (forall key :: key in t.rows ==> RowSeen(s, t, key))
    && (forall c :: c in t.held ==> t.held[c].version >= 0 && HeldOk(s, Unbacked(s, t.held[c])))
  }

  ghost predicate RowSeen(s: State, t: State, key: Key)
    requires key in t.rows
  {
    && Latest(t.rows[key]).version >= 0
    && (Latest(t.rows[key]).id >= s.writes || (key in s.rows && Latest(t.rows[key]) == Latest(s.rows[key])))
  }

  /** A statement that writes at most one row, with a new write, and one struct. */
  lemma OneChangeSeen(s: State, t: State, u: State, c: Client, key: Key)
    requires Inv(s) && SeenFrom(s, t) && c in u.held && s.writes <= u.writes
    requires forall k :: k in u.rows && k != key ==> k in t.rows && u.rows[k] == t.rows[k]
    requires key in u.rows ==> RowSeen(s, u, key)
    requires forall d :: d in u.held && d != c ==> d in t.held && u.held[d] == t.held[d]
    requires u.held[c].version >= 0 && HeldOk(s, Unbacked(s, u.held[c]))
    ensures SeenFrom(s, u)
  {
    forall k | k in u.rows ensures RowSeen(s, u, k) {
      if k != key { assert RowSeen(s, t, k); }
    }
  }

  lemma WriteSeen(s: State, t: State, a: Statement)
    requires Inv(s) && SeenFrom(s, t) && Enabled(t, a) && (a.Insert? || a.Update?)
    ensures SeenFrom(s, Do(t, a))
  {
    var h := t.held[a.client];
    assert HeldOk(s, Unbacked(s, h));
    if h.key in t.rows { assert RowSeen(s, t, h.key); }
    OneChangeSeen(s, t, Do(t, a), a.client, h.key);
  }

  lemma ReadSeen(s: State, t: State, c: Client, key: Key)
    requires Inv(s) && SeenFrom(s, t) && Exists(t, key)
    ensures SeenFrom(s, Do(t, Get(c, key)))
  {
    assert RowSeen(s, t, key);
    if key in s.rows { assert RowOk(s, key); }
    OneChangeSeen(s, t, Do(t, Get(c, key)), c, key);
  }

  lemma StatementSeen(s: State, t: State, a: Statement)
    requires Inv(s) && SeenFrom(s, t) && Enabled(t, a)
    ensures SeenFrom(s, Do(t, a))
  {
    match a
    case Insert(_) => WriteSeen(s, t, a);
    case Update(_) => WriteSeen(s, t, a);
    case Get(c, key) => ReadSeen(s, t, c, key);
    case New(c, key) =>
      if key in t.rows { assert RowSeen(s, t, key); }
      OneChangeSeen(s, t, Do(t, a), c, key);
    case _ =>
      var h := t.held[a.client];
      assert HeldOk(s, Unbacked(s, h));
      if h.key in t.rows { assert RowSeen(s, t, h.key); }
      OneChangeSeen(s, t, Do(t, a), a.client, h.key);
  }

  lemma {:induction false} TransactionSeen(s: State, t: State, tx: seq<Statement>)
    requires Inv(s) && SeenFrom(s, t) && Within(t, tx).Some?
    ensures SeenFrom(s, Within(t, tx).value)
    decreases |tx|
  {
    if tx != [] {
      StatementSeen(s, t, tx[0]);
      TransactionSeen(s, Do(t, tx[0]), tx[1..]);
    }
  }

  /** Whatever a transaction did, rolling it back keeps the invariant. */
  lemma RollbackKeepsInv(s: State, tx: seq<Statement>)
    requires Inv(s) && Within(s, tx).Some?
    ensures Inv(Step(s, RollsBack(tx)))
  {
    forall key | key in s.rows ensures RowSeen(s, s, key) { assert RowOk(s, key); }
    TransactionSeen(s, s, tx);
    var t := Step(s, RollsBack(tx));
    forall c | c in t.held ensures HeldOk(t, t.held[c]) { assert HeldOk(s, t.held[c]); }
    forall key | key in t.rows ensures RowOk(t, key) { assert RowOk(s, key); }
  }

  lemma StepKeepsInv(s: State, a: Action)
    requires Inv(s) && Possible(s, a) && Careful(s, a)
    ensures Inv(Step(s, a))
  {
    match a
    case Commits(statement) => StatementKeepsInv(s, statement);
    case RollsBack(tx) => RollbackKeepsInv(s, tx);
  }

  /** In every careful run, every row's successful updates have consecutive versions and none is lost. */
  lemma {:induction false} NoLostUpdate(s: State, run: seq<Action>)
    requires Inv(s) && CarefulRun(s, run)
    ensures After(s, run).Some? && Inv(After(s, run).value) && AllChains(After(s, run).value)
    decreases |run|
  {
    if run != [] {
      StepKeepsInv(s, run[0]);
      NoLostUpdate(Step(s, run[0]), run[1..]);
    } else {
      forall key | key in s.rows ensures Chain(s.rows[key]) { assert RowOk(s, key); }
    }
  }

  /** A backed struct's update goes through exactly when nobody wrote the row since; if not, nothing changes. */
  lemma UpdatesIffUnchanged(s: State, c: Client)
    requires Inv(s) && c in s.held && s.held[c].base.Some?
    ensures OutcomeOf(s, Update(c)) == Done <==>
      Exists(s, s.held[c].key) && s.held[c].base == Some(Latest(s.rows[s.held[c].key]).id)
    ensures OutcomeOf(s, Update(c)) != Done ==> OutcomeOf(s, Update(c)) == LockError && Do(s, Update(c)) == s
  {
    assert HeldOk(s, s.held[c]);
  }

  /** The same of a backed struct's delete: it never removes a write that it has not seen. */
  lemma DeletesIffUnchanged(s: State, c: Client)
    requires Inv(s) && c in s.held && s.held[c].base.Some?
    ensures OutcomeOf(s, Delete(c)) == Done <==>
      Exists(s, s.held[c].key) && s.held[c].base == Some(Latest(s.rows[s.held[c].key]).id)
    ensures OutcomeOf(s, Delete(c)) != Done ==> OutcomeOf(s, Delete(c)) == LockError && Do(s, Delete(c)) == s
  {
    assert HeldOk(s, s.held[c]);
  }

  /**
   A statement that is not done changes no row.  An UPDATE or DELETE that hits none is an error
   exactly if the struct has a positive version, an INSERT exactly if the row exists.
   */
  lemma NotDoneChangesNoRow(s: State, c: Client)
    requires c in s.held
    ensures var h := s.held[c];
      && (OutcomeOf(s, Update(c)) == LockError <==> !UpdateHitsRow(s, h) && h.version >= 1)
      && (OutcomeOf(s, Delete(c)) == LockError <==> !DeleteHitsRow(s, h) && h.version >= 1)
      && (OutcomeOf(s, Insert(c)) == Failed <==> h.key in s.rows && s.rows[h.key] != [])
      && forall a :: a == Update(c) || a == Delete(c) || a == Insert(c) || a == Fail(c) ==>
           OutcomeOf(s, a) == Done || (Do(s, a).rows == s.rows && Do(s, a).held[c].key == h.key && Do(s, a).held[c].base == h.base)
  {
  }

  /** An UPDATE of a new struct that hits no row passes in silence, and leaves it with version 1. */
  lemma SilentUpdate(s: State, c: Client)
    requires c in s.held && s.held[c].version == 0 && OutcomeOf(s, Update(c)) != Done
    ensures OutcomeOf(s, Update(c)) == NoEffect && Do(s, Update(c)).held[c].version == 1
  {
  }

  /** An update that goes through continues its row's history properly exactly when the struct was backed. */
  lemma GoodExactlyWhenBacked(s: State, c: Client)
    requires Inv(s) && c in s.held && UpdateHitsRow(s, s.held[c])
    ensures Chain(Do(s, Update(c)).rows[s.held[c].key]) <==> s.held[c].base.Some?
  {
    var h := s.held[c];
    assert HeldOk(s, h) && RowOk(s, h.key);
    var after := Do(s, Update(c)).rows[h.key];
    if h.base.None? {
      var last := |after| - 1;
      assert after[last].base != Some(after[last - 1].id);
    } else {
      UpdateKeepsInv(s, c);
      assert RowOk(Do(s, Update(c)), h.key);
    }
  }

  // ----- Reusing a key ---------------------------------------------------------------

  lemma Stepped(s: State, a: Action, rest: seq<Action>)
    requires Possible(s, a)
    ensures After(s, [a] + rest) == After(Step(s, a), rest)
    ensures Careful(s, a) && CarefulRun(Step(s, a), rest) ==> CarefulRun(s, [a] + rest)
  {
    assert ([a] + rest)[1..] == rest;
  }

  /** Client c has the row's latest write, client d an old struct of the same key that is n versions ahead. */
  ghost predicate Behind(s: State, c: Client, d: Client, key: Key, n: nat) {
    && c != d && c in s.held && d in s.held && Exists(s, key)
    && s.held[c] == Held(key, Latest(s.rows[key]).version, Some(Latest(s.rows[key]).id))
    && s.held[d].key == key && s.held[d].version == Latest(s.rows[key]).version + n
    && s.held[d].base.Some? && s.held[d].base.value < Latest(s.rows[key]).id < s.writes
    && Latest(s.rows[key]).version >= 1
  }

  /** After n more updates by c, the old struct has the row's version, and overwrites it. */
  lemma {:induction false} OldStructOverwrites(s: State, c: Client, d: Client, key: Key, n: nat) returns (run: seq<Action>)
    requires Behind(s, c, d, key, n)
    ensures CarefulRun(s, run) && After(s, run).Some? && !AllChains(After(s, run).value)
    decreases n
  {
    if n == 0 {
      var t := Do(s, Update(d));
      Stepped(s, Commits(Update(d)), []);
      run := [Commits(Update(d))] + [];
      var h := t.rows[key];
      assert h[|h| - 1].base != Some(h[|h| - 2].id);
      assert !Chain(t.rows[key]);
    } else {
      var t := Do(s, Update(c));
      assert Behind(t, c, d, key, n - 1);
      var rest := OldStructOverwrites(t, c, d, key, n - 1);
      Stepped(s, Commits(Update(c)), rest);
      run := [Commits(Update(c))] + rest;
    }
  }

  /**
   An INSERT that goes through is safe, whatever careful clients do afterwards, if and only if no
   old struct of its key is ahead of it.
   */
  lemma InsertSafeIff(s: State, c: Client)
    requires Inv(s) && c in s.held && !Exists(s, s.held[c].key)
    ensures NoneAhead(s, c) <==>
      forall run :: CarefulRun(Do(s, Insert(c)), run) ==> After(Do(s, Insert(c)), run).Some? && AllChains(After(Do(s, Insert(c)), run).value)
  {
    var t, key := Do(s, Insert(c)), s.held[c].key;
    InsertKeepsInvIff(s, c);
    if NoneAhead(s, c) {
      forall run | CarefulRun(t, run) ensures After(t, run).Some? && AllChains(After(t, run).value) { NoLostUpdate(t, run); }
    } else {
      var d :| d in s.held && d != c && s.held[d].key == key && s.held[d].base.Some? && s.held[d].version > s.held[c].version;
      assert HeldOk(s, s.held[d]) && HeldOk(s, s.held[c]);
      var u := Do(t, Get(c, key));
      var rest := OldStructOverwrites(u, c, d, key, s.held[d].version - s.held[c].version - 1);
      Stepped(t, Commits(Get(c, key)), rest);
      assert CarefulRun(t, [Commits(Get(c, key))] + rest);
    }
  }

  // ----- The runs in which an update is lost -----------------------------------------

  /** A row as it was inserted and fetched by a second client. */
  function Shared(key: Key): State {
    State(map[key := [Write(0, None, 1)]], map[1 := Held(key, 1, Some(0)), 2 := Held(key, 1, Some(0))], 1)
  }

  /** Committed statements, one after the other. */
  function Committed(statements: seq<Statement>): seq<Action> {
    if statements == [] then [] else [Commits(statements[0])] + Committed(statements[1..])
  }

  lemma Next(s: State, a: Statement, rest: seq<Statement>)
    requires Enabled(s, a)
    ensures After(s, Committed([a] + rest)) == After(Do(s, a), Committed(rest))
  {
    assert ([a] + rest)[1..] == rest;
    Stepped(s, Commits(a), Committed(rest));
  }

  lemma SharedIsReached(key: Key)
    ensures After(Start(), Committed([New(1, key)] + ([Insert(1)] + ([Get(2, key)] + [])))) == Some(Shared(key))
  {
    var s1 := Do(Start(), New(1, key));
    Next(Start(), New(1, key), [Insert(1)] + ([Get(2, key)] + []));
    var s2 := Do(s1, Insert(1));
    Next(s1, Insert(1), [Get(2, key)] + []);
    Next(s2, Get(2, key), []);
    assert Do(s2, Get(2, key)) == Shared(key);
  }

  /** A struct with version 0 overwrites a row of version 1 and leaves the version: the next update loses its write. */
  lemma VersionZeroLosesUpdate(key: Key)
    ensures var t := After(Shared(key), Committed([New(1, key)] + ([Update(1)] + ([Update(2)] + []))));
      t.Some? && key in t.value.rows && t.value.rows[key] == [Write(0, None, 1), Write(1, None, 1), Write(2, Some(0), 2)]
  {
    var s := Shared(key);
    var last := [Update(2)] + [];
    var s1 := Do(s, New(1, key));
    Next(s, New(1, key), [Update(1)] + last);
    assert s1.held[1] == Held(key, 0, None) && s1.held[2] == Held(key, 1, Some(0)) && s1.rows[key] == [Write(0, None, 1)];
    var s2 := Do(s1, Update(1));
    Next(s1, Update(1), last);
    assert s2.rows[key] == [Write(0, None, 1), Write(1, None, 1)] && s2.held[2] == Held(key, 1, Some(0)) && s2.writes == 2;
    Next(s2, Update(2), []);
  }

  /** An INSERT that fails on an existing row leaves version 1 in the struct, whose UPDATE then overwrites that row. */
  lemma FailedInsertLosesUpdate(key: Key)
    ensures var t := After(Shared(key), Committed([New(1, key)] + ([Insert(1)] + ([Update(1)] + []))));
      t.Some? && key in t.value.rows && t.value.rows[key] == [Write(0, None, 1), Write(1, None, 2)]
  {
    var s := Shared(key);
    var s1 := Do(s, New(1, key));
    Next(s, New(1, key), [Insert(1)] + ([Update(1)] + []));
    var s2 := Do(s1, Insert(1));
    Next(s1, Insert(1), [Update(1)] + []);
    assert s2.held[1] == Held(key, 1, None) && s2.rows[key] == [Write(0, None, 1)];
    Next(s2, Update(1), []);
  }

  /** A key that is deleted and inserted again starts over at version 1: an old struct then overwrites the new row. */
  lemma ReusedKeyLosesUpdate(key: Key)
    ensures var t := After(Shared(key), Committed([Delete(1)] + ([New(1, key)] + ([Insert(1)] + ([Update(2)] + [])))));
      t.Some? && key in t.value.rows && t.value.rows[key] == [Write(1, None, 1), Write(2, Some(0), 2)]
  {
    var s := Shared(key);
    var s1 := Do(s, Delete(1));
    Next(s, Delete(1), [New(1, key)] + ([Insert(1)] + ([Update(2)] + [])));
    var s2 := Do(s1, New(1, key));
    Next(s1, New(1, key), [Insert(1)] + ([Update(2)] + []));
    var s3 := Do(s2, Insert(1));
    Next(s2, Insert(1), [Update(2)] + []);
    assert s3.rows[key] == [Write(1, None, 1)] && s3.held[2] == Held(key, 1, Some(0));
    Next(s3, Update(2), []);
  }

  /** One statement that is rolled back. */
  lemma RolledBack(s: State, a: Statement, rest: seq<Action>)
    requires Enabled(s, a)
    ensures Possible(s, RollsBack([a])) && Within(s, [a]) == Some(Do(s, a))
    ensures After(s, [RollsBack([a])] + rest) == After(Step(s, RollsBack([a])), rest)
  {
    assert [a][1..] == [];
    Stepped(s, RollsBack([a]), rest);
  }

  /** An UPDATE that is rolled back leaves its new version in the struct, which then overwrites another's write of that version. */
  lemma RolledBackUpdateLosesUpdate(key: Key)
    ensures var t := After(Shared(key), [RollsBack([Update(1)])] + Committed([Update(2)] + ([Update(1)] + [])));
      t.Some? && key in t.value.rows && t.value.rows[key] == [Write(0, None, 1), Write(1, Some(0), 2), Write(2, None, 3)]
  {
    var s := Shared(key);
    RolledBack(s, Update(1), Committed([Update(2)] + ([Update(1)] + [])));
    var s1 := Step(s, RollsBack([Update(1)]));
    assert s1.held[1] == Held(key, 2, None) && s1.held[2] == Held(key, 1, Some(0));
    Next(s1, Update(2), [Update(1)] + []);
    var s2 := Do(s1, Update(2));
    assert s2.rows[key] == [Write(0, None, 1), Write(1, Some(0), 2)];
    Next(s2, Update(1), []);
  }

  /** An INSERT that is rolled back leaves version 1, and its struct then overwrites the row that another inserts. */
  lemma RolledBackInsertLosesUpdate(key: Key)
    ensures var t := After(Start(), [Commits(New(1, key))] + ([RollsBack([Insert(1)])] + Committed([New(2, key)] + ([Insert(2)] + ([Update(1)] + [])))));
      t.Some? && key in t.value.rows && t.value.rows[key] == [Write(0, None, 1), Write(1, None, 2)]
  {
    var rest := Committed([New(2, key)] + ([Insert(2)] + ([Update(1)] + [])));
    Stepped(Start(), Commits(New(1, key)), [RollsBack([Insert(1)])] + rest);
    var s := Do(Start(), New(1, key));
    RolledBack(s, Insert(1), rest);
    var s1 := Step(s, RollsBack([Insert(1)]));
    assert s1.held[1] == Held(key, 1, None) && s1.rows == map[] && s1.writes == 0;
    Next(s1, New(2, key), [Insert(2)] + ([Update(1)] + []));
    var s2 := Do(s1, New(2, key));
    Next(s2, Insert(2), [Update(1)] + []);
    var s3 := Do(s2, Insert(2));
    assert s3.rows[key] == [Write(0, None, 1)];
    Next(s3, Update(1), []);
  }

  // ----- The steps are the statements ------------------------------------------------

  /** A table with a stored version column that is no key. */
  ghost predicate Keyed(t: Table, version: nat) {
    TableOk(t) && Versioned(t) && t.version == Some(version) && forall k :: 0 <= k < |t.keys| ==> t.keys[k] != version
  }

  /** The struct in a client's hands. */
  ghost predicate IsStruct(t: Table, version: nat, elem: Struct, h: Held)
    requires Keyed(t, version)
  {
    && Fits(t, elem) && elem[t.columns[version].field] == h.version && |h.key| == |t.keys|
    && forall k :: 0 <= k < |t.keys| ==> elem[t.columns[t.keys[k]].field] == h.key[k]
  }

  /** The row in the database. */
  ghost predicate IsRow(t: Table, version: nat, row: Row, key: Key, v: int)
    requires Keyed(t, version)
  {
    && (forall i :: 0 <= i < |t.columns| ==> t.columns[i].name in row)
    && row[t.columns[version].name] == v && |key| == |t.keys|
    && forall k :: 0 <= k < |t.keys| ==> row[t.columns[t.keys[k]].name] == key[k]
  }

  lemma SameKey(t: Table, version: nat, elem: Struct, h: Held, row: Row, key: Key, v: int)
    requires Keyed(t, version) && IsStruct(t, version, elem, h) && IsRow(t, version, row, key, v)
    ensures key == h.key <==> forall k :: 0 <= k < |t.keys| ==> row[t.columns[t.keys[k]].name] == elem[t.columns[t.keys[k]].field]
  {
    if forall k :: 0 <= k < |t.keys| ==> row[t.columns[t.keys[k]].name] == elem[t.columns[t.keys[k]].field] {
      assert forall k :: 0 <= k < |key| ==> key[k] == h.key[k];
    }
  }

  /** What BindInsert and BindUpdate leave in the struct is what the machine has after a failure. */
  lemma BindingIsBound(t: Table, version: nat, elem: Struct, h: Held)
    requires Keyed(t, version) && IsStruct(t, version, elem, h)
    ensures IsStruct(t, version, if h.version == 0 then elem[t.columns[version].field := 1] else elem, Bound(h))
  {
    assert forall k :: 0 <= k < |t.keys| ==> t.columns[t.keys[k]].field != t.columns[version].field;
  }

  /** The UPDATE hits a row, and changes it, exactly as the step does. */
  lemma UpdateIsStep(t: Table, version: nat, plan: Plan, elem: Struct, vals: seq<int>, s: State, c: Client, key: Key, row: Row)
    requires Keyed(t, version) && IsUpdatePlan(t, plan) && c in s.held && IsStruct(t, version, elem, s.held[c])
    requires Covers(elem, plan) && Binds(plan, elem, vals)
    requires Exists(s, key) && IsRow(t, version, row, key, Latest(s.rows[key]).version)
    ensures Hits(plan.wheres, vals, row) <==> key == s.held[c].key && UpdateHitsRow(s, s.held[c])
    ensures InRange(plan.sets, |vals|)
    ensures Hits(plan.wheres, vals, row) ==>
      IsRow(t, version, Applied(row, plan.sets, vals, 0), key, Latest(Do(s, Update(c)).rows[key]).version)
  {
    UpdateHits(t, plan, elem, vals, row);
    assert forall k :: 0 <= k < |t.keys| ==> Compared(t, elem, t.keys[k]) == elem[t.columns[t.keys[k]].field];
    SameKey(t, version, elem, s.held[c], row, key, Latest(s.rows[key]).version);
    forall i | 0 <= i < |t.columns|
      ensures InRange(plan.sets, |vals|) && t.columns[i].name in Applied(row, plan.sets, vals, 0)
      ensures Applied(row, plan.sets, vals, 0)[t.columns[i].name]
        == if Updated(t.columns[i]) then Written(t, elem, i) else row[t.columns[i].name]
    {
      UpdateMeans(t, plan, elem, vals, row, i);
    }
    UpdateMeans(t, plan, elem, vals, row, version);
  }

  /**
   The INSERT makes the row that the step makes.  Where the database chooses the key, the step is the
   one with that key, and the statement names the column only if the dialect has a word for it.
   */
  lemma InsertIsStep(t: Table, version: nat, autoBinds: bool, plan: Plan, elem: Struct, vals: seq<int>, automatic: int, s: State, c: Client, key: Key)
    requires Keyed(t, version) && IsInsertPlan(t, autoBinds, plan)
    requires c in s.held && IsStruct(t, version, elem, s.held[c]) && Covers(elem, plan) && Binds(plan, elem, vals)
    requires |key| == |t.keys| && !Exists(s, key)
    requires forall k :: 0 <= k < |t.keys| ==> key[k] == if t.columns[t.keys[k]].autoIncr then automatic else s.held[c].key[k]
    ensures InRange(plan.sets, |vals|)
    ensures var row := Applied(map[], plan.sets, vals, automatic);
      var chosen := s.(held := s.held[c := s.held[c].(key := key)]);
      && (forall k :: 0 <= k < |t.keys| ==> (t.columns[t.keys[k]].name in row <==> Listed(t.columns[t.keys[k]], autoBinds)))
      && (forall k :: 0 <= k < |t.keys| && t.columns[t.keys[k]].name in row ==> row[t.columns[t.keys[k]].name] == key[k])
      && t.columns[version].name in row && row[t.columns[version].name] == Latest(Do(chosen, Insert(c)).rows[key]).version
  {
    InsertMeans(t, autoBinds, plan, elem, vals, automatic, version);
    forall k | 0 <= k < |t.keys|
      ensures var row, name := Applied(map[], plan.sets, vals, automatic), t.columns[t.keys[k]].name;
        (name in row <==> Listed(t.columns[t.keys[k]], autoBinds)) && (name in row ==> row[name] == key[k])
    {
      InsertMeans(t, autoBinds, plan, elem, vals, automatic, t.keys[k]);
    }
  }

  /** The DELETE hits a row exactly as the step does. */
  lemma DeleteIsStep(t: Table, version: nat, plan: Plan, elem: Struct, vals: seq<int>, s: State, c: Client, key: Key, row: Row)
    requires Keyed(t, version) && IsDeletePlan(t, plan) && c in s.held && IsStruct(t, version, elem, s.held[c])
    requires Covers(elem, plan) && Binds(plan, elem, vals)
    requires Exists(s, key) && IsRow(t, version, row, key, Latest(s.rows[key]).version)
    ensures Hits(plan.wheres, vals, row) <==> key == s.held[c].key && DeleteHitsRow(s, s.held[c])
  {
    DeleteHits(t, plan, elem, vals, row);
    SameKey(t, version, elem, s.held[c], row, key, Latest(s.rows[key]).version);
  }
}
