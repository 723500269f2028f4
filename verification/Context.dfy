/**
 The cancellation tree of package context, step by step.

 A ctx is named by its creation number.  `cancel` holds the lock of the ctx that it cancels
 until all children are cancelled, so a ctx that is being cancelled is `Cancelling`: the children
 still to visit, and the one whose own cancel has been called and not returned.  Steps of any
 number of goroutines interleave; a step that needs a lock waits while its owner is `Cancelling`.
 */
module Context {
  import opened Basics

  type Id = nat

  datatype Error = Canceled | DeadlineExceeded | ParentError

  datatype Phase =
    | Active
    | Cancelling(todo: set<Id>, current: Option<Id>, remove: bool)
    | Finished

  /** `closes` counts how often the done channel has been closed; a ctx without one is not cancelable. */
  datatype Ctx = Ctx(
    parent: Option<Id>,
    cancelable: bool,
    err: Option<Error>,
    closes: nat,
    children: set<Id>,
    deadline: Option<int>,
    phase: Phase)

  /** What newCtx is given: no parent, a Context of another type (with or without a Done channel), a ctx. */
  datatype Parent = NoParent | Foreign(mayCancel: bool, deadline: Option<int>) | Own(id: Id)

  /**
   `cancelers` are the ctxs that may be cancelled from outside, with the error that they are given:
   by a CancelFunc, by the timer of their own deadline, or by the goroutine watching a foreign
   parent.  `removals` are those whose cancel has still to leave the parent's children.
   */
  datatype State = State(ctxs: seq<Ctx>, cancelers: set<(Id, Error)>, removals: set<Id>, panicked: bool)

  // ----- Steps -----------------------------------------------------------------------

  datatype Action =
    /** newCtx, and the deadline that WithDeadline asks for, if it is that */
    | New(parent: Parent, childMayCancel: bool, asked: Option<int>)
    /** cancel(remove, err), called by a CancelFunc, a timer or a goroutine watching a foreign parent */
    | Cancel(id: Id, remove: bool, err: Error)
    /** child.cancel(false, err) in the loop over the children */
    | Descend(id: Id, child: Id)
    /** the end of that loop: children become nil and the lock is released */
    | Finish(id: Id)
    /** delete(p.children, c) */
    | Remove(id: Id)

  predicate Locked(s: State, id: Id) {
    id < |s.ctxs| && s.ctxs[id].phase.Cancelling?
  }

  predicate Enabled(s: State, a: Action) {
    match a
    case New(parent, childMayCancel, asked) =>
      (parent.Own? ==> parent.id < |s.ctxs| && !Locked(s, parent.id)) && (asked.Some? ==> childMayCancel)
    case Cancel(id, remove, err) => (id, err) in s.cancelers && remove == (err == Canceled) && id < |s.ctxs| && !Locked(s, id)
    case Descend(id, child) =>
      && Locked(s, id) && s.ctxs[id].phase.current.None? && child in s.ctxs[id].phase.todo
      && child < |s.ctxs| && !Locked(s, child)
    case Finish(id) => Locked(s, id) && s.ctxs[id].phase.current.None? && s.ctxs[id].phase.todo == {}
    case Remove(id) =>
      && id in s.removals && id < |s.ctxs|
      && s.ctxs[id].parent.Some? && s.ctxs[id].parent.value < |s.ctxs| && !Locked(s, s.ctxs[id].parent.value)
  }

  /** The two internal errors of cancel: no error given, no done channel. */
  predicate Panics(c: Ctx, err: Option<Error>) {
    err.None? || !c.cancelable
  }

  /** The first cancel of a ctx: close done, set err, start on the children.  Later ones do nothing. */
  function StartCancel(c: Ctx, remove: bool, err: Option<Error>): Ctx {
    if Panics(c, err) || c.err.Some? then c
    else c.(closes := c.closes + 1, err := err, phase := Cancelling(c.children, None, remove))
  }

  /** WithDeadline keeps an inherited deadline that is before the new one. */
  function NewDeadline(inherited: Option<int>, asked: Option<int>): Option<int> {
    if asked.None? || (inherited.Some? && inherited.value < asked.value) then inherited else asked
  }

  /** The deadline that a new ctx starts with. */
  function Inherited(s: State, parent: Parent): Option<int>
    requires parent.Own? ==> parent.id < |s.ctxs|
  {
    match parent
    case NoParent => None
    case Foreign(_, deadline) => deadline
    case Own(id) => s.ctxs[id].deadline
  }

  /** Who may cancel a new ctx from outside: WithDeadline starts no timer if it keeps the inherited deadline. */
  function NewCancelers(s: State, parent: Parent, childMayCancel: bool, asked: Option<int>): set<(Id, Error)>
    requires parent.Own? ==> parent.id < |s.ctxs|
  {
    var id, inherited := |s.ctxs|, Inherited(s, parent);
    (if childMayCancel then {(id, Canceled)} else {})
    + (if asked.None? || (inherited.Some? && inherited.value < asked.value) then {} else {(id, DeadlineExceeded)})
    + (if parent.Foreign? && parent.mayCancel then {(id, ParentError)} else {})
  }

  function NewCtx(s: State, parent: Parent, childMayCancel: bool, asked: Option<int>): Ctx
    requires Enabled(s, New(parent, childMayCancel, asked))
  {
    match parent
    case NoParent => Ctx(None, childMayCancel, None, 0, {}, NewDeadline(None, asked), Active)
    case Foreign(mayCancel, _) =>
      Ctx(None, childMayCancel || mayCancel, None, 0, {}, NewDeadline(Inherited(s, parent), asked), Active)
    case Own(id) =>
      var p := s.ctxs[id];
      var c := Ctx(Some(id), childMayCancel || p.cancelable, None, 0, {}, NewDeadline(Inherited(s, parent), asked), Active);
      if p.cancelable && p.err.Some?
      then StartCancel(c, false, p.err).(phase := Finished)
      else c
  }

  /** The parent remembers a child that it may have to cancel. */
  function Adopted(ctxs: seq<Ctx>, parent: Parent): seq<Ctx> {
    if parent.Own? && parent.id < |ctxs| && ctxs[parent.id].cancelable && ctxs[parent.id].err.None?
    then ctxs[parent.id := ctxs[parent.id].(children := ctxs[parent.id].children + {|ctxs|})]
    else ctxs
  }

  /** The caller of a finished cancel, if it was a parent's loop, goes on. */
  function Returned(ctxs: seq<Ctx>, parent: Option<Id>, id: Id): seq<Ctx> {
    if parent.Some? && parent.value < |ctxs| && ctxs[parent.value].phase.Cancelling?
       && ctxs[parent.value].phase.current == Some(id)
    then ctxs[parent.value := ctxs[parent.value].(phase := ctxs[parent.value].phase.(current := None))]
    else ctxs
  }

  function Do(s: State, a: Action): State
    requires Enabled(s, a)
  {
    match a
    case New(parent, childMayCancel, asked) =>
      s.(ctxs := Adopted(s.ctxs, parent) + [NewCtx(s, parent, childMayCancel, asked)],
         cancelers := s.cancelers + NewCancelers(s, parent, childMayCancel, asked),
         panicked := s.panicked || (parent.Own? && s.ctxs[parent.id].cancelable && s.ctxs[parent.id].err.Some?
                                    && !(childMayCancel || s.ctxs[parent.id].cancelable)))
    case Cancel(id, remove, err) =>
      s.(ctxs := s.ctxs[id := StartCancel(s.ctxs[id], remove, Some(err))],
         panicked := s.panicked || Panics(s.ctxs[id], Some(err)))
    case Descend(id, child) =>
      var c := s.ctxs[id];
      var called := StartCancel(s.ctxs[child], false, c.err);
      var left := c.phase.(todo := c.phase.todo - {child}, current := if called.phase.Cancelling? then Some(child) else None);
      s.(ctxs := s.ctxs[child := called][id := c.(phase := left)],
         panicked := s.panicked || Panics(s.ctxs[child], c.err))
    case Finish(id) =>
      var c := s.ctxs[id];
      s.(ctxs := Returned(s.ctxs[id := c.(children := {}, phase := Finished)], c.parent, id),
         removals := if c.phase.remove && c.parent.Some? then s.removals + {id} else s.removals)
    case Remove(id) =>
      var p := s.ctxs[id].parent.value;
      s.(ctxs := s.ctxs[p := s.ctxs[p].(children := s.ctxs[p].children - {id})], removals := s.removals - {id})
  }

  function Start(): State {
    State([], {}, {}, false)
  }

  /** The state after a run, if each step was enabled when it was taken. */
  function After(s: State, run: seq<Action>): Option<State>
    decreases |run|
  {
    if run == [] then Some(s)
    else if Enabled(s, run[0]) then After(Do(s, run[0]), run[1..])
    else None
  }

  // ----- The invariant ---------------------------------------------------------------

  ghost predicate IsChild(s: State, id: Id, child: Id) {
    id < child < |s.ctxs| && s.ctxs[child].parent == Some(id)
  }

  /** One ctx by itself: done is closed exactly once and exactly when err is set. */
  ghost predicate CtxOk(c: Ctx) {
    && (c.phase == Active <==> c.err.None?)
    && c.closes == (if c.err.Some? then 1 else 0)
    && (c.err.Some? ==> c.cancelable)
    && (c.children != {} ==> c.cancelable)
    && (c.phase == Finished ==> c.children == {})
    && (c.phase.Cancelling? ==> c.phase.todo <= c.children && (c.phase.current.Some? ==> c.phase.current.value in c.children))
  }

  /** A ctx and its parent. */
  ghost predicate EdgeOk(s: State, id: Id, child: Id)
    requires IsChild(s, id, child)
  {
    var p, c := s.ctxs[id], s.ctxs[child];
    && (p.cancelable ==> c.cancelable && (child in p.children || c.phase == Finished))
    && (p.deadline.Some? ==> c.deadline.Some? && c.deadline.value <= p.deadline.value)
    && (p.phase.Cancelling? ==> child in p.phase.todo || c.phase == Finished
                                || (p.phase.current == Some(child) && c.phase.Cancelling?))
    && (p.phase.Cancelling? && p.phase.current == Some(child) ==> c.phase.Cancelling?)
  }

  ghost predicate CancelerOk(s: State, id: Id, err: Error) {
    id < |s.ctxs| && s.ctxs[id].cancelable && (err == DeadlineExceeded ==> s.ctxs[id].deadline.Some?)
  }

  ghost predicate NodesOk(s: State) {
    && !s.panicked
    && (forall id :: 0 <= id < |s.ctxs| ==> CtxOk(s.ctxs[id]))
    && (forall id :: 0 <= id < |s.ctxs| && s.ctxs[id].parent.Some? ==> IsChild(s, s.ctxs[id].parent.value, id))
    && (forall id, child :: 0 <= id < |s.ctxs| && child in s.ctxs[id].children ==> IsChild(s, id, child))
    && (forall c :: c in s.cancelers ==> CancelerOk(s, c.0, c.1))
    && (forall id :: id in s.removals ==> id < |s.ctxs| && s.ctxs[id].phase == Finished)
  }

  ghost predicate EdgesOk(s: State) {
    forall id, child :: IsChild(s, id, child) ==> EdgeOk(s, id, child)
  }

  ghost predicate Inv(s: State) {
    NodesOk(s) && EdgesOk(s)
  }

  lemma NewKeepsNodes(s: State, parent: Parent, childMayCancel: bool, asked: Option<int>)
    requires Inv(s) && Enabled(s, New(parent, childMayCancel, asked))
    ensures NodesOk(Do(s, New(parent, childMayCancel, asked)))
  {
    var t := Do(s, New(parent, childMayCancel, asked));
    if parent.Own? { assert CtxOk(s.ctxs[parent.id]); }
    forall i | 0 <= i < |t.ctxs| ensures CtxOk(t.ctxs[i]) {
      if i < |s.ctxs| { assert CtxOk(s.ctxs[i]); }
    }
  }

  lemma NewKeepsInv(s: State, parent: Parent, childMayCancel: bool, asked: Option<int>)
    requires Inv(s) && Enabled(s, New(parent, childMayCancel, asked))
    ensures Inv(Do(s, New(parent, childMayCancel, asked)))
  {
    NewKeepsNodes(s, parent, childMayCancel, asked);
    var t := Do(s, New(parent, childMayCancel, asked));
    forall id: Id, child: Id | IsChild(t, id, child) ensures EdgeOk(t, id, child) {
      if child < |s.ctxs| { assert IsChild(s, id, child); }
    }
  }

  lemma CancelKeepsNodes(s: State, id: Id, remove: bool, err: Error)
    requires Inv(s) && Enabled(s, Cancel(id, remove, err))
    ensures NodesOk(Do(s, Cancel(id, remove, err)))
  {
  }

  lemma CancelKeepsInv(s: State, id: Id, remove: bool, err: Error)
    requires Inv(s) && Enabled(s, Cancel(id, remove, err))
    ensures Inv(Do(s, Cancel(id, remove, err)))
  {
    CancelKeepsNodes(s, id, remove, err);
    var t := Do(s, Cancel(id, remove, err));
    forall p, child | IsChild(t, p, child) ensures EdgeOk(t, p, child) {
      assert IsChild(s, p, child) && EdgeOk(s, p, child);
    }
  }

  lemma DescendKeepsNodes(s: State, id: Id, child: Id)
    requires Inv(s) && Enabled(s, Descend(id, child))
    ensures NodesOk(Do(s, Descend(id, child)))
  {
    assert IsChild(s, id, child) && EdgeOk(s, id, child);
  }

  lemma DescendKeepsInv(s: State, id: Id, child: Id)
    requires Inv(s) && Enabled(s, Descend(id, child))
    ensures Inv(Do(s, Descend(id, child)))
  {
    DescendKeepsNodes(s, id, child);
    var t := Do(s, Descend(id, child));
    assert IsChild(s, id, child) && EdgeOk(s, id, child);
    forall p, c | IsChild(t, p, c) ensures EdgeOk(t, p, c) {
      assert IsChild(s, p, c) && EdgeOk(s, p, c);
    }
  }

  lemma FinishKeepsNodes(s: State, id: Id)
    requires Inv(s) && Enabled(s, Finish(id))
    ensures NodesOk(Do(s, Finish(id)))
  {
    var t := Do(s, Finish(id));
    assert CtxOk(s.ctxs[id]) && |t.ctxs| == |s.ctxs|;
    forall i | 0 <= i < |t.ctxs| ensures CtxOk(t.ctxs[i]) && t.ctxs[i].parent == s.ctxs[i].parent && t.ctxs[i].children <= s.ctxs[i].children {
      assert CtxOk(s.ctxs[i]);
    }
  }

  lemma FinishKeepsInv(s: State, id: Id)
    requires Inv(s) && Enabled(s, Finish(id))
    ensures Inv(Do(s, Finish(id)))
  {
    FinishKeepsNodes(s, id);
    var t := Do(s, Finish(id));
    forall p, child | IsChild(t, p, child) ensures EdgeOk(t, p, child) {
      assert IsChild(s, p, child) && EdgeOk(s, p, child);
    }
  }

  lemma RemoveKeepsInv(s: State, id: Id)
    requires Inv(s) && Enabled(s, Remove(id))
    ensures Inv(Do(s, Remove(id)))
  {
  }

  lemma StepKeepsInv(s: State, a: Action)
    requires Inv(s) && Enabled(s, a)
    ensures Inv(Do(s, a))
  {
    match a
    case New(parent, childMayCancel, asked) => NewKeepsInv(s, parent, childMayCancel, asked);
    case Cancel(id, remove, err) => CancelKeepsInv(s, id, remove, err);
    case Descend(id, child) => DescendKeepsInv(s, id, child);
    case Finish(id) => FinishKeepsInv(s, id);
    case Remove(id) => RemoveKeepsInv(s, id);
  }

  lemma {:induction false} RunsKeepInv(s: State, run: seq<Action>)
    requires Inv(s) && After(s, run).Some?
    ensures Inv(After(s, run).value)
    decreases |run|
  {
    if run != [] {
      StepKeepsInv(s, run[0]);
      RunsKeepInv(Do(s, run[0]), run[1..]);
    }
  }

  // ----- Safety over whole runs ------------------------------------------------------

  ghost predicate Reachable(s: State) {
    exists run :: After(Start(), run) == Some(s)
  }

  lemma ReachableKeepsInv(s: State)
    requires Reachable(s)
    ensures Inv(s)
  {
    var run :| After(Start(), run) == Some(s);
    RunsKeepInv(Start(), run);
  }

  /** Neither panic happens; done is closed at most once, and it is closed exactly when err is set. */
  lemma DoneIsClosedOnceIffErr(s: State, id: Id)
    requires Reachable(s) && id < |s.ctxs|
    ensures !s.panicked
    ensures s.ctxs[id].closes <= 1
    ensures s.ctxs[id].closes == 1 <==> s.ctxs[id].err.Some?
    ensures s.ctxs[id].err.Some? ==> s.ctxs[id].cancelable
  {
    ReachableKeepsInv(s);
  }

  ghost predicate Ancestor(s: State, id: Id, below: Id)
    decreases below
  {
    && id < below < |s.ctxs| && s.ctxs[below].parent.Some? && s.ctxs[below].parent.value < below
    && (s.ctxs[below].parent.value == id || Ancestor(s, id, s.ctxs[below].parent.value))
  }

  /** Err takes the lock, so whoever sees a ctx cancelled finds it unlocked: then all below it are cancelled. */
  lemma {:induction false} CancelledMeansAllBelow(s: State, id: Id, below: Id)
    requires Inv(s) && Ancestor(s, id, below)
    requires s.ctxs[id].err.Some? && !Locked(s, id)
    ensures s.ctxs[below].err.Some? && s.ctxs[below].closes == 1 && !Locked(s, below)
    decreases below
  {
    var p := s.ctxs[below].parent.value;
    assert IsChild(s, p, below);
    if p != id { CancelledMeansAllBelow(s, id, p); }
    assert s.ctxs[p].phase == Finished;
    assert EdgeOk(s, p, below);
  }

  /** No deadline is later than one above it, and every ctx below a cancelable one is cancelable. */
  lemma {:induction false} DeadlinesOnlyShrink(s: State, id: Id, below: Id)
    requires Inv(s) && Ancestor(s, id, below)
    ensures s.ctxs[id].deadline.Some? ==> s.ctxs[below].deadline.Some? && s.ctxs[below].deadline.value <= s.ctxs[id].deadline.value
    ensures s.ctxs[id].cancelable ==> s.ctxs[below].cancelable
    decreases below
  {
    var p := s.ctxs[below].parent.value;
    assert IsChild(s, p, below);
    if p != id { DeadlinesOnlyShrink(s, id, p); }
    assert EdgeOk(s, p, below);
  }

  /** What no step changes of a ctx: its place, its deadline, and its error once it has one. */
  ghost predicate Same(c: Ctx, d: Ctx) {
    && c.parent == d.parent && c.deadline == d.deadline && c.cancelable == d.cancelable
    && (c.err.Some? ==> d.err == c.err)
  }

  lemma StepKeepsError(s: State, a: Action, id: Id)
    requires Enabled(s, a) && id < |s.ctxs|
    ensures id < |Do(s, a).ctxs| && Same(s.ctxs[id], Do(s, a).ctxs[id])
  {
  }

  /** A ctx keeps the error of its first cancel for ever. */
  lemma {:induction false} ErrorIsFinal(s: State, run: seq<Action>, id: Id)
    requires After(s, run).Some? && id < |s.ctxs|
    ensures id < |After(s, run).value.ctxs| && Same(s.ctxs[id], After(s, run).value.ctxs[id])
    decreases |run|
  {
    if run != [] {
      StepKeepsError(s, run[0], id);
      ErrorIsFinal(Do(s, run[0]), run[1..], id);
    }
  }

  /** A parent forgets a child that was removed, and does not take it back. */
  lemma RemovedForGood(s: State, id: Id, run: seq<Action>)
    requires Enabled(s, Remove(id)) && After(Do(s, Remove(id)), run).Some?
    ensures var t, p := After(Do(s, Remove(id)), run).value, s.ctxs[id].parent.value;
      p < |t.ctxs| && id !in t.ctxs[p].children
    ensures id !in Do(s, Remove(id)).removals
  {
    StaysForgotten(Do(s, Remove(id)), run, s.ctxs[id].parent.value, id);
  }

  lemma {:induction false} StaysForgotten(s: State, run: seq<Action>, p: Id, id: Id)
    requires After(s, run).Some? && p < |s.ctxs| && id < |s.ctxs| && id !in s.ctxs[p].children
    ensures p < |After(s, run).value.ctxs| && id !in After(s, run).value.ctxs[p].children
    decreases |run|
  {
    if run != [] { StaysForgotten(Do(s, run[0]), run[1..], p, id); }
  }

  /** The ctx is being cancelled by its CancelFunc, or has still to leave its parent, or has left it. */
  ghost predicate Leaving(s: State, id: Id, p: Id) {
    && id < |s.ctxs| && p < |s.ctxs| && p != id && s.ctxs[id].parent == Some(p) && s.ctxs[id].err.Some?
    && if s.ctxs[id].phase.Cancelling? then s.ctxs[id].phase.remove else id in s.removals || id !in s.ctxs[p].children
  }

  lemma StepKeepsLeaving(s: State, a: Action, id: Id, p: Id)
    requires Inv(s) && Enabled(s, a) && Leaving(s, id, p)
    ensures Leaving(Do(s, a), id, p)
  {
  }

  lemma {:induction false} RunsKeepLeaving(s: State, run: seq<Action>, id: Id, p: Id)
    requires Inv(s) && After(s, run).Some? && Leaving(s, id, p)
    ensures Leaving(After(s, run).value, id, p)
    decreases |run|
  {
    if run != [] {
      StepKeepsInv(s, run[0]);
      StepKeepsLeaving(s, run[0], id, p);
      RunsKeepLeaving(Do(s, run[0]), run[1..], id, p);
    }
  }

  /** A ctx that its CancelFunc cancels first leaves its parent: once that has ended, only the removal is left to do. */
  lemma CancelFuncRemoves(s: State, id: Id, run: seq<Action>)
    requires Inv(s) && Enabled(s, Cancel(id, true, Canceled)) && s.ctxs[id].err.None? && s.ctxs[id].parent.Some?
    requires After(Do(s, Cancel(id, true, Canceled)), run).Some?
    ensures var t, p := After(Do(s, Cancel(id, true, Canceled)), run).value, s.ctxs[id].parent.value;
      && id < |t.ctxs| && p < |t.ctxs|
      && (!Locked(t, id) ==> id in t.removals || id !in t.ctxs[p].children)
  {
    assert IsChild(s, s.ctxs[id].parent.value, id) && CancelerOk(s, id, Canceled);
    StepKeepsInv(s, Cancel(id, true, Canceled));
    RunsKeepLeaving(Do(s, Cancel(id, true, Canceled)), run, id, s.ctxs[id].parent.value);
  }

  // ----- Nothing is cancelled without a cause ----------------------------------------

  /** The cancels that were called from outside, with the error they were given. */
  function Causes(run: seq<Action>): set<(Id, Error)> {
    if run == [] then {} else Cause(run[0]) + Causes(run[1..])
  }

  function Cause(a: Action): set<(Id, Error)> {
    if a.Cancel? then {(a.id, a.err)} else {}
  }

  /** The ctx was cancelled with its error from outside, or its parent has the same error and was. */
  ghost predicate Caused(s: State, causes: set<(Id, Error)>, id: Id)
    requires id < |s.ctxs|
    decreases id
  {
    var c := s.ctxs[id];
    && c.err.Some?
    && ((id, c.err.value) in causes || (c.parent.Some? && c.parent.value < id && s.ctxs[c.parent.value].err == c.err && Caused(s, causes, c.parent.value)))
  }

  ghost predicate AllCaused(s: State, causes: set<(Id, Error)>) {
    forall id :: 0 <= id < |s.ctxs| && s.ctxs[id].err.Some? ==> Caused(s, causes, id)
  }

  lemma {:induction false} CausedLater(s: State, t: State, causes: set<(Id, Error)>, more: set<(Id, Error)>, id: Id)
    requires id < |s.ctxs| <= |t.ctxs| && Caused(s, causes, id) && causes <= more
    requires forall k :: 0 <= k < |s.ctxs| ==> Same(s.ctxs[k], t.ctxs[k])
    ensures Caused(t, more, id)
    decreases id
  {
    if (id, s.ctxs[id].err.value) !in causes { CausedLater(s, t, causes, more, s.ctxs[id].parent.value); }
  }

  lemma StepCaused(s: State, a: Action, causes: set<(Id, Error)>)
    requires Inv(s) && Enabled(s, a) && AllCaused(s, causes)
    ensures AllCaused(Do(s, a), causes + Cause(a))
  {
    var t, more := Do(s, a), causes + Cause(a);
    forall k | 0 <= k < |s.ctxs| ensures Same(s.ctxs[k], t.ctxs[k]) { StepKeepsError(s, a, k); }
    forall k | 0 <= k < |t.ctxs| && t.ctxs[k].err.Some? ensures Caused(t, more, k) {
      if k < |s.ctxs| && s.ctxs[k].err.Some? {
        CausedLater(s, t, causes, more, k);
      } else if a.Descend? {
        CausedLater(s, t, causes, more, a.id);
        assert IsChild(s, a.id, a.child);
      } else if a.New? {
        CausedLater(s, t, causes, more, a.parent.id);
      }
    }
  }

  /** Whatever is cancelled has the error of a cancel from outside, its own or of a ctx above it, as has all between. */
  lemma {:induction false} CancelsHaveCauses(s: State, run: seq<Action>, causes: set<(Id, Error)>)
    requires Inv(s) && AllCaused(s, causes) && After(s, run).Some?
    ensures AllCaused(After(s, run).value, causes + Causes(run))
    decreases |run|
  {
    if run == [] {
      assert causes + Causes(run) == causes;
    } else {
      var more := causes + Cause(run[0]);
      StepKeepsInv(s, run[0]);
      StepCaused(s, run[0], causes);
      CancelsHaveCauses(Do(s, run[0]), run[1..], more);
      assert more + Causes(run[1..]) == causes + Causes(run);
    }
  }

  // ----- Deadlines ---------------------------------------------------------------------

  /** d is the earlier of the two, where there are two. */
  ghost predicate IsEarlier(d: Option<int>, a: Option<int>, b: Option<int>) {
    && (d == a || d == b)
    && (a.Some? ==> d.Some? && d.value <= a.value)
    && (b.Some? ==> d.Some? && d.value <= b.value)
  }

  /** A new ctx has the earlier of the deadline asked for and the inherited one, whatever happens afterwards. */
  lemma DeadlineIsEarlier(s: State, parent: Parent, childMayCancel: bool, asked: Option<int>, run: seq<Action>)
    requires Enabled(s, New(parent, childMayCancel, asked)) && After(Do(s, New(parent, childMayCancel, asked)), run).Some?
    ensures var t := After(Do(s, New(parent, childMayCancel, asked)), run).value;
      |s.ctxs| < |t.ctxs| && IsEarlier(t.ctxs[|s.ctxs|].deadline, asked, Inherited(s, parent))
  {
    ErrorIsFinal(Do(s, New(parent, childMayCancel, asked)), run, |s.ctxs|);
  }

  /**
   Who may cancel a new ctx from outside: the CancelFunc, a timer exactly if the deadline is the one
   asked for, and whoever watches a foreign parent that may be cancelled.  Only the first removes it.
   */
  lemma MayBeCancelledIff(s: State, parent: Parent, childMayCancel: bool, asked: Option<int>, remove: bool, err: Error)
    requires Inv(s) && Enabled(s, New(parent, childMayCancel, asked))
    ensures var t, inherited := Do(s, New(parent, childMayCancel, asked)), Inherited(s, parent);
      Enabled(t, Cancel(|s.ctxs|, remove, err)) <==>
        match err
        case Canceled => remove && childMayCancel
        case DeadlineExceeded => !remove && asked.Some? && (inherited.Some? ==> asked.value <= inherited.value)
        case ParentError => !remove && parent.Foreign? && parent.mayCancel
  {
    assert forall c :: c in s.cancelers ==> c.0 < |s.ctxs|;
  }

  /** All causes came from those who may cancel. */
  lemma {:induction false} CausesMayCancel(s: State, run: seq<Action>)
    requires After(s, run).Some?
    ensures s.cancelers + Causes(run) <= After(s, run).value.cancelers
    decreases |run|
  {
    if run != [] { CausesMayCancel(Do(s, run[0]), run[1..]); }
  }

  /** The deadline error is given only to what has a deadline. */
  lemma DeadlineErrorNeedsDeadline(s: State, id: Id)
    requires Reachable(s) && id < |s.ctxs| && s.ctxs[id].err == Some(DeadlineExceeded)
    ensures s.ctxs[id].deadline.Some?
  {
    var run :| After(Start(), run) == Some(s);
    RunsKeepInv(Start(), run);
    CancelsHaveCauses(Start(), run, {});
    CausesMayCancel(Start(), run);
    assert {} + Causes(run) == Causes(run);
    CauseHasDeadline(s, Causes(run), id);
  }

  lemma {:induction false} CauseHasDeadline(s: State, causes: set<(Id, Error)>, id: Id)
    requires Inv(s) && causes <= s.cancelers && id < |s.ctxs| && Caused(s, causes, id) && s.ctxs[id].err == Some(DeadlineExceeded)
    ensures s.ctxs[id].deadline.Some?
    decreases id
  {
    if (id, DeadlineExceeded) in causes {
      assert CancelerOk(s, id, DeadlineExceeded);
    } else {
      var p := s.ctxs[id].parent.value;
      CauseHasDeadline(s, causes, p);
      assert IsChild(s, p, id) && EdgeOk(s, p, id);
    }
  }

  // ----- The recursive cancel ends ---------------------------------------------------

  /** The steps of a cancel that has begun. */
  predicate Internal(a: Action) {
    a.Descend? || a.Finish?
  }

  /** The largest locked ctx below `bound`. */
  lemma {:induction false} LastLocked(s: State, bound: nat, id: Id) returns (last: Id)
    requires id < bound <= |s.ctxs| && Locked(s, id)
    ensures id <= last < bound && Locked(s, last)
    ensures forall k :: last < k < bound ==> !Locked(s, k)
    decreases bound
  {
    if Locked(s, bound - 1) { last := bound - 1; } else { last := LastLocked(s, bound - 1, id); }
  }

  lemma CurrentIsLocked(s: State, id: Id)
    requires Inv(s) && Locked(s, id)
    ensures var current := s.ctxs[id].phase.current; current.Some? ==> id < current.value && Locked(s, current.value)
  {
    var current := s.ctxs[id].phase.current;
    if current.Some? {
      assert CtxOk(s.ctxs[id]) && IsChild(s, id, current.value);
      assert EdgeOk(s, id, current.value);
    }
  }

  /** Locks are taken from parent to child only, so some cancel can always go on. */
  lemma CancelIsNeverStuck(s: State, id: Id) returns (next: Action)
    requires Inv(s) && Locked(s, id)
    ensures Internal(next) && Enabled(s, next)
  {
    var last := LastLocked(s, |s.ctxs|, id);
    var phase := s.ctxs[last].phase;
    CurrentIsLocked(s, last);
    if phase.todo == {} {
      next := Finish(last);
    } else {
      var child :| child in phase.todo;
      assert IsChild(s, last, child);
      next := Descend(last, child);
    }
  }

  function Weight(c: Ctx): nat {
    match c.phase
    case Active => |c.children| + 2
    case Cancelling(todo, _, _) => |todo| + 1
    case Finished => 0
  }

  function Total(ctxs: seq<Ctx>): nat {
    if ctxs == [] then 0 else Weight(ctxs[0]) + Total(ctxs[1..])
  }

  lemma {:induction false} TotalUpdate(ctxs: seq<Ctx>, id: Id, c: Ctx)
    requires id < |ctxs|
    ensures Total(ctxs[id := c]) == Total(ctxs) - Weight(ctxs[id]) + Weight(c)
  {
    if id == 0 {
      assert ctxs[0 := c][1..] == ctxs[1..];
    } else {
      assert ctxs[id := c][1..] == ctxs[1..][id - 1 := c];
      TotalUpdate(ctxs[1..], id - 1, c);
    }
  }

  lemma CancelShrinks(s: State, a: Action)
    requires Inv(s) && Enabled(s, a) && Internal(a)
    ensures Total(Do(s, a).ctxs) < Total(s.ctxs)
  {
    var c := s.ctxs[a.id];
    if a.Descend? {
      var called := StartCancel(s.ctxs[a.child], false, c.err);
      TotalUpdate(s.ctxs, a.child, called);
      TotalUpdate(s.ctxs[a.child := called], a.id, Do(s, a).ctxs[a.id]);
      assert CtxOk(s.ctxs[a.child]) && IsChild(s, a.id, a.child);
    } else {
      var done := s.ctxs[a.id := c.(children := {}, phase := Finished)];
      TotalUpdate(s.ctxs, a.id, done[a.id]);
      if Do(s, a).ctxs != done {
        TotalUpdate(done, c.parent.value, Do(s, a).ctxs[c.parent.value]);
      }
    }
  }

  /** From any state, the cancels that have begun take a bounded number of steps. */
  lemma {:induction false} CancelTerminates(s: State, run: seq<Action>)
    requires Inv(s) && After(s, run).Some?
    requires forall k :: 0 <= k < |run| ==> Internal(run[k])
    ensures |run| + Total(After(s, run).value.ctxs) <= Total(s.ctxs)
    decreases |run|
  {
    if run != [] {
      StepKeepsInv(s, run[0]);
      CancelShrinks(s, run[0]);
      CancelTerminates(Do(s, run[0]), run[1..]);
    }
  }
}
