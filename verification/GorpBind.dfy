/**
 gorp's bind plans: the statements generated from a table's columns, and the values that are bound
 to them from a struct.

 A statement is its clauses in the order of the text; a dialect may number its bind variables or
 leave them positional, so both readings have to agree.  Struct fields hold integers.
 */
module GorpBind {
  import opened Basics

  datatype Column = Column(name: string, field: string, autoIncr: bool, transient: bool)

  /** What newTableMap, SetKeys and SetVersionCol leave: columns, and the key and version columns among them. */
  datatype Table = Table(columns: seq<Column>, keys: seq<nat>, version: Option<nat>)

  ghost predicate TableOk(t: Table) {
    && (forall k :: 0 <= k < |t.keys| ==> t.keys[k] < |t.columns|)
    && (t.version.Some? ==> t.version.value < |t.columns|)
  }

  /** A bind variable, or the dialect's own expression for an automatic value. */
  datatype Bind = Var(number: nat) | Automatic

  datatype Clause = Clause(column: string, bind: Bind)

  /** An entry of argFields: the marker for the version, or a field's name. */
  datatype Arg = NewVersion | Field(name: string)

  datatype Plan = Plan(
    sets: seq<Clause>, wheres: seq<Clause>, args: seq<Arg>, keyFields: seq<string>,
    versField: Option<string>, autoIncr: Option<nat>)

  const NoPlan := Plan([], [], [], [], None, None)

  type Struct = map<string, int>
  type Row = map<string, int>

  // ----- The plans, as functions of the table ----------------------------------------

  predicate Updated(c: Column) {
    !c.autoIncr && !c.transient
  }

  /** The indices below n of the columns that an UPDATE sets. */
  function Targets(columns: seq<Column>, n: nat): seq<nat>
    requires n <= |columns|
  {
    if n == 0 then []
    else Targets(columns, n - 1) + if Updated(columns[n - 1]) then [n - 1] else []
  }

  lemma {:induction false} TargetsAre(columns: seq<Column>, n: nat)
    requires n <= |columns|
    ensures var s := Targets(columns, n);
      && (forall i :: 0 <= i < n && Updated(columns[i]) ==> i in s)
      && (forall k :: 0 <= k < |s| ==> s[k] < n && Updated(columns[s[k]]))
      && (forall j, k :: 0 <= j < k < |s| ==> s[j] < s[k])
  {
    if n > 0 { TargetsAre(columns, n - 1); }
  }

  function ArgOf(t: Table, i: nat): Arg
    requires i < |t.columns|
  {
    if t.version == Some(i) then NewVersion else Field(t.columns[i].field)
  }

  /** The version column takes part in an UPDATE. */
  predicate Versioned(t: Table) {
    t.version.Some? && t.version.value < |t.columns| && Updated(t.columns[t.version.value])
  }

  /** The k-th SET clause has the k-th bind variable and argument, of the k-th target. */
  ghost predicate SetOk(t: Table, plan: Plan, targets: seq<nat>, k: nat)
    requires k < |targets| && k < |plan.sets| && k < |plan.args|
  {
    && targets[k] < |t.columns|
    && plan.sets[k] == Clause(t.columns[targets[k]].name, Var(k))
    && plan.args[k] == ArgOf(t, targets[k])
  }

  /** The k-th WHERE clause is on the k-th key, after `n` other bind variables. */
  ghost predicate KeyOk(t: Table, plan: Plan, n: nat, k: nat)
    requires TableOk(t) && k < |t.keys| && k < |plan.wheres| && k < |plan.keyFields| && n + k < |plan.args|
  {
    var col := t.columns[t.keys[k]];
    && plan.wheres[k] == Clause(col.name, Var(n + k))
    && plan.args[n + k] == Field(col.field)
    && plan.keyFields[k] == col.field
  }

  /** The WHERE clauses: one for each key, and one for the version if it takes part. */
  ghost predicate WheresOk(t: Table, plan: Plan, n: nat, versioned: bool)
    requires TableOk(t) && (versioned ==> t.version.Some?)
  {
    && |plan.keyFields| == |t.keys|
    && |plan.wheres| == |t.keys| + (if versioned then 1 else 0)
    && |plan.args| == n + |plan.wheres|
    && plan.versField == (if versioned then Some(t.columns[t.version.value].field) else None)
    && (forall k :: 0 <= k < |t.keys| ==> KeyOk(t, plan, n, k))
    && (versioned ==>
         && plan.wheres[|t.keys|] == Clause(t.columns[t.version.value].name, Var(n + |t.keys|))
         && plan.args[n + |t.keys|] == Field(t.columns[t.version.value].field))
  }

  /** What bindUpdate generates, clause by clause. */
  ghost predicate IsUpdatePlan(t: Table, plan: Plan)
    requires TableOk(t)
  {
    var targets := Targets(t.columns, |t.columns|);
    && |plan.sets| == |targets|
    && WheresOk(t, plan, |targets|, Versioned(t))
    && forall k :: 0 <= k < |targets| ==> SetOk(t, plan, targets, k)
  }

  /** What bindDelete generates; an automatic version column takes part here. */
  ghost predicate IsDeletePlan(t: Table, plan: Plan)
    requires TableOk(t)
  {
    plan.sets == [] && WheresOk(t, plan, 0, t.version.Some? && !t.columns[t.version.value].transient)
  }

  predicate Listed(c: Column, autoBinds: bool) {
    !c.transient && !(c.autoIncr && !autoBinds)
  }

  /** The indices below n of the columns that an INSERT names. */
  function Names(columns: seq<Column>, autoBinds: bool, n: nat): seq<nat>
    requires n <= |columns|
  {
    if n == 0 then []
    else Names(columns, autoBinds, n - 1) + if Listed(columns[n - 1], autoBinds) then [n - 1] else []
  }

  /** The clause of an INSERT for a column: its bind variable follows those of the targets before it. */
  function InsertClause(columns: seq<Column>, i: nat): Clause
    requires i < |columns|
  {
    Clause(columns[i].name, if columns[i].autoIncr then Automatic else Var(|Targets(columns, i)|))
  }

  /** The last column that the database fills in. */
  function LastAuto(columns: seq<Column>, autoBinds: bool, n: nat): Option<nat>
    requires n <= |columns|
  {
    if n == 0 then None
    else if columns[n - 1].autoIncr && (!autoBinds || !columns[n - 1].transient) then Some(n - 1)
    else LastAuto(columns, autoBinds, n - 1)
  }

  /** What bindInsert generates from the first n columns. */
  ghost predicate InsertsOk(t: Table, autoBinds: bool, plan: Plan, n: nat)
    requires TableOk(t) && n <= |t.columns|
  {
    var names, targets := Names(t.columns, autoBinds, n), Targets(t.columns, n);
    && |plan.sets| == |names| && |plan.args| == |targets| && plan.wheres == [] && plan.keyFields == []
    && (forall k :: 0 <= k < |names| ==> names[k] < n && plan.sets[k] == InsertClause(t.columns, names[k]))
    && (forall k :: 0 <= k < |targets| ==> targets[k] < n && plan.args[k] == ArgOf(t, targets[k]))
    && plan.versField == (if Versioned(t) && t.version.value < n then Some(t.columns[t.version.value].field) else None)
    && plan.autoIncr == LastAuto(t.columns, autoBinds, n)
  }

  ghost predicate IsInsertPlan(t: Table, autoBinds: bool, plan: Plan)
    requires TableOk(t)
  {
    InsertsOk(t, autoBinds, plan, |t.columns|)
  }

  // ----- The loops that build them ---------------------------------------------------

  /** The first loop of bindUpdate. */
  method UpdateSets(t: Table) returns (plan: Plan)
    requires TableOk(t)
    ensures var targets := Targets(t.columns, |t.columns|);
      && |plan.sets| == |plan.args| == |targets| && plan.wheres == [] && plan.keyFields == []
      && plan.versField == (if Versioned(t) then Some(t.columns[t.version.value].field) else None)
      && forall k :: 0 <= k < |targets| ==> SetOk(t, plan, targets, k)
  {
    plan := NoPlan;
    var x, y := 0, 0;
    while y < |t.columns|
      invariant 0 <= y <= |t.columns|
      invariant |plan.sets| == |plan.args| == |Targets(t.columns, y)| == x && plan.wheres == [] && plan.keyFields == []
      invariant plan.versField == if Versioned(t) && t.version.value < y then Some(t.columns[t.version.value].field) else None
      invariant forall k :: 0 <= k < x ==>
        && Targets(t.columns, y)[k] < |t.columns|
        && plan.sets[k] == Clause(t.columns[Targets(t.columns, y)[k]].name, Var(k))
        && plan.args[k] == ArgOf(t, Targets(t.columns, y)[k])
    {
      var col := t.columns[y];
      if !col.autoIncr && !col.transient {
        plan := plan.(sets := plan.sets + [Clause(col.name, Var(x))]);
        if t.version == Some(y) {
          plan := plan.(versField := Some(col.field), args := plan.args + [NewVersion]);
        } else {
          plan := plan.(args := plan.args + [Field(col.field)]);
        }
        x := x + 1;
      }
      y := y + 1;
    }
  }

  /** The loop over the keys, and the version, in bindUpdate and bindDelete. */
  method AddWheres(t: Table, given: Plan) returns (plan: Plan)
    requires TableOk(t) && given.wheres == [] && given.keyFields == []
    requires given.versField.Some? ==> t.version.Some? && given.versField == Some(t.columns[t.version.value].field)
    ensures plan.sets == given.sets && |given.args| <= |plan.args| && plan.args[..|given.args|] == given.args
    ensures WheresOk(t, plan, |given.args|, given.versField.Some?)
  {
    plan := given;
    ghost var n := |given.args|;
    var x, y := |given.args|, 0;
    while y < |t.keys|
      invariant 0 <= y <= |t.keys| && x == n + y
      invariant plan.sets == given.sets && plan.versField == given.versField
      invariant |plan.args| == x && |plan.wheres| == y && |plan.keyFields| == y
      invariant plan.args[..n] == given.args
      invariant forall k :: 0 <= k < y ==>
        && plan.wheres[k] == Clause(t.columns[t.keys[k]].name, Var(n + k))
        && plan.args[n + k] == Field(t.columns[t.keys[k]].field)
        && plan.keyFields[k] == t.columns[t.keys[k]].field
    {
      var col := t.columns[t.keys[y]];
      plan := plan.(wheres := plan.wheres + [Clause(col.name, Var(x))], args := plan.args + [Field(col.field)],
                    keyFields := plan.keyFields + [col.field]);
      x := x + 1;
      y := y + 1;
    }
    if plan.versField.Some? {
      plan := plan.(wheres := plan.wheres + [Clause(t.columns[t.version.value].name, Var(x))],
                    args := plan.args + [Field(plan.versField.value)]);
    }
  }

  method BuildUpdate(t: Table) returns (plan: Plan)
    requires TableOk(t)
    ensures IsUpdatePlan(t, plan)
  {
    var sets := UpdateSets(t);
    plan := AddWheres(t, sets);
    ghost var targets := Targets(t.columns, |t.columns|);
    forall k | 0 <= k < |targets| ensures SetOk(t, plan, targets, k) {
      assert SetOk(t, sets, targets, k);
      assert plan.args[k] == plan.args[..|sets.args|][k];
    }
  }

  method BuildDelete(t: Table) returns (plan: Plan)
    requires TableOk(t)
    ensures IsDeletePlan(t, plan)
  {
    plan := NoPlan;
    var y := 0;
    while y < |t.columns|
      invariant 0 <= y <= |t.columns|
      invariant plan == NoPlan.(versField := plan.versField)
      invariant plan.versField ==
        if t.version.Some? && t.version.value < y && !t.columns[t.version.value].transient
        then Some(t.columns[t.version.value].field) else None
    {
      if !t.columns[y].transient && t.version == Some(y) {
        plan := plan.(versField := Some(t.columns[y].field));
      }
      y := y + 1;
    }
    plan := AddWheres(t, plan);
  }

  method BuildInsert(t: Table, autoBinds: bool) returns (plan: Plan)
    requires TableOk(t)
    ensures IsInsertPlan(t, autoBinds, plan)
  {
    plan := NoPlan;
    var x, y := 0, 0;
    while y < |t.columns|
      invariant 0 <= y <= |t.columns| && x == |plan.args|
      invariant InsertsOk(t, autoBinds, plan, y)
    {
      var col := t.columns[y];
      if !(col.autoIncr && !autoBinds) {
        if !col.transient {
          plan, x := InsertColumn(t, autoBinds, plan, x, y);
        }
      } else {
        plan := plan.(autoIncr := Some(y));
      }
      y := y + 1;
    }
  }

  /** A column that the INSERT names. */
  method InsertColumn(t: Table, autoBinds: bool, plan: Plan, x: nat, y: nat) returns (plan': Plan, x': nat)
    requires TableOk(t) && y < |t.columns| && !(t.columns[y].autoIncr && !autoBinds) && !t.columns[y].transient
    requires x == |plan.args| && InsertsOk(t, autoBinds, plan, y)
    ensures x' == |plan'.args| && InsertsOk(t, autoBinds, plan', y + 1)
  {
    var col := t.columns[y];
    if col.autoIncr {
      plan' := plan.(sets := plan.sets + [Clause(col.name, Automatic)], autoIncr := Some(y));
      x' := x;
    } else {
      plan' := plan.(sets := plan.sets + [Clause(col.name, Var(x))]);
      if t.version == Some(y) {
        plan' := plan'.(versField := Some(col.field), args := plan.args + [NewVersion]);
      } else {
        plan' := plan'.(args := plan.args + [Field(col.field)]);
      }
      x' := x + 1;
    }
  }

  // ----- Binding a struct ------------------------------------------------------------

  /** The struct has every field that the plan reads. */
  ghost predicate Covers(elem: Struct, plan: Plan) {
    && (plan.versField.Some? ==> plan.versField.value in elem)
    && (NewVersion in plan.args ==> plan.versField.Some?)
    && (forall k :: 0 <= k < |plan.args| && plan.args[k].Field? ==> plan.args[k].name in elem)
    && (forall k :: 0 <= k < |plan.keyFields| ==> plan.keyFields[k] in elem)
  }

  ghost function Existing(plan: Plan, elem: Struct): int
    requires Covers(elem, plan)
  {
    if plan.versField.Some? then elem[plan.versField.value] else 0
  }

  /** The struct as it is when argument i is read: a version 0 is changed as soon as the marker is met. */
  ghost function Touched(plan: Plan, elem: Struct, i: nat): Struct
    requires Covers(elem, plan) && i <= |plan.args|
  {
    if NewVersion in plan.args[..i] && Existing(plan, elem) == 0 then elem[plan.versField.value := 1] else elem
  }

  ghost function BoundValue(plan: Plan, elem: Struct, i: nat): int
    requires Covers(elem, plan) && i < |plan.args|
  {
    match plan.args[i]
    case NewVersion => Existing(plan, elem) + 1
    case Field(name) => Touched(plan, elem, i)[name]
  }

  datatype Instance = Instance(args: seq<int>, keys: seq<int>, existing: int)

  ghost predicate Binds(plan: Plan, elem: Struct, vals: seq<int>)
    requires Covers(elem, plan)
  {
    |vals| == |plan.args| && forall i :: 0 <= i < |vals| ==> vals[i] == BoundValue(plan, elem, i)
  }

  method CreateBindInstance(plan: Plan, given: Struct) returns (b: Instance, elem: Struct)
    requires Covers(given, plan)
    ensures Binds(plan, given, b.args) && b.existing == Existing(plan, given)
    ensures elem == Touched(plan, given, |plan.args|)
    ensures |b.keys| == |plan.keyFields| && forall k :: 0 <= k < |b.keys| ==> b.keys[k] == elem[plan.keyFields[k]]
  {
    elem := given;
    b := Instance([], [], if plan.versField.Some? then given[plan.versField.value] else 0);
    var i := 0;
    while i < |plan.args|
      invariant 0 <= i <= |plan.args| && |b.args| == i && b.keys == [] && b.existing == Existing(plan, given)
      invariant elem == Touched(plan, given, i)
      invariant forall k :: 0 <= k < i ==> b.args[k] == BoundValue(plan, given, k)
    {
      assert plan.args[..i + 1] == plan.args[..i] + [plan.args[i]];
      match plan.args[i] {
        case NewVersion =>
          b := b.(args := b.args + [b.existing + 1]);
          if b.existing == 0 { elem := elem[plan.versField.value := b.existing + 1]; }
        case Field(name) =>
          b := b.(args := b.args + [elem[name]]);
      }
      i := i + 1;
    }
    assert plan.args[..i] == plan.args;
    i := 0;
    while i < |plan.keyFields|
      invariant 0 <= i <= |plan.keyFields| && |b.keys| == i
      invariant Binds(plan, given, b.args) && b.existing == Existing(plan, given)
      invariant forall k :: 0 <= k < i ==> b.keys[k] == elem[plan.keyFields[k]]
    {
      b := b.(keys := b.keys + [elem[plan.keyFields[i]]]);
      i := i + 1;
    }
  }

  // ----- Numbered and positional bind variables agree --------------------------------

  /** The numbers of the bind variables, in the order of the text. */
  function Numbers(clauses: seq<Clause>): seq<nat> {
    if clauses == [] then []
    else
      var last := clauses[|clauses| - 1];
      Numbers(clauses[..|clauses| - 1]) + if last.bind.Var? then [last.bind.number] else []
  }

  ghost predicate Counting(numbers: seq<nat>, n: nat) {
    |numbers| == n && forall k :: 0 <= k < n ==> numbers[k] == k
  }

  lemma {:induction false} AllNumbered(clauses: seq<Clause>)
    requires forall k :: 0 <= k < |clauses| ==> clauses[k].bind == Var(k)
    ensures Counting(Numbers(clauses), |clauses|)
  {
    if clauses != [] { AllNumbered(clauses[..|clauses| - 1]); }
  }

  lemma WheresArePositional(t: Table, plan: Plan, n: nat, versioned: bool)
    requires TableOk(t) && (versioned ==> t.version.Some?) && WheresOk(t, plan, n, versioned)
    requires |plan.sets| == n && forall k :: 0 <= k < n ==> plan.sets[k].bind == Var(k)
    ensures Counting(Numbers(plan.sets + plan.wheres), |plan.args|)
  {
    var all := plan.sets + plan.wheres;
    forall k | 0 <= k < |all| ensures all[k].bind == Var(k) {
      if n <= k < n + |t.keys| { assert KeyOk(t, plan, n, k - n); }
    }
    AllNumbered(all);
  }

  /** The k-th bind variable in the text of an UPDATE or a DELETE is number k, of as many as there are arguments. */
  lemma UpdateIsPositional(t: Table, plan: Plan)
    requires TableOk(t) && IsUpdatePlan(t, plan)
    ensures Counting(Numbers(plan.sets + plan.wheres), |plan.args|)
  {
    var targets := Targets(t.columns, |t.columns|);
    forall k | 0 <= k < |plan.sets| ensures plan.sets[k].bind == Var(k) { assert SetOk(t, plan, targets, k); }
    WheresArePositional(t, plan, |targets|, Versioned(t));
  }

  lemma DeleteIsPositional(t: Table, plan: Plan)
    requires TableOk(t) && IsDeletePlan(t, plan)
    ensures Counting(Numbers(plan.sets + plan.wheres), |plan.args|)
  {
    WheresArePositional(t, plan, 0, t.version.Some? && !t.columns[t.version.value].transient);
  }

  lemma {:induction false} NamesAre(columns: seq<Column>, autoBinds: bool, n: nat)
    requires n <= |columns|
    ensures var s := Names(columns, autoBinds, n);
      && (forall i :: 0 <= i < n && Listed(columns[i], autoBinds) ==> i in s)
      && (forall k :: 0 <= k < |s| ==> s[k] < n && Listed(columns[s[k]], autoBinds))
      && (forall j, k :: 0 <= j < k < |s| ==> s[j] < s[k])
  {
    if n > 0 {
      NamesAre(columns, autoBinds, n - 1);
      var before, s := Names(columns, autoBinds, n - 1), Names(columns, autoBinds, n);
      assert s == before + if Listed(columns[n - 1], autoBinds) then [n - 1] else [];
      forall i | 0 <= i < n && Listed(columns[i], autoBinds) ensures i in s {
        if i < n - 1 { assert i in before; } else { assert s[|before|] == i; }
      }
      forall k | 0 <= k < |s| ensures s[k] < n && Listed(columns[s[k]], autoBinds) {
        if k < |before| { assert s[k] == before[k]; }
      }
    }
  }

  lemma NameAt(columns: seq<Column>, autoBinds: bool, n: nat, k: nat)
    requires n <= |columns| && k < |Names(columns, autoBinds, n)|
    ensures Names(columns, autoBinds, n)[k] < n && Listed(columns[Names(columns, autoBinds, n)[k]], autoBinds)
  {
    NamesAre(columns, autoBinds, n);
  }

  lemma {:induction false} InsertCounts(columns: seq<Column>, autoBinds: bool, clauses: seq<Clause>, n: nat)
    requires n <= |columns| && |clauses| == |Names(columns, autoBinds, n)|
    requires forall k :: 0 <= k < |clauses| ==>
      Names(columns, autoBinds, n)[k] < n && clauses[k] == InsertClause(columns, Names(columns, autoBinds, n)[k])
    ensures Counting(Numbers(clauses), |Targets(columns, n)|)
  {
    if n > 0 {
      var last := columns[n - 1];
      var before := Names(columns, autoBinds, n - 1);
      var earlier := if Listed(last, autoBinds) then clauses[..|clauses| - 1] else clauses;
      assert Names(columns, autoBinds, n) == before + if Listed(last, autoBinds) then [n - 1] else [];
      forall k | 0 <= k < |earlier| ensures before[k] < n - 1 && earlier[k] == InsertClause(columns, before[k]) {
        NameAt(columns, autoBinds, n - 1, k);
      }
      InsertCounts(columns, autoBinds, earlier, n - 1);
      if Listed(last, autoBinds) { assert clauses[|clauses| - 1] == InsertClause(columns, n - 1); }
    }
  }

  lemma InsertIsPositional(t: Table, autoBinds: bool, plan: Plan)
    requires TableOk(t) && IsInsertPlan(t, autoBinds, plan)
    ensures Counting(Numbers(plan.sets), |plan.args|)
  {
    InsertCounts(t.columns, autoBinds, plan.sets, |t.columns|);
  }

  // ----- What the statements do to a row ---------------------------------------------

  predicate Hits(wheres: seq<Clause>, vals: seq<int>, row: Row) {
    forall k :: 0 <= k < |wheres| ==>
      wheres[k].bind.Var? && wheres[k].bind.number < |vals| && wheres[k].column in row
      && row[wheres[k].column] == vals[wheres[k].bind.number]
  }

  predicate InRange(clauses: seq<Clause>, n: nat) {
    forall k :: 0 <= k < |clauses| && clauses[k].bind.Var? ==> clauses[k].bind.number < n
  }

  function ValueOf(bind: Bind, vals: seq<int>, automatic: int): int
    requires bind.Var? ==> bind.number < |vals|
  {
    if bind.Var? then vals[bind.number] else automatic
  }

  /** The clauses applied in order; `automatic` is what the database makes up. */
  function Applied(row: Row, clauses: seq<Clause>, vals: seq<int>, automatic: int): Row
    requires InRange(clauses, |vals|)
  {
    if clauses == [] then row
    else
      var last := clauses[|clauses| - 1];
      Applied(row, clauses[..|clauses| - 1], vals, automatic)[last.column := ValueOf(last.bind, vals, automatic)]
  }

  lemma {:induction false} AppliedAt(row: Row, clauses: seq<Clause>, vals: seq<int>, automatic: int, k: nat)
    requires InRange(clauses, |vals|) && k < |clauses|
    requires forall j :: k < j < |clauses| ==> clauses[j].column != clauses[k].column
    ensures clauses[k].column in Applied(row, clauses, vals, automatic)
    ensures Applied(row, clauses, vals, automatic)[clauses[k].column] == ValueOf(clauses[k].bind, vals, automatic)
  {
    if k < |clauses| - 1 { AppliedAt(row, clauses[..|clauses| - 1], vals, automatic, k); }
  }

  lemma {:induction false} AppliedElsewhere(row: Row, clauses: seq<Clause>, vals: seq<int>, automatic: int, column: string)
    requires InRange(clauses, |vals|) && forall j :: 0 <= j < |clauses| ==> clauses[j].column != column
    ensures column in Applied(row, clauses, vals, automatic) <==> column in row
    ensures column in row ==> Applied(row, clauses, vals, automatic)[column] == row[column]
  {
    if clauses != [] { AppliedElsewhere(row, clauses[..|clauses| - 1], vals, automatic, column); }
  }

  /** No two columns share a name or a field, and struct and row have them all. */
  ghost predicate Fits(t: Table, elem: Struct) {
    && (forall i, j :: 0 <= i < j < |t.columns| ==>
         t.columns[i].name != t.columns[j].name && t.columns[i].field != t.columns[j].field)
    && (forall i :: 0 <= i < |t.columns| ==> t.columns[i].field in elem)
  }

  /** The value that a written column gets. */
  ghost function Written(t: Table, elem: Struct, i: nat): int
    requires Fits(t, elem) && i < |t.columns|
  {
    elem[t.columns[i].field] + if t.version == Some(i) then 1 else 0
  }

  /** The version that an UPDATE looks for, given the struct's. */
  function Sought(v: int): int {
    if v == 0 then 1 else v
  }

  /** The value that an UPDATE compares a column with. */
  ghost function Compared(t: Table, elem: Struct, i: nat): int
    requires Fits(t, elem) && i < |t.columns|
  {
    if Versioned(t) && t.version == Some(i) then Sought(elem[t.columns[i].field]) else elem[t.columns[i].field]
  }

  lemma TargetAt(columns: seq<Column>, n: nat, k: nat)
    requires n <= |columns| && k < |Targets(columns, n)|
    ensures Targets(columns, n)[k] < n && Updated(columns[Targets(columns, n)[k]])
  {
    TargetsAre(columns, n);
  }

  lemma TargetOf(columns: seq<Column>, n: nat, i: nat) returns (k: nat)
    requires i < n <= |columns| && Updated(columns[i])
    ensures k < |Targets(columns, n)| && Targets(columns, n)[k] == i
  {
    TargetsAre(columns, n);
    k :| 0 <= k < |Targets(columns, n)| && Targets(columns, n)[k] == i;
  }

  lemma UpdateCovers(t: Table, plan: Plan, elem: Struct)
    requires TableOk(t) && Fits(t, elem) && IsUpdatePlan(t, plan)
    ensures Covers(elem, plan)
  {
    var targets := Targets(t.columns, |t.columns|);
    TargetsAre(t.columns, |t.columns|);
    forall k | 0 <= k < |plan.args|
      ensures plan.args[k].Field? ==> plan.args[k].name in elem
      ensures plan.args[k] == NewVersion ==> Versioned(t)
    {
      if k < |targets| { assert SetOk(t, plan, targets, k); }
      else if k < |targets| + |t.keys| { assert KeyOk(t, plan, |targets|, k - |targets|); }
    }
    forall k | 0 <= k < |plan.keyFields| ensures plan.keyFields[k] in elem { assert KeyOk(t, plan, |targets|, k); }
  }

  /** The values bound to the SET clauses are those of the struct before the call, the version one higher. */
  lemma UpdateWrites(t: Table, plan: Plan, elem: Struct, k: nat)
    requires TableOk(t) && Fits(t, elem) && IsUpdatePlan(t, plan) && Covers(elem, plan) && k < |plan.sets|
    ensures var i := Targets(t.columns, |t.columns|)[k]; i < |t.columns| && BoundValue(plan, elem, k) == Written(t, elem, i)
  {
    var targets := Targets(t.columns, |t.columns|);
    TargetsAre(t.columns, |t.columns|);
    assert SetOk(t, plan, targets, k);
    var i := targets[k];
    if t.version == Some(i) {
      assert Versioned(t);
    } else if Versioned(t) {
      assert t.columns[i].field != t.columns[t.version.value].field;
    }
  }

  /** By then a version 0 has become 1. */
  lemma UpdateCompares(t: Table, plan: Plan, elem: Struct, k: nat)
    requires TableOk(t) && Fits(t, elem) && IsUpdatePlan(t, plan) && Covers(elem, plan) && k < |plan.wheres|
    ensures var i := if k < |t.keys| then t.keys[k] else t.version.value;
      i < |t.columns| && BoundValue(plan, elem, |plan.sets| + k) == Compared(t, elem, i)
  {
    var targets := Targets(t.columns, |t.columns|);
    var i := if k < |t.keys| then t.keys[k] else t.version.value;
    if k < |t.keys| { assert KeyOk(t, plan, |targets|, k); }
    if Versioned(t) {
      var j := TargetOf(t.columns, |t.columns|, t.version.value);
      assert SetOk(t, plan, targets, j);
      assert plan.args[..|plan.sets| + k][j] == NewVersion;
      assert i != t.version.value ==> t.columns[i].field != t.columns[t.version.value].field;
    }
  }

  /** Which rows an UPDATE hits: those with the struct's keys and the version it looks for. */
  lemma UpdateHits(t: Table, plan: Plan, elem: Struct, vals: seq<int>, row: Row)
    requires TableOk(t) && Fits(t, elem) && IsUpdatePlan(t, plan) && Covers(elem, plan) && Binds(plan, elem, vals)
    requires forall i :: 0 <= i < |t.columns| ==> t.columns[i].name in row
    ensures Hits(plan.wheres, vals, row) <==>
      && (forall k :: 0 <= k < |t.keys| ==> row[t.columns[t.keys[k]].name] == Compared(t, elem, t.keys[k]))
      && (Versioned(t) ==> row[t.columns[t.version.value].name] == Sought(elem[t.columns[t.version.value].field]))
  {
    var n := |plan.sets|;
    forall k | 0 <= k < |plan.wheres|
      ensures var i := if k < |t.keys| then t.keys[k] else t.version.value;
        i < |t.columns| && plan.wheres[k] == Clause(t.columns[i].name, Var(n + k)) && vals[n + k] == Compared(t, elem, i)
    {
      UpdateCompares(t, plan, elem, k);
      if k < |t.keys| { assert KeyOk(t, plan, n, k); }
    }
    if Hits(plan.wheres, vals, row) {
      forall k | 0 <= k < |t.keys| ensures row[t.columns[t.keys[k]].name] == Compared(t, elem, t.keys[k]) {
        assert plan.wheres[k].bind.Var?;
      }
      if Versioned(t) { assert plan.wheres[|t.keys|].bind.Var?; }
    }
  }

  /** What an UPDATE makes of a row: every written column from the struct, all others as they were. */
  lemma UpdateMeans(t: Table, plan: Plan, elem: Struct, vals: seq<int>, row: Row, i: nat)
    requires TableOk(t) && Fits(t, elem) && IsUpdatePlan(t, plan) && Covers(elem, plan) && Binds(plan, elem, vals)
    requires i < |t.columns| && t.columns[i].name in row
    ensures InRange(plan.sets, |vals|)
    ensures t.columns[i].name in Applied(row, plan.sets, vals, 0)
    ensures Applied(row, plan.sets, vals, 0)[t.columns[i].name]
      == if Updated(t.columns[i]) then Written(t, elem, i) else row[t.columns[i].name]
  {
    var targets := Targets(t.columns, |t.columns|);
    TargetsAre(t.columns, |t.columns|);
    forall k | 0 <= k < |plan.sets| ensures plan.sets[k] == Clause(t.columns[targets[k]].name, Var(k)) {
      assert SetOk(t, plan, targets, k);
    }
    if Updated(t.columns[i]) {
      var k := TargetOf(t.columns, |t.columns|, i);
      AppliedAt(row, plan.sets, vals, 0, k);
      UpdateWrites(t, plan, elem, k);
    } else {
      AppliedElsewhere(row, plan.sets, vals, 0, t.columns[i].name);
    }
  }

  lemma {:induction false} TargetNumber(columns: seq<Column>, n: nat, i: nat)
    requires i < n <= |columns| && Updated(columns[i])
    ensures |Targets(columns, i)| < |Targets(columns, n)| && Targets(columns, n)[|Targets(columns, i)|] == i
  {
    if i < n - 1 { TargetNumber(columns, n - 1, i); }
  }

  lemma InsertCovers(t: Table, autoBinds: bool, plan: Plan, elem: Struct)
    requires TableOk(t) && Fits(t, elem) && IsInsertPlan(t, autoBinds, plan)
    ensures Covers(elem, plan)
  {
    var targets := Targets(t.columns, |t.columns|);
    forall k | 0 <= k < |plan.args|
      ensures plan.args[k].Field? ==> plan.args[k].name in elem
      ensures plan.args[k] == NewVersion ==> Versioned(t)
    {
      TargetAt(t.columns, |t.columns|, k);
      assert plan.args[k] == ArgOf(t, targets[k]);
    }
  }

  lemma InsertWrites(t: Table, autoBinds: bool, plan: Plan, elem: Struct, i: nat)
    requires TableOk(t) && Fits(t, elem) && IsInsertPlan(t, autoBinds, plan) && Covers(elem, plan)
    requires i < |t.columns| && Updated(t.columns[i])
    ensures var k := |Targets(t.columns, i)|; k < |plan.args| && BoundValue(plan, elem, k) == Written(t, elem, i)
  {
    TargetNumber(t.columns, |t.columns|, i);
    assert plan.args[|Targets(t.columns, i)|] == ArgOf(t, i);
    if t.version != Some(i) && Versioned(t) {
      assert t.columns[i].field != t.columns[t.version.value].field;
    }
  }

  lemma InsertInRange(t: Table, autoBinds: bool, plan: Plan)
    requires TableOk(t) && IsInsertPlan(t, autoBinds, plan)
    ensures InRange(plan.sets, |plan.args|)
  {
    var names := Names(t.columns, autoBinds, |t.columns|);
    NamesAre(t.columns, autoBinds, |t.columns|);
    forall k | 0 <= k < |plan.sets| ensures plan.sets[k].bind.Var? ==> plan.sets[k].bind.number < |plan.args| {
      assert plan.sets[k] == InsertClause(t.columns, names[k]);
      if Updated(t.columns[names[k]]) { TargetNumber(t.columns, |t.columns|, names[k]); }
    }
  }

  /** Where an INSERT names a column: once, or not at all. */
  lemma InsertNames(t: Table, autoBinds: bool, plan: Plan, elem: Struct, i: nat) returns (k: nat)
    requires TableOk(t) && Fits(t, elem) && IsInsertPlan(t, autoBinds, plan) && i < |t.columns|
    ensures Listed(t.columns[i], autoBinds) ==> k < |plan.sets| && plan.sets[k] == InsertClause(t.columns, i)
    ensures forall j :: 0 <= j < |plan.sets| && (Listed(t.columns[i], autoBinds) ==> j != k) ==> plan.sets[j].column != t.columns[i].name
  {
    var names := Names(t.columns, autoBinds, |t.columns|);
    NamesAre(t.columns, autoBinds, |t.columns|);
    k := 0;
    if Listed(t.columns[i], autoBinds) { k :| 0 <= k < |names| && names[k] == i; }
    forall j | 0 <= j < |plan.sets| && (Listed(t.columns[i], autoBinds) ==> j != k)
      ensures plan.sets[j].column != t.columns[i].name
    {
      assert plan.sets[j] == InsertClause(t.columns, names[j]) && names[j] != i;
    }
  }

  /** The row that an INSERT makes: the struct's values, the version one higher, automatic values, nothing else. */
  lemma InsertMeans(t: Table, autoBinds: bool, plan: Plan, elem: Struct, vals: seq<int>, automatic: int, i: nat)
    requires TableOk(t) && Fits(t, elem) && IsInsertPlan(t, autoBinds, plan) && Covers(elem, plan) && Binds(plan, elem, vals)
    requires i < |t.columns|
    ensures InRange(plan.sets, |vals|)
    ensures var row := Applied(map[], plan.sets, vals, automatic);
      && (t.columns[i].name in row <==> Listed(t.columns[i], autoBinds))
      && (Listed(t.columns[i], autoBinds) ==>
           row[t.columns[i].name] == if t.columns[i].autoIncr then automatic else Written(t, elem, i))
  {
    InsertInRange(t, autoBinds, plan);
    var k := InsertNames(t, autoBinds, plan, elem, i);
    if Listed(t.columns[i], autoBinds) {
      AppliedAt(map[], plan.sets, vals, automatic, k);
      if !t.columns[i].autoIncr { InsertWrites(t, autoBinds, plan, elem, i); }
    } else {
      AppliedElsewhere(map[], plan.sets, vals, automatic, t.columns[i].name);
    }
  }

  lemma DeleteCovers(t: Table, plan: Plan, elem: Struct)
    requires TableOk(t) && Fits(t, elem) && IsDeletePlan(t, plan)
    ensures Covers(elem, plan) && NewVersion !in plan.args
  {
    forall k | 0 <= k < |plan.args| ensures plan.args[k].Field? && plan.args[k].name in elem {
      if k < |t.keys| { assert KeyOk(t, plan, 0, k); }
    }
    forall k | 0 <= k < |plan.keyFields| ensures plan.keyFields[k] in elem { assert KeyOk(t, plan, 0, k); }
  }

  /** Which rows a DELETE hits: no marker is bound, so the struct's own version is compared, 0 too. */
  lemma DeleteHits(t: Table, plan: Plan, elem: Struct, vals: seq<int>, row: Row)
    requires TableOk(t) && Fits(t, elem) && IsDeletePlan(t, plan) && Covers(elem, plan) && Binds(plan, elem, vals)
    requires forall i :: 0 <= i < |t.columns| ==> t.columns[i].name in row
    ensures Hits(plan.wheres, vals, row) <==>
      && (forall k :: 0 <= k < |t.keys| ==> row[t.columns[t.keys[k]].name] == elem[t.columns[t.keys[k]].field])
      && (plan.versField.Some? ==> row[t.columns[t.version.value].name] == elem[plan.versField.value])
  {
    forall k | 0 <= k < |plan.args| ensures plan.args[k].Field? {
      if k < |t.keys| { assert KeyOk(t, plan, 0, k); }
    }
    forall k | 0 <= k < |plan.wheres|
      ensures var i := if k < |t.keys| then t.keys[k] else t.version.value;
        i < |t.columns| && plan.wheres[k] == Clause(t.columns[i].name, Var(k)) && vals[k] == elem[t.columns[i].field]
    {
      if k < |t.keys| { assert KeyOk(t, plan, 0, k); }
    }
    if Hits(plan.wheres, vals, row) {
      forall k | 0 <= k < |t.keys| ensures row[t.columns[t.keys[k]].name] == elem[t.columns[t.keys[k]].field] {
        assert plan.wheres[k].bind.Var?;
      }
      if plan.versField.Some? { assert plan.wheres[|t.keys|].bind.Var?; }
    }
  }

  // ----- The cache -------------------------------------------------------------------

  /** A table and the plans kept for it; SetKeys and SetVersionCol forget them. */
  class TableMap {
    var table: Table
    var insertPlan: Option<Plan>
    var updatePlan: Option<Plan>
    var deletePlan: Option<Plan>
    const autoBinds: bool

    /** A plan in the cache is the one for the table as it is now. */
    ghost predicate Valid()
      reads this
    {
      && TableOk(table)
      && (insertPlan.Some? ==> IsInsertPlan(table, autoBinds, insertPlan.value))
      && (updatePlan.Some? ==> IsUpdatePlan(table, updatePlan.value))
      && (deletePlan.Some? ==> IsDeletePlan(table, deletePlan.value))
    }

    method ResetSql()
      requires TableOk(table)
      modifies this`insertPlan, this`updatePlan, this`deletePlan
      ensures Valid()
    {
      insertPlan, updatePlan, deletePlan := None, None, None;
    }

    /** SetVersionCol with the column that ColMap found. */
    method SetVersionCol(i: nat)
      requires Valid() && i < |table.columns|
      modifies this
      ensures Valid() && table == old(table).(version := Some(i))
    {
      table := table.(version := Some(i));
      ResetSql();
    }

    method BindUpdate(given: Struct) returns (plan: Plan, b: Instance, elem: Struct)
      requires Valid() && Fits(table, given)
      modifies this`updatePlan
      ensures Valid() && IsUpdatePlan(table, plan) && Covers(given, plan)
      ensures Binds(plan, given, b.args) && b.existing == Existing(plan, given)
      ensures elem == if Versioned(table) && b.existing == 0 then given[table.columns[table.version.value].field := 1] else given
    {
      if updatePlan.None? {
        var built := BuildUpdate(table);
        updatePlan := Some(built);
      }
      plan := updatePlan.value;
      UpdateCovers(table, plan, given);
      b, elem := CreateBindInstance(plan, given);
      if Versioned(table) {
        ghost var j := TargetOf(table.columns, |table.columns|, table.version.value);
        assert SetOk(table, plan, Targets(table.columns, |table.columns|), j);
        assert plan.args[..|plan.args|][j] == NewVersion;
      }
    }

    method BindDelete(given: Struct) returns (plan: Plan, b: Instance, elem: Struct)
      requires Valid() && Fits(table, given)
      modifies this`deletePlan
      ensures Valid() && IsDeletePlan(table, plan) && Covers(given, plan)
      ensures Binds(plan, given, b.args) && b.existing == Existing(plan, given) && elem == given
    {
      if deletePlan.None? {
        var built := BuildDelete(table);
        deletePlan := Some(built);
      }
      plan := deletePlan.value;
      DeleteCovers(table, plan, given);
      b, elem := CreateBindInstance(plan, given);
      assert plan.args[..|plan.args|] == plan.args;
    }

    method BindInsert(given: Struct) returns (plan: Plan, b: Instance, elem: Struct)
      requires Valid() && Fits(table, given)
      modifies this`insertPlan
      ensures Valid() && IsInsertPlan(table, autoBinds, plan) && Covers(given, plan)
      ensures Binds(plan, given, b.args) && b.existing == Existing(plan, given)
      ensures elem == if Versioned(table) && b.existing == 0 then given[table.columns[table.version.value].field := 1] else given
    {
      if insertPlan.None? {
        var built := BuildInsert(table, autoBinds);
        insertPlan := Some(built);
      }
      plan := insertPlan.value;
      InsertCovers(table, autoBinds, plan, given);
      b, elem := CreateBindInstance(plan, given);
      if Versioned(table) { VersionIsBound(table, autoBinds, plan); }
    }
  }

  lemma VersionIsBound(t: Table, autoBinds: bool, plan: Plan)
    requires TableOk(t) && Versioned(t) && IsInsertPlan(t, autoBinds, plan)
    ensures NewVersion in plan.args[..|plan.args|]
  {
    TargetNumber(t.columns, |t.columns|, t.version.value);
    assert plan.args[..|plan.args|][|Targets(t.columns, t.version.value)|] == NewVersion;
  }
}
