/** The guarded schema migration as a protocol: any number of runners inspect, check their arguments,
    lock the table, inspect again, run the migration, verify and commit, while other sessions write
    to the table and the migration text may do anything at all. */
module GuardedMigration {
  import opened Common

  type Name = string
  type RowImage = int

  /** What an inspection reads of the guarded table. */
  datatype Table = Table(
    exists_: bool,
    columns0047: bool,
    indexes0041: bool,
    rowSecurity: bool,
    voided: bool,
    rows: seq<RowImage>)
  {
    predicate Prerequisites() {
      exists_ && columns0047 && indexes0041 && rowSecurity
    }
  }

  /** One inspection: the table and the name of the database it was read in. */
  datatype Snapshot = Snapshot(name: Name, table: Table)

  /** `voided` in the constraint, the same rows, and the prerequisites still in place. */
  predicate Postconditions(before: Table, after: Table) {
    after.voided && after.rows == before.rows && after.Prerequisites()
  }

  datatype Arguments = Arguments(
    apply: bool,
    confirmed: bool,
    host: Option<Name>,
    database: Option<Name>,
    urlHost: Name,
    fileChecks: bool)

  datatype Outcome = DryRun | Refused | Failed | AlreadyApplied | Applied

  datatype Phase =
    | Started
    | Cleared
    | Locked
    | Rechecked(before: Snapshot)
    | Migrated(before: Snapshot)
    | Verified(before: Snapshot)
    | Ended(outcome: Outcome)

  datatype Runner = Runner(arguments: Arguments, phase: Phase)

  predicate HoldsLock(phase: Phase) {
    phase.Locked? || phase.Rechecked? || phase.Migrated? || phase.Verified?
  }

  /** `names` are all names the database has had, `table` is what is committed, `work` what the lock
      holder sees. `written` is what the other sessions last left in the rows; `commits` counts the
      commits of a migrated table. */
  datatype World = World(
    name: Name,
    names: set<Name>,
    table: Table,
    work: Table,
    holder: Option<nat>,
    runners: seq<Runner>,
    written: seq<RowImage>,
    commits: nat)

  /** What happens next. Runner steps carry the runner's index, Migrate the state that the migration
      text happens to leave behind, Other what another session commits. */
  datatype Action =
    | Inspect(runner: nat)
    | Lock(runner: nat)
    | Recheck(runner: nat)
    | Migrate(runner: nat, effect: Table)
    | Verify(runner: nat)
    | Commit(runner: nat)
    | Abort(runner: nat)
    | Other(table: Table)
    | Rename(name: Name)

  function Enter(w: World, i: nat, phase: Phase): World
    requires i < |w.runners|
  {
    w.(runners := w.runners[i := w.runners[i].(phase := phase)])
  }

  /** Rollback or an empty commit: the lock goes and the committed table stays. */
  function Release(w: World, i: nat, outcome: Outcome): World
    requires i < |w.runners|
  {
    Enter(w, i, Ended(outcome)).(holder := None)
  }

  /** The flags must name this very database on this very host. */
  predicate Named(a: Arguments, name: Name) {
    a.confirmed && a.host == Some(a.urlHost) && a.database == Some(name)
  }

  /** What one runner decides from its first inspection. */
  function Decision(a: Arguments, table: Table, name: Name): Phase {
    if !table.Prerequisites() then Ended(Failed)
    else if !a.fileChecks then Ended(Failed)
    else if !a.apply then Ended(DryRun)
    else if !Named(a, name) then Ended(Refused)
    else if table.voided then Ended(AlreadyApplied)
    else Cleared
  }

  predicate Acts(w: World, i: nat, phase: Phase) {
    i < |w.runners| && w.runners[i].phase == phase
  }

  /** One step; a step that is not enabled changes nothing. */
  function Next(w: World, action: Action): (after: World)
    ensures |after.runners| == |w.runners|
  {
    match action
    case Inspect(i) =>
      // reading the rows waits while another session holds the table exclusively
      if !Acts(w, i, Started) || w.holder.Some? then w
      else Enter(w, i, Decision(w.runners[i].arguments, w.table, w.name))
    case Lock(i) =>
      if !Acts(w, i, Cleared) || w.holder.Some? then w
      else Enter(w, i, Locked).(holder := Some(i), work := w.table)
    case Recheck(i) =>
      if !Acts(w, i, Locked) then w
      else if !w.work.Prerequisites() || w.runners[i].arguments.database != Some(w.name) then Release(w, i, Failed)
      else if w.work.voided then Release(w, i, AlreadyApplied)
      else Enter(w, i, Rechecked(Snapshot(w.name, w.work)))
    case Migrate(i, effect) =>
      if i >= |w.runners| || !w.runners[i].phase.Rechecked? then w
      else Enter(w, i, Migrated(w.runners[i].phase.before)).(work := effect)
    case Verify(i) =>
      if i >= |w.runners| || !w.runners[i].phase.Migrated? then w
      else if Postconditions(w.runners[i].phase.before.table, w.work)
      then Enter(w, i, Verified(w.runners[i].phase.before))
      else Release(w, i, Failed)
    case Commit(i) =>
      if i >= |w.runners| || !w.runners[i].phase.Verified? then w
      else Release(w, i, Applied).(table := w.work, commits := w.commits + 1)
    case Abort(i) =>
      // a timeout, a lost connection, a failing statement: possible at any point before the end
      if i >= |w.runners| || w.runners[i].phase.Ended? then w
      else if HoldsLock(w.runners[i].phase) then Release(w, i, Failed)
      else Enter(w, i, Ended(Failed))
    case Other(table) =>
      if w.holder.Some? then w else w.(table := table, written := table.rows)
    case Rename(name) => w.(name := name, names := w.names + {name})
  }

  function Run(w: World, actions: seq<Action>): World
    decreases |actions|
  {
    if actions == [] then w else Run(Next(w, actions[0]), actions[1..])
  }

  predicate Initial(w: World) {
    && w.holder.None?
    && w.name in w.names
    && w.written == w.table.rows
    && w.commits == 0
    && forall i :: 0 <= i < |w.runners| ==> w.runners[i].phase == Started
  }

  // -- What every step keeps ------------------------------------------------------------------

  /** Only a runner with every flag in place, host and database matching, gets past its first
      inspection; `names` are the names that the database goes by. */
  predicate Authorised(a: Arguments, names: set<Name>) {
    && a.fileChecks && a.apply && a.confirmed && a.host == Some(a.urlHost)
    && a.database.Some? && a.database.value in names
  }

  /** What a locked inspection has established for the rest of the transaction. */
  predicate Established(w: World, a: Arguments, before: Snapshot) {
    && a.database == Some(before.name)
    && w.table == before.table
    && before.table.Prerequisites()
    && !before.table.voided
  }

  predicate PhaseOk(w: World, r: Runner) {
    match r.phase
    case Started => true
    case Ended(outcome) => outcome == Applied ==> Authorised(r.arguments, w.names)
    case Cleared => Authorised(r.arguments, w.names)
    case Locked => Authorised(r.arguments, w.names) && w.work == w.table
    case Rechecked(before) =>
      Authorised(r.arguments, w.names) && Established(w, r.arguments, before) && w.work == w.table
    case Migrated(before) => Authorised(r.arguments, w.names) && Established(w, r.arguments, before)
    case Verified(before) =>
      Authorised(r.arguments, w.names) && Established(w, r.arguments, before) && Postconditions(before.table, w.work)
  }

  predicate Safe(w: World) {
    && w.name in w.names
    && w.table.rows == w.written
    && (w.holder.Some? ==> w.holder.value < |w.runners|)
    && (forall i :: 0 <= i < |w.runners| ==> (HoldsLock(w.runners[i].phase) <==> w.holder == Some(i)))
    && (forall i :: 0 <= i < |w.runners| ==> PhaseOk(w, w.runners[i]))
  }

  lemma {:induction false} StepKeepsLock(w: World, action: Action, i: nat)
    requires Safe(w) && i < |w.runners|
    ensures var after := Next(w, action);
            |after.runners| == |w.runners| && (HoldsLock(after.runners[i].phase) <==> after.holder == Some(i))
  {
    assert HoldsLock(w.runners[i].phase) <==> w.holder == Some(i);
  }

  lemma {:induction false} StepKeepsPhase(w: World, action: Action, i: nat)
    requires Safe(w) && i < |w.runners|
    ensures PhaseOk(Next(w, action), Next(w, action).runners[i])
  {
    StepKeepsLock(w, action, i);
    assert PhaseOk(w, w.runners[i]);
    assert HoldsLock(w.runners[i].phase) <==> w.holder == Some(i);
  }

  lemma {:induction false} StepKeepsSafe(w: World, action: Action)
    requires Safe(w)
    ensures Safe(Next(w, action))
  {
    forall i | 0 <= i < |w.runners|
      ensures PhaseOk(Next(w, action), Next(w, action).runners[i])
      ensures HoldsLock(Next(w, action).runners[i].phase) <==> Next(w, action).holder == Some(i)
    {
      StepKeepsLock(w, action, i);
      StepKeepsPhase(w, action, i);
    }
  }

  lemma {:induction false} InitialIsSafe(w: World)
    requires Initial(w)
    ensures Safe(w)
  {}

  /** In every interleaving: one lock holder at most, nothing changes the table under the lock, and
      no write of another session is ever lost or altered by a migration. */
  lemma {:induction false} EveryRunIsSafe(w: World, actions: seq<Action>)
    requires Safe(w)
    ensures Safe(Run(w, actions))
    decreases |actions|
  {
    if actions != [] {
      StepKeepsSafe(w, actions[0]);
      EveryRunIsSafe(Next(w, actions[0]), actions[1..]);
    }
  }

  // -- What the protocol is for -----------------------------------------------------------------------

  /** Other steps that take the migrated constraint away again while nobody holds the lock. */
  predicate Reverts(w: World, action: Action) {
    action.Other? && w.holder.None? && w.table.voided && !action.table.voided
  }

  function CountReverts(w: World, actions: seq<Action>): nat
    decreases |actions|
  {
    if actions == [] then 0
    else (if Reverts(w, actions[0]) then 1 else 0) + CountReverts(Next(w, actions[0]), actions[1..])
  }

  function Pending(w: World): nat {
    if w.table.voided then 0 else 1
  }

  /** A commit finds the table unmigrated and leaves it migrated, with the same rows and with the
      prerequisites in place, and in the database that its runner named. */
  lemma {:induction false} CommitMigrates(w: World, i: nat)
    requires Safe(w) && i < |w.runners| && w.runners[i].phase.Verified?
    ensures var after := Next(w, Commit(i));
            && after.commits == w.commits + 1
            && w.table.exists_ && w.table.columns0047 && w.table.indexes0041 && w.table.rowSecurity
            && after.table.exists_ && after.table.columns0047 && after.table.indexes0041 && after.table.rowSecurity
            && !w.table.voided && after.table.voided
            && after.table.rows == w.table.rows
            && after.table.Prerequisites()
            && var a := w.runners[i].arguments;
               a.apply && a.confirmed && a.host == Some(a.urlHost) && a.fileChecks
               && a.database == Some(w.runners[i].phase.before.name) && w.runners[i].phase.before.name in w.names
  {
    assert PhaseOk(w, w.runners[i]);
  }

  /** However many runners race, the migration commits once at most, never if it was already in
      place, and once more for each time another session takes it away. */
  lemma {:induction false} CommitsAtMostOnce(w: World, actions: seq<Action>)
    requires Safe(w)
    ensures Run(w, actions).commits + Pending(Run(w, actions)) <= w.commits + Pending(w) + CountReverts(w, actions)
    decreases |actions|
  {
    if actions != [] {
      var action := actions[0];
      StepKeepsSafe(w, action);
      if action.Commit? && action.runner < |w.runners| && w.runners[action.runner].phase.Verified? {
        CommitMigrates(w, action.runner);
      }
      CommitsAtMostOnce(Next(w, action), actions[1..]);
    }
  }

  /** No other session takes the migrated constraint away again. */
  predicate NobodyUndoes(w: World, actions: seq<Action>)
    decreases |actions|
  {
    actions == []
    || ((actions[0].Other? && w.table.voided ==> actions[0].table.voided)
        && NobodyUndoes(Next(w, actions[0]), actions[1..]))
  }

  lemma {:induction false} NothingUndone(w: World, actions: seq<Action>)
    requires NobodyUndoes(w, actions)
    ensures CountReverts(w, actions) == 0
    decreases |actions|
  {
    if actions != [] {
      NothingUndone(Next(w, actions[0]), actions[1..]);
    }
  }

  /** From the start, with any number of runners and any other writers who do not undo it, the migration
      commits once at most, and never where it is already in place. */
  lemma {:induction false} OneCommitAtMost(w: World, actions: seq<Action>)
    requires Initial(w) && NobodyUndoes(w, actions)
    ensures Run(w, actions).commits <= 1
    ensures w.table.voided ==> Run(w, actions).commits == 0
  {
    InitialIsSafe(w);
    CommitsAtMostOnce(w, actions);
    NothingUndone(w, actions);
  }

  /** A step that is not a verified commit leaves the committed table alone: in particular every
      failed check and every abort rolls back to the schema before. */
  lemma {:induction false} OnlyCommitsChange(w: World, action: Action)
    requires Safe(w) && !action.Other?
    ensures Next(w, action).table != w.table ==>
              action.Commit? && action.runner < |w.runners| && w.runners[action.runner].phase.Verified?
    ensures Next(w, action).table.rows == w.table.rows
  {
    if action.Commit? && action.runner < |w.runners| {
      assert PhaseOk(w, w.runners[action.runner]);
    }
  }

  function WithoutRunners(actions: seq<Action>): seq<Action> {
    if actions == [] then []
    else if actions[0].Other? then [actions[0]] + WithoutRunners(actions[1..])
    else WithoutRunners(actions[1..])
  }

  /** The names that the database is given by the actions. */
  function NamesIn(actions: seq<Action>): set<Name> {
    if actions == [] then {}
    else (if actions[0].Rename? then {actions[0].name} else {}) + NamesIn(actions[1..])
  }

  predicate NobodyAuthorised(w: World, names: set<Name>) {
    forall i :: 0 <= i < |w.runners| ==> !Authorised(w.runners[i].arguments, names)
  }

  /** A runner with every flag in place names some other database, or none. */
  predicate MissesTarget(a: Arguments, names: set<Name>) {
    (a.apply && a.confirmed && a.host == Some(a.urlHost) && a.fileChecks)
    ==> (a.database.None? || a.database.value !in names)
  }

  lemma {:induction false} ArgumentsAreFixed(w: World, action: Action)
    ensures |Next(w, action).runners| == |w.runners|
    ensures forall i :: 0 <= i < |w.runners| ==> Next(w, action).runners[i].arguments == w.runners[i].arguments
  {}

  lemma {:induction false} NobodyHoldsLock(w: World)
    requires Safe(w) && NobodyAuthorised(w, w.names)
    ensures w.holder.None?
  {
    assert w.holder.Some? ==> PhaseOk(w, w.runners[w.holder.value]);
  }

  lemma {:induction false} NamesAreKnown(w: World, actions: seq<Action>)
    requires actions != []
    ensures Next(w, actions[0]).names + NamesIn(actions[1..]) == w.names + NamesIn(actions)
  {}

  lemma {:induction false} QuietRun(w: World, actions: seq<Action>, quiet: World)
    requires Safe(w) && NobodyAuthorised(w, w.names + NamesIn(actions))
    requires quiet.holder.None? && quiet.table == w.table
    ensures Run(w, actions).table == Run(quiet, WithoutRunners(actions)).table
    decreases |actions|
  {
    if actions != [] {
      var action := actions[0];
      NamesAreKnown(w, actions);
      NobodyHoldsLock(w);
      StepKeepsSafe(w, action);
      ArgumentsAreFixed(w, action);
      if action.Other? {
        assert WithoutRunners(actions)[0] == action && WithoutRunners(actions)[1..] == WithoutRunners(actions[1..]);
        QuietRun(Next(w, action), actions[1..], Next(quiet, action));
      } else {
        OnlyCommitsChange(w, action);
        if action.Commit? && action.runner < |w.runners| {
          assert PhaseOk(w, w.runners[action.runner]);
        }
        QuietRun(Next(w, action), actions[1..], quiet);
      }
    }
  }

  /** Without the apply flag, the confirmation, the matching host and a database that is the name of
      this one at some time, the runners might as well not be there: the table goes through the
      states the other sessions give it. */
  lemma {:induction false} UnauthorisedRunnersChangeNothing(w: World, actions: seq<Action>, quiet: World)
    requires Safe(w) && quiet.holder.None? && quiet.table == w.table
    requires forall i :: 0 <= i < |w.runners| ==> MissesTarget(w.runners[i].arguments, w.names + NamesIn(actions))
    ensures Run(w, actions).table == Run(quiet, WithoutRunners(actions)).table
  {
    QuietRun(w, actions, quiet);
  }

  // -- One runner ----------------------------------------------------------------------------------------

  function Alone(name: Name, table: Table, a: Arguments): World {
    World(name, {name}, table, table, None, [Runner(a, Started)], table.rows, 0)
  }

  /** The same when that runner has just got the lock. */
  function Holding(name: Name, table: Table, a: Arguments): World {
    World(name, {name}, table, table, Some(0), [Runner(a, Locked)], table.rows, 0)
  }

  /** From the lock to the end of the transaction, the migration text leaving `effect`. */
  function Transaction(w: World, effect: Table): (end: World)
    ensures |end.runners| == |w.runners|
  {
    Next(Next(Next(Next(w, Recheck(0)), Migrate(0, effect)), Verify(0)), Commit(0))
  }

  /** A runner nobody else competes with: between its two inspections other sessions leave the table
      as `meanwhile`. */
  function SoloRun(w: World, meanwhile: Table, effect: Table): (end: World)
    requires |w.runners| == 1
    ensures |end.runners| == 1
  {
    var inspected := Next(w, Inspect(0));
    if inspected.runners[0].phase != Cleared then inspected
    else Transaction(Next(Next(inspected, Other(meanwhile)), Lock(0)), effect)
  }

  lemma {:induction false} ClearedRunHoldsLock(name: Name, table: Table, a: Arguments, meanwhile: Table)
    requires Decision(a, table, name) == Cleared
    ensures var inspected := Next(Alone(name, table, a), Inspect(0));
            && inspected.runners[0].phase == Cleared
            && Next(Next(inspected, Other(meanwhile)), Lock(0)) == Holding(name, meanwhile, a)
  {}

  lemma {:induction false} TransactionEnds(name: Name, table: Table, a: Arguments, effect: Table)
    ensures var end := Transaction(Holding(name, table, a), effect);
            if !table.Prerequisites() || a.database != Some(name)
            then end.table == table && end.runners[0].phase == Ended(Failed)
            else if table.voided then end.table == table && end.runners[0].phase == Ended(AlreadyApplied)
            else if !Postconditions(table, effect) then end.table == table && end.runners[0].phase == Ended(Failed)
            else end.table == effect && end.runners[0].phase == Ended(Applied)
  {
    var rechecked := Next(Holding(name, table, a), Recheck(0));
    var migrated := Next(rechecked, Migrate(0, effect));
    assert rechecked.runners[0].phase.Ended? ==> migrated == rechecked;
    var verified := Next(migrated, Verify(0));
    assert migrated.runners[0].phase.Ended? ==> verified == migrated;
  }

  predicate EveryCheckPasses(name: Name, table: Table, a: Arguments, meanwhile: Table, effect: Table) {
    && a.fileChecks && a.apply && Named(a, name)
    && table.Prerequisites() && !table.voided
    && meanwhile.Prerequisites() && !meanwhile.voided
    && Postconditions(meanwhile, effect)
  }

  /** It commits exactly when every check passes, and then leaves just what the migration left. */
  lemma {:induction false} SoloRunAppliesIff(name: Name, table: Table, a: Arguments, meanwhile: Table, effect: Table)
    ensures var end := SoloRun(Alone(name, table, a), meanwhile, effect);
            end.runners[0].phase == Ended(Applied) <==> EveryCheckPasses(name, table, a, meanwhile, effect)
    ensures var end := SoloRun(Alone(name, table, a), meanwhile, effect);
            end.runners[0].phase == Ended(Applied) ==> end.table == effect
  {
    if Decision(a, table, name) == Cleared {
      ClearedRunHoldsLock(name, table, a, meanwhile);
      TransactionEnds(name, meanwhile, a, effect);
    }
  }

  /** The table has everything that the earlier migrations put in place. */
  predicate InPlace(t: Table) {
    t.exists_ == true && t.columns0047 == true && t.indexes0041 == true && t.rowSecurity == true
  }

  /** How a run ends, whatever it finds: each outcome with its condition, and the table it leaves. */
  lemma {:induction false} SoloRunEnds(name: Name, table: Table, a: Arguments, meanwhile: Table, effect: Table)
    ensures var end := SoloRun(Alone(name, table, a), meanwhile, effect);
            var outcome := end.runners[0].phase;
            var checked := InPlace(table) && a.fileChecks;
            var named := a.confirmed && a.host == Some(a.urlHost) && a.database == Some(name);
            var waits := checked && a.apply && named && !table.voided;
            var migrated := effect.voided && effect.rows == meanwhile.rows && InPlace(effect);
            && (outcome == Ended(DryRun) <==> checked && !a.apply)
            && (outcome == Ended(Refused) <==> checked && a.apply && !named)
            && (outcome == Ended(AlreadyApplied) <==>
                  (checked && a.apply && named && table.voided) || (waits && InPlace(meanwhile) && meanwhile.voided))
            && (outcome == Ended(Applied) <==> waits && InPlace(meanwhile) && !meanwhile.voided && migrated)
            && (outcome == Ended(Failed) <==>
                  !checked || (waits && (!InPlace(meanwhile) || (!meanwhile.voided && !migrated))))
            && end.table == (if outcome == Ended(Applied) then effect else if waits then meanwhile else table)
  {
    if Decision(a, table, name) == Cleared {
      ClearedRunHoldsLock(name, table, a, meanwhile);
      TransactionEnds(name, meanwhile, a, effect);
    }
  }

  /** The program itself, against a database whose committed table is `table`. */
  class Session {
    var name: Name
    var table: Table

    constructor (name: Name, table: Table)
      ensures this.name == name && this.table == table
    {
      this.name, this.table := name, table;
    }

    method Apply(a: Arguments, meanwhile: Table, effect: Table) returns (outcome: Outcome)
      modifies this`table
      ensures var end := SoloRun(Alone(name, old(table), a), meanwhile, effect);
              table == end.table && end.runners[0].phase == Ended(outcome)
    {
      var before := table;
      if !before.Prerequisites() || !a.fileChecks {
        return Failed;
      }
      if !a.apply {
        return DryRun;
      }
      if !a.confirmed || a.host != Some(a.urlHost) || a.database != Some(name) {
        return Refused;
      }
      if before.voided {
        return AlreadyApplied;
      }
      ClearedRunHoldsLock(name, before, a, meanwhile);
      table := meanwhile; // the wait for the lock
      outcome := Transact(a, effect);
    }

    method Transact(a: Arguments, effect: Table) returns (outcome: Outcome)
      modifies this`table
      ensures var end := Transaction(Holding(name, old(table), a), effect);
              table == end.table && end.runners[0].phase == Ended(outcome)
    {
      TransactionEnds(name, table, a, effect);
      var lockedBefore := table;
      if !lockedBefore.Prerequisites() || a.database != Some(name) {
        return Failed;
      }
      if lockedBefore.voided {
        return AlreadyApplied;
      }
      var work := effect;
      if !Postconditions(lockedBefore, work) {
        return Failed;
      }
      table := work;
      return Applied;
    }
  }
}
