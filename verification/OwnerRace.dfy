/**
 Transactions that disable or demote owners, with the count of owners and the update as two steps. The row
 to be updated is locked from the first to the second; the rows that are only counted are not.
 */
module OwnerRace {
  import opened Common
  import M = Memberships

  /** What the guard is for: `DisableMembership` and `PlatformDisableOwner`, or `UpdateMembershipRole` to read-only. */
  datatype Change = Disable | Demote

  /** `pending` holds, per transaction, the locked row whose change has been allowed, and `changes` which one it is. */
  datatype State = State(rows: M.Rows, pending: map<nat, M.Id>, changes: map<nat, Change>)

  datatype Step = Check(tx: nat, id: M.Id, change: Change) | Write(tx: nat)

  function Changed(rows: M.Rows, id: M.Id, change: Change): M.Rows {
    match change
    case Disable => M.Disabled(rows, id)
    case Demote => if id in rows then rows[id := rows[id].(role := M.ReadOnly)] else rows
  }

  function Apply(s: State, step: Step): State {
    match step
    case Check(tx, id, change) =>
      if tx !in s.pending && id !in s.pending.Values && M.IsOwner(s.rows, id) && M.AnotherOwner(s.rows)
      then s.(pending := s.pending[tx := id], changes := s.changes[tx := change]) else s
    case Write(tx) =>
      if tx in s.pending && tx in s.changes
      then s.(rows := Changed(s.rows, s.pending[tx], s.changes[tx]), pending := s.pending - {tx}) else s
  }

  function Run(s: State, steps: seq<Step>): State
    decreases |steps|
  {
    if steps == [] then s else Run(Apply(s, steps[0]), steps[1..])
  }

  function OperationFor(id: M.Id, change: Change): M.Operation {
    match change
    case Disable => M.DisableMembership(true, id)
    case Demote => M.UpdateMembershipRole(true, id, M.ReadOnly)
  }

  /** Count and write with nothing between them are the operation itself. */
  lemma AloneIsTheOperation(s: State, tx: nat, id: M.Id, change: Change)
    requires M.IsOwner(s.rows, id) && tx !in s.pending && id !in s.pending.Values
    ensures Apply(Apply(s, Check(tx, id, change)), Write(tx)).rows == M.Perform(s.rows, OperationFor(id, change)).0
  {
  }

  /** Locked rows stay owners until they are written, and no row is locked twice. */
  ghost predicate LocksHold(s: State) {
    && (forall tx :: tx in s.pending ==> M.IsOwner(s.rows, s.pending[tx]) && tx in s.changes)
    && (forall tx, ux :: tx in s.pending && ux in s.pending && s.pending[tx] == s.pending[ux] ==> tx == ux)
  }

  lemma StepKeepsLocks(s: State, step: Step)
    requires LocksHold(s)
    ensures LocksHold(Apply(s, step))
  {
    if step.Check? && Apply(s, step) != s {
      assert forall tx :: tx in s.pending ==> s.pending[tx] in s.pending.Values;
    }
  }

  lemma WriteTakesOne(s: State, tx: nat)
    requires LocksHold(s) && tx in s.pending
    ensures M.Owners(Apply(s, Write(tx)).rows) == M.Owners(s.rows) - {s.pending[tx]}
    ensures Apply(s, Write(tx)).pending.Values == s.pending.Values - {s.pending[tx]}
  {
    var after := Apply(s, Write(tx));
    forall id ensures id in after.pending.Values <==> id in s.pending.Values && id != s.pending[tx] {
      if id in s.pending.Values && id != s.pending[tx] {
        var ux :| ux in s.pending && s.pending[ux] == id;
        assert ux in after.pending && after.pending[ux] == id;
      }
      if id in after.pending.Values {
        var ux :| ux in after.pending && after.pending[ux] == id;
        assert ux in s.pending && s.pending[ux] == id;
      }
    }
  }

  ghost predicate OnlyWrites(steps: seq<Step>) {
    forall i :: 0 <= i < |steps| ==> steps[i].Write?
  }

  /** Once all allowed transactions have written, in any order, exactly the locked owners are gone. */
  lemma {:induction false} PendingOwnersGo(s: State, steps: seq<Step>)
    requires LocksHold(s) && OnlyWrites(steps) && Run(s, steps).pending == map[]
    ensures M.Owners(Run(s, steps).rows) == M.Owners(s.rows) - s.pending.Values
    decreases |steps|
  {
    if steps != [] {
      StepKeepsLocks(s, steps[0]);
      if steps[0].tx in s.pending { WriteTakesOne(s, steps[0].tx); }
      assert OnlyWrites(steps[1..]);
      PendingOwnersGo(Apply(s, steps[0]), steps[1..]);
    }
  }

  /** The organisation is left without an owner if and only if every owner's row is locked by a transaction already allowed. */
  lemma RaceLosesOwnersIff(s: State, steps: seq<Step>)
    requires LocksHold(s) && OnlyWrites(steps) && Run(s, steps).pending == map[]
    ensures M.Owners(Run(s, steps).rows) == {} <==> M.Owners(s.rows) <= s.pending.Values
  {
    PendingOwnersGo(s, steps);
    var owners, locked := M.Owners(s.rows), s.pending.Values;
    if owners <= locked {
      assert owners - locked == {};
    } else {
      var id :| id in owners && id !in locked;
      assert id in owners - locked;
    }
  }

  /** Each count is made while no other allowed transaction is still to write. */
  ghost predicate OneAtATime(s: State, steps: seq<Step>)
    decreases |steps|
  {
    steps != [] ==> (steps[0].Check? ==> s.pending == map[]) && OneAtATime(Apply(s, steps[0]), steps[1..])
  }

  /** Somebody stays: two owners while one is about to go, one otherwise. */
  ghost predicate OwnerLeft(s: State) {
    LocksHold(s) && |s.pending| <= 1 && M.Owners(s.rows) != {} && (s.pending != map[] ==> M.AnotherOwner(s.rows))
  }

  lemma WriteLeavesOwner(s: State, tx: nat)
    requires OwnerLeft(s) && tx in s.pending
    ensures OwnerLeft(Apply(s, Write(tx)))
  {
    StepKeepsLocks(s, Write(tx));
    WriteTakesOne(s, tx);
    var other := M.SecondOwner(s.rows, s.pending[tx]);
    assert other in M.Owners(Apply(s, Write(tx)).rows);
    assert s.pending.Keys - {tx} == {} by {
      assert |s.pending.Keys| == |s.pending| && |s.pending.Keys - {tx}| == |s.pending.Keys| - 1;
    }
    assert Apply(s, Write(tx)).pending.Keys == {};
  }

  /** When count and write of one transaction are not interleaved with those of another, an owner stays in every run. */
  lemma {:induction false} OneAtATimeKeepsOwner(s: State, steps: seq<Step>)
    requires OwnerLeft(s) && OneAtATime(s, steps)
    ensures OwnerLeft(Run(s, steps))
    decreases |steps|
  {
    if steps != [] {
      StepKeepsLocks(s, steps[0]);
      if steps[0].Write? && steps[0].tx in s.pending { WriteLeavesOwner(s, steps[0].tx); }
      OneAtATimeKeepsOwner(Apply(s, steps[0]), steps[1..]);
    }
  }

  const PAIR: M.Rows := map[1 := M.Member(M.Organisation, Some(10), M.UserRef(10), M.OrganisationOwner, false),
                            2 := M.Member(M.Organisation, Some(20), M.UserRef(20), M.OrganisationOwner, false)]

  lemma PairOwners()
    ensures M.Owners(PAIR) == {1, 2} && M.AnotherOwner(PAIR)
  {
    assert M.Owners(PAIR) == {1, 2};
  }

  function Counts(a: Change, b: Change): seq<Step> {
    [Check(1, 1, a), Check(2, 2, b)]
  }

  /** Each transaction counts the other's owner. */
  lemma BothAllowed(a: Change, b: Change)
    ensures Run(State(PAIR, map[], map[]), Counts(a, b)) == State(PAIR, map[1 := 1, 2 := 2], map[1 := a, 2 := b])
  {
    PairOwners();
    var s1 := Apply(State(PAIR, map[], map[]), Check(1, 1, a));
    assert s1 == State(PAIR, map[1 := 1], map[1 := a]) && s1.pending.Values == {1};
    assert Apply(s1, Check(2, 2, b)) == State(PAIR, map[1 := 1, 2 := 2], map[1 := a, 2 := b]);
    assert Counts(a, b)[1..] == [Check(2, 2, b)] && [Check(2, 2, b)][1..] == [];
  }

  lemma BothLocked(a: Change, b: Change)
    ensures var counted := State(PAIR, map[1 := 1, 2 := 2], map[1 := a, 2 := b]); LocksHold(counted) && counted.pending.Values == {1, 2}
  {
    PairOwners();
    assert M.IsOwner(PAIR, 1) && M.IsOwner(PAIR, 2);
    var pending := map[1 := 1, 2 := 2];
    assert 1 in pending && 2 in pending && pending.Values == {1, 2};
  }

  lemma BothWrite(s: State, writes: seq<Step>)
    requires s.pending == map[1 := 1, 2 := 2] && s.changes.Keys == {1, 2} && writes == [Write(1), Write(2)]
    ensures OnlyWrites(writes) && Run(s, writes).pending == map[]
  {
    var s1 := Apply(s, Write(1));
    assert s1.pending == map[2 := 2];
    assert Apply(s1, Write(2)).pending == map[];
    assert writes[1..] == [Write(2)] && [Write(2)][1..] == [];
  }

  lemma RaceLosesBoth(counted: State, writes: seq<Step>)
    requires LocksHold(counted) && M.Owners(counted.rows) == {1, 2} == counted.pending.Values
    requires counted.pending == map[1 := 1, 2 := 2] && counted.changes.Keys == {1, 2} && writes == [Write(1), Write(2)]
    ensures M.Owners(Run(counted, writes).rows) == {}
  {
    BothWrite(counted, writes);
    RaceLosesOwnersIff(counted, writes);
  }

  /** Two owners, two transactions allowed one after the other, each to disable or to demote, and then no owner. */
  lemma RaceExample(a: Change, b: Change)
    ensures M.Owners(PAIR) == {1, 2}
    ensures var counted := Run(State(PAIR, map[], map[]), Counts(a, b)); M.Owners(Run(counted, [Write(1), Write(2)]).rows) == {}
  {
    PairOwners();
    BothAllowed(a, b);
    BothLocked(a, b);
    RaceLosesBoth(State(PAIR, map[1 := 1, 2 := 2], map[1 := a, 2 := b]), [Write(1), Write(2)]);
  }
}
