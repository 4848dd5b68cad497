/**
 The memberships of one organisation, `internal/domain/identity/memberships.go`: what each operation
 does to the rows, and when the organisation keeps an owner. Operations run one after the other.
 */
module Memberships {
  import opened Common

  type Id = nat

  datatype Role = OrganisationOwner | ReadOnly | LocationManager | Waiter

  /** Where a membership holds: the two tables, and the location of a row of the second. */
  datatype Scope = Organisation | Location(location: Id)

  /** `member_ref`: a user's own reference, or one given in another way. */
  datatype MemberRef = UserRef(profile: Id) | OtherRef(name: string)

  datatype Member = Member(scope: Scope, profile: Option<Id>, ref: MemberRef, role: Role, disabled: bool)

  type Rows = map<Id, Member>

  datatype Error = Validation | NotFound | AlreadyExists

  /** An operation with the row id it draws if it inserts, and the locations that the organisation then has. */
  datatype Operation =
    | CreateMembership(scope: Scope, profile: Id, role: Role, newId: Id, locations: set<Id>)
    | UpdateMembershipRole(organisation: bool, id: Id, role: Role)
    | DisableMembership(organisation: bool, id: Id)
    | PlatformInviteOwner(profile: Id, newId: Id)
    | PlatformDisableOwner(id: Id)
    | PlatformReactivateOwner(id: Id)
    | PlatformReassignOwnership(from: Id, profile: Id, newId: Id)

  predicate ValidRole(organisation: bool, role: Role) {
    if organisation then role == OrganisationOwner || role == ReadOnly else role == LocationManager || role == Waiter
  }

  predicate Found(rows: Rows, organisation: bool, id: Id) {
    id in rows && rows[id].scope.Organisation? == organisation
  }

  predicate IsOf(rows: Rows, scope: Scope, profile: Id, id: Id) {
    id in rows && rows[id].scope == scope && rows[id].profile == Some(profile)
  }

  predicate IsOwner(rows: Rows, id: Id) {
    id in rows && rows[id].scope == Organisation && rows[id].role == OrganisationOwner && !rows[id].disabled
  }

  function Owners(rows: Rows): set<Id> {
    set id | id in rows && IsOwner(rows, id)
  }

  /** A profile has at most one row in a scope. */
  ghost predicate OneRowPerProfile(rows: Rows) {
    forall scope, p, i, j :: IsOf(rows, scope, p, i) && IsOf(rows, scope, p, j) ==> i == j
  }

  // ---------------------------------------------------------------- the statements

  /** `UNIQUE (organisation_id, member_ref)` and `UNIQUE (location_id, member_ref)`. */
  predicate RefTaken(rows: Rows, scope: Scope, ref: MemberRef) {
    exists id | id in rows :: rows[id].scope == scope && rows[id].ref == ref
  }

  ghost function CreateOrReactivate(rows: Rows, scope: Scope, profile: Id, role: Role, newId: Id): (Rows, Result<Id, Error>) {
    if exists id :: IsOf(rows, scope, profile, id) then
      var id :| IsOf(rows, scope, profile, id);
      if !rows[id].disabled then (rows, Err(AlreadyExists))
      else (rows[id := rows[id].(role := role, disabled := false)], Ok(id))
    else if newId in rows || RefTaken(rows, scope, UserRef(profile)) then (rows, Err(AlreadyExists))
    else (rows[newId := Member(scope, Some(profile), UserRef(profile), role, false)], Ok(newId))
  }

  predicate AnotherOwner(rows: Rows) {
    |Owners(rows)| > 1
  }

  function Disabled(rows: Rows, id: Id): Rows {
    if id in rows then rows[id := rows[id].(disabled := true)] else rows
  }

  // ---------------------------------------------------------------- the operations

  ghost function Create(rows: Rows, scope: Scope, profile: Id, role: Role, newId: Id, locations: set<Id>): (Rows, Result<Id, Error>) {
    if !ValidRole(scope.Organisation?, role) then (rows, Err(Validation))
    else if scope.Location? && scope.location !in locations then (rows, Err(NotFound))
    else CreateOrReactivate(rows, scope, profile, role, newId)
  }

  function UpdateRole(rows: Rows, organisation: bool, id: Id, role: Role): (Rows, Result<Id, Error>) {
    if !ValidRole(organisation, role) then (rows, Err(Validation))
    else if !Found(rows, organisation, id) || rows[id].disabled then (rows, Err(NotFound))
    else if organisation && rows[id].role == OrganisationOwner && role != OrganisationOwner && !AnotherOwner(rows) then (rows, Err(Validation))
    else (rows[id := rows[id].(role := role)], Ok(id))
  }

  function Disable(rows: Rows, organisation: bool, id: Id): (Rows, Result<Id, Error>) {
    if !Found(rows, organisation, id) || rows[id].disabled then (rows, Err(NotFound))
    else if organisation && rows[id].role == OrganisationOwner && !AnotherOwner(rows) then (rows, Err(Validation))
    else (Disabled(rows, id), Ok(id))
  }

  function DisableOwner(rows: Rows, id: Id): (Rows, Result<Id, Error>) {
    if !Found(rows, true, id) || rows[id].disabled then (rows, Err(NotFound))
    else if rows[id].role != OrganisationOwner || !AnotherOwner(rows) then (rows, Err(Validation))
    else (Disabled(rows, id), Ok(id))
  }

  function ReactivateOwner(rows: Rows, id: Id): (Rows, Result<Id, Error>) {
    if !Found(rows, true, id) then (rows, Err(NotFound))
    else if rows[id].role != OrganisationOwner then (rows, Err(Validation))
    else (rows[id := rows[id].(disabled := false)], Ok(id))
  }

  /** The target that `ErrAlreadyExists` makes the operation look up; its role is not looked at. */
  ghost function ReassignTarget(rows: Rows, profile: Id, newId: Id): (Rows, Result<Id, Error>) {
    var (after, next) := CreateOrReactivate(rows, Organisation, profile, OrganisationOwner, newId);
    if next.Err? && exists id :: IsOf(rows, Organisation, profile, id) then
      var id :| IsOf(rows, Organisation, profile, id);
      (rows, Ok(id))
    else (after, next)
  }

  ghost function Reassign(rows: Rows, from: Id, profile: Id, newId: Id): (Rows, Result<Id, Error>) {
    if !Found(rows, true, from) || rows[from].disabled then (rows, Err(NotFound))
    else if rows[from].role != OrganisationOwner then (rows, Err(Validation))
    else
      var (after, next) := ReassignTarget(rows, profile, newId);
      match next
      case Err(e) => (rows, Err(e))
      case Ok(id) => if id == from then (rows, Err(Validation)) else (Disabled(after, from), Ok(id))
  }

  ghost function Perform(rows: Rows, op: Operation): (Rows, Result<Id, Error>) {
    match op
    case CreateMembership(scope, profile, role, newId, locations) => Create(rows, scope, profile, role, newId, locations)
    case UpdateMembershipRole(organisation, id, role) => UpdateRole(rows, organisation, id, role)
    case DisableMembership(organisation, id) => Disable(rows, organisation, id)
    case PlatformInviteOwner(profile, newId) => CreateOrReactivate(rows, Organisation, profile, OrganisationOwner, newId)
    case PlatformDisableOwner(id) => DisableOwner(rows, id)
    case PlatformReactivateOwner(id) => ReactivateOwner(rows, id)
    case PlatformReassignOwnership(from, profile, newId) => Reassign(rows, from, profile, newId)
  }

  ghost function Run(rows: Rows, ops: seq<Operation>): Rows {
    if ops == [] then rows else Perform(Run(rows, ops[..|ops| - 1]), ops[|ops| - 1]).0
  }

  // ---------------------------------------------------------------- keeping an owner

  /** The profile holds an enabled organisation membership that is not an owner's. */
  ghost predicate HoldsReadOnly(rows: Rows, profile: Id) {
    exists id :: IsOf(rows, Organisation, profile, id) && !rows[id].disabled && rows[id].role != OrganisationOwner
  }

  lemma SecondOwner(rows: Rows, id: Id) returns (other: Id)
    requires IsOwner(rows, id) && AnotherOwner(rows)
    ensures other != id && IsOwner(rows, other)
  {
    assert |Owners(rows) - {id}| == |Owners(rows)| - 1;
    other :| other in Owners(rows) && other != id;
  }

  lemma CreateKeepsOwners(rows: Rows, scope: Scope, profile: Id, role: Role, newId: Id)
    ensures Owners(rows) <= Owners(CreateOrReactivate(rows, scope, profile, role, newId).0)
  {
  }

  /** What a reassignment that succeeds does to the owners. */
  lemma ReassignOwners(rows: Rows, from: Id, profile: Id, newId: Id)
    requires OneRowPerProfile(rows) && Reassign(rows, from, profile, newId).1.Ok?
    ensures var (after, next) := Reassign(rows, from, profile, newId);
            && IsOwner(rows, from) && next.value != from
            && Owners(after) == Owners(rows) - {from} + (if HoldsReadOnly(rows, profile) then {} else {next.value})
  {
    var (after, next) := Reassign(rows, from, profile, newId);
    var id := next.value;
    assert IsOf(after, Organisation, profile, id);
    if exists held :: IsOf(rows, Organisation, profile, held) {
      assert IsOf(rows, Organisation, profile, id);
      assert HoldsReadOnly(rows, profile) <==> !rows[id].disabled && rows[id].role != OrganisationOwner;
    } else {
      assert !HoldsReadOnly(rows, profile);
    }
  }

  /** A successful reassignment leaves no owner exactly when `from` was the only one and the target holds a read-only membership. */
  lemma ReassignLosesOwnerIff(rows: Rows, from: Id, profile: Id, newId: Id)
    requires OneRowPerProfile(rows) && Reassign(rows, from, profile, newId).1.Ok?
    ensures Owners(Reassign(rows, from, profile, newId).0) == {} <==> Owners(rows) == {from} && HoldsReadOnly(rows, profile)
  {
    ReassignOwners(rows, from, profile, newId);
  }

  /** One owner, and a reassignment to somebody with an enabled read-only membership. */
  lemma ReassignLosesOwnerExample()
    ensures var rows: Rows := map[1 := Member(Organisation, Some(10), UserRef(10), OrganisationOwner, false),
                                  2 := Member(Organisation, Some(20), UserRef(20), ReadOnly, false)];
            OneRowPerProfile(rows) && Owners(rows) == {1} && Reassign(rows, 1, 20, 3).1 == Ok(2) && Owners(Reassign(rows, 1, 20, 3).0) == {}
  {
    var rows: Rows := map[1 := Member(Organisation, Some(10), UserRef(10), OrganisationOwner, false),
                          2 := Member(Organisation, Some(20), UserRef(20), ReadOnly, false)];
    assert IsOf(rows, Organisation, 20, 2);
    assert IsOwner(rows, 1) && Owners(rows) == {1};
  }

  /** What each operation that succeeds does to the owners. */
  ghost predicate OwnersFollow(rows: Rows, op: Operation, after: Rows, id: Id) {
    match op
    case CreateMembership(scope, _, role, _, _) =>
      Owners(after) == Owners(rows) + if scope == Organisation && role == OrganisationOwner then {id} else {}
    case UpdateMembershipRole(_, _, role) =>
      id == op.id && Owners(after) == if role == OrganisationOwner then Owners(rows) + {id} else Owners(rows) - {id}
    case DisableMembership(_, _) => id == op.id && Owners(after) == Owners(rows) - {id}
    case PlatformInviteOwner(_, _) => Owners(after) == Owners(rows) + {id}
    case PlatformDisableOwner(_) => id == op.id && id in Owners(rows) && Owners(after) == Owners(rows) - {id}
    case PlatformReactivateOwner(_) => id == op.id && id in Owners(after) && Owners(after) == Owners(rows) + {id}
    case PlatformReassignOwnership(from, profile, _) =>
      from in Owners(rows) && Owners(after) == Owners(rows) - {from} + if HoldsReadOnly(rows, profile) then {} else {id}
  }

  lemma UpdateOwners(rows: Rows, organisation: bool, id: Id, role: Role)
    requires RolesFit(rows) && UpdateRole(rows, organisation, id, role).1.Ok?
    ensures UpdateRole(rows, organisation, id, role).1 == Ok(id)
    ensures Owners(UpdateRole(rows, organisation, id, role).0) == if role == OrganisationOwner then Owners(rows) + {id} else Owners(rows) - {id}
  {
    RowOwners(rows, UpdateRole(rows, organisation, id, role).0, id);
  }

  lemma DisableOwners(rows: Rows, organisation: bool, id: Id)
    requires Disable(rows, organisation, id).1.Ok?
    ensures Disable(rows, organisation, id).1 == Ok(id) && Owners(Disable(rows, organisation, id).0) == Owners(rows) - {id}
  {
    RowOwners(rows, Disable(rows, organisation, id).0, id);
  }

  lemma DisableOwnerOwners(rows: Rows, id: Id)
    requires DisableOwner(rows, id).1.Ok?
    ensures DisableOwner(rows, id).1 == Ok(id) && id in Owners(rows) && Owners(DisableOwner(rows, id).0) == Owners(rows) - {id}
  {
    RowOwners(rows, DisableOwner(rows, id).0, id);
  }

  lemma ReactivateOwners(rows: Rows, id: Id)
    requires ReactivateOwner(rows, id).1.Ok?
    ensures ReactivateOwner(rows, id).1 == Ok(id) && Owners(ReactivateOwner(rows, id).0) == Owners(rows) + {id}
  {
    RowOwners(rows, ReactivateOwner(rows, id).0, id);
  }

  /** Every operation either fails and changes nothing, or makes and unmakes exactly the owners it is for. */
  lemma OperationOwners(rows: Rows, op: Operation)
    requires OneRowPerProfile(rows) && RolesFit(rows)
    ensures Perform(rows, op).1.Err? ==> Perform(rows, op).0 == rows
    ensures Perform(rows, op).1.Ok? ==> OwnersFollow(rows, op, Perform(rows, op).0, Perform(rows, op).1.value)
  {
    if Perform(rows, op).1.Ok? {
      match op
      case CreateMembership(scope, profile, role, newId, _) => CreateOwners(rows, scope, profile, role, newId);
      case PlatformInviteOwner(profile, newId) => CreateOwners(rows, Organisation, profile, OrganisationOwner, newId);
      case PlatformReassignOwnership(from, profile, newId) => ReassignOwners(rows, from, profile, newId);
      case UpdateMembershipRole(organisation, id, role) => UpdateOwners(rows, organisation, id, role);
      case DisableMembership(organisation, id) => DisableOwners(rows, organisation, id);
      case PlatformDisableOwner(id) => DisableOwnerOwners(rows, id);
      case PlatformReactivateOwner(id) => ReactivateOwners(rows, id);
    }
  }

  /** At most row `id` has changed. */
  lemma RowOwners(rows: Rows, after: Rows, id: Id)
    requires rows.Keys <= after.Keys && forall x :: x in after && x != id ==> x in rows && after[x] == rows[x]
    ensures Owners(after) == Owners(rows) - {id} + if IsOwner(after, id) then {id} else {}
  {
  }

  lemma CreateOwners(rows: Rows, scope: Scope, profile: Id, role: Role, newId: Id)
    requires RolesFit(rows)
    ensures var (after, r) := CreateOrReactivate(rows, scope, profile, role, newId);
            if r.Err? then after == rows
            else Owners(after) == Owners(rows) + if scope == Organisation && role == OrganisationOwner then {r.value} else {}
  {
    var (after, r) := CreateOrReactivate(rows, scope, profile, role, newId);
    if r.Ok? {
      RowOwners(rows, after, r.value);
      assert r.value !in Owners(rows);
    }
  }

  /** Organisation rows hold organisation roles, and location rows location roles. */
  ghost predicate RolesFit(rows: Rows) {
    forall id :: id in rows ==> ValidRole(rows[id].scope.Organisation?, rows[id].role)
  }

  /** Every role belongs to exactly one of the two tables. */
  lemma RoleHasOneScope(role: Role)
    ensures ValidRole(true, role) <==> !ValidRole(false, role)
    ensures ValidRole(true, role) <==> role == OrganisationOwner || role == ReadOnly
  {
  }

  /** A reference is in a scope at most once: the unique keys of the two tables. */
  ghost predicate OneRowPerRef(rows: Rows) {
    forall i, j :: i in rows && j in rows && rows[i].scope == rows[j].scope && rows[i].ref == rows[j].ref ==> i == j
  }

  lemma CreateKeepsRefs(rows: Rows, scope: Scope, profile: Id, role: Role, newId: Id)
    requires OneRowPerRef(rows)
    ensures OneRowPerRef(CreateOrReactivate(rows, scope, profile, role, newId).0)
  {
  }

  lemma StepKeepsRefs(rows: Rows, op: Operation)
    requires OneRowPerRef(rows)
    ensures OneRowPerRef(Perform(rows, op).0)
  {
    match op
    case CreateMembership(scope, profile, role, newId, _) => CreateKeepsRefs(rows, scope, profile, role, newId);
    case PlatformInviteOwner(profile, newId) => CreateKeepsRefs(rows, Organisation, profile, OrganisationOwner, newId);
    case PlatformReassignOwnership(from, profile, newId) => CreateKeepsRefs(rows, Organisation, profile, OrganisationOwner, newId);
    case _ =>
  }

  lemma {:induction false} EveryRunKeepsRefs(rows: Rows, ops: seq<Operation>)
    requires OneRowPerRef(rows)
    ensures OneRowPerRef(Run(rows, ops))
  {
    if ops != [] {
      EveryRunKeepsRefs(rows, ops[..|ops| - 1]);
      StepKeepsRefs(Run(rows, ops[..|ops| - 1]), ops[|ops| - 1]);
    }
  }

  ghost predicate Holds(rows: Rows, scope: Scope, profile: Id) {
    exists id :: IsOf(rows, scope, profile, id)
  }

  /** Whoever has a row in the scope is refused if and only if it is enabled; otherwise that row is enabled with the role. */
  lemma HolderIsRevived(rows: Rows, scope: Scope, profile: Id, role: Role, newId: Id, id: Id)
    requires OneRowPerProfile(rows) && IsOf(rows, scope, profile, id)
    ensures CreateOrReactivate(rows, scope, profile, role, newId) ==
            if rows[id].disabled then (rows[id := rows[id].(role := role, disabled := false)], Ok(id)) else (rows, Err(AlreadyExists))
  {
  }

  /** Anybody else gets a new enabled row, unless another row of the scope has their reference or the row id is taken. */
  lemma NewcomerIsInserted(rows: Rows, scope: Scope, profile: Id, role: Role, newId: Id)
    requires !Holds(rows, scope, profile)
    ensures var (after, r) := CreateOrReactivate(rows, scope, profile, role, newId);
            && (r.Err? <==> newId in rows || exists id :: id in rows && rows[id].scope == scope && rows[id].ref == UserRef(profile))
            && (r.Ok? ==> r.value == newId && after == rows[newId := Member(scope, Some(profile), UserRef(profile), role, false)])
  {
  }

  /** A row of a location appears only through a creation that found the location; an unknown location is not found. */
  lemma RowsAreOfKnownLocations(rows: Rows, op: Operation, id: Id)
    ensures id in Perform(rows, op).0 && id !in rows && Perform(rows, op).0[id].scope.Location? ==>
              op.CreateMembership? && Perform(rows, op).0[id].scope == op.scope && op.scope.location in op.locations
    ensures op.CreateMembership? && op.scope.Location? && ValidRole(false, op.role) && op.scope.location !in op.locations ==>
              Perform(rows, op) == (rows, Err(NotFound))
    ensures op.CreateMembership? && op.scope.Location? && ValidRole(false, op.role) && op.scope.location in op.locations ==>
              Perform(rows, op) == CreateOrReactivate(rows, op.scope, op.profile, op.role, op.newId)
  {
  }

  /** Without this row among them there would be owners no more. */
  ghost predicate TakesLastOwner(rows: Rows, after: Rows) {
    Owners(rows) != {} && Owners(after) == {}
  }

  /** The guard refuses exactly the role changes that would take the last owner. */
  lemma UpdateRefusedIff(rows: Rows, organisation: bool, id: Id, role: Role)
    requires ValidRole(organisation, role) && Found(rows, organisation, id) && !rows[id].disabled
    ensures UpdateRole(rows, organisation, id, role) ==
            if TakesLastOwner(rows, rows[id := rows[id].(role := role)]) then (rows, Err(Validation)) else (rows[id := rows[id].(role := role)], Ok(id))
  {
    RowOwners(rows, rows[id := rows[id].(role := role)], id);
    OnlyOwnerIff(rows, id);
  }

  /** And exactly the disablings that would. */
  lemma DisableRefusedIff(rows: Rows, organisation: bool, id: Id)
    requires Found(rows, organisation, id) && !rows[id].disabled
    ensures Disable(rows, organisation, id) ==
            if TakesLastOwner(rows, Disabled(rows, id)) then (rows, Err(Validation)) else (rows[id := rows[id].(disabled := true)], Ok(id))
    ensures organisation ==>
            DisableOwner(rows, id) ==
            if rows[id].role != OrganisationOwner || TakesLastOwner(rows, Disabled(rows, id)) then (rows, Err(Validation))
            else (rows[id := rows[id].(disabled := true)], Ok(id))
  {
    RowOwners(rows, Disabled(rows, id), id);
    OnlyOwnerIff(rows, id);
  }

  lemma OnlyOwnerIff(rows: Rows, id: Id)
    ensures IsOwner(rows, id) ==> (Owners(rows) - {id} == {} <==> !AnotherOwner(rows))
  {
    if IsOwner(rows, id) {
      assert Owners(rows) == Owners(rows) - {id} + {id};
      assert |Owners(rows)| == |Owners(rows) - {id}| + 1;
    }
  }

  /** A row that is missing, of the other table or disabled is not found. */
  lemma MissingIsNotFound(rows: Rows, organisation: bool, id: Id, role: Role)
    requires ValidRole(organisation, role) && (Found(rows, organisation, id) ==> rows[id].disabled)
    ensures UpdateRole(rows, organisation, id, role) == (rows, Err(NotFound)) && Disable(rows, organisation, id) == (rows, Err(NotFound))
    ensures organisation ==> DisableOwner(rows, id) == (rows, Err(NotFound))
  {
  }

  lemma StepKeepsRoles(rows: Rows, op: Operation)
    requires RolesFit(rows)
    ensures RolesFit(Perform(rows, op).0)
  {
  }

  lemma {:induction false} EveryRunRolesFit(rows: Rows, ops: seq<Operation>)
    requires RolesFit(rows)
    ensures RolesFit(Run(rows, ops))
  {
    if ops != [] {
      EveryRunRolesFit(rows, ops[..|ops| - 1]);
      StepKeepsRoles(Run(rows, ops[..|ops| - 1]), ops[|ops| - 1]);
    }
  }

  /** A disabled row stays as it is unless the operation creates, invites, reactivates or reassigns to it. */
  lemma OnlyRevivalsTouchDisabled(rows: Rows, op: Operation, id: Id)
    requires id in rows && rows[id].disabled && Perform(rows, op).0 != rows
    ensures id in Perform(rows, op).0
    ensures Perform(rows, op).0[id] != rows[id] ==>
              !Perform(rows, op).0[id].disabled && Perform(rows, op).1 == Ok(id)
              && (op.CreateMembership? || op.PlatformInviteOwner? || op.PlatformReactivateOwner? || op.PlatformReassignOwnership?)
  {
  }

  /** The guard of the others: an owner is demoted or disabled only when there is another. */
  lemma StepKeepsOwner(rows: Rows, op: Operation)
    requires OneRowPerProfile(rows) && Owners(rows) != {}
    requires op.PlatformReassignOwnership? ==> !HoldsReadOnly(rows, op.profile)
    ensures Owners(Perform(rows, op).0) != {}
  {
    var after := Perform(rows, op).0;
    var owner :| owner in Owners(rows);
    match op
    case CreateMembership(scope, profile, role, newId, _) => CreateKeepsOwners(rows, scope, profile, role, newId);
    case PlatformInviteOwner(profile, newId) => CreateKeepsOwners(rows, Organisation, profile, OrganisationOwner, newId);
    case PlatformReactivateOwner(id) => assert IsOwner(after, owner);
    case PlatformReassignOwnership(from, profile, newId) =>
      if Perform(rows, op).1.Ok? { ReassignOwners(rows, from, profile, newId); }
    case UpdateMembershipRole(_, id, _) => OneRowKeepsOwner(rows, after, id, owner);
    case DisableMembership(_, id) => OneRowKeepsOwner(rows, after, id, owner);
    case PlatformDisableOwner(id) => OneRowKeepsOwner(rows, after, id, owner);
  }

  /** Only row `id` changes, and not an owner's unless there is another owner. */
  lemma OneRowKeepsOwner(rows: Rows, after: Rows, id: Id, owner: Id)
    requires IsOwner(rows, owner) && after.Keys == rows.Keys && forall x :: x in rows && x != id ==> after[x] == rows[x]
    requires after == rows || !IsOwner(rows, id) || IsOwner(after, id) || AnotherOwner(rows)
    ensures Owners(after) != {}
  {
    if IsOwner(rows, id) && AnotherOwner(rows) {
      var other := SecondOwner(rows, id);
      assert other in Owners(after);
    } else {
      assert owner in Owners(after);
    }
  }

  lemma CreateKeepsProfiles(rows: Rows, scope: Scope, profile: Id, role: Role, newId: Id)
    requires OneRowPerProfile(rows)
    ensures OneRowPerProfile(CreateOrReactivate(rows, scope, profile, role, newId).0)
  {
    var after := CreateOrReactivate(rows, scope, profile, role, newId).0;
    forall s, p, i, j | IsOf(after, s, p, i) && IsOf(after, s, p, j) ensures i == j {
      assert i in rows ==> IsOf(rows, s, p, i);
      assert j in rows ==> IsOf(rows, s, p, j);
    }
  }

  lemma SameHoldersKeepProfiles(rows: Rows, after: Rows)
    requires OneRowPerProfile(rows) && after.Keys == rows.Keys
    requires forall x :: x in rows ==> after[x].scope == rows[x].scope && after[x].profile == rows[x].profile
    ensures OneRowPerProfile(after)
  {
    assert forall s, p, i :: IsOf(after, s, p, i) == IsOf(rows, s, p, i);
  }

  lemma StepKeepsProfiles(rows: Rows, op: Operation)
    requires OneRowPerProfile(rows)
    ensures OneRowPerProfile(Perform(rows, op).0)
  {
    var after := Perform(rows, op).0;
    match op
    case CreateMembership(scope, profile, role, newId, _) => CreateKeepsProfiles(rows, scope, profile, role, newId);
    case PlatformInviteOwner(profile, newId) => CreateKeepsProfiles(rows, Organisation, profile, OrganisationOwner, newId);
    case PlatformReassignOwnership(from, profile, newId) =>
      CreateKeepsProfiles(rows, Organisation, profile, OrganisationOwner, newId);
      if Perform(rows, op).1.Ok? { SameHoldersKeepProfiles(ReassignTarget(rows, profile, newId).0, after); }
    case _ => SameHoldersKeepProfiles(rows, after);
  }

  /** No reassignment of the run targets somebody who then holds an enabled membership that is not an owner's. */
  ghost predicate FairReassignments(rows: Rows, ops: seq<Operation>) {
    forall n :: 0 <= n < |ops| && ops[n].PlatformReassignOwnership? ==> !HoldsReadOnly(Run(rows, ops[..n]), ops[n].profile)
  }

  /** In every serial run an organisation with an enabled owner keeps at least one, after every operation. */
  lemma {:induction false} EveryRunKeepsOwner(rows: Rows, ops: seq<Operation>)
    requires OneRowPerProfile(rows) && Owners(rows) != {} && FairReassignments(rows, ops)
    ensures OneRowPerProfile(Run(rows, ops)) && Owners(Run(rows, ops)) != {}
  {
    if ops != [] {
      var rest, last := ops[..|ops| - 1], |ops| - 1;
      forall n | 0 <= n < |rest| && rest[n].PlatformReassignOwnership? ensures !HoldsReadOnly(Run(rows, rest[..n]), rest[n].profile) {
        assert rest[..n] == ops[..n];
      }
      EveryRunKeepsOwner(rows, rest);
      StepKeepsOwner(Run(rows, rest), ops[last]);
      StepKeepsProfiles(Run(rows, rest), ops[last]);
    }
  }
}
