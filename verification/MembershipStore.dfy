/** The membership rows updated in place, each operation one transaction. */
module MembershipStore {
  import opened Common
  import M = Memberships

  class Service {
    var rows: M.Rows

    /** A lookup by profile has at most one answer. */
    ghost predicate Valid()
      reads this
    {
      M.OneRowPerProfile(rows)
    }

    constructor ()
      ensures Valid() && rows == map[]
    {
      rows := map[];
    }

    method MembershipByProfile(scope: M.Scope, profile: M.Id) returns (id: Option<M.Id>)
      requires Valid()
      ensures id.Some? <==> exists i :: M.IsOf(rows, scope, profile, i)
      ensures id.Some? ==> M.IsOf(rows, scope, profile, id.value)
    {
      if i :| i in rows && M.IsOf(rows, scope, profile, i) { return Some(i); }
      return None;
    }

    method CreateOrReactivate(scope: M.Scope, profile: M.Id, role: M.Role, newId: M.Id) returns (r: Result<M.Id, M.Error>)
      requires Valid()
      modifies this
      ensures Valid() && (rows, r) == M.CreateOrReactivate(old(rows), scope, profile, role, newId)
    {
      M.CreateKeepsProfiles(rows, scope, profile, role, newId);
      var existing := MembershipByProfile(scope, profile);
      if existing.Some? {
        if !rows[existing.value].disabled { return Err(M.AlreadyExists); }
        rows := rows[existing.value := rows[existing.value].(role := role, disabled := false)];
        return Ok(existing.value);
      }
      if newId in rows || M.RefTaken(rows, scope, M.UserRef(profile)) { return Err(M.AlreadyExists); }
      rows := rows[newId := M.Member(scope, Some(profile), M.UserRef(profile), role, false)];
      return Ok(newId);
    }

    /** Counts the enabled owners. */
    method RequireAnotherOwner() returns (ok: bool)
      ensures ok == M.AnotherOwner(rows)
    {
      var count, todo := 0, rows.Keys;
      while todo != {}
        invariant todo <= rows.Keys
        invariant count == |set id | id in rows.Keys - todo && M.IsOwner(rows, id)|
        decreases |todo|
      {
        var id :| id in todo;
        ghost var counted := set x | x in rows.Keys - todo && M.IsOwner(rows, x);
        todo := todo - {id};
        assert (set x | x in rows.Keys - todo && M.IsOwner(rows, x)) == if M.IsOwner(rows, id) then counted + {id} else counted;
        if M.IsOwner(rows, id) { count := count + 1; }
      }
      assert (set id | id in rows.Keys - todo && M.IsOwner(rows, id)) == M.Owners(rows);
      return count > 1;
    }

    method CreateMembership(scope: M.Scope, profile: M.Id, role: M.Role, newId: M.Id, locations: set<M.Id>) returns (r: Result<M.Id, M.Error>)
      requires Valid()
      modifies this
      ensures Valid() && (rows, r) == M.Perform(old(rows), M.CreateMembership(scope, profile, role, newId, locations))
    {
      if !M.ValidRole(scope.Organisation?, role) { return Err(M.Validation); }
      if scope.Location? && scope.location !in locations { return Err(M.NotFound); }
      r := CreateOrReactivate(scope, profile, role, newId);
    }

    method UpdateMembershipRole(organisation: bool, id: M.Id, role: M.Role) returns (r: Result<M.Id, M.Error>)
      requires Valid()
      modifies this
      ensures Valid() && (rows, r) == M.Perform(old(rows), M.UpdateMembershipRole(organisation, id, role))
    {
      M.StepKeepsProfiles(rows, M.UpdateMembershipRole(organisation, id, role));
      if !M.ValidRole(organisation, role) { return Err(M.Validation); }
      if !M.Found(rows, organisation, id) || rows[id].disabled { return Err(M.NotFound); }
      if organisation && rows[id].role == M.OrganisationOwner && role != M.OrganisationOwner {
        var another := RequireAnotherOwner();
        if !another { return Err(M.Validation); }
      }
      rows := rows[id := rows[id].(role := role)];
      return Ok(id);
    }

    method DisableMembership(organisation: bool, id: M.Id) returns (r: Result<M.Id, M.Error>)
      requires Valid()
      modifies this
      ensures Valid() && (rows, r) == M.Perform(old(rows), M.DisableMembership(organisation, id))
    {
      M.StepKeepsProfiles(rows, M.DisableMembership(organisation, id));
      if !M.Found(rows, organisation, id) || rows[id].disabled { return Err(M.NotFound); }
      if organisation && rows[id].role == M.OrganisationOwner {
        var another := RequireAnotherOwner();
        if !another { return Err(M.Validation); }
      }
      rows := rows[id := rows[id].(disabled := true)];
      return Ok(id);
    }

    method PlatformInviteOwner(profile: M.Id, newId: M.Id) returns (r: Result<M.Id, M.Error>)
      requires Valid()
      modifies this
      ensures Valid() && (rows, r) == M.Perform(old(rows), M.PlatformInviteOwner(profile, newId))
    {
      r := CreateOrReactivate(M.Organisation, profile, M.OrganisationOwner, newId);
    }

    method PlatformDisableOwner(id: M.Id) returns (r: Result<M.Id, M.Error>)
      requires Valid()
      modifies this
      ensures Valid() && (rows, r) == M.Perform(old(rows), M.PlatformDisableOwner(id))
    {
      M.StepKeepsProfiles(rows, M.PlatformDisableOwner(id));
      if !M.Found(rows, true, id) || rows[id].disabled { return Err(M.NotFound); }
      if rows[id].role != M.OrganisationOwner { return Err(M.Validation); }
      var another := RequireAnotherOwner();
      if !another { return Err(M.Validation); }
      rows := rows[id := rows[id].(disabled := true)];
      return Ok(id);
    }

    method PlatformReactivateOwner(id: M.Id) returns (r: Result<M.Id, M.Error>)
      requires Valid()
      modifies this
      ensures Valid() && (rows, r) == M.Perform(old(rows), M.PlatformReactivateOwner(id))
    {
      M.StepKeepsProfiles(rows, M.PlatformReactivateOwner(id));
      if !M.Found(rows, true, id) { return Err(M.NotFound); }
      if rows[id].role != M.OrganisationOwner { return Err(M.Validation); }
      rows := rows[id := rows[id].(disabled := false)];
      return Ok(id);
    }

    /** Any error after the target was created rolls the transaction back. */
    method PlatformReassignOwnership(from: M.Id, profile: M.Id, newId: M.Id) returns (r: Result<M.Id, M.Error>)
      requires Valid()
      modifies this
      ensures Valid() && (rows, r) == M.Perform(old(rows), M.PlatformReassignOwnership(from, profile, newId))
    {
      M.StepKeepsProfiles(rows, M.PlatformReassignOwnership(from, profile, newId));
      if !M.Found(rows, true, from) || rows[from].disabled { return Err(M.NotFound); }
      if rows[from].role != M.OrganisationOwner { return Err(M.Validation); }
      var saved := rows;
      var next := CreateOrReactivate(M.Organisation, profile, M.OrganisationOwner, newId);
      if next.Err? {
        var existing := MembershipByProfile(M.Organisation, profile);
        if existing.None? { return next; }
        next := Ok(existing.value);
      }
      if next.value == from {
        rows := saved;
        return Err(M.Validation);
      }
      if from in rows { rows := rows[from := rows[from].(disabled := true)]; }
      return next;
    }
  }
}
