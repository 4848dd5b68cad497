/** The reconciler over its rows updated in place, driving the command runner of OperationsStore. */
module ReconcileStore {
  import opened Common
  import opened Operations
  import opened OperationsStore
  import R = Reconcile

  class Reconciler {
    const ops: Store
    var mappings: map<string, R.Mapping>
    var discrepancies: seq<R.Discrepancy>
    /** One row per run, `None` while it is running. */
    var runs: seq<Option<R.RunRow>>
    var degraded: bool

    constructor (ops: Store)
      ensures this.ops == ops && mappings == map[] && discrepancies == [] && runs == [] && !degraded
    {
      this.ops := ops;
      mappings, discrepancies, runs, degraded := map[], [], [], false;
    }

    ghost function World(): R.World
      reads this, ops
    {
      R.World(ops.Rows(), mappings, discrepancies)
    }

    method MappingByExternalID(external: string) returns (r: Result<R.Mapping, R.Failure>)
      modifies `mappings
      ensures r.Ok? <==> external != ""
      ensures mappings == if r.Ok? then R.Upserted(old(mappings), external) else old(mappings)
      ensures r.Ok? ==> external in mappings && r.value == mappings[external]
      ensures r.Err? ==> r.error == R.RowRefused
    {
      if external == "" { return Err(R.RowRefused); }
      if external !in mappings { mappings := mappings[external := R.Mapping(None, R.Unmapped)]; }
      return Ok(mappings[external]);
    }

    method RecordDiscrepancy(external: string, table: Option<Id>, kind: R.DiscrepancyType, seatd: Option<TableStatus>,
                             vendor: R.VendorStatus, resolution: R.Resolution) returns (ok: bool)
      modifies `discrepancies
      ensures ok == vendor.Known?
      ensures discrepancies == if vendor.Known? then old(discrepancies) + [R.Discrepancy(external, table, kind, seatd, vendor.status, resolution)]
                               else old(discrepancies)
    {
      if vendor.Unknown? { return false; }
      discrepancies := discrepancies + [R.Discrepancy(external, table, kind, seatd, vendor.status, resolution)];
      return true;
    }

    method ApplyTableState(t: Id, expected: int, next: TableStatus, partySize: Option<int>, d: R.Draw) returns (error: Option<Error>)
      requires ops.Valid()
      modifies ops
      ensures ops.Valid() && (ops.Rows(), error) == R.ApplyTableState(old(ops.Rows()), t, expected, next, partySize, d)
    {
      var response := ops.RunTenantCommand(R.CorrectingRequest(t, expected, next, partySize, d));
      if response.Failed? && !R.Tolerated(next, response.error) { return Some(response.error); }
      return None;
    }

    method ReconcileTableState(e: R.ExternalState, d: R.Draw) returns (r: Result<R.Outcome, R.Failure>)
      requires ops.Valid()
      modifies this, ops
      ensures ops.Valid() && (World(), r) == R.ReconcileTableState(old(World()), e, d)
      ensures runs == old(runs) && degraded == old(degraded)
    {
      var mapping := MappingByExternalID(e.external);
      if mapping.Err? { return Err(mapping.error); }
      if mapping.value.table.None? || mapping.value.status != R.Mapped {
        var recorded := RecordDiscrepancy(e.external, None, R.UnmappedTable, None, e.status, R.ReviewRequired);
        return if recorded then Ok(R.Outcome(true, false)) else Err(R.RowRefused);
      }
      var t := mapping.value.table.value;
      if t !in ops.occupancy { return Err(R.MissingTable); }
      var current := ops.occupancy[t];
      if e.status == R.Known(current.status) { return Ok(R.Outcome(false, false)); }
      var hasAssists := R.HasActiveAssists(ops.Rows(), t);
      var resolution, kind := R.AutoCorrected, R.OccupancyMismatch;
      if hasAssists { resolution, kind := R.ReviewRequired, R.AmbiguousConflict; }
      var recorded := RecordDiscrepancy(e.external, Some(t), kind, Some(current.status), e.status, resolution);
      if !recorded { return Err(R.RowRefused); }
      if resolution != R.AutoCorrected { return Ok(R.Outcome(true, false)); }
      var error := ApplyTableState(t, current.version, e.status.status, None, d);
      return if error.Some? then Err(R.CommandFailure(error.value)) else Ok(R.Outcome(true, true));
    }

    method FinishRun(run: nat, row: R.RunRow)
      requires run < |runs|
      modifies `runs, `degraded
      ensures runs == old(runs)[run := Some(row)] && degraded == row.FailedRun?
    {
      runs := runs[run := Some(row)];
      degraded := row.FailedRun?;
    }

    /** The loop: the states in order, counting, up to the first error. */
    method ReconcileStates(states: seq<R.ExternalState>, draws: seq<R.Draw>) returns (row: R.RunRow)
      requires ops.Valid() && |states| == |draws|
      modifies this, ops
      ensures ops.Valid() && (World(), row) == R.ReconcileConnection(old(World()), states, draws)
      ensures runs == old(runs) && degraded == old(degraded)
    {
      var discrepancyCount, correctedCount := 0, 0;
      ghost var start := World();
      for i := 0 to |states|
        invariant ops.Valid() && runs == old(runs) && degraded == old(degraded)
        invariant R.ReconcileFirst(start, states, draws, i) == (World(), R.Completed(i, discrepancyCount, correctedCount))
      {
        ghost var before := World();
        var r := ReconcileTableState(states[i], draws[i]);
        NextEntry(start, before, World(), states, draws, i, discrepancyCount, correctedCount, r);
        if r.Err? {
          StoppedRun(start, states, draws, i + 1, |states|);
          return R.FailedRun(|states|, discrepancyCount, correctedCount, r.error);
        }
        if r.value.discrepancy { discrepancyCount := discrepancyCount + 1; }
        if r.value.corrected { correctedCount := correctedCount + 1; }
      }
      return R.Completed(|states|, discrepancyCount, correctedCount);
    }

    /** The reference adapter; `None` is a configuration that does not decode. */
    method FetchExternalStatus(config: Option<seq<R.ConfiguredTable>>) returns (r: Result<seq<R.ExternalState>, R.Failure>)
      ensures r == if config.Some? then Ok(R.FetchedStates(config.value)) else Err(R.FetchFailure)
    {
      if config.None? { return Err(R.FetchFailure); }
      var tables := config.value;
      var states: seq<R.ExternalState> := [];
      for i := 0 to |tables|
        invariant states == R.FetchedStates(tables[..i])
      {
        assert tables[..i + 1][..i] == tables[..i];
        var external, status := TrimSpace(tables[i].externalTableId), R.StatusOf(tables[i].status);
        if external == "" || status.Unknown? { continue; }
        states := states + [R.ExternalState(external, status)];
      }
      assert tables[..|tables|] == tables;
      return Ok(states);
    }

    /** Creates a run, reconciles what was fetched, and finishes the run either way. */
    method ReconcileConnection(fetched: Result<seq<R.ExternalState>, R.Failure>, draws: seq<R.Draw>) returns (row: R.RunRow)
      requires ops.Valid() && (fetched.Ok? ==> |fetched.value| == |draws|)
      modifies this, ops
      ensures ops.Valid() && (World(), row) == R.ReconcileFetched(old(World()), fetched, draws)
      ensures runs == old(runs) + [Some(row)] && degraded == row.FailedRun?
    {
      var run := |runs|;
      runs := runs + [None];
      if fetched.Err? {
        row := R.FailedRun(0, 0, 0, fetched.error);
      } else {
        row := ReconcileStates(fetched.value, draws);
      }
      FinishRun(run, row);
    }

    /** `applyWebhookFact`. */
    method ApplyWebhookFact(e: R.ExternalState, partySize: Option<int>, d: R.Draw) returns (r: Result<(), R.Failure>)
      requires ops.Valid()
      modifies this, ops
      ensures ops.Valid() && (World(), r) == R.ApplyWebhookFact(old(World()), e, partySize, d)
    {
      var mapping := MappingByExternalID(e.external);
      if mapping.Err? { return Err(mapping.error); }
      if mapping.value.table.None? || mapping.value.status != R.Mapped { return Err(R.NotMapped); }
      var t := mapping.value.table.value;
      if t !in ops.occupancy { return Err(R.MissingTable); }
      var current := ops.occupancy[t];
      if e.status == R.Known(current.status) { return Ok(()); }
      if e.status.Unknown? { return Err(R.ValidationFailure); }
      var error := ApplyTableState(t, current.version, e.status.status, partySize, d);
      return if error.Some? then Err(R.CommandFailure(error.value)) else Ok(());
    }
  }

  /** One more turn of the loop, from a run that has not stopped. */
  lemma NextEntry(w: R.World, before: R.World, after: R.World, states: seq<R.ExternalState>, draws: seq<R.Draw>, n: nat,
                  discrepancies: nat, corrected: nat, outcome: Result<R.Outcome, R.Failure>)
    requires n < |states| == |draws| && R.ReconcileFirst(w, states, draws, n) == (before, R.Completed(n, discrepancies, corrected))
    requires R.ReconcileTableState(before, states[n], draws[n]) == (after, outcome)
    ensures R.ReconcileFirst(w, states, draws, n + 1) ==
            (after, if outcome.Err? then R.FailedRun(|states|, discrepancies, corrected, outcome.error)
                    else R.Completed(n + 1, discrepancies + (if outcome.value.discrepancy then 1 else 0),
                                     corrected + (if outcome.value.corrected then 1 else 0)))
  {
    var (w1, row) := R.ReconcileFirst(w, states, draws, n);
    assert w1 == before && row.Completed?;
  }

  /** A run that has stopped handles no further entry. */
  lemma {:induction false} StoppedRun(w: R.World, states: seq<R.ExternalState>, draws: seq<R.Draw>, n: nat, m: nat)
    requires n <= m <= |states| == |draws| && R.ReconcileFirst(w, states, draws, n).1.FailedRun?
    ensures R.ReconcileFirst(w, states, draws, m) == R.ReconcileFirst(w, states, draws, n)
  {
    if n < m { StoppedRun(w, states, draws, n, m - 1); }
  }
}
