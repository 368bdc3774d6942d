/**
 The lease columns of the run registry (`registry.py`, lines 238-340). Every operation is one
 transaction on one row.
 */
module RunRegistry {
  import opened Wrappers

  type RunId = string
  type Owner = string
  type Time = real

  /** `lease_expires_at`: absent, a timestamp, or text that does not parse. */
  datatype Expiry = NoExpiry | At(time: Time) | Malformed

  datatype Row = Row(status: string, node: Option<string>, finished: bool, owner: Option<Owner>, expiry: Expiry)

  datatype RegistryError = UnknownRun | DuplicateRun | BadTtl | BadTimestamp

  /** The row of a run that was just created. */
  const QUEUED := Row("queued", None, false, None, NoExpiry)

  // ----- one row -----

  /** Another owner holds the row and its lease has not run out. */
  predicate HeldByOther(row: Row, owner: Owner, now: Time) {
    row.owner.Some? && row.owner.value != owner && row.expiry.At? && row.expiry.time > now
  }

  predicate MayClaim(row: Row, owner: Owner, now: Time) {
    !row.finished && !HeldByOther(row, owner, now)
  }

  function Leased(row: Row, owner: Owner, until: Time): Row {
    row.(owner := Some(owner), expiry := At(until))
  }

  predicate MayRenew(row: Row, owner: Owner) {
    row.owner == Some(owner) && !row.finished
  }

  function Unleased(row: Row): Row {
    row.(owner := None, expiry := NoExpiry)
  }

  function Closed(row: Row): Row {
    Unleased(row).(finished := true)
  }

  /** `_foreign_lease_active`: an unreadable expiry counts as a lease. */
  predicate ForeignLeaseActive(row: Row, owner: Owner, now: Time) {
    row.owner.Some? && row.owner.value != owner
    && match row.expiry
       case NoExpiry => false
       case At(time) => time > now
       case Malformed => true
  }

  /** The guard that recovery checks first is never weaker than the claim itself. */
  lemma ForeignLeaseBlocksClaim(row: Row, owner: Owner, now: Time)
    ensures !row.finished && row.expiry != Malformed ==>
              (ForeignLeaseActive(row, owner, now) <==> !MayClaim(row, owner, now))
    ensures row.expiry == Malformed ==>
              (ForeignLeaseActive(row, owner, now) <==> row.owner.Some? && row.owner.value != owner)
  {
  }

  // ----- the table -----

  class ControlRegistry {
    var runs: map<RunId, Row>

    constructor ()
      ensures runs == map[]
    {
      runs := map[];
    }

    /** A new row; an id that exists already violates the primary key and leaves its row alone. */
    method CreateRun(id: RunId) returns (r: Result<Row, RegistryError>)
      modifies this
      ensures r == if id in old(runs) then Failure(DuplicateRun) else Success(QUEUED)
      ensures forall other :: other in old(runs) ==> other in runs && runs[other] == old(runs)[other]
      ensures runs.Keys == old(runs).Keys + {id} && (id !in old(runs) ==> runs[id] == QUEUED)
    {
      if id in runs {
        return Failure(DuplicateRun);
      }
      runs := runs[id := QUEUED];
      return Success(QUEUED);
    }

    method ClaimRunLease(id: RunId, owner: Owner, now: Time, ttl: int) returns (r: Result<bool, RegistryError>)
      modifies this
      ensures r == if ttl <= 0 then Failure(BadTtl)
                   else if id !in old(runs) then Failure(UnknownRun)
                   else if old(runs)[id].finished then Success(false)
                   else if old(runs)[id].expiry == Malformed then Failure(BadTimestamp)
                   else Success(MayClaim(old(runs)[id], owner, now))
      ensures runs == if r == Success(true) then old(runs)[id := Leased(old(runs)[id], owner, now + ttl as real)]
                else old(runs)
    {
      if ttl <= 0 {
        return Failure(BadTtl);
      }
      var until := now + ttl as real;
      if id !in runs {
        return Failure(UnknownRun);
      }
      var row := runs[id];
      if row.finished {
        return Success(false);
      }
      if row.expiry.Malformed? {
        return Failure(BadTimestamp);
      }
      if row.owner.Some? && row.owner.value != owner && row.expiry.At? && row.expiry.time > now {
        return Success(false);
      }
      runs := runs[id := row.(owner := Some(owner), expiry := At(until))];
      return Success(true);
    }

    method RenewRunLease(id: RunId, owner: Owner, now: Time, ttl: int) returns (r: Result<bool, RegistryError>)
      modifies this
      ensures r == if ttl <= 0 then Failure(BadTtl) else Success(id in old(runs) && MayRenew(old(runs)[id], owner))
      ensures runs == if r == Success(true) then old(runs)[id := Leased(old(runs)[id], owner, now + ttl as real)]
                else old(runs)
    {
      if ttl <= 0 {
        return Failure(BadTtl);
      }
      if id !in runs || runs[id].owner != Some(owner) || runs[id].finished {
        return Success(false);
      }
      runs := runs[id := runs[id].(expiry := At(now + ttl as real))];
      return Success(true);
    }

    method ReleaseRunLease(id: RunId, owner: Owner) returns (released: bool)
      modifies this
      ensures released <==> id in old(runs) && old(runs)[id].owner == Some(owner)
      ensures runs == if released then old(runs)[id := Unleased(old(runs)[id])] else old(runs)
    {
      released := id in runs && runs[id].owner == Some(owner);
      if released {
        runs := runs[id := runs[id].(owner := None, expiry := NoExpiry)];
      }
    }

    method UpdateRun(id: RunId, status: Option<string>, node: Option<string>, finished: bool)
        returns (r: Result<(), RegistryError>)
      modifies this
      ensures r.Failure? <==> (status.Some? || node.Some? || finished) && id !in old(runs)
      ensures id !in old(runs) ==> runs == old(runs)
      ensures id in old(runs) ==>
                var row := old(runs)[id];
                var named := row.(status := if status.Some? then status.value else row.status,
                                  node := if node.Some? then node else row.node);
                runs == old(runs)[id := if finished then Closed(named) else named]
    {
      if status.None? && node.None? && !finished {
        if id in runs {
          assert runs == runs[id := runs[id]];
        }
        return Success(());
      }
      if id !in runs {
        return Failure(UnknownRun);
      }
      var row := runs[id];
      if status.Some? {
        row := row.(status := status.value);
      }
      if node.Some? {
        row := row.(node := node);
      }
      if finished {
        row := row.(finished := true, owner := None, expiry := NoExpiry);
      }
      runs := runs[id := row];
      return Success(());
    }
  }
}
