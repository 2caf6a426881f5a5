/**
 * src/active/store.ts: one actor's lease file. Every committed write takes the next revision, an idle
 * lease stays behind as a tombstone, and only tombstones long expired are deleted.
 */
module ActiveLease {
  import opened Base
  import opened JsText

  const DEFAULT_TTL_MS: nat := 300000
  const REAP_IDLE_AFTER_MS: nat := 86400000

  datatype LeaseState = Working | Waiting | Blocked | Idle

  /**
   * What a lease says about the work. A claim is its key: path, mode and confidence. `continuation` is
   * the Stop continuation mark and its turn.
   */
  datatype Work = Work(
    intent: Option<string>, action: Option<string>, claims: seq<Text>, unknownWriteScope: bool,
    continuation: Option<string>)

  const NO_WORK := Work(None, None, [], false, None)

  datatype LeaseUpdate = LeaseUpdate(state: LeaseState, turnId: Option<string>, work: Work)

  datatype Lease = Lease(revision: nat, state: LeaseState, turnId: Option<string>, work: Work, updatedAt: int,
                         expiresAt: int)

  datatype Decision = Ignore | WriteLease(update: LeaseUpdate)

  datatype LeaseError = RevisionConflict(expected: nat, actual: nat) | RevisionExhausted | WriteFailed

  /** The Stop tombstone: work details and claims are cleared. */
  function IdleUpdate(turnId: Option<string>): LeaseUpdate
  {
    LeaseUpdate(Idle, turnId, NO_WORK)
  }

  function RevisionOf(lease: Option<Lease>): (revision: nat)
  {
    if lease.Some? then lease.value.revision else 0
  }

  predicate Live(lease: Option<Lease>)
  {
    lease.Some? && !lease.value.state.Idle?
  }

  /** What a write commits over the file as it is. */
  function Commit(current: Option<Lease>, update: LeaseUpdate, ttlMs: nat, now: int): (r: Result<Lease, LeaseError>)
    ensures r.Ok? ==> r.value.revision == RevisionOf(current) + 1
    ensures r.Ok? <==> RevisionOf(current) < MAX_SAFE_INTEGER
  {
    if RevisionOf(current) >= MAX_SAFE_INTEGER then Err(RevisionExhausted)
    else Ok(Lease(RevisionOf(current) + 1, update.state, update.turnId, update.work, now, now + ttlMs))
  }

  predicate Reapable(lease: Lease, cutoff: int)
  {
    lease.state.Idle? && lease.expiresAt <= cutoff
  }

  class LeaseFile {
    var lease: Option<Lease>

    constructor ()
      ensures lease == None
    {
      lease := None;
    }

    /** A caller that read the file earlier names the revision it saw. */
    method Write(update: LeaseUpdate, ttlMs: nat, expectedRevision: Option<nat>, now: int)
      returns (r: Result<Lease, LeaseError>)
      modifies this
      ensures lease == Apply(old(lease), WriteOp(update, ttlMs, expectedRevision, now))
      ensures r.Ok? ==> lease == Some(r.value) && r.value.revision == RevisionOf(old(lease)) + 1
      ensures r.Ok? <==> (expectedRevision.None? || expectedRevision.value == RevisionOf(old(lease)))
                         && RevisionOf(old(lease)) < MAX_SAFE_INTEGER
      ensures r.Err? ==> lease == old(lease)
    {
      var actual := RevisionOf(lease);
      if expectedRevision.Some? && expectedRevision.value != actual {
        return Err(RevisionConflict(expectedRevision.value, actual));
      }
      var committed := Commit(lease, update, ttlMs, now);
      if committed.Ok? {
        lease := Some(committed.value);
      }
      return committed;
    }

    /** A caller-versioned snapshot replaces an older one only. */
    method WriteSnapshot(snapshot: Lease) returns (r: Result<Lease, LeaseError>)
      modifies this
      ensures lease == Apply(old(lease), SnapshotOp(snapshot))
      ensures r.Ok? <==> snapshot.revision > RevisionOf(old(lease))
      ensures if r.Ok? then lease == Some(snapshot) else lease == old(lease)
    {
      var actual := RevisionOf(lease);
      if snapshot.revision <= actual {
        return Err(RevisionConflict(snapshot.revision, actual));
      }
      lease := Some(snapshot);
      return Ok(snapshot);
    }

    /** Hygiene: deletes the tombstone once it is a day past its expiry. */
    method ReapExpiredIdle(now: int) returns (reaped: nat)
      modifies this
      ensures lease == Apply(old(lease), ReapOp(now))
      ensures reaped == if old(lease).Some? && lease.None? then 1 else 0
      ensures old(lease).Some? && lease.None? ==> old(lease).value.state.Idle?
    {
      reaped := 0;
      if lease.Some? && Reapable(lease.value, now - REAP_IDLE_AFTER_MS) {
        lease := None;
        reaped := 1;
      }
    }
  }

  /* ------------------------------ sequences of operations ------------------------------ */

  /** A hook's read-modify-write is a write whose decision has been taken under the lock. */
  datatype Op =
    | WriteOp(update: LeaseUpdate, ttlMs: nat, expectedRevision: Option<nat>, now: int)
    | SnapshotOp(snapshot: Lease)
    | ReapOp(now: int)

  function Apply(lease: Option<Lease>, op: Op): (next: Option<Lease>)
  {
    match op
    case WriteOp(update, ttlMs, expected, now) =>
      if expected.Some? && expected.value != RevisionOf(lease) then lease
      else if Commit(lease, update, ttlMs, now).Ok? then Some(Commit(lease, update, ttlMs, now).value) else lease
    case SnapshotOp(snapshot) => if snapshot.revision > RevisionOf(lease) then Some(snapshot) else lease
    case ReapOp(now) => if lease.Some? && Reapable(lease.value, now - REAP_IDLE_AFTER_MS) then None else lease
  }

  function ApplyAll(lease: Option<Lease>, ops: seq<Op>): (next: Option<Lease>)
    decreases |ops|
  {
    if ops == [] then lease else ApplyAll(Apply(lease, ops[0]), ops[1..])
  }

  predicate ExpiredIdle(lease: Option<Lease>, since: int)
  {
    lease.Some? && lease.value.state.Idle? && lease.value.expiresAt <= since
  }

  /** An operation that takes place within a day after `since`, and writes no tombstone that has expired by then. */
  predicate WithinADay(op: Op, since: int)
  {
    match op
    case WriteOp(update, ttlMs, _, now) => update.state.Idle? ==> since < now + ttlMs
    case SnapshotOp(snapshot) => !ExpiredIdle(Some(snapshot), since)
    case ReapOp(now) => now <= since + REAP_IDLE_AFTER_MS
  }

  predicate AllWithinADay(ops: seq<Op>, since: int)
  {
    forall op | op in ops :: WithinADay(op, since)
  }

  lemma ApplyWithinADay(lease: Option<Lease>, op: Op, since: int)
    requires WithinADay(op, since) && !ExpiredIdle(lease, since)
    ensures var next := Apply(lease, op);
      && !ExpiredIdle(next, since)
      && (next == lease || RevisionOf(next) > RevisionOf(lease))
  {
  }

  /** Within a day nothing is reaped, and a lease that has changed has a later revision. */
  lemma {:induction false} RevisionsOnlyRise(lease: Option<Lease>, ops: seq<Op>, since: int)
    requires AllWithinADay(ops, since) && !ExpiredIdle(lease, since)
    ensures ApplyAll(lease, ops) == lease || RevisionOf(ApplyAll(lease, ops)) > RevisionOf(lease)
    decreases |ops|
  {
    if ops != [] {
      ApplyWithinADay(lease, ops[0], since);
      RevisionsOnlyRise(Apply(lease, ops[0]), ops[1..], since);
    }
  }

  /** Whatever happens within the day, a lease that has changed has a later revision. */
  ghost predicate OnlyRises(lease: Option<Lease>, since: int)
  {
    forall ops | AllWithinADay(ops, since) ::
      ApplyAll(lease, ops) == lease || RevisionOf(ApplyAll(lease, ops)) > RevisionOf(lease)
  }

  /** A writer that names the revision it read commits exactly when the file is still the one it read. */
  predicate Fences(lease: Option<Lease>, found: Option<Lease>, update: LeaseUpdate, ttlMs: nat, now: int)
  {
    Apply(found, WriteOp(update, ttlMs, Some(RevisionOf(lease)), now)) != found <==> found == lease
  }

  /** However much later within the day it comes. */
  ghost predicate AlwaysFences(lease: Option<Lease>, since: int)
  {
    forall ops, update, ttlMs, now | AllWithinADay(ops, since) ::
      Fences(lease, ApplyAll(lease, ops), update, ttlMs, now)
  }

  /** Live leases stay fenced however stale they are, tombstones as long as they have not expired. */
  lemma DelayedWriterIsFenced(lease: Option<Lease>, ops: seq<Op>, since: int, update: LeaseUpdate, ttlMs: nat, now: int)
    requires AllWithinADay(ops, since) && !ExpiredIdle(lease, since)
    requires RevisionOf(lease) < MAX_SAFE_INTEGER
    ensures Fences(lease, ApplyAll(lease, ops), update, ttlMs, now)
  {
    RevisionsOnlyRise(lease, ops, since);
    var found := ApplyAll(lease, ops);
    var write := WriteOp(update, ttlMs, Some(RevisionOf(lease)), now);
    assert found == lease ==> RevisionOf(Apply(found, write)) == RevisionOf(lease) + 1;
  }

  /** An expired tombstone is reaped at the end of the day, and another lease may come to its revision. */
  function Restarted(lease: Option<Lease>, since: int): (ops: seq<Op>)
  {
    [ReapOp(since + REAP_IDLE_AFTER_MS)]
    + if RevisionOf(lease) == 0 then []
      else [SnapshotOp(Lease(RevisionOf(lease), Working, None, NO_WORK, since, since + 1))]
  }

  lemma ReapingRestartsRevisions(lease: Option<Lease>, since: int, update: LeaseUpdate, ttlMs: nat, now: int)
    requires ExpiredIdle(lease, since)
    ensures AllWithinADay(Restarted(lease, since), since)
    ensures var found := ApplyAll(lease, Restarted(lease, since));
      && found != lease && RevisionOf(found) == RevisionOf(lease)
      && (RevisionOf(lease) < MAX_SAFE_INTEGER ==> !Fences(lease, found, update, ttlMs, now))
  {
    var ops := Restarted(lease, since);
    assert Apply(lease, ops[0]) == None;
    if RevisionOf(lease) == 0 {
      assert ops[1..] == [];
    } else {
      assert ops[1..] == [ops[1]] && ops[1..][1..] == [];
      assert ApplyAll(None, ops[1..]) == Apply(None, ops[1]);
    }
  }

  /** Revisions only rise within the day exactly when the lease is not a tombstone that has expired before it. */
  lemma RevisionsOnlyRiseIff(lease: Option<Lease>, since: int)
    ensures OnlyRises(lease, since) <==> !ExpiredIdle(lease, since)
  {
    if ExpiredIdle(lease, since) {
      ReapingRestartsRevisions(lease, since, IdleUpdate(None), 0, 0);
      assert AllWithinADay(Restarted(lease, since), since);
    } else {
      forall ops | AllWithinADay(ops, since)
        ensures ApplyAll(lease, ops) == lease || RevisionOf(ApplyAll(lease, ops)) > RevisionOf(lease) {
        RevisionsOnlyRise(lease, ops, since);
      }
    }
  }

  /** And so the fence holds, for every writer, exactly then. */
  lemma FenceIff(lease: Option<Lease>, since: int)
    requires RevisionOf(lease) < MAX_SAFE_INTEGER
    ensures AlwaysFences(lease, since) <==> !ExpiredIdle(lease, since)
  {
    if ExpiredIdle(lease, since) {
      ReapingRestartsRevisions(lease, since, IdleUpdate(None), 0, 0);
      assert !Fences(lease, ApplyAll(lease, Restarted(lease, since)), IdleUpdate(None), 0, 0);
    } else {
      forall ops, update, ttlMs, now | AllWithinADay(ops, since)
        ensures Fences(lease, ApplyAll(lease, ops), update, ttlMs, now) {
        DelayedWriterIsFenced(lease, ops, since, update, ttlMs, now);
      }
    }
  }
}
