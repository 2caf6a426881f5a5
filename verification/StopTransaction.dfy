/**
 * The Stop hook of src/hooks/codex.ts and src/hooks/claude.ts: it idles the lease, and then, holding
 * the actor's lock, claims the Stop announcement on the cursor and reopens the lease, or does neither.
 */
module StopTransaction {
  import opened Base
  import opened Feeds
  import opened NudgeCursor
  import opened Announcements
  import opened ReadDelivery
  import opened HookTransactions
  import opened ActiveLease
  import LeaseHooks

  /** The latch as a hook of this membership sees it. */
  predicate Latched(actor: Actor, epoch: Epoch, stored: Option<Stored>)
  {
    var v := VirtualCursorOf(actor, epoch, stored);
    v.Ok? && v.value.state.stop == Some(v.value.state.revision)
  }

  /** The latch a receipt is for. */
  predicate Stands(stored: Option<Stored>, receipt: Receipt)
  {
    && stored.Some? && stored.value.V3? && stored.value.cursor.epoch == receipt.epoch
    && stored.value.cursor.revision == receipt.revision && stored.value.cursor.stop == Some(receipt.revision)
  }

  predicate Announces(result: Result<ClaimResult, HookError>)
  {
    result.Ok? && result.value.Ready? && result.value.claimed
  }

  lemma PreparedKeepsLatch(v: VirtualCursor, unreadCount: nat, turn: HookTurn)
    requires Prepared(v, unreadCount, Marker.Stop, turn).Ok?
    ensures var prepared := Prepared(v, unreadCount, Marker.Stop, turn).value;
      prepared.stop == v.state.stop && prepared.revision == v.state.revision && prepared.epoch == v.state.epoch
    ensures CurrentDeliveryTurn(Prepared(v, unreadCount, Marker.Stop, turn).value, turn).Ok?
  {
  }

  /** A decided Stop claim sets the latch exactly when it announces, and then only a free one. */
  lemma DecisionLatches(v: VirtualCursor, prepared: Cursor, scan: Scan, turn: HookTurn, continuation: bool, now: int)
    requires CurrentDeliveryTurn(prepared, turn).Ok?
    requires prepared.stop == v.state.stop && prepared.revision == v.state.revision && prepared.epoch == v.state.epoch
    ensures var u := DecideClaim(v, prepared, scan, Marker.Stop, turn, continuation, now);
      if u.result.Ready? && u.result.claimed then
        && v.state.stop != Some(v.state.revision) && u.state.Some?
        && u.state.value.stop == Some(v.state.revision) && u.state.value.revision == v.state.revision
        && u.state.value.epoch == v.state.epoch
        && u.result.receipt.Some?
        && u.result.receipt.value.epoch == v.state.epoch && u.result.receipt.value.revision == v.state.revision
      else
        u.state.Some? ==>
          && u.state.value.stop == v.state.stop && u.state.value.revision == v.state.revision
          && u.state.value.epoch == v.state.epoch
  {
  }

  /** A Stop claim on the file: the latch is set exactly by an announcement, and otherwise as before. */
  lemma ClaimLatches(actor: Actor, epoch: Epoch, stored: Option<Stored>, files: seq<FeedFile>, turn: HookTurn,
                     continuation: bool, now: int, sizeOf: Sizer)
    ensures var o := Persist(stored, DecideNudge(actor, epoch, stored, files, Marker.Stop, turn, continuation, now),
                             sizeOf);
      if Announces(o.result) then
        && !Latched(actor, epoch, stored) && Latched(actor, epoch, o.stored)
        && o.result.value.receipt.Some? && o.result.value.receipt.value.epoch == epoch
        && Stands(o.stored, o.result.value.receipt.value)
      else Latched(actor, epoch, o.stored) == Latched(actor, epoch, stored)
  {
    hide DecideClaim, Prepared, ScanUnreadSpec, CurrentDeliveryTurn, CursorFits;
    var virtual := VirtualCursorOf(actor, epoch, stored);
    if virtual.Ok? {
      var v := virtual.value;
      var scan := ScanUnreadSpec(actor, v.state, files, {});
      if Prepared(v, scan.unreadCount, Marker.Stop, turn).Ok? {
        PreparedKeepsLatch(v, scan.unreadCount, turn);
        DecisionLatches(v, Prepared(v, scan.unreadCount, Marker.Stop, turn).value, scan, turn, continuation, now);
        VirtualEpoch(actor, epoch, stored);
      }
    }
  }

  /** A rollback that does not fail leaves its latch standing nowhere, whatever happened meanwhile. */
  lemma RollbackUnlatches(stored: Option<Stored>, receipt: Receipt, now: int, sizeOf: Sizer)
    ensures var o := Persist(stored, Ok(RollbackStop(stored, receipt, now)), sizeOf);
      o.result.Ok? ==> !Stands(o.stored, receipt)
  {
    hide CursorFits;
  }

  datatype StopOutcome =
    | Superseded
    | ClaimFailed(error: HookError)
    | NoNudge
    | Reopened(lease: Lease)
    | WriteFailed(receipt: Receipt)
    | RollbackFailed(error: HookError)

  /**
   * The second critical section. `stoppedRevision` is the revision of the tombstone the first one
   * wrote, `update` the continuation to publish. `writeFails`: replacing the lease file fails;
   * `meanwhile`: what other hooks have made of the cursor by the time of the rollback.
   */
  method ContinueStop(
    file: LeaseFile, cursors: HookCursorStore, stoppedRevision: nat, update: LeaseUpdate,
    epoch: Epoch, files: seq<FeedFile>, turn: HookTurn, continuation: bool,
    writeFails: bool, meanwhile: Option<Option<Stored>>, now: int, later: int)
    returns (r: StopOutcome)
    requires update.state.Working?
    modifies file, cursors
    ensures r.Reopened? <==> file.lease != old(file.lease)
    ensures r.Reopened? ==>
      && file.lease == Some(r.lease) && r.lease.revision == stoppedRevision + 1
      && r.lease.state.Working? && r.lease.turnId == update.turnId && r.lease.work == update.work
    ensures r.Superseded? <==> !(old(file.lease).Some? && old(file.lease).value.state.Idle?
                                 && old(file.lease).value.revision == stoppedRevision)
    ensures r.Superseded? ==> cursors.stored == old(cursors.stored)
    ensures !r.RollbackFailed? && (meanwhile.None? || !r.WriteFailed?) ==>
      (!Latched(cursors.actor, epoch, old(cursors.stored)) && Latched(cursors.actor, epoch, cursors.stored)
       <==> r.Reopened?)
    ensures r.WriteFailed? ==> !Stands(cursors.stored, r.receipt)
  {
    hide DecideNudge, RollbackStop, Latched, Stands, Persist;
    var current := file.lease;
    if current.None? || !current.value.state.Idle? || current.value.revision != stoppedRevision {
      return Superseded;
    }
    ClaimLatches(cursors.actor, epoch, cursors.stored, files, turn, continuation, now, cursors.sizeOf);
    var claim := cursors.ClaimHookNudge(epoch, files, Marker.Stop, turn, continuation, now);
    if claim.Err? {
      return ClaimFailed(claim.error);
    }
    if !claim.value.Ready? || !claim.value.claimed {
      return NoNudge;
    }
    var receipt := claim.value.receipt.value;
    if !writeFails {
      var committed := file.Write(update, DEFAULT_TTL_MS, None, now);
      if committed.Ok? {
        return Reopened(committed.value);
      }
    }
    if meanwhile.Some? {
      cursors.stored := meanwhile.value;
    }
    UndoneAtOnce(cursors.actor, epoch, cursors.stored, receipt, later, cursors.sizeOf);
    RollbackUnlatches(cursors.stored, receipt, later, cursors.sizeOf);
    var rolledBack := cursors.RollbackStopClaim(receipt, later);
    if rolledBack.Err? {
      return RollbackFailed(rolledBack.error);
    }
    return StopOutcome.WriteFailed(receipt);
  }

  /** With nothing in between, undoing the claim leaves no latch at all. */
  lemma UndoneAtOnce(actor: Actor, epoch: Epoch, stored: Option<Stored>, receipt: Receipt, now: int, sizeOf: Sizer)
    ensures var o := Persist(stored, Ok(RollbackStop(stored, receipt, now)), sizeOf);
      Stands(stored, receipt) && receipt.epoch == epoch && o.result.Ok? ==> !Latched(actor, epoch, o.stored)
  {
    hide CursorFits;
  }

  /** The cursor as the second critical section finds it. */
  function Found(stored: Option<Stored>, between: Option<Option<Stored>>): (found: Option<Stored>)
  {
    if between.Some? then between.value else stored
  }

  datatype StopResult = Stale | Exhausted | Settled | Continued(outcome: StopOutcome)

  /**
   * The whole Codex Stop hook of a main actor. Between the two critical sections other hooks may work
   * on the lease (`between`) and leave another cursor (`cursorBetween`).
   */
  method CodexStop(
    file: LeaseFile, cursors: HookCursorStore, turnId: Option<string>, attested: bool, stopHookActive: bool,
    between: seq<Op>, cursorBetween: Option<Option<Stored>>, epoch: Epoch, files: seq<FeedFile>, writeFails: bool,
    meanwhile: Option<Option<Stored>>, now: int, later: int)
    returns (r: StopResult)
    requires AllWithinADay(between, now)
    modifies file, cursors
    ensures r.Stale? <==> LeaseHooks.StaleStop(old(file.lease), turnId, attested)
    ensures r.Stale? || r.Exhausted? ==> file.lease == old(file.lease) && cursors.stored == old(cursors.stored)
    ensures r.Settled? ==> LeaseHooks.IsIdle(file.lease) && cursors.stored == old(cursors.stored)
    ensures r.Continued? && r.outcome.Reopened? ==>
      && r.outcome.lease.revision == RevisionOf(old(file.lease)) + 2
      && r.outcome.lease.turnId == turnId && r.outcome.lease.work.continuation == turnId
      && ApplyAll(Some(Lease(RevisionOf(old(file.lease)) + 1, Idle, turnId, NO_WORK, now, now + DEFAULT_TTL_MS)),
                  between)
         == Some(Lease(RevisionOf(old(file.lease)) + 1, Idle, turnId, NO_WORK, now, now + DEFAULT_TTL_MS))
    ensures r.Continued? && !r.outcome.RollbackFailed? && (meanwhile.None? || !r.outcome.WriteFailed?) ==>
      (!Latched(cursors.actor, epoch, Found(old(cursors.stored), cursorBetween))
       && Latched(cursors.actor, epoch, cursors.stored)
       <==> r.outcome.Reopened?)
    ensures r.Continued? && r.outcome.Superseded? ==> cursors.stored == Found(old(cursors.stored), cursorBetween)
    ensures r.Continued? && r.outcome.WriteFailed? ==> !Stands(cursors.stored, r.outcome.receipt)
  {
    hide Latched, ApplyAll, Stands;
    if LeaseHooks.StaleStop(file.lease, turnId, attested) {
      return Stale;
    }
    var priorIntent :=
      if file.lease.Some? && file.lease.value.turnId == turnId then file.lease.value.work.intent else None;
    var stopped := file.Write(IdleUpdate(turnId), DEFAULT_TTL_MS, None, now);
    if stopped.Err? {
      return Exhausted;
    }
    if turnId.None? || stopHookActive {
      return Settled;
    }
    var tombstone := file.lease;
    RevisionsOnlyRise(tombstone, between, now);
    file.lease := ApplyAll(tombstone, between);
    cursors.stored := Found(cursors.stored, cursorBetween);
    var update := LeaseUpdate(Working, turnId, NO_WORK.(intent := priorIntent, continuation := turnId));
    var outcome := ContinueStop(file, cursors, stopped.value.revision, update, epoch, files, CodexHook(turnId.value),
                                false, writeFails, meanwhile, now, later);
    return Continued(outcome);
  }
}
