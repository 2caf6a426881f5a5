/**
 * The hook transactions on one cursor file (`withHookCursor`, src/nudge/unread.ts and
 * src/nudge/store.ts): read the file, work from the virtual cursor of the current membership,
 * decide, and replace the file.  The functions say what each decides; the class below does it.
 */
module HookTransactions {
  import opened Base
  import opened ReadState
  import opened Feeds
  import opened NudgeCursor
  import opened Announcements
  import opened ReadDelivery

  datatype Outcome<+R> = Outcome(stored: Option<Stored>, result: Result<R, HookError>)

  /** A decided state replaces the file unless it is too large to store. */
  function Persist<R>(stored: Option<Stored>, decision: Result<Update<R>, HookError>, sizeOf: Sizer): (o: Outcome<R>)
  {
    match decision
    case Err(e) => Outcome(stored, Err(e))
    case Ok(Update(None, result)) => Outcome(stored, Ok(result))
    case Ok(Update(Some(c), result)) =>
      if CursorFits(sizeOf, c) then Outcome(Some(V3(c)), Ok(result)) else Outcome(stored, Err(CursorTooLarge))
  }

  function DecideNudge(actor: Actor, epoch: Epoch, stored: Option<Stored>, files: seq<FeedFile>, marker: Marker,
                       turn: HookTurn, continuation: bool, now: int): (r: Result<Update<ClaimResult>, HookError>)
  {
    match VirtualCursorOf(actor, epoch, stored)
    case Err(e) => Err(e)
    case Ok(v) => ClaimNudge(v, ScanUnreadSpec(actor, v.state, files, {}), marker, turn, continuation, now)
  }

  function DecideReserve(actor: Actor, epoch: Epoch, stored: Option<Stored>, inv: Invocation, turn: HookTurn,
                         nonce: string, now: int, sizeOf: Sizer): (r: Result<Update<Reservation>, HookError>)
  {
    match VirtualCursorOf(actor, epoch, stored)
    case Err(e) => Err(e)
    case Ok(v) =>
      match CurrentDeliveryTurn(v.state, turn)
      case Err(e) => Err(e)
      case Ok(current) => Ok(Reserve(actor, v.state, inv, current, nonce, now, sizeOf))
  }

  function DecideStage(actor: Actor, epoch: Epoch, stored: Option<Stored>, inv: Invocation, turn: HookTurn,
                       stdout: Option<Envelope>, now: int, sizeOf: Sizer): (r: Result<Update<bool>, HookError>)
  {
    match VirtualCursorOf(actor, epoch, stored)
    case Err(e) => Err(e)
    case Ok(v) =>
      match CurrentDeliveryTurn(v.state, turn)
      case Err(e) => Err(e)
      case Ok(current) => Ok(Stage(actor, v.state, inv, current, stdout, now, sizeOf))
  }

  function DecideCommit(actor: Actor, epoch: Epoch, stored: Option<Stored>, inv: Invocation, turn: HookTurn,
                        modelText: Option<Envelope>, now: int, seen: Snapshots, sizeOf: Sizer)
    : (r: Result<Update<CommitResult>, HookError>)
  {
    match VirtualCursorOf(actor, epoch, stored)
    case Err(e) => Err(e)
    case Ok(v) =>
      match CurrentDeliveryTurn(v.state, turn)
      case Err(e) => Err(e)
      case Ok(current) => Commit(actor, v.state, inv, current, modelText, now, seen, sizeOf)
  }

  function DecideDiscard(actor: Actor, epoch: Epoch, stored: Option<Stored>, toolUseId: string, turn: HookTurn)
    : (r: Result<Update<()>, HookError>)
  {
    match VirtualCursorOf(actor, epoch, stored)
    case Err(e) => Err(e)
    case Ok(v) =>
      match CurrentDeliveryTurn(v.state, turn)
      case Err(e) => Err(e)
      case Ok(current) => Ok(Discard(v.state, toolUseId, current))
  }

  /** The cursor file of one session, replaced whole by each hook under its lock. */
  class HookCursorStore {
    const actor: Actor
    const sizeOf: Sizer
    var stored: Option<Stored>

    constructor (actor: Actor, sizeOf: Sizer)
      ensures this.actor == actor && this.sizeOf == sizeOf && stored == None
    {
      this.actor := actor;
      this.sizeOf := sizeOf;
      this.stored := None;
    }

    /** Replace the file if the decided state fits; otherwise leave it as it is. */
    method Write(next: Cursor) returns (fits: bool)
      modifies this
      ensures fits == CursorFits(sizeOf, next)
      ensures stored == if fits then Some(V3(next)) else old(stored)
    {
      fits := sizeOf(next) <= MAX_NUDGE_CURSOR_BYTES;
      if fits {
        stored := Some(V3(next));
      }
    }

    /** `claimHookNudge`: decide one announcement and record what was decided. */
    method ClaimHookNudge(epoch: Epoch, files: seq<FeedFile>, marker: Marker, turn: HookTurn, continuation: bool,
                          now: int)
      returns (r: Result<ClaimResult, HookError>)
      modifies this
      ensures Outcome(stored, r) ==
        Persist(old(stored), DecideNudge(actor, epoch, old(stored), files, marker, turn, continuation, now), sizeOf)
    {
      hide ScanUnreadSpec, EstablishClaimTurn, ToStore, VirtualCursorOf, DeliveredTo, Uncollapsed;
      var virtual := VirtualCursorOf(actor, epoch, stored);
      if virtual.Err? {
        return Err(virtual.error);
      }
      var v := virtual.value;
      var scan := ScanUnread(actor, v.state, files, {});
      var established := EstablishClaimTurn(v, turn);
      if established.Err? {
        return Err(established.error);
      }
      var next := established.value;
      var currentTurn := CurrentDeliveryTurn(next, turn);
      if currentTurn.Err? {
        return Err(currentTurn.error);
      }
      var current := currentTurn.value;
      if v.legacyMarkers.Some? {
        next := SeedLegacy(v, next, scan.unreadCount, marker, current);
      }
      var deliveryBeforeClaim := next.delivery;
      var highest := next.delivery.highest;
      var sameTurn := DeliveredTo(next, current);
      if marker == Stop && turn.ClaudeHook? && sameTurn {
        next := RetireTurn(next);
      }
      if marker == Stop && next.stop == Some(next.revision) {
        r := Store(v, next, now, AlreadyClaimed);
        return;
      }
      var claimed := scan.unreadCount > 0 &&
        if marker != Stop then scan.unreadCount > highest else !sameTurn && !continuation;
      next := Collapse(next, scan);
      if scan.unreadCount == 0 && scan.unavailable == {} {
        next := next.(readState := next.readState.(outsideWindow := false));
      } else if claimed {
        if marker == Stop {
          next := next.(stop := Some(next.revision));
        }
        next := next.(delivery := Delivery(Max(highest, scan.unreadCount), Some(current)));
      }
      var receipt := None;
      if marker == Stop && claimed {
        receipt := Some(Receipt(next.epoch, next.revision, deliveryBeforeClaim, next.delivery));
      }
      r := Store(v, next, now, Ready(claimed, scan.unreadCount, receipt));
    }

    /** The end of a claim: write only a changed state. */
    method Store(v: VirtualCursor, next: Cursor, now: int, result: ClaimResult)
      returns (r: Result<ClaimResult, HookError>)
      modifies this
      ensures Outcome(stored, r) == Persist(old(stored), Ok(Update(ToStore(v, next, now), result)), sizeOf)
    {
      if v.reset || !v.existed || next.(updatedAt := v.state.updatedAt) != v.state {
        var fits := Write(next.(updatedAt := now));
        if !fits {
          return Err(CursorTooLarge);
        }
      }
      return Ok(result);
    }

    /** `rollbackHookStopClaim`. */
    method RollbackStopClaim(receipt: Receipt, now: int) returns (r: Result<bool, HookError>)
      modifies this
      ensures Outcome(stored, r) == Persist(old(stored), Ok(RollbackStop(old(stored), receipt, now)), sizeOf)
    {
      if stored.None? || !stored.value.V3? {
        return Ok(false);
      }
      var current := stored.value.cursor;
      if current.epoch != receipt.epoch || current.revision != receipt.revision
        || current.stop != Some(receipt.revision) {
        return Ok(false);
      }
      var delivery := current.delivery;
      if delivery == receipt.claimed {
        delivery := receipt.before;
      }
      var fits := Write(current.(stop := None, delivery := delivery, updatedAt := now));
      return if fits then Ok(true) else Err(CursorTooLarge);
    }

    /** `reserveHookRead`: drop expired reservations and add one under a fresh nonce. */
    method ReserveHookRead(epoch: Epoch, inv: Invocation, turn: HookTurn, nonce: string, now: int)
      returns (r: Result<Reservation, HookError>)
      modifies this
      ensures Outcome(stored, r) ==
        Persist(old(stored), DecideReserve(actor, epoch, old(stored), inv, turn, nonce, now, sizeOf), sizeOf)
    {
      var virtual := VirtualCursorOf(actor, epoch, stored);
      if virtual.Err? {
        return Err(virtual.error);
      }
      var state := virtual.value.state;
      var current := CurrentDeliveryTurn(state, turn);
      if current.Err? {
        return Err(current.error);
      }
      if inv.query.recipient != Recipient(actor, state.epoch) {
        return Ok(ScopeChanged);
      }
      var pending := Unexpired(state.readState.pending, now);
      if exists p :: p in pending && p.toolUseId == inv.toolUseId {
        return Ok(ReplayedToolId);
      }
      if |pending| >= MAX_PENDING_READS {
        return Ok(PendingCapacity);
      }
      var next := WithPending(state, pending + [NewPending(inv, current.value, nonce, now)]).(updatedAt := now);
      var fits := Write(next);
      return Ok(if fits then Reserved else PendingCapacity);
    }

    /** `stageHookReadOutput`. */
    method StageHookReadOutput(epoch: Epoch, inv: Invocation, turn: HookTurn, stdout: Option<Envelope>, now: int)
      returns (r: Result<bool, HookError>)
      modifies this
      ensures Outcome(stored, r) ==
        Persist(old(stored), DecideStage(actor, epoch, old(stored), inv, turn, stdout, now, sizeOf), sizeOf)
    {
      var virtual := VirtualCursorOf(actor, epoch, stored);
      if virtual.Err? {
        return Err(virtual.error);
      }
      var state := virtual.value.state;
      var current := CurrentDeliveryTurn(state, turn);
      if current.Err? {
        return Err(current.error);
      }
      var pending := MatchingPending(actor, state, inv, current.value, now);
      if pending.None? || stdout.None? || !DeliveredEnvelope(stdout.value, inv.query, pending.value.nonce) {
        return Ok(false);
      }
      if pending.value.output.Some? {
        return Ok(pending.value.output == stdout);
      }
      var staged := StageOutput(state.readState.pending, pending.value.nonce, stdout.value);
      var next := WithPending(state, staged).(updatedAt := now);
      var fits := Write(next);
      return Ok(fits);
    }

    /** The coverage a commit would leave (`previewReadCoverage`). */
    method PreviewReadCoverage(c: Cursor, delivered: seq<Coverage>, first: seq<FeedFile>, second: seq<FeedFile>)
      returns (r: Result<Preview, MergeError>)
      ensures r == PreviewCoverage(actor, c, delivered, first, second)
    {
      hide ScanUnreadSpec, MergeAll, StillUnread, Uncollapsed;
      var before := ScanUnread(actor, c, first, RecordKeysOf(delivered));
      var base := Collapse(c, before);
      var added := StillUnread(delivered, before.unreadKeys);
      if |added| > MAX_READ_COVERAGE_RECORDS {
        return Err(CoverageCapacity);
      }
      var merged := MergeCoverage(base.readState.coverage, added, MAX_READ_COVERAGE_RECORDS + |added|);
      if merged.Err? {
        return Err(merged.error);
      }
      var next := base.(readState := base.readState.(coverage := merged.value.entries));
      var after := before;
      if merged.value.changed {
        after := ScanUnread(actor, next, second, {});
      }
      var lost := set e | e in delivered && (FeedKey(e.id.provider, e.id.session) in before.unavailable
                                             || FeedKey(e.id.provider, e.id.session) in after.unavailable);
      var recovery := added != [] && before.firstUnread.Some?
        && forall e | e in added :: RecordKeyOf(e) == TurnKey(before.firstUnread.value);
      return Ok(Preview(Collapse(next, after), merged.value.changed, after.unreadCount,
                        before.unavailable != {} || after.unavailable != {}, lost != {}, recovery));
    }

    /** `commitHookReadOutput`: both witnesses, then coverage, then the new revision. */
    method CommitHookReadOutput(epoch: Epoch, inv: Invocation, turn: HookTurn, modelText: Option<Envelope>, now: int,
                                seen: Snapshots)
      returns (r: Result<CommitResult, HookError>)
      modifies this
      ensures Outcome(stored, r) ==
        Persist(old(stored), DecideCommit(actor, epoch, old(stored), inv, turn, modelText, now, seen, sizeOf), sizeOf)
    {
      var virtual := VirtualCursorOf(actor, epoch, stored);
      if virtual.Err? {
        return Err(virtual.error);
      }
      var state := virtual.value.state;
      var current := CurrentDeliveryTurn(state, turn);
      if current.Err? {
        return Err(current.error);
      }
      var pending := Witnessed(actor, state, inv, current.value, modelText, now, seen.verify);
      if pending.None? {
        return Ok(REFUSED);
      }
      var nonce := pending.value.nonce;
      var preview := PreviewReadCoverage(state, modelText.value.coverage, seen.first, seen.second);
      var next := WithPending(state, Without(state.readState.pending, nonce));
      var result := REFUSED;
      if preview.Err? {
        if preview.error.InvalidCoverage? {
          return Err(InvalidCoverageEntry);
        }
      } else if preview.value.selectedUnavailable {
        return Ok(REFUSED);
      } else if !preview.value.advanced {
        next := WithPending(preview.value.state, Without(preview.value.state.readState.pending, nonce));
        result := CommitResult(true, false);
      } else {
        if state.revision + 1 > MAX_SAFE_INTEGER {
          return Err(RevisionOverflow);
        }
        var advanced := Advanced(state, preview.value, inv.query, nonce, current.value, now);
        if CoverageFits(sizeOf, advanced, state, preview.value.recovery) {
          next := advanced;
          result := CommitResult(true, true);
        }
      }
      var fits := Write(next);
      return if fits then Ok(result) else Err(CursorTooLarge);
    }

    /** `discardHookRead`: forget the reservation of one failed call. */
    method DiscardHookRead(epoch: Epoch, toolUseId: string, turn: HookTurn) returns (r: Result<(), HookError>)
      modifies this
      ensures Outcome(stored, r) ==
        Persist(old(stored), DecideDiscard(actor, epoch, old(stored), toolUseId, turn), sizeOf)
    {
      var virtual := VirtualCursorOf(actor, epoch, stored);
      if virtual.Err? {
        return Err(virtual.error);
      }
      var state := virtual.value.state;
      var current := CurrentDeliveryTurn(state, turn);
      if current.Err? {
        return Err(current.error);
      }
      var pending := Discarded(state.readState.pending, toolUseId, current.value);
      if |pending| == |state.readState.pending| {
        return Ok(());
      }
      var fits := Write(WithPending(state, pending));
      return if fits then Ok(()) else Err(CursorTooLarge);
    }
  }
}
