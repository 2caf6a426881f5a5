/**
 * src/nudge/unread.ts: claiming one announcement of unread turns (`claimHookNudge`) and undoing a
 * Stop claim whose continuation failed (`rollbackHookStopClaim`), as functions of the cursor.
 */
module Announcements {
  import opened Base
  import opened ReadState
  import opened Feeds
  import opened NudgeCursor

  datatype Phase = Begin | Queued(epoch: Epoch) | Current

  /** The turn a provider hook names: Codex has ids, Claude only phases. */
  datatype HookTurn = CodexHook(turnId: string) | ClaudeHook(phase: Phase)

  predicate TurnOf(actor: Actor, turn: HookTurn)
  {
    turn.CodexHook? <==> actor.provider == Codex
  }

  datatype Receipt = Receipt(epoch: Epoch, revision: nat, before: Delivery, claimed: Delivery)

  datatype ClaimResult =
    | AlreadyClaimed
    | Ready(claimed: bool, unreadCount: nat, receipt: Option<Receipt>)

  /** What a hook decides under the cursor lock: a new state to store, if any, and an answer. */
  datatype Update<+R> = Update(state: Option<Cursor>, result: R)

  function CurrentDeliveryTurn(c: Cursor, turn: HookTurn): (r: Result<DeliveryTurn, HookError>)
  {
    match turn
    case CodexHook(turnId) => Ok(CodexTurn(turnId))
    case ClaudeHook(_) => if c.generation.None? then Err(GenerationMissing) else Ok(ClaudeTurn(c.generation.value))
  }

  /** A Claude prompt begins a new generation; only queued input of this membership carries suppression over. */
  function EstablishClaimTurn(v: VirtualCursor, turn: HookTurn): (r: Result<Cursor, HookError>)
  {
    var state := v.state;
    if turn.CodexHook? then Ok(state)
    else if state.generation.None? then Err(GenerationMissing)
    else if turn.phase.Current? || !v.existed then Ok(state)
    else if state.generation.value + 1 > MAX_SAFE_INTEGER then Err(GenerationOverflow)
    else
      var was, now := ClaudeTurn(state.generation.value), ClaudeTurn(state.generation.value + 1);
      var carry := turn.phase.Queued? && !v.reset && turn.phase.epoch == state.epoch;
      Ok(state.(
        generation := Some(now.generation),
        readState := if carry && state.readState.informedTurn == Some(was)
                     then state.readState.(informedTurn := Some(now)) else state.readState,
        delivery := if carry && state.delivery.lastTurn == Some(was)
                    then state.delivery.(lastTurn := Some(now)) else state.delivery))
  }

  /** A v1 file recorded neither counts nor turns: its markers seed a conservative high-water mark. */
  function SeedLegacy(v: VirtualCursor, c: Cursor, unreadCount: nat, marker: Marker, turn: DeliveryTurn): (out: Cursor)
  {
    if v.legacyMarkers.None? then c
    else
      var delivered := v.legacyMarkers.value != {};
      c.(delivery := Delivery(
        if delivered then unreadCount else 0,
        if delivered && unreadCount > 0 && marker != UserPrompt then Some(turn) else None))
  }

  predicate DeliveredTo(c: Cursor, turn: DeliveryTurn)
  {
    c.delivery.lastTurn == Some(turn) || c.readState.informedTurn == Some(turn)
  }

  /** At Claude's Stop the finished turn stops suppressing announcements. */
  function RetireTurn(c: Cursor): (out: Cursor)
  {
    c.(readState := c.readState.(informedTurn := None), delivery := c.delivery.(lastTurn := None))
  }

  /** Store only what changed beyond the timestamp, or what the file does not hold yet. */
  function ToStore(v: VirtualCursor, next: Cursor, now: int): (state: Option<Cursor>)
  {
    if v.reset || !v.existed || next.(updatedAt := v.state.updatedAt) != v.state
    then Some(next.(updatedAt := now)) else None
  }

  /** The cursor just before the decision: turn established, legacy seeded. */
  function Prepared(v: VirtualCursor, unreadCount: nat, marker: Marker, turn: HookTurn): (r: Result<Cursor, HookError>)
  {
    match EstablishClaimTurn(v, turn)
    case Err(e) => Err(e)
    case Ok(established) =>
      match CurrentDeliveryTurn(established, turn)
      case Err(e) => Err(e)
      case Ok(current) => Ok(SeedLegacy(v, established, unreadCount, marker, current))
  }

  function ClaimNudge(v: VirtualCursor, scan: Scan, marker: Marker, turn: HookTurn, continuation: bool, now: int)
    : (r: Result<Update<ClaimResult>, HookError>)
  {
    match Prepared(v, scan.unreadCount, marker, turn)
    case Err(e) => Err(e)
    case Ok(prepared) => Ok(DecideClaim(v, prepared, scan, marker, turn, continuation, now))
  }

  /** Which announcement this is: the decision proper. */
  predicate Claims(prepared: Cursor, unreadCount: nat, marker: Marker, current: DeliveryTurn, continuation: bool)
  {
    unreadCount > 0 &&
    if marker != Stop then unreadCount > prepared.delivery.highest
    else !DeliveredTo(prepared, current) && !continuation
  }

  function DecideClaim(v: VirtualCursor, prepared: Cursor, scan: Scan, marker: Marker, turn: HookTurn,
                       continuation: bool, now: int): (u: Update<ClaimResult>)
    requires CurrentDeliveryTurn(prepared, turn).Ok?
  {
    var current := CurrentDeliveryTurn(prepared, turn).value;
    var next :=
      if marker == Stop && turn.ClaudeHook? && DeliveredTo(prepared, current) then RetireTurn(prepared) else prepared;
    if marker == Stop && next.stop == Some(next.revision) then Update(ToStore(v, next, now), AlreadyClaimed)
    else
      var claimed := Claims(prepared, scan.unreadCount, marker, current, continuation);
      var collapsed := Collapse(next, scan);
      var settled :=
        if scan.unreadCount == 0 && scan.unavailable == {} then
          collapsed.(readState := collapsed.readState.(outsideWindow := false))
        else if claimed then
          collapsed.(stop := if marker == Stop then Some(next.revision) else collapsed.stop,
                     delivery := Delivery(Max(collapsed.delivery.highest, scan.unreadCount), Some(current)))
        else collapsed;
      Update(ToStore(v, settled, now),
             Ready(claimed, scan.unreadCount,
                   if marker == Stop && claimed
                   then Some(Receipt(settled.epoch, settled.revision, prepared.delivery, settled.delivery)) else None))
  }

  /** Undo a Stop latch; a newer revision wins and a concurrent announcement keeps its ledger. */
  function RollbackStop(current: Option<Stored>, receipt: Receipt, now: int): (u: Update<bool>)
  {
    if current.Some? && current.value.V3?
       && current.value.cursor.epoch == receipt.epoch
       && current.value.cursor.revision == receipt.revision
       && current.value.cursor.stop == Some(receipt.revision)
    then
      var c := current.value.cursor;
      Update(Some(c.(stop := None,
                     delivery := if c.delivery == receipt.claimed then receipt.before else c.delivery,
                     updatedAt := now)), true)
    else Update(None, false)
  }

  /* ------------------------------ validity is kept ------------------------------ */

  lemma PreparedValid(actor: Actor, v: VirtualCursor, unreadCount: nat, marker: Marker, turn: HookTurn)
    requires ValidCursor(actor, v.state) && TurnOf(actor, turn)
    requires Prepared(v, unreadCount, marker, turn).Ok?
    ensures var prepared := Prepared(v, unreadCount, marker, turn).value;
      && ValidCursor(actor, prepared)
      && prepared.(delivery := v.state.delivery, generation := v.state.generation,
                   readState := prepared.readState.(informedTurn := v.state.readState.informedTurn)) == v.state
      && (v.state.generation.Some? ==>
            prepared.generation.Some? && v.state.generation.value <= prepared.generation.value)
      && (v.legacyMarkers.None? ==> prepared.delivery.highest == v.state.delivery.highest)
  {
    hide ValidCursor, ValidTurn, SeedLegacy, EstablishClaimTurn;
    EstablishedValid(actor, v, turn);
    var established := EstablishClaimTurn(v, turn).value;
    CurrentTurnValid(actor, established, turn);
    SeededValid(actor, v, established, unreadCount, marker, CurrentDeliveryTurn(established, turn).value);
  }

  lemma CurrentTurnValid(actor: Actor, c: Cursor, turn: HookTurn)
    requires ValidCursor(actor, c) && TurnOf(actor, turn)
    ensures CurrentDeliveryTurn(c, turn).Ok? && ValidTurn(actor, c.generation, CurrentDeliveryTurn(c, turn).value)
  {
  }

  lemma LaterGenerationKeepsReads(actor: Actor, was: nat, now: nat, held: Reads)
    requires was <= now && ValidReads(actor, Some(was), held)
    ensures ValidReads(actor, Some(now), held)
  {
    hide DistinctPending, WellKeyed;
    forall p | p in held.pending ensures ValidPending(actor, Some(now), p) {
      assert ValidPending(actor, Some(was), p);
    }
  }

  lemma InformedValid(actor: Actor, generation: Option<nat>, held: Reads, turn: Option<DeliveryTurn>)
    requires ValidReads(actor, generation, held) && (turn.Some? ==> ValidTurn(actor, generation, turn.value))
    ensures ValidReads(actor, generation, held.(informedTurn := turn))
  {
    hide DistinctPending, WellKeyed, ValidPending, ValidTurn;
  }

  lemma EstablishedValid(actor: Actor, v: VirtualCursor, turn: HookTurn)
    requires ValidCursor(actor, v.state) && TurnOf(actor, turn) && EstablishClaimTurn(v, turn).Ok?
    ensures var c := EstablishClaimTurn(v, turn).value;
      && ValidCursor(actor, c)
      && c.(delivery := v.state.delivery, generation := v.state.generation,
            readState := c.readState.(informedTurn := v.state.readState.informedTurn)) == v.state
      && (v.state.generation.Some? ==> c.generation.Some? && v.state.generation.value <= c.generation.value)
      && c.delivery.highest == v.state.delivery.highest
  {
    hide ValidReads, ValidFeeds;
    var c := EstablishClaimTurn(v, turn).value;
    if c != v.state {
      LaterGenerationKeepsReads(actor, v.state.generation.value, c.generation.value, v.state.readState);
      if c.readState != v.state.readState {
        InformedValid(actor, c.generation, v.state.readState, c.readState.informedTurn);
      }
    }
  }

  lemma SeededValid(actor: Actor, v: VirtualCursor, c: Cursor, unreadCount: nat, marker: Marker, turn: DeliveryTurn)
    requires ValidCursor(actor, c) && ValidTurn(actor, c.generation, turn)
    ensures ValidCursor(actor, SeedLegacy(v, c, unreadCount, marker, turn))
    ensures SeedLegacy(v, c, unreadCount, marker, turn)
         == c.(delivery := SeedLegacy(v, c, unreadCount, marker, turn).delivery)
    ensures v.legacyMarkers.None? ==> SeedLegacy(v, c, unreadCount, marker, turn) == c
  {
    hide ValidReads, ValidFeeds, ValidGeneration;
  }

  lemma ScanFeedsValid(actor: Actor, c: Cursor, files: seq<FeedFile>, targets: set<RecordKey>)
    requires ValidFeeds(c.feeds) && DistinctFiles(files)
    ensures ValidFeeds(ScanUnreadSpec(actor, c, files, targets).covered)
  {
    var scan := ScanUnreadSpec(actor, c, files, targets);
    forall k | k in scan.covered
      ensures 1 <= scan.covered[k].nextLine && scan.covered[k].offset <= scan.covered[k].observedSize
    {
      if ListedBefore(files, |files|, k) {
        var i :| 0 <= i < |files| && files[i].key == k;
        VisitedCheckpoint(actor, c, files, targets, |files|, i);
        if ScanFile(actor, c, files[i], targets).Some? {
          var feed := files[i].feed.value;
          OffsetMonotone(feed.lines, Gap(LensFor(c, k), feed.lines, ResumeLine(feed, SavedFor(c, k))), |feed.lines|);
        }
      } else {
        UnvisitedKeepsCheckpoint(actor, c, files, targets, |files|, k);
      }
    }
  }

  lemma CollapseKeepsValid(actor: Actor, c: Cursor, scan: Scan)
    requires ValidCursor(actor, c) && ValidFeeds(scan.covered)
    ensures ValidCursor(actor, Collapse(c, scan))
  {
    hide WellKeyed, DistinctPending, Uncollapsed, ValidPending, ValidFeeds;
    UncollapsedSmaller(c.readState.coverage, scan.collapsed);
  }

  lemma RetireKeepsValid(actor: Actor, c: Cursor)
    requires ValidCursor(actor, c)
    ensures ValidCursor(actor, RetireTurn(c))
  {
    hide WellKeyed, DistinctPending, ValidPending, ValidFeeds;
  }

  lemma WindowKeepsValid(actor: Actor, c: Cursor)
    requires ValidCursor(actor, c)
    ensures ValidCursor(actor, c.(readState := c.readState.(outsideWindow := false)))
  {
    hide WellKeyed, DistinctPending, ValidPending, ValidFeeds;
  }

  lemma UncollapsedSmaller(coverage: CoverageMap, collapsed: set<RecordKey>)
    ensures |Uncollapsed(coverage, collapsed)| <= |coverage|
    ensures WellKeyed(coverage) ==> WellKeyed(Uncollapsed(coverage, collapsed))
  {
    SubsetSmaller(Uncollapsed(coverage, collapsed).Keys, coverage.Keys);
  }

  lemma {:induction false} SubsetSmaller<T>(a: set<T>, b: set<T>)
    requires a <= b
    ensures |a| <= |b|
  {
    if a != {} {
      var x :| x in a;
      SubsetSmaller(a - {x}, b - {x});
    }
  }

  /** Whatever a claim stores, the strict parser accepts; identity, epoch and revision never move. */
  lemma ClaimKeepsValid(actor: Actor, v: VirtualCursor, files: seq<FeedFile>, marker: Marker, turn: HookTurn,
                        continuation: bool, now: int)
    requires ValidCursor(actor, v.state) && DistinctFiles(files) && TurnOf(actor, turn)
    ensures var scan := ScanUnreadSpec(actor, v.state, files, {});
      var r := ClaimNudge(v, scan, marker, turn, continuation, now);
      r.Ok? && r.value.state.Some? ==>
        var c := r.value.state.value;
        && ValidCursor(actor, c) && c.epoch == v.state.epoch && c.revision == v.state.revision
        && c.readState.pending == v.state.readState.pending
        && (v.state.generation.Some? ==> c.generation.Some? && v.state.generation.value <= c.generation.value)
  {
    var scan := ScanUnreadSpec(actor, v.state, files, {});
    if ClaimNudge(v, scan, marker, turn, continuation, now).Ok? {
      PreparedValid(actor, v, scan.unreadCount, marker, turn);
      var prepared := Prepared(v, scan.unreadCount, marker, turn).value;
      ScanFeedsValid(actor, v.state, files, {});
      DecisionValid(actor, v, prepared, scan, marker, turn, continuation, now);
    }
  }

  lemma DecisionValid(actor: Actor, v: VirtualCursor, prepared: Cursor, scan: Scan, marker: Marker, turn: HookTurn,
                      continuation: bool, now: int)
    requires ValidCursor(actor, prepared) && TurnOf(actor, turn)
    requires ValidFeeds(scan.covered)
    ensures CurrentDeliveryTurn(prepared, turn).Ok?
    ensures var u := DecideClaim(v, prepared, scan, marker, turn, continuation, now);
      u.state.Some? ==>
        && ValidCursor(actor, u.state.value) && u.state.value.epoch == prepared.epoch
        && u.state.value.revision == prepared.revision && u.state.value.generation == prepared.generation
        && u.state.value.readState.pending == prepared.readState.pending
  {
    hide ValidReads, ValidFeeds, Uncollapsed, DeliveredTo;
    var current := CurrentDeliveryTurn(prepared, turn).value;
    var next :=
      if marker == Stop && turn.ClaudeHook? && DeliveredTo(prepared, current) then RetireTurn(prepared) else prepared;
    RetireKeepsValid(actor, prepared);
    CollapseKeepsValid(actor, next, scan);
    WindowKeepsValid(actor, Collapse(next, scan));
  }

  /** Undoing a Stop claim at once restores the ledger and leaves no latch, as before the claim. */
  lemma RollbackUndoesClaim(actor: Actor, v: VirtualCursor, scan: Scan, marker: Marker, turn: HookTurn,
                            continuation: bool, now: int, later: int)
    requires ValidCursor(actor, v.state) && TurnOf(actor, turn)
    requires ClaimNudge(v, scan, marker, turn, continuation, now).Ok?
    requires var u := ClaimNudge(v, scan, marker, turn, continuation, now).value;
      u.result.Ready? && u.result.receipt.Some?
    ensures var u := ClaimNudge(v, scan, marker, turn, continuation, now).value;
      var prepared := Prepared(v, scan.unreadCount, marker, turn).value;
      && marker == Stop && u.state.Some? && u.state.value.stop == Some(v.state.revision)
      && prepared.stop == None
      && RollbackStop(Some(V3(u.state.value)), u.result.receipt.value, later)
         == Update(Some(u.state.value.(stop := prepared.stop, delivery := prepared.delivery, updatedAt := later)), true)
  {
    PreparedValid(actor, v, scan.unreadCount, marker, turn);
  }

  /** A rollback that comes after any commit or move changes nothing. */
  lemma RollbackYieldsToNewerRevision(current: Stored, receipt: Receipt, now: int)
    requires current.Revision() != receipt.revision || current.AtEpoch() != receipt.epoch
    ensures RollbackStop(Some(current), receipt, now) == Update(None, false)
  {
  }

  /** An informational claim raises the high-water mark to its own count, which no earlier count reached. */
  lemma InformationalClaimRaises(v: VirtualCursor, scan: Scan, marker: Marker, turn: HookTurn, continuation: bool,
                                 now: int)
    requires marker != Stop && ClaimNudge(v, scan, marker, turn, continuation, now).Ok?
    requires v.legacyMarkers.Some? ==> v.reset
    ensures var u := ClaimNudge(v, scan, marker, turn, continuation, now).value;
      var prepared := Prepared(v, scan.unreadCount, marker, turn).value;
      && u.result.Ready?
      && (u.result.claimed <==> scan.unreadCount > prepared.delivery.highest)
      && (u.result.claimed ==> u.state.Some? && u.state.value.delivery.highest == scan.unreadCount)
      && (v.legacyMarkers.None? ==> prepared.delivery.highest == v.state.delivery.highest)
  {
  }
}
