/**
 * Whole runs of the read-acknowledgement ledger: feeds grow or are replaced while hooks claim,
 * roll back, reserve, stage, commit and discard against one session's cursor file.  The world
 * also keeps the history the guarantees speak of.
 */
module LedgerRuns {
  import opened Base
  import opened ReadState
  import opened Feeds
  import opened NudgeCursor
  import opened Announcements
  import opened ReadDelivery
  import opened DeliveryLaws
  import opened HookTransactions

  /** An announcement that was made, at the cursor revision it was made in. */
  datatype Announcement = Announcement(revision: nat, marker: Marker, count: nat)

  datatype World = World(
    feeds: map<FeedKey, Feed>,
    stored: Option<Stored>,
    log: seq<Page>,                 // what committed reads showed the model
    used: set<string>,              // nonces ever reserved
    committed: seq<string>,         // nonces committed, in order
    announced: seq<Announcement>,
    undone: seq<nat>,               // revisions of successful Stop rollbacks
    receipts: set<Receipt>)         // Stop receipts handed out and not used yet

  datatype Event =
    | Publish(feeds: map<FeedKey, Feed>)
    | Nudge(epoch: Epoch, files: seq<FeedFile>, marker: Marker, turn: HookTurn, continuation: bool, now: int)
    | UndoStop(receipt: Receipt, now: int)
    | ReserveRead(epoch: Epoch, inv: Invocation, turn: HookTurn, nonce: string, now: int)
    | StageRead(epoch: Epoch, inv: Invocation, turn: HookTurn, stdout: Option<Envelope>, now: int)
    | CommitRead(epoch: Epoch, inv: Invocation, turn: HookTurn, modelText: Option<Envelope>, now: int, seen: Snapshots,
                 verifyFeeds: map<FeedKey, Feed>, firstFeeds: map<FeedKey, Feed>, secondFeeds: map<FeedKey, Feed>)
    | DiscardRead(epoch: Epoch, toolUseId: string, turn: HookTurn)

  /** A directory listing taken while the feeds were as given; any file may be unreadable or missing. */
  predicate View(files: seq<FeedFile>, feeds: map<FeedKey, Feed>)
  {
    && DistinctFiles(files)
    && forall f | f in files && f.feed.Some? :: f.key in feeds && feeds[f.key] == f.feed.value
  }

  predicate FeedsEvolve(was: map<FeedKey, Feed>, grown: map<FeedKey, Feed>)
  {
    && was.Keys <= grown.Keys
    && forall k | k in was :: Evolves(was[k], grown[k])
  }

  /** What may happen next: feeds only evolve, nonces are fresh, each receipt is used at most once. */
  predicate Enabled(actor: Actor, w: World, e: Event)
  {
    match e
    case Publish(feeds) => FeedsEvolve(w.feeds, feeds)
    case Nudge(_, files, _, turn, _, _) => TurnOf(actor, turn) && View(files, w.feeds)
    case UndoStop(receipt, _) => receipt in w.receipts
    case ReserveRead(_, _, turn, nonce, _) => TurnOf(actor, turn) && nonce !in w.used
    case StageRead(_, _, turn, _, _) => TurnOf(actor, turn)
    case CommitRead(_, _, turn, _, _, seen, verifyFeeds, firstFeeds, secondFeeds) =>
      && TurnOf(actor, turn)
      && FeedsEvolve(w.feeds, verifyFeeds) && FeedsEvolve(verifyFeeds, firstFeeds)
      && FeedsEvolve(firstFeeds, secondFeeds)
      && View(seen.verify, verifyFeeds) && View(seen.first, firstFeeds) && View(seen.second, secondFeeds)
    case DiscardRead(_, _, turn) => TurnOf(actor, turn)
  }

  function NudgeOutcome(actor: Actor, sizeOf: Sizer, w: World, e: Event): Outcome<ClaimResult>
    requires e.Nudge?
  {
    Persist(w.stored, DecideNudge(actor, e.epoch, w.stored, e.files, e.marker, e.turn, e.continuation, e.now), sizeOf)
  }

  function CommitOutcome(actor: Actor, sizeOf: Sizer, w: World, e: Event): Outcome<CommitResult>
    requires e.CommitRead?
  {
    Persist(w.stored, DecideCommit(actor, e.epoch, w.stored, e.inv, e.turn, e.modelText, e.now, e.seen, sizeOf), sizeOf)
  }

  predicate Announces(o: Outcome<ClaimResult>)
  {
    o.result.Ok? && o.result.value.Ready? && o.result.value.claimed && o.stored.Some?
  }

  /** A commit counts as delivered when the hook reports it committed. */
  predicate Commits(o: Outcome<CommitResult>)
  {
    o.result.Ok? && o.result.value.committed
  }

  /** The pages a committed output showed, as the feeds confirmed them. */
  function PagesOf(e: Event): seq<Page>
    requires e.CommitRead?
  {
    if e.modelText.Some? && (forall entry | entry in e.modelText.value.coverage :: ValidCoverage(entry))
       && VerifyDelivery(e.seen.verify, e.modelText.value).Some?
    then VerifyDelivery(e.seen.verify, e.modelText.value).value else []
  }

  function Step(actor: Actor, sizeOf: Sizer, w: World, e: Event): World
  {
    match e
    case Publish(feeds) => w.(feeds := feeds)
    case Nudge(_, _, marker, _, _, _) =>
      var o := NudgeOutcome(actor, sizeOf, w, e);
      if Announces(o) then
        w.(stored := o.stored,
           announced := w.announced + [Announcement(o.stored.value.Revision(), marker, o.result.value.unreadCount)],
           receipts := w.receipts + (if o.result.value.receipt.Some? then {o.result.value.receipt.value} else {}))
      else w.(stored := o.stored)
    case UndoStop(receipt, now) =>
      var o := Persist(w.stored, Ok(RollbackStop(w.stored, receipt, now)), sizeOf);
      w.(stored := o.stored, receipts := w.receipts - {receipt},
         undone := if o.result == Ok(true) then w.undone + [receipt.revision] else w.undone)
    case ReserveRead(epoch, inv, turn, nonce, now) =>
      var o := Persist(w.stored, DecideReserve(actor, epoch, w.stored, inv, turn, nonce, now, sizeOf), sizeOf);
      w.(stored := o.stored, used := w.used + {nonce})
    case StageRead(epoch, inv, turn, stdout, now) =>
      var o := Persist(w.stored, DecideStage(actor, epoch, w.stored, inv, turn, stdout, now, sizeOf), sizeOf);
      w.(stored := o.stored)
    case CommitRead(_, _, _, modelText, _, _, _, _, secondFeeds) =>
      var o := CommitOutcome(actor, sizeOf, w, e);
      if Commits(o) && modelText.Some? then
        w.(feeds := secondFeeds, stored := o.stored, log := w.log + PagesOf(e),
           committed := w.committed + [modelText.value.nonce])
      else w.(feeds := secondFeeds, stored := o.stored)
    case DiscardRead(epoch, toolUseId, turn) =>
      w.(stored := Persist(w.stored, DecideDiscard(actor, epoch, w.stored, toolUseId, turn), sizeOf).stored)
  }

  predicate Possible(actor: Actor, sizeOf: Sizer, w: World, es: seq<Event>)
    decreases |es|
  {
    es == [] || (Enabled(actor, w, es[0]) && Possible(actor, sizeOf, Step(actor, sizeOf, w, es[0]), es[1..]))
  }

  function Run(actor: Actor, sizeOf: Sizer, w: World, es: seq<Event>): World
    decreases |es|
  {
    if es == [] then w else Run(actor, sizeOf, Step(actor, sizeOf, w, es[0]), es[1..])
  }

  /** Before anything happened: some feeds, and no cursor file. */
  function Fresh(feeds: map<FeedKey, Feed>): World
  {
    World(feeds, None, [], {}, [], [], [], {})
  }

  /* ------------------ every stored cursor passes the strict parser ------------------ */

  function PendingOf(stored: Option<Stored>): seq<Pending>
  {
    if stored.Some? && stored.value.V3? then stored.value.cursor.readState.pending else []
  }

  predicate DistinctNonces(s: seq<string>)
  {
    forall i, j | 0 <= i < j < |s| :: s[i] != s[j]
  }

  /** A receipt of this very revision can still be honoured. */
  predicate Honoured(actor: Actor, c: Cursor, receipts: set<Receipt>)
  {
    forall r | r in receipts && r.revision == c.revision :: ValidDelivery(actor, c.generation, r.before)
  }

  /** The stored cursor is valid, and no nonce is pending unrecorded or after it committed. */
  predicate WellFormed(actor: Actor, w: World)
  {
    && (w.stored.Some? ==> ValidStored(actor, w.stored.value))
    && (forall p | p in PendingOf(w.stored) :: p.nonce in w.used && p.nonce !in w.committed)
    && (forall nonce | nonce in w.committed :: nonce in w.used)
    && DistinctNonces(w.committed)
    && (w.receipts != {} ==> w.stored.Some? && w.stored.value.V3? && Honoured(actor, w.stored.value.cursor, w.receipts))
    && (forall r | r in w.receipts :: r.revision <= w.stored.value.Revision())
  }

  /** From one cursor to the next of the same membership: the revision never falls, nor the generation within it. */
  predicate MovesOn(was: Cursor, c: Cursor)
  {
    && was.epoch == c.epoch
    && (c.revision > was.revision
        || (c.revision == was.revision
            && (was.generation.Some? ==> c.generation.Some? && was.generation.value <= c.generation.value)))
  }

  lemma VirtualPending(actor: Actor, epoch: Epoch, stored: Option<Stored>)
    requires VirtualCursorOf(actor, epoch, stored).Ok?
    ensures forall p | p in VirtualCursorOf(actor, epoch, stored).value.state.readState.pending ::
      p in PendingOf(stored)
  {
  }

  lemma HonouredOn(actor: Actor, was: Cursor, c: Cursor, receipts: set<Receipt>)
    requires Honoured(actor, was, receipts) && MovesOn(was, c)
    requires forall r | r in receipts :: r.revision <= was.revision
    ensures Honoured(actor, c, receipts)
  {
  }

  /** Replacing the file by a valid successor keeps the world well formed. */
  lemma ReplacedKeepsWellFormed(actor: Actor, w: World, epoch: Epoch, c: Cursor)
    requires WellFormed(actor, w) && VirtualCursorOf(actor, epoch, w.stored).Ok?
    requires ValidCursor(actor, c) && MovesOn(VirtualCursorOf(actor, epoch, w.stored).value.state, c)
    requires forall p | p in c.readState.pending :: p.nonce in w.used && p.nonce !in w.committed
    ensures WellFormed(actor, w.(stored := Some(V3(c))))
  {
    hide ValidCursor, ValidDelivery;
    var v := VirtualCursorOf(actor, epoch, w.stored).value;
    VirtualCursorValid(actor, epoch, w.stored);
    if w.receipts != {} {
      var was := w.stored.value.cursor;
      if was.epoch == epoch {
        HonouredOn(actor, was, c, w.receipts);
      }
    }
  }

  /** Recording an announcement, with a receipt of the revision it was made in. */
  lemma AnnouncedKeepsWellFormed(actor: Actor, w: World, announced: seq<Announcement>, receipt: Option<Receipt>)
    requires WellFormed(actor, w) && w.stored.Some? && w.stored.value.V3?
    requires receipt.Some? ==>
      receipt.value.revision == w.stored.value.cursor.revision
      && ValidDelivery(actor, w.stored.value.cursor.generation, receipt.value.before)
    ensures WellFormed(actor, w.(announced := announced,
                                 receipts := w.receipts + (if receipt.Some? then {receipt.value} else {})))
  {
    hide ValidCursor, ValidDelivery;
  }

  lemma NudgeKeepsWellFormed(actor: Actor, sizeOf: Sizer, w: World, e: Event)
    requires e.Nudge? && WellFormed(actor, w) && Enabled(actor, w, e)
    ensures WellFormed(actor, Step(actor, sizeOf, w, e))
  {
    hide WellFormed, ValidCursor, ScanUnreadSpec, ValidDelivery, ToStore, ClaimNudge;
    NudgeStep(actor, sizeOf, w, e);
    if VirtualCursorOf(actor, e.epoch, w.stored).Ok? {
      var v := VirtualCursorOf(actor, e.epoch, w.stored).value;
      WellFormedVirtual(actor, w, e.epoch);
      ClaimKeepsValid(actor, v, e.files, e.marker, e.turn, e.continuation, e.now);
      var scan := ScanUnreadSpec(actor, v.state, e.files, {});
      var r := ClaimNudge(v, scan, e.marker, e.turn, e.continuation, e.now);
      if r.Ok? && r.value.state.Some? && CursorFits(sizeOf, r.value.state.value) {
        var c := r.value.state.value;
        ReplacedKeepsWellFormed(actor, w, e.epoch, c);
        if r.value.result.Ready? {
          ReceiptHonoured(actor, v, scan, e.marker, e.turn, e.continuation, e.now);
          AnnouncedKeepsWellFormed(actor, w.(stored := Some(V3(c))), Step(actor, sizeOf, w, e).announced,
                                   r.value.result.receipt);
        }
      } else if r.Ok? {
        ClaimWithoutState(actor, v, scan, e.marker, e.turn, e.continuation, e.now);
      }
    }
  }

  /** A well-formed world gives a valid virtual cursor whose pending reads are the stored ones. */
  lemma WellFormedVirtual(actor: Actor, w: World, epoch: Epoch)
    requires WellFormed(actor, w) && VirtualCursorOf(actor, epoch, w.stored).Ok?
    ensures var v := VirtualCursorOf(actor, epoch, w.stored).value;
      && ValidCursor(actor, v.state) && v.state.epoch == epoch
      && (v.legacyMarkers.Some? ==> v.reset)
      && (forall p | p in v.state.readState.pending :: p.nonce in w.used && p.nonce !in w.committed)
  {
    VirtualCursorValid(actor, epoch, w.stored);
    VirtualPending(actor, epoch, w.stored);
  }

  /** An announcement is never made without recording it. */
  lemma ClaimWithoutState(actor: Actor, v: VirtualCursor, scan: Scan, marker: Marker, turn: HookTurn,
                          continuation: bool, now: int)
    requires ValidCursor(actor, v.state) && TurnOf(actor, turn) && (v.legacyMarkers.Some? ==> v.reset)
    requires ClaimNudge(v, scan, marker, turn, continuation, now).Ok?
    ensures var u := ClaimNudge(v, scan, marker, turn, continuation, now).value;
      u.state.None? && u.result.Ready? ==> !u.result.claimed && u.result.receipt.None?
  {
    if marker == Stop {
      PreparedValid(actor, v, scan.unreadCount, marker, turn);
    } else {
      InformationalClaimRaises(v, scan, marker, turn, continuation, now);
    }
  }

  /** What a claim does to the world, in terms of its outcome. */
  lemma NudgeStep(actor: Actor, sizeOf: Sizer, w: World, e: Event)
    requires e.Nudge?
    ensures var o := NudgeOutcome(actor, sizeOf, w, e);
      var after := Step(actor, sizeOf, w, e);
      if Announces(o) then
        after == w.(stored := o.stored, announced := after.announced,
                    receipts := w.receipts + (if o.result.value.receipt.Some? then {o.result.value.receipt.value}
                                              else {}))
      else after == w.(stored := o.stored)
  {
  }

  lemma ReceiptHonoured(actor: Actor, v: VirtualCursor, scan: Scan, marker: Marker, turn: HookTurn, continuation: bool,
                        now: int)
    requires ValidCursor(actor, v.state) && TurnOf(actor, turn)
    requires ClaimNudge(v, scan, marker, turn, continuation, now).Ok?
    ensures var u := ClaimNudge(v, scan, marker, turn, continuation, now).value;
      u.state.Some? && u.result.Ready? && u.result.receipt.Some? ==>
        && u.result.receipt.value.revision == u.state.value.revision
        && ValidDelivery(actor, u.state.value.generation, u.result.receipt.value.before)
  {
    PreparedValid(actor, v, scan.unreadCount, marker, turn);
  }

  lemma UndoKeepsWellFormed(actor: Actor, sizeOf: Sizer, w: World, e: Event)
    requires e.UndoStop? && WellFormed(actor, w) && Enabled(actor, w, e)
    ensures WellFormed(actor, Step(actor, sizeOf, w, e))
  {
    hide WellKeyed, DistinctPending, ValidPending, ValidFeeds;
    var c := w.stored.value.cursor;
    var u := RollbackStop(w.stored, e.receipt, e.now);
    if u.state.Some? && CursorFits(sizeOf, u.state.value) {
      RollbackValid(actor, c, e.receipt, e.now);
      HonouredOn(actor, c, u.state.value, w.receipts);
    }
  }

  /** Undoing with a receipt that can be honoured leaves a valid cursor. */
  lemma RollbackValid(actor: Actor, c: Cursor, receipt: Receipt, now: int)
    requires ValidCursor(actor, c)
    requires receipt.revision == c.revision ==> ValidDelivery(actor, c.generation, receipt.before)
    ensures var u := RollbackStop(Some(V3(c)), receipt, now);
      u.state.Some? ==>
        && ValidCursor(actor, u.state.value) && MovesOn(c, u.state.value)
        && u.state.value.readState == c.readState && u.state.value.feeds == c.feeds
  {
    hide ValidReads, ValidFeeds;
  }

  lemma MoreUsed(actor: Actor, w: World, nonce: string)
    requires WellFormed(actor, w) && nonce !in w.used
    ensures WellFormed(actor, w.(used := w.used + {nonce})) && nonce !in w.committed
  {
    hide ValidStored, Honoured;
  }

  lemma ReserveKeepsWellFormed(actor: Actor, sizeOf: Sizer, w: World, e: Event)
    requires e.ReserveRead? && WellFormed(actor, w) && Enabled(actor, w, e)
    ensures WellFormed(actor, Step(actor, sizeOf, w, e))
  {
    hide ValidCursor, VirtualCursorOf, WellFormed, ValidTurn, Reserve;
    var w' := w.(used := w.used + {e.nonce});
    MoreUsed(actor, w, e.nonce);
    if VirtualCursorOf(actor, e.epoch, w.stored).Ok? {
      var v := VirtualCursorOf(actor, e.epoch, w.stored).value;
      WellFormedVirtual(actor, w, e.epoch);
      CurrentTurnValid(actor, v.state, e.turn);
      var current := CurrentDeliveryTurn(v.state, e.turn).value;
      ReserveKeepsValid(actor, v.state, e.inv, current, e.nonce, e.now, sizeOf);
      var u := Reserve(actor, v.state, e.inv, current, e.nonce, e.now, sizeOf);
      if u.state.Some? {
        ReplacedKeepsWellFormed(actor, w', e.epoch, u.state.value);
      }
    }
  }

  lemma StageKeepsWellFormed(actor: Actor, sizeOf: Sizer, w: World, e: Event)
    requires e.StageRead? && WellFormed(actor, w) && Enabled(actor, w, e)
    ensures WellFormed(actor, Step(actor, sizeOf, w, e))
  {
    hide ValidCursor, VirtualCursorOf, WellFormed, ValidTurn, Stage, Answers;
    if VirtualCursorOf(actor, e.epoch, w.stored).Ok? {
      var v := VirtualCursorOf(actor, e.epoch, w.stored).value;
      WellFormedVirtual(actor, w, e.epoch);
      CurrentTurnValid(actor, v.state, e.turn);
      var current := CurrentDeliveryTurn(v.state, e.turn).value;
      StageKeepsValid(actor, v.state, e.inv, current, e.stdout, e.now, sizeOf);
      var u := Stage(actor, v.state, e.inv, current, e.stdout, e.now, sizeOf);
      if u.state.Some? {
        var c := u.state.value;
        forall p | p in c.readState.pending ensures p.nonce in w.used && p.nonce !in w.committed {
          var i :| 0 <= i < |c.readState.pending| && c.readState.pending[i] == p;
          assert v.state.readState.pending[i] in v.state.readState.pending;
        }
        ReplacedKeepsWellFormed(actor, w, e.epoch, c);
      }
    }
  }

  lemma DiscardKeepsWellFormed(actor: Actor, sizeOf: Sizer, w: World, e: Event)
    requires e.DiscardRead? && WellFormed(actor, w) && Enabled(actor, w, e)
    ensures WellFormed(actor, Step(actor, sizeOf, w, e))
  {
    hide ValidCursor, VirtualCursorOf, WellFormed, ValidTurn, Discard;
    if VirtualCursorOf(actor, e.epoch, w.stored).Ok? {
      var v := VirtualCursorOf(actor, e.epoch, w.stored).value;
      WellFormedVirtual(actor, w, e.epoch);
      CurrentTurnValid(actor, v.state, e.turn);
      var current := CurrentDeliveryTurn(v.state, e.turn).value;
      DiscardKeepsValid(actor, v.state, e.toolUseId, current);
      var u := Discard(v.state, e.toolUseId, current);
      if u.state.Some? {
        ReplacedKeepsWellFormed(actor, w, e.epoch, u.state.value);
      }
    }
  }

  lemma CommitKeepsWellFormed(actor: Actor, sizeOf: Sizer, w: World, e: Event)
    requires e.CommitRead? && WellFormed(actor, w) && Enabled(actor, w, e)
    ensures WellFormed(actor, Step(actor, sizeOf, w, e))
  {
    hide WellFormed, ValidCursor, ValidTurn, Commit, Witnessed, Keep, PagesOf, View, FeedsEvolve, MovesOn;
    assert DistinctFiles(e.seen.first) && DistinctFiles(e.seen.second) by { ViewsDistinct(actor, w, e); }
    var after := Step(actor, sizeOf, w, e);
    var base := w.(stored := after.stored, committed := after.committed);
    assert WellFormed(actor, base) by {
      if VirtualCursorOf(actor, e.epoch, w.stored).Ok? {
        var v := VirtualCursorOf(actor, e.epoch, w.stored).value;
        WellFormedVirtual(actor, w, e.epoch);
        CurrentTurnValid(actor, v.state, e.turn);
        var current := CurrentDeliveryTurn(v.state, e.turn).value;
        if Commit(actor, v.state, e.inv, current, e.modelText, e.now, e.seen, sizeOf).Ok? {
          var u := Commit(actor, v.state, e.inv, current, e.modelText, e.now, e.seen, sizeOf).value;
          CommitSpendsNonce(actor, sizeOf, w, e, v.state, current);
          if u.state.Some? && CursorFits(sizeOf, u.state.value) {
            ReplacedKeepsWellFormed(actor, w, e.epoch, u.state.value);
            if u.result.committed {
              CommittedKeepsWellFormed(actor, w.(stored := Some(V3(u.state.value))), e.modelText.value.nonce);
            }
          }
        }
      }
    }
    HistoryKeepsWellFormed(actor, base, after.feeds, after.log);
    assert after == base.(feeds := after.feeds, log := after.log);
  }

  /** The successor of a commit, and the fate of the nonce it consumed. */
  lemma CommitSpendsNonce(actor: Actor, sizeOf: Sizer, w: World, e: Event, c: Cursor, current: DeliveryTurn)
    requires e.CommitRead? && ValidCursor(actor, c) && ValidTurn(actor, c.generation, current)
    requires DistinctFiles(e.seen.first) && DistinctFiles(e.seen.second)
    requires forall p | p in c.readState.pending :: p.nonce in w.used && p.nonce !in w.committed
    requires Commit(actor, c, e.inv, current, e.modelText, e.now, e.seen, sizeOf).Ok?
    ensures var u := Commit(actor, c, e.inv, current, e.modelText, e.now, e.seen, sizeOf).value;
      && (u.result.committed ==> u.state.Some?)
      && (u.state.Some? ==>
            && ValidCursor(actor, u.state.value) && MovesOn(c, u.state.value) && e.modelText.Some?
            && e.modelText.value.nonce in w.used && e.modelText.value.nonce !in w.committed
            && forall p | p in u.state.value.readState.pending ::
                 p.nonce in w.used && p.nonce !in w.committed && p.nonce != e.modelText.value.nonce)
  {
    hide ValidCursor, Commit, Answers, VerifyDelivery;
    CommitConsumesWitness(actor, c, e.inv, current, e.modelText, e.now, e.seen, sizeOf);
  }

  lemma CommittedKeepsWellFormed(actor: Actor, w: World, nonce: string)
    requires WellFormed(actor, w) && nonce in w.used && nonce !in w.committed
    requires forall p | p in PendingOf(w.stored) :: p.nonce != nonce
    ensures WellFormed(actor, w.(committed := w.committed + [nonce]))
  {
    hide ValidStored, Honoured;
  }

  /** The feeds and the log of delivered pages play no part in well-formedness. */
  lemma HistoryKeepsWellFormed(actor: Actor, w: World, feeds: map<FeedKey, Feed>, log: seq<Page>)
    requires WellFormed(actor, w)
    ensures WellFormed(actor, w.(feeds := feeds, log := log))
  {
    hide ValidStored, Honoured;
  }

  lemma ViewsDistinct(actor: Actor, w: World, e: Event)
    requires e.CommitRead? && Enabled(actor, w, e)
    ensures DistinctFiles(e.seen.verify) && DistinctFiles(e.seen.first) && DistinctFiles(e.seen.second)
  {
  }

  /* ------------------------------ what steps store ------------------------------ */

  predicate TouchesPending(e: Event)
  {
    e.ReserveRead? || e.StageRead? || e.DiscardRead?
  }

  /** The one differs from the other in its pending reads and its timestamp only. */
  predicate OnlyPending(was: Cursor, c: Cursor)
  {
    c == WithPending(was, c.readState.pending).(updatedAt := c.updatedAt)
  }

  lemma ReserveOnly(actor: Actor, c: Cursor, inv: Invocation, turn: DeliveryTurn, nonce: string, now: int,
                    sizeOf: Sizer)
    ensures var u := Reserve(actor, c, inv, turn, nonce, now, sizeOf); u.state.Some? ==> OnlyPending(c, u.state.value)
  {
    hide Unexpired, CursorFits;
  }

  lemma StageOnly(actor: Actor, c: Cursor, inv: Invocation, turn: DeliveryTurn, stdout: Option<Envelope>, now: int,
                  sizeOf: Sizer)
    ensures var u := Stage(actor, c, inv, turn, stdout, now, sizeOf); u.state.Some? ==> OnlyPending(c, u.state.value)
  {
    hide MatchingPending, StageOutput, DeliveredEnvelope, CursorFits;
  }

  lemma DiscardOnly(c: Cursor, toolUseId: string, turn: DeliveryTurn)
    ensures var u := Discard(c, toolUseId, turn); u.state.Some? ==> OnlyPending(c, u.state.value)
  {
    hide Discarded;
  }

  /** Reserving, staging and discarding leave the file as it is, or change the pending reads of the virtual cursor. */
  lemma PendingStep(actor: Actor, sizeOf: Sizer, w: World, e: Event)
    requires TouchesPending(e)
    ensures var after := Step(actor, sizeOf, w, e);
      && after == w.(stored := after.stored, used := after.used)
      && (after.stored == w.stored
          || (VirtualCursorOf(actor, e.epoch, w.stored).Ok? && after.stored.Some? && after.stored.value.V3?
              && OnlyPending(VirtualCursorOf(actor, e.epoch, w.stored).value.state, after.stored.value.cursor)))
  {
    hide Reserve, Stage, Discard, VirtualCursorOf, CursorFits, OnlyPending;
    if VirtualCursorOf(actor, e.epoch, w.stored).Ok? {
      var c := VirtualCursorOf(actor, e.epoch, w.stored).value.state;
      var current := CurrentDeliveryTurn(c, e.turn);
      if current.Ok? {
        match e {
          case ReserveRead(_, inv, _, nonce, now) => ReserveOnly(actor, c, inv, current.value, nonce, now, sizeOf);
          case StageRead(_, inv, _, stdout, now) => StageOnly(actor, c, inv, current.value, stdout, now, sizeOf);
          case DiscardRead(_, toolUseId, _) => DiscardOnly(c, toolUseId, current.value);
        }
      }
    }
  }

  /** A commit leaves the file as it is, or stores what a consumed reservation allows. */
  lemma CommitStepStores(actor: Actor, sizeOf: Sizer, w: World, e: Event) returns (p: Pending, result: CommitResult)
    requires e.CommitRead? && WellFormed(actor, w) && Enabled(actor, w, e)
    requires Step(actor, sizeOf, w, e).stored != w.stored
    ensures CommitOutcome(actor, sizeOf, w, e).result == Ok(result)
    ensures var after := Step(actor, sizeOf, w, e);
      && after.announced == w.announced && after.undone == w.undone && after.receipts == w.receipts
      && VirtualCursorOf(actor, e.epoch, w.stored).Ok?
      && var c := VirtualCursorOf(actor, e.epoch, w.stored).value.state;
      && CurrentDeliveryTurn(c, e.turn).Ok? && after.stored.Some? && after.stored.value.V3?
      && CommitStores(actor, c, after.stored.value.cursor, p, CurrentDeliveryTurn(c, e.turn).value, result)
  {
    hide WellFormed, ValidCursor, ValidTurn, Commit, Witnessed, CommitStores, PagesOf, View, FeedsEvolve, CursorFits;
    ViewsDistinct(actor, w, e);
    var c := VirtualCursorOf(actor, e.epoch, w.stored).value.state;
    WellFormedVirtual(actor, w, e.epoch);
    CurrentTurnValid(actor, c, e.turn);
    var current := CurrentDeliveryTurn(c, e.turn).value;
    CommitConsumesWitness(actor, c, e.inv, current, e.modelText, e.now, e.seen, sizeOf);
    p := Witnessed(actor, c, e.inv, current, e.modelText, e.now, e.seen.verify).value;
    result := Commit(actor, c, e.inv, current, e.modelText, e.now, e.seen, sizeOf).value.result;
  }

  /** Every step of every kind keeps the stored cursor valid and the nonces in order. */
  lemma StepKeepsWellFormed(actor: Actor, sizeOf: Sizer, w: World, e: Event)
    requires WellFormed(actor, w) && Enabled(actor, w, e)
    ensures WellFormed(actor, Step(actor, sizeOf, w, e))
  {
    match e
    case Publish(feeds) => HistoryKeepsWellFormed(actor, w, feeds, w.log);
    case Nudge(_, _, _, _, _, _) => NudgeKeepsWellFormed(actor, sizeOf, w, e);
    case UndoStop(_, _) => UndoKeepsWellFormed(actor, sizeOf, w, e);
    case ReserveRead(_, _, _, _, _) => ReserveKeepsWellFormed(actor, sizeOf, w, e);
    case StageRead(_, _, _, _, _) => StageKeepsWellFormed(actor, sizeOf, w, e);
    case CommitRead(_, _, _, _, _, _, _, _, _) => CommitKeepsWellFormed(actor, sizeOf, w, e);
    case DiscardRead(_, _, _) => DiscardKeepsWellFormed(actor, sizeOf, w, e);
  }

  /**
   * In every run from a well-formed world the stored cursor passes the strict parser, and the
   * nonces that committed are pairwise different: no reservation is ever committed twice.
   */
  lemma {:induction false} RunsStayWellFormed(actor: Actor, sizeOf: Sizer, w: World, es: seq<Event>)
    requires WellFormed(actor, w) && Possible(actor, sizeOf, w, es)
    ensures WellFormed(actor, Run(actor, sizeOf, w, es))
    decreases |es|
  {
    hide WellFormed, Enabled, Step;
    if es != [] {
      StepKeepsWellFormed(actor, sizeOf, w, es[0]);
      RunsStayWellFormed(actor, sizeOf, Step(actor, sizeOf, w, es[0]), es[1..]);
    }
  }

  /* ------------------------------ what never falls ------------------------------ */

  function GenerationIn(stored: Option<Stored>): (generation: Option<nat>)
  {
    match stored
    case Some(V2(_, _, _, _, _, generation, _)) => generation
    case Some(V3(cursor)) => cursor.generation
    case _ => None
  }

  /** The cursor file stays, and neither its revision nor its Claude generation falls. */
  predicate OnlyRises(was: Option<Stored>, now: Option<Stored>)
  {
    was.Some? ==>
      && now.Some? && was.value.Revision() <= now.value.Revision()
      && (GenerationIn(was).Some? ==> GenerationIn(now).Some? && GenerationIn(was).value <= GenerationIn(now).value)
  }

  lemma VirtualRises(actor: Actor, epoch: Epoch, stored: Option<Stored>)
    requires (stored.Some? ==> ValidStored(actor, stored.value)) && VirtualCursorOf(actor, epoch, stored).Ok?
    ensures OnlyRises(stored, Some(V3(VirtualCursorOf(actor, epoch, stored).value.state)))
  {
  }

  /** A stored successor of the cursor a hook works from. */
  lemma SuccessorRises(actor: Actor, epoch: Epoch, stored: Option<Stored>, c: Cursor)
    requires (stored.Some? ==> ValidStored(actor, stored.value)) && VirtualCursorOf(actor, epoch, stored).Ok?
    requires OnlyRises(Some(V3(VirtualCursorOf(actor, epoch, stored).value.state)), Some(V3(c)))
    ensures OnlyRises(stored, Some(V3(c)))
  {
    hide ValidStored;
    VirtualRises(actor, epoch, stored);
  }

  lemma NudgeRises(actor: Actor, sizeOf: Sizer, w: World, e: Event)
    requires e.Nudge? && WellFormed(actor, w) && Enabled(actor, w, e)
    ensures OnlyRises(w.stored, Step(actor, sizeOf, w, e).stored)
  {
    hide WellFormed, Step, VirtualCursorOf, ValidStored, ValidCursor, ClaimNudge, ScanUnreadSpec;
    NudgeStep(actor, sizeOf, w, e);
    if VirtualCursorOf(actor, e.epoch, w.stored).Ok? {
      var v := VirtualCursorOf(actor, e.epoch, w.stored).value;
      WellFormedVirtual(actor, w, e.epoch);
      ClaimKeepsValid(actor, v, e.files, e.marker, e.turn, e.continuation, e.now);
      StoredValid(actor, w);
      var r := ClaimNudge(v, ScanUnreadSpec(actor, v.state, e.files, {}), e.marker, e.turn, e.continuation, e.now);
      if r.Ok? && r.value.state.Some? {
        SuccessorRises(actor, e.epoch, w.stored, r.value.state.value);
      }
    }
  }

  lemma StoredValid(actor: Actor, w: World)
    requires WellFormed(actor, w)
    ensures w.stored.Some? ==> ValidStored(actor, w.stored.value)
  {
  }

  lemma CommitRises(actor: Actor, sizeOf: Sizer, w: World, e: Event)
    requires e.CommitRead? && WellFormed(actor, w) && Enabled(actor, w, e)
    ensures OnlyRises(w.stored, Step(actor, sizeOf, w, e).stored)
  {
    hide WellFormed, Enabled, ValidStored, ValidCursor, Step, VirtualCursorOf, Keep, CommitOutcome;
    var after := Step(actor, sizeOf, w, e);
    if after.stored != w.stored {
      var p, result := CommitStepStores(actor, sizeOf, w, e);
      StoredValid(actor, w);
      SuccessorRises(actor, e.epoch, w.stored, after.stored.value.cursor);
    }
  }

  lemma PendingStepRises(actor: Actor, sizeOf: Sizer, w: World, e: Event)
    requires TouchesPending(e) && WellFormed(actor, w)
    ensures OnlyRises(w.stored, Step(actor, sizeOf, w, e).stored)
  {
    hide WellFormed, ValidStored, Step, VirtualCursorOf;
    PendingStep(actor, sizeOf, w, e);
    StoredValid(actor, w);
    if VirtualCursorOf(actor, e.epoch, w.stored).Ok? {
      VirtualRises(actor, e.epoch, w.stored);
    }
  }

  lemma StepRises(actor: Actor, sizeOf: Sizer, w: World, e: Event)
    requires WellFormed(actor, w) && Enabled(actor, w, e)
    ensures OnlyRises(w.stored, Step(actor, sizeOf, w, e).stored)
  {
    hide WellFormed, Enabled;
    if e.Nudge? {
      NudgeRises(actor, sizeOf, w, e);
    } else if e.CommitRead? {
      CommitRises(actor, sizeOf, w, e);
    } else if TouchesPending(e) {
      PendingStepRises(actor, sizeOf, w, e);
    }
  }

  /** Over every run, memberships come and gone: the revision and the Claude generation only grow. */
  lemma {:induction false} GenerationsOnlyGrow(actor: Actor, sizeOf: Sizer, w: World, es: seq<Event>)
    requires WellFormed(actor, w) && Possible(actor, sizeOf, w, es)
    ensures OnlyRises(w.stored, Run(actor, sizeOf, w, es).stored)
    decreases |es|
  {
    hide WellFormed, Enabled, Step;
    if es != [] {
      StepRises(actor, sizeOf, w, es[0]);
      StepKeepsWellFormed(actor, sizeOf, w, es[0]);
      GenerationsOnlyGrow(actor, sizeOf, Step(actor, sizeOf, w, es[0]), es[1..]);
    }
  }
}
