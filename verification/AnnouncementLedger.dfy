/**
 * The announcement ledger over whole runs: within one cursor revision at most one Stop claim
 * stands, and informational counts rise strictly, even across Stop rollbacks.
 */
module AnnouncementLedger {
  import opened Base
  import opened ReadState
  import opened Feeds
  import opened NudgeCursor
  import opened Announcements
  import opened ReadDelivery
  import opened DeliveryLaws
  import opened HookTransactions
  import opened LedgerRuns

  /** Stop claims made in revision `r`. */
  function StopsClaimed(announced: seq<Announcement>, r: nat): nat
  {
    if announced == [] then 0
    else
      var last := announced[|announced| - 1];
      StopsClaimed(announced[..|announced| - 1], r) + if last.marker == Stop && last.revision == r then 1 else 0
  }

  /** Stop claims of revision `r` that were rolled back. */
  function StopsUndone(undone: seq<nat>, r: nat): nat
  {
    if undone == [] then 0
    else StopsUndone(undone[..|undone| - 1], r) + if undone[|undone| - 1] == r then 1 else 0
  }

  predicate Informs(a: Announcement, revision: nat)
  {
    a.marker != Stop && a.revision == revision
  }

  /** Of two informational announcements in one revision the later one counts more. */
  predicate CountsRise(announced: seq<Announcement>)
  {
    forall i, j | 0 <= i < j < |announced| ::
      announced[i].marker != Stop && Informs(announced[j], announced[i].revision) ==>
        announced[i].count < announced[j].count
  }

  /** At most one Stop claim of each revision stands. */
  ghost predicate StopsStandOnce(announced: seq<Announcement>, undone: seq<nat>)
  {
    forall r: nat :: 0 <= StopsClaimed(announced, r) - StopsUndone(undone, r) <= 1
  }

  /** No announcement or rollback is from a later revision. */
  predicate UpTo(announced: seq<Announcement>, undone: seq<nat>, receipts: set<Receipt>, revision: nat)
  {
    && (forall a | a in announced :: a.revision <= revision)
    && (forall r | r in undone :: r <= revision)
    && (forall r | r in receipts :: r.revision <= revision)
  }

  /** The Stop receipt of this revision can undo its claim without forgetting an announcement. */
  predicate ReceiptSound(announced: seq<Announcement>, r: Receipt, highest: nat)
  {
    && r.claimed.highest <= highest
    && forall a | a in announced && Informs(a, r.revision) :: a.count <= r.before.highest || r.claimed.highest < a.count
  }

  /** The history agrees with a cursor at `revision` whose latch and high-water mark are as given. */
  ghost predicate LedgerAt(announced: seq<Announcement>, undone: seq<nat>, receipts: set<Receipt>,
                           revision: nat, latched: bool, highest: nat)
  {
    && CountsRise(announced)
    && StopsStandOnce(announced, undone)
    && UpTo(announced, undone, receipts, revision)
    && StopsClaimed(announced, revision) - StopsUndone(undone, revision) == (if latched then 1 else 0)
    && (forall a | a in announced && Informs(a, revision) :: a.count <= highest)
    && (forall r | r in receipts && r.revision == revision :: latched && ReceiptSound(announced, r, highest))
    && (forall r, s | r in receipts && s in receipts && r.revision == revision && s.revision == revision :: r == s)
  }

  ghost predicate LedgerOf(w: World, c: Cursor)
  {
    LedgerAt(w.announced, w.undone, w.receipts, c.revision, c.stop.Some?, c.delivery.highest)
  }

  /** The file is absent and nothing was announced, or it holds a v3 cursor the history agrees with. */
  ghost predicate Ledger(w: World)
  {
    match w.stored
    case None => w.announced == [] && w.undone == [] && w.receipts == {}
    case Some(stored) => stored.V3? && LedgerOf(w, stored.cursor)
  }

  lemma {:induction false} NoneClaimedLater(announced: seq<Announcement>, r: nat)
    requires forall a | a in announced :: a.revision < r
    ensures StopsClaimed(announced, r) == 0
    decreases |announced|
  {
    if announced != [] {
      var init := announced[..|announced| - 1];
      assert announced == init + [announced[|announced| - 1]];
      NoneClaimedLater(init, r);
    }
  }

  lemma {:induction false} NoneUndoneLater(undone: seq<nat>, r: nat)
    requires forall u | u in undone :: u < r
    ensures StopsUndone(undone, r) == 0
    decreases |undone|
  {
    if undone != [] {
      var init := undone[..|undone| - 1];
      forall u | u in init ensures u < r {
        assert u in undone;
      }
      assert undone[|undone| - 1] in undone;
      NoneUndoneLater(init, r);
    }
  }

  /** A new revision starts with an empty ledger. */
  lemma NewRevision(announced: seq<Announcement>, undone: seq<nat>, receipts: set<Receipt>, was: nat, latched: bool,
                    highest: nat, revision: nat)
    requires LedgerAt(announced, undone, receipts, was, latched, highest) && was < revision
    ensures LedgerAt(announced, undone, receipts, revision, false, 0)
  {
    hide CountsRise, StopsStandOnce, ReceiptSound;
    NoneClaimedLater(announced, revision);
    NoneUndoneLater(undone, revision);
  }

  lemma EmptyLedger(revision: nat)
    ensures LedgerAt([], [], {}, revision, false, 0)
  {
  }

  /** The virtual cursor a hook works from agrees with the history, and is never a legacy upgrade. */
  lemma VirtualLedger(actor: Actor, w: World, epoch: Epoch)
    requires Ledger(w) && VirtualCursorOf(actor, epoch, w.stored).Ok?
    ensures var v := VirtualCursorOf(actor, epoch, w.stored).value;
      LedgerOf(w, v.state) && v.legacyMarkers.None?
  {
    hide LedgerAt;
    var v := VirtualCursorOf(actor, epoch, w.stored).value;
    if w.stored.None? {
      EmptyLedger(v.state.revision);
    } else if w.stored.value.cursor.epoch != epoch {
      var c := w.stored.value.cursor;
      NewRevision(w.announced, w.undone, w.receipts, c.revision, c.stop.Some?, c.delivery.highest, v.state.revision);
    }
  }

  /* ---------------------------------- claims ---------------------------------- */

  /** One more announcement: the tail of the list is what the counts look at. */
  lemma AppendAnnouncement(announced: seq<Announcement>, a: Announcement, r: nat)
    ensures StopsClaimed(announced + [a], r)
         == StopsClaimed(announced, r) + (if a.marker == Stop && a.revision == r then 1 else 0)
  {
    assert (announced + [a])[..|announced|] == announced;
  }

  lemma AppendUndone(undone: seq<nat>, u: nat, r: nat)
    ensures StopsUndone(undone + [u], r) == StopsUndone(undone, r) + (if u == r then 1 else 0)
  {
    assert (undone + [u])[..|undone|] == undone;
  }

  /** An informational announcement above the high-water mark. */
  lemma InformKeepsLedger(announced: seq<Announcement>, undone: seq<nat>, receipts: set<Receipt>, revision: nat,
                          latched: bool, highest: nat, a: Announcement)
    requires LedgerAt(announced, undone, receipts, revision, latched, highest)
    requires Informs(a, revision) && a.count > highest
    ensures LedgerAt(announced + [a], undone, receipts, revision, latched, a.count)
  {
    var more := announced + [a];
    forall r: nat ensures StopsClaimed(more, r) == StopsClaimed(announced, r) {
      AppendAnnouncement(announced, a, r);
    }
    assert CountsRise(more) by {
      forall i, j | 0 <= i < j < |more| && more[i].marker != Stop && Informs(more[j], more[i].revision)
        ensures more[i].count < more[j].count
      {
        if j == |announced| {
          assert announced[i] in announced && Informs(announced[i], revision);
        }
      }
    }
  }

  /** A Stop claim sets the latch and hands out the one receipt of its revision. */
  lemma StopKeepsLedger(announced: seq<Announcement>, undone: seq<nat>, receipts: set<Receipt>, revision: nat,
                        highest: nat, a: Announcement, receipt: Receipt)
    requires LedgerAt(announced, undone, receipts, revision, false, highest)
    requires a.marker == Stop && a.revision == revision && receipt.revision == revision
    requires receipt.before.highest == highest && receipt.claimed.highest == Max(highest, a.count)
    ensures LedgerAt(announced + [a], undone, receipts + {receipt}, revision, true, Max(highest, a.count))
  {
    hide CountsRise, StopsClaimed, StopsUndone, ReceiptSound;
    var more := announced + [a];
    forall r: nat ensures StopsClaimed(more, r) == StopsClaimed(announced, r) + (if r == revision then 1 else 0) {
      AppendAnnouncement(announced, a, r);
    }
    StopDoesNotInform(announced, a);
    FreshReceiptSound(announced, a, receipt, highest);
  }

  lemma FreshReceiptSound(announced: seq<Announcement>, a: Announcement, receipt: Receipt, highest: nat)
    requires forall b | b in announced && Informs(b, receipt.revision) :: b.count <= highest
    requires a.marker == Stop && receipt.before.highest == highest && receipt.claimed.highest == Max(highest, a.count)
    ensures ReceiptSound(announced + [a], receipt, Max(highest, a.count))
  {
  }

  lemma StopDoesNotInform(announced: seq<Announcement>, a: Announcement)
    requires CountsRise(announced) && a.marker == Stop
    ensures CountsRise(announced + [a])
  {
  }

  /** A successful rollback of the standing claim. */
  lemma UndoKeepsLedger(announced: seq<Announcement>, undone: seq<nat>, receipts: set<Receipt>, revision: nat,
                        highest: nat, receipt: Receipt, restored: nat)
    requires LedgerAt(announced, undone, receipts, revision, true, highest)
    requires receipt in receipts && receipt.revision == revision
    requires restored == highest || (restored == receipt.before.highest && highest == receipt.claimed.highest)
    ensures LedgerAt(announced, undone + [revision], receipts - {receipt}, revision, false, restored)
  {
    forall r: nat
      ensures StopsUndone(undone + [revision], r) == StopsUndone(undone, r) + (if r == revision then 1 else 0) {
      AppendUndone(undone, revision, r);
    }
    assert ReceiptSound(announced, receipt, highest);
  }

  /** What a claim announces, in terms of the cursor it started from. */
  lemma ClaimLedger(v: VirtualCursor, scan: Scan, marker: Marker, turn: HookTurn, continuation: bool, now: int)
    requires v.legacyMarkers.None? && (v.state.stop.Some? ==> v.state.stop.value == v.state.revision)
    requires ClaimNudge(v, scan, marker, turn, continuation, now).Ok?
    ensures var u := ClaimNudge(v, scan, marker, turn, continuation, now).value;
      var announces := u.result.Ready? && u.result.claimed;
      var was := v.state;
      && (announces && marker != Stop ==>
            u.result.unreadCount > was.delivery.highest && u.result.receipt.None?)
      && (announces && marker == Stop ==>
            && was.stop.None? && u.result.receipt.Some?
            && u.result.receipt.value.revision == was.revision
            && u.result.receipt.value.before.highest == was.delivery.highest
            && u.result.receipt.value.claimed.highest == Max(was.delivery.highest, u.result.unreadCount))
      && (!announces && u.result.Ready? ==> u.result.receipt.None?)
      && (u.state.Some? ==>
            var c := u.state.value;
            && c.revision == was.revision
            && c.stop.Some? == (was.stop.Some? || (announces && marker == Stop))
            && c.delivery.highest ==
               if announces then Max(was.delivery.highest, u.result.unreadCount) else was.delivery.highest)
  {
    hide DeliveredTo, Uncollapsed;
    var prepared := Prepared(v, scan.unreadCount, marker, turn).value;
    assert prepared.delivery.highest == v.state.delivery.highest && prepared.stop == v.state.stop
      && prepared.revision == v.state.revision;
  }

  lemma NudgeKeepsLedger(actor: Actor, sizeOf: Sizer, w: World, e: Event)
    requires e.Nudge? && WellFormed(actor, w) && Ledger(w) && Enabled(actor, w, e)
    ensures Ledger(Step(actor, sizeOf, w, e))
  {
    hide WellFormed, ValidCursor, ScanUnreadSpec, ClaimNudge, LedgerAt, View;
    NudgeStep(actor, sizeOf, w, e);
    if VirtualCursorOf(actor, e.epoch, w.stored).Ok? {
      var v := VirtualCursorOf(actor, e.epoch, w.stored).value;
      var scan := ScanUnreadSpec(actor, v.state, e.files, {});
      WellFormedVirtual(actor, w, e.epoch);
      VirtualLedger(actor, w, e.epoch);
      if ClaimNudge(v, scan, e.marker, e.turn, e.continuation, e.now).Ok? {
        var u := ClaimNudge(v, scan, e.marker, e.turn, e.continuation, e.now).value;
        assert v.state.stop.Some? ==> v.state.stop.value == v.state.revision by { StopIsRevision(actor, v.state); }
        ClaimLedger(v, scan, e.marker, e.turn, e.continuation, e.now);
        ClaimWithoutState(actor, v, scan, e.marker, e.turn, e.continuation, e.now);
        if u.state.Some? && CursorFits(sizeOf, u.state.value) {
          ClaimStep(w, v.state, u, e.marker);
        }
      }
    }
  }

  lemma StopIsRevision(actor: Actor, c: Cursor)
    requires ValidCursor(actor, c)
    ensures c.stop.Some? ==> c.stop.value == c.revision
  {
  }

  /** The history and the cursor move together in one claim. */
  lemma ClaimStep(w: World, was: Cursor, u: Update<ClaimResult>, marker: Marker)
    requires LedgerOf(w, was) && u.state.Some?
    requires var c := u.state.value;
      var announces := u.result.Ready? && u.result.claimed;
      && c.revision == was.revision
      && c.stop.Some? == (was.stop.Some? || (announces && marker == Stop))
      && c.delivery.highest ==
         (if announces then Max(was.delivery.highest, u.result.unreadCount) else was.delivery.highest)
      && (announces && marker != Stop ==> u.result.unreadCount > was.delivery.highest && u.result.receipt.None?)
      && (announces && marker == Stop ==>
            && was.stop.None? && u.result.receipt.Some? && u.result.receipt.value.revision == was.revision
            && u.result.receipt.value.before.highest == was.delivery.highest
            && u.result.receipt.value.claimed.highest == Max(was.delivery.highest, u.result.unreadCount))
    ensures var c := u.state.value;
      if u.result.Ready? && u.result.claimed then
        LedgerAt(w.announced + [Announcement(c.revision, marker, u.result.unreadCount)], w.undone,
                 w.receipts + (if u.result.receipt.Some? then {u.result.receipt.value} else {}),
                 c.revision, c.stop.Some?, c.delivery.highest)
      else LedgerAt(w.announced, w.undone, w.receipts, c.revision, c.stop.Some?, c.delivery.highest)
  {
    hide LedgerAt;
    if u.result.Ready? && u.result.claimed {
      var c := u.state.value;
      var a := Announcement(c.revision, marker, u.result.unreadCount);
      if marker == Stop {
        StopKeepsLedger(w.announced, w.undone, w.receipts, c.revision, was.delivery.highest, a, u.result.receipt.value);
      } else {
        InformKeepsLedger(w.announced, w.undone, w.receipts, c.revision, was.stop.Some?, was.delivery.highest, a);
        assert w.receipts + {} == w.receipts;
      }
    }
  }

  /* ---------------------------------- the other steps ---------------------------------- */

  lemma FewerReceipts(announced: seq<Announcement>, undone: seq<nat>, receipts: set<Receipt>, receipt: Receipt,
                      revision: nat, latched: bool, highest: nat)
    requires LedgerAt(announced, undone, receipts, revision, latched, highest)
    ensures LedgerAt(announced, undone, receipts - {receipt}, revision, latched, highest)
  {
    hide CountsRise, StopsStandOnce, ReceiptSound;
  }

  lemma UndoStepKeepsLedger(actor: Actor, sizeOf: Sizer, w: World, e: Event)
    requires e.UndoStop? && Ledger(w) && Enabled(actor, w, e)
    ensures Ledger(Step(actor, sizeOf, w, e))
  {
    hide LedgerAt;
    var c := w.stored.value.cursor;
    FewerReceipts(w.announced, w.undone, w.receipts, e.receipt, c.revision, c.stop.Some?, c.delivery.highest);
    var u := RollbackStop(w.stored, e.receipt, e.now);
    if u.state.Some? && CursorFits(sizeOf, u.state.value) {
      UndoKeepsLedger(w.announced, w.undone, w.receipts, c.revision, c.delivery.highest, e.receipt,
                      u.state.value.delivery.highest);
    }
  }

  /** Reserving, staging and discarding touch neither latch nor ledger. */
  lemma PendingStepKeepsLedger(actor: Actor, sizeOf: Sizer, w: World, e: Event)
    requires TouchesPending(e)
    requires Ledger(w)
    ensures Ledger(Step(actor, sizeOf, w, e))
  {
    hide LedgerAt, Step, VirtualCursorOf;
    PendingStep(actor, sizeOf, w, e);
    if VirtualCursorOf(actor, e.epoch, w.stored).Ok? {
      VirtualLedger(actor, w, e.epoch);
    }
  }

  lemma CommitKeepsLedger(actor: Actor, sizeOf: Sizer, w: World, e: Event)
    requires e.CommitRead? && WellFormed(actor, w) && Ledger(w) && Enabled(actor, w, e)
    ensures Ledger(Step(actor, sizeOf, w, e))
  {
    hide WellFormed, Enabled, LedgerAt, CommitStores, Step, VirtualCursorOf, CommitOutcome;
    var after := Step(actor, sizeOf, w, e);
    CommitKeepsHistory(actor, sizeOf, w, e);
    if after.stored != w.stored {
      var p, result := CommitStepStores(actor, sizeOf, w, e);
      VirtualLedger(actor, w, e.epoch);
      var c := VirtualCursorOf(actor, e.epoch, w.stored).value.state;
      CommitLedger(actor, w, c, after.stored.value.cursor, p, CurrentDeliveryTurn(c, e.turn).value, result);
    }
  }

  lemma CommitKeepsHistory(actor: Actor, sizeOf: Sizer, w: World, e: Event)
    requires e.CommitRead?
    ensures var after := Step(actor, sizeOf, w, e);
      after.announced == w.announced && after.undone == w.undone && after.receipts == w.receipts
  {
    hide CommitOutcome, PagesOf;
  }

  /** A commit leaves the ledger alone or, advancing, starts a new revision. */
  lemma CommitLedger(actor: Actor, w: World, c: Cursor, out: Cursor, p: Pending, turn: DeliveryTurn,
                     result: CommitResult)
    requires LedgerOf(w, c) && CommitStores(actor, c, out, p, turn, result)
    ensures LedgerOf(w, out)
  {
    hide LedgerAt, ValidCursor, Keep;
    if result.advanced {
      NewRevision(w.announced, w.undone, w.receipts, c.revision, c.stop.Some?, c.delivery.highest, out.revision);
    }
  }

  lemma StepKeepsLedger(actor: Actor, sizeOf: Sizer, w: World, e: Event)
    requires WellFormed(actor, w) && Ledger(w) && Enabled(actor, w, e)
    ensures Ledger(Step(actor, sizeOf, w, e))
  {
    hide WellFormed, LedgerAt;
    match e
    case Publish(feeds) =>
    case Nudge(_, _, _, _, _, _) => NudgeKeepsLedger(actor, sizeOf, w, e);
    case UndoStop(_, _) => UndoStepKeepsLedger(actor, sizeOf, w, e);
    case ReserveRead(_, _, _, _, _) => PendingStepKeepsLedger(actor, sizeOf, w, e);
    case StageRead(_, _, _, _, _) => PendingStepKeepsLedger(actor, sizeOf, w, e);
    case CommitRead(_, _, _, _, _, _, _, _, _) => CommitKeepsLedger(actor, sizeOf, w, e);
    case DiscardRead(_, _, _) => PendingStepKeepsLedger(actor, sizeOf, w, e);
  }

  lemma {:induction false} RunsKeepLedger(actor: Actor, sizeOf: Sizer, w: World, es: seq<Event>)
    requires WellFormed(actor, w) && Ledger(w) && Possible(actor, sizeOf, w, es)
    ensures WellFormed(actor, Run(actor, sizeOf, w, es)) && Ledger(Run(actor, sizeOf, w, es))
    decreases |es|
  {
    hide WellFormed, Ledger, Enabled, Step;
    if es != [] {
      StepKeepsWellFormed(actor, sizeOf, w, es[0]);
      StepKeepsLedger(actor, sizeOf, w, es[0]);
      RunsKeepLedger(actor, sizeOf, Step(actor, sizeOf, w, es[0]), es[1..]);
    }
  }

  /**
   * In every run from an absent cursor file: per cursor revision at most one Stop claim stands
   * that was not rolled back, and informational announcements count strictly more each time.
   */
  lemma AnnouncementsInOrder(actor: Actor, sizeOf: Sizer, feeds: map<FeedKey, Feed>, es: seq<Event>)
    requires Possible(actor, sizeOf, Fresh(feeds), es)
    ensures var w := Run(actor, sizeOf, Fresh(feeds), es);
      CountsRise(w.announced) && StopsStandOnce(w.announced, w.undone)
  {
    RunsKeepLedger(actor, sizeOf, Fresh(feeds), es);
    hide CountsRise, WellFormed, Run, Possible;
    var w := Run(actor, sizeOf, Fresh(feeds), es);
    if w.stored.None? {
      EmptyLedger(1);
    }
  }
}
