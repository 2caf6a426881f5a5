/**
 * Delivery needs both witnesses: in any step of any run, a newly held coverage byte, or a raised
 * revision within one membership, is the work of a commit that consumed one live reservation
 * whose staged output equals the text the provider proved the model saw.
 */
module DeliveryWitnesses {
  import opened Base
  import opened ReadState
  import opened Feeds
  import opened NudgeCursor
  import opened Announcements
  import opened ReadDelivery
  import opened DeliveryLaws
  import opened HookTransactions
  import opened LedgerRuns
  import opened NoTurnLost

  predicate HeldIn(stored: Option<Stored>, v: Coverage, b: int)
  {
    stored.Some? && stored.value.V3? && Holds(stored.value.cursor.readState.coverage, v, b)
  }

  /** The commit of event `e` advanced, consuming `p`, in the world `w`. */
  predicate WitnessedBy(actor: Actor, sizeOf: Sizer, w: World, e: Event, p: Pending)
  {
    && e.CommitRead? && e.modelText.Some?
    && p in PendingOf(w.stored) && p.toolUseId == e.inv.toolUseId && p.query == e.inv.query
    && p.createdAt <= e.now < p.expiresAt
    && p.output == e.modelText && e.modelText.value.nonce == p.nonce
    && CommitOutcome(actor, sizeOf, w, e).result == Ok(CommitResult(true, true))
    && PendingOf(Step(actor, sizeOf, w, e).stored) == Without(PendingOf(w.stored), p.nonce)
    && |PendingOf(Step(actor, sizeOf, w, e).stored)| == |PendingOf(w.stored)| - 1
    && Step(actor, sizeOf, w, e).stored.Some?
    && Step(actor, sizeOf, w, e).stored.value.Revision() == w.stored.value.Revision() + 1
    && Step(actor, sizeOf, w, e).stored.value.AtEpoch() == w.stored.value.AtEpoch()
  }

  lemma VirtualHeld(actor: Actor, epoch: Epoch, stored: Option<Stored>, v: Coverage, b: int)
    requires VirtualCursorOf(actor, epoch, stored).Ok?
    ensures Holds(VirtualCursorOf(actor, epoch, stored).value.state.readState.coverage, v, b) ==> HeldIn(stored, v, b)
  {
  }

  /** Everything but a commit keeps or drops coverage. */
  lemma OthersHoldNoMore(actor: Actor, sizeOf: Sizer, w: World, e: Event, v: Coverage, b: int)
    requires !e.CommitRead?
    ensures HeldIn(Step(actor, sizeOf, w, e).stored, v, b) ==> HeldIn(w.stored, v, b)
  {
    hide Reserve, Stage, Discard, ClaimNudge, ScanUnreadSpec, Holds;
    if e.Nudge? {
      NudgeHoldsNoMore(actor, sizeOf, w, e, v, b);
    } else if TouchesPending(e) {
      PendingHoldsNoMore(actor, sizeOf, w, e, v, b);
    }
  }

  lemma NudgeHoldsNoMore(actor: Actor, sizeOf: Sizer, w: World, e: Event, v: Coverage, b: int)
    requires e.Nudge?
    ensures HeldIn(Step(actor, sizeOf, w, e).stored, v, b) ==> HeldIn(w.stored, v, b)
  {
    hide Step, VirtualCursorOf, ClaimNudge, ScanUnreadSpec;
    NudgeStep(actor, sizeOf, w, e);
    if VirtualCursorOf(actor, e.epoch, w.stored).Ok? {
      var virtual := VirtualCursorOf(actor, e.epoch, w.stored).value;
      VirtualHeld(actor, e.epoch, w.stored, v, b);
      ClaimOnlyCollapses(virtual, ScanUnreadSpec(actor, virtual.state, e.files, {}), e.marker, e.turn,
                         e.continuation, e.now);
    }
  }

  lemma PendingHoldsNoMore(actor: Actor, sizeOf: Sizer, w: World, e: Event, v: Coverage, b: int)
    requires TouchesPending(e)
    ensures HeldIn(Step(actor, sizeOf, w, e).stored, v, b) ==> HeldIn(w.stored, v, b)
  {
    hide Step, VirtualCursorOf, Holds;
    PendingStep(actor, sizeOf, w, e);
    if VirtualCursorOf(actor, e.epoch, w.stored).Ok? {
      VirtualHeld(actor, e.epoch, w.stored, v, b);
    }
  }

  /** What a stored commit says about the world it was made in. */
  lemma CommitWitness(actor: Actor, sizeOf: Sizer, w: World, e: Event)
    requires e.CommitRead? && WellFormed(actor, w) && Enabled(actor, w, e)
    requires var o := CommitOutcome(actor, sizeOf, w, e);
      o.result.Ok? && o.result.value.advanced
    ensures exists p :: WitnessedBy(actor, sizeOf, w, e, p)
  {
    hide WellFormed, ValidCursor, ValidTurn, Commit, Keep, PagesOf, View, FeedsEvolve, VerifyDelivery;
    ViewsDistinct(actor, w, e);
    var v := VirtualCursorOf(actor, e.epoch, w.stored).value;
    WellFormedVirtual(actor, w, e.epoch);
    CurrentTurnValid(actor, v.state, e.turn);
    var current := CurrentDeliveryTurn(v.state, e.turn).value;
    CommitConsumesWitness(actor, v.state, e.inv, current, e.modelText, e.now, e.seen, sizeOf);
    var p := Witnessed(actor, v.state, e.inv, current, e.modelText, e.now, e.seen.verify).value;
    VirtualHasPending(actor, e.epoch, w.stored, p);
    assert WitnessedBy(actor, sizeOf, w, e, p);
  }

  lemma VirtualHasPending(actor: Actor, epoch: Epoch, stored: Option<Stored>, p: Pending)
    requires VirtualCursorOf(actor, epoch, stored).Ok?
    requires p in VirtualCursorOf(actor, epoch, stored).value.state.readState.pending
    ensures stored.Some? && stored.value.V3? && stored.value.cursor == VirtualCursorOf(actor, epoch, stored).value.state
    ensures stored.value.cursor.epoch == epoch
  {
  }

  /** A coverage byte newly held in one step of any run. */
  lemma CoverageGrowsOnlyByCommit(actor: Actor, sizeOf: Sizer, w: World, e: Event, v: Coverage, b: int)
    requires WellFormed(actor, w) && Enabled(actor, w, e)
    requires HeldIn(Step(actor, sizeOf, w, e).stored, v, b) && !HeldIn(w.stored, v, b)
    ensures exists p :: WitnessedBy(actor, sizeOf, w, e, p)
    ensures e.modelText.Some? && DeliveredIn(e.modelText.value.coverage, v, b)
  {
    hide WellFormed, ValidCursor, ValidTurn, Commit, Witnessed, Keep, PagesOf, View, FeedsEvolve, WitnessedBy, Holds;
    if !e.CommitRead? {
      OthersHoldNoMore(actor, sizeOf, w, e, v, b);
    } else {
      ViewsDistinct(actor, w, e);
      var virtual := VirtualCursorOf(actor, e.epoch, w.stored).value;
      WellFormedVirtual(actor, w, e.epoch);
      VirtualHeld(actor, e.epoch, w.stored, v, b);
      CurrentTurnValid(actor, virtual.state, e.turn);
      var current := CurrentDeliveryTurn(virtual.state, e.turn).value;
      CommitConsumesWitness(actor, virtual.state, e.inv, current, e.modelText, e.now, e.seen, sizeOf);
      CommitAdvancesOnNews(actor, virtual.state, e.inv, current, e.modelText, e.now, e.seen, sizeOf);
      WitnessHasText(actor, virtual.state, e.inv, current, e.modelText, e.now, e.seen.verify);
      CommitWitness(actor, sizeOf, w, e);
    }
  }

  lemma WitnessHasText(actor: Actor, c: Cursor, inv: Invocation, turn: DeliveryTurn, modelText: Option<Envelope>,
                       now: int, files: seq<FeedFile>)
    ensures Witnessed(actor, c, inv, turn, modelText, now, files).Some? ==> modelText.Some?
  {
  }

  predicate SameRevisionIfSameEpoch(w: World, after: Option<Stored>)
    requires w.stored.Some?
  {
    after.Some? && after.value.AtEpoch() == w.stored.value.AtEpoch() ==>
      after.value.Revision() == w.stored.value.Revision()
  }

  lemma NudgeKeepsRevision(actor: Actor, sizeOf: Sizer, w: World, e: Event)
    requires e.Nudge? && WellFormed(actor, w) && Enabled(actor, w, e) && w.stored.Some?
    ensures SameRevisionIfSameEpoch(w, Step(actor, sizeOf, w, e).stored)
  {
    hide WellFormed, Step, ValidCursor, ClaimNudge, ScanUnreadSpec;
    NudgeStep(actor, sizeOf, w, e);
    if VirtualCursorOf(actor, e.epoch, w.stored).Ok? {
      var v := VirtualCursorOf(actor, e.epoch, w.stored).value;
      WellFormedVirtual(actor, w, e.epoch);
      ClaimKeepsValid(actor, v, e.files, e.marker, e.turn, e.continuation, e.now);
    }
  }

  lemma PendingStepsKeepRevision(actor: Actor, sizeOf: Sizer, w: World, e: Event)
    requires TouchesPending(e) && w.stored.Some?
    ensures SameRevisionIfSameEpoch(w, Step(actor, sizeOf, w, e).stored)
  {
    hide Step;
    PendingStep(actor, sizeOf, w, e);
  }

  /** Within one membership the revision moves only by an advancing commit, and by exactly one. */
  lemma RevisionRisesOnlyByCommit(actor: Actor, sizeOf: Sizer, w: World, e: Event)
    requires WellFormed(actor, w) && Enabled(actor, w, e) && w.stored.Some?
    requires !SameRevisionIfSameEpoch(w, Step(actor, sizeOf, w, e).stored)
    ensures exists p :: WitnessedBy(actor, sizeOf, w, e, p)
  {
    hide WellFormed, Enabled, ValidCursor, CommitOutcome, Step, Keep, WitnessedBy;
    if e.CommitRead? {
      var p, result := CommitStepStores(actor, sizeOf, w, e);
      CommitWitness(actor, sizeOf, w, e);
    } else if e.Nudge? {
      NudgeKeepsRevision(actor, sizeOf, w, e);
    } else if TouchesPending(e) {
      PendingStepsKeepRevision(actor, sizeOf, w, e);
    } else {
      FewKeepRevision(actor, sizeOf, w, e);
    }
  }

  lemma FewKeepRevision(actor: Actor, sizeOf: Sizer, w: World, e: Event)
    requires (e.Publish? || e.UndoStop?) && w.stored.Some?
    ensures SameRevisionIfSameEpoch(w, Step(actor, sizeOf, w, e).stored)
  {
  }
}
