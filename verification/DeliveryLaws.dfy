/**
 * Laws of the read protocol: every stored state is valid, coverage grows only through a commit
 * with both witnesses, and such a commit raises the revision by exactly one.
 */
module DeliveryLaws {
  import opened Base
  import opened ReadState
  import opened Feeds
  import opened NudgeCursor
  import opened Announcements
  import opened ReadDelivery

  /* ----------------------------- the pending list ----------------------------- */

  lemma {:induction false} KeepDistinct(pending: seq<Pending>, test: Test)
    requires DistinctPending(pending)
    ensures DistinctPending(Keep(pending, test))
  {
    hide DistinctPending, Passes;
    if pending == [] {
      assert Keep(pending, test) == pending;
    } else {
      var h, t := pending[0], pending[1..];
      TailDistinct(pending);
      assert Keep(pending, test) == if Passes(h, test) then [h] + Keep(t, test) else Keep(t, test);
      KeepDistinct(t, test);
      if Passes(h, test) {
        ConsDistinct(h, Keep(t, test));
      }
    }
  }

  lemma ConsDistinct(h: Pending, rest: seq<Pending>)
    requires DistinctPending(rest)
    requires forall q | q in rest :: q.nonce != h.nonce && q.toolUseId != h.toolUseId
    ensures DistinctPending([h] + rest)
  {
    assert forall i | 0 <= i < |rest| :: rest[i] in rest;
  }

  lemma TailDistinct(pending: seq<Pending>)
    requires DistinctPending(pending) && pending != []
    ensures DistinctPending(pending[1..])
    ensures forall q | q in pending[1..] :: q.nonce != pending[0].nonce && q.toolUseId != pending[0].toolUseId
  {
    forall q | q in pending[1..] ensures q.nonce != pending[0].nonce && q.toolUseId != pending[0].toolUseId {
      var i :| 0 <= i < |pending[1..]| && pending[1..][i] == q;
      assert pending[i + 1] == q;
    }
  }

  lemma {:induction false} KeepAll(pending: seq<Pending>, test: Test)
    requires forall q | q in pending :: Passes(q, test)
    ensures Keep(pending, test) == pending
  {
    if pending != [] {
      assert pending == [pending[0]] + pending[1..];
      KeepAll(pending[1..], test);
    }
  }

  /** Consuming a nonce removes exactly its one reservation. */
  lemma {:induction false} WithoutConsumesOne(pending: seq<Pending>, p: Pending)
    requires DistinctPending(pending) && p in pending
    ensures |Without(pending, p.nonce)| == |pending| - 1
    ensures forall q | q in pending && q != p :: q in Without(pending, p.nonce)
  {
    TailDistinct(pending);
    assert pending == [pending[0]] + pending[1..];
    if pending[0] == p {
      KeepAll(pending[1..], OtherNonce(p.nonce));
    } else {
      WithoutConsumesOne(pending[1..], p);
    }
  }

  /* ------------------------------ validity is kept ------------------------------ */

  predicate ValidPendings(actor: Actor, generation: Option<nat>, pending: seq<Pending>)
  {
    && |pending| <= MAX_PENDING_READS && DistinctPending(pending)
    && forall p | p in pending :: ValidPending(actor, generation, p)
  }

  lemma PendingKeepsValid(actor: Actor, c: Cursor, pending: seq<Pending>)
    requires ValidCursor(actor, c)
    ensures ValidPendings(actor, c.generation, c.readState.pending)
    ensures ValidPendings(actor, c.generation, pending) ==> ValidCursor(actor, WithPending(c, pending))
  {
    hide DistinctPending, WellKeyed, ValidFeeds, ValidPending;
  }

  lemma KeepValidPendings(actor: Actor, generation: Option<nat>, pending: seq<Pending>, test: Test)
    requires ValidPendings(actor, generation, pending)
    ensures ValidPendings(actor, generation, Keep(pending, test))
  {
    hide DistinctPending, ValidPending, Passes;
    KeepDistinct(pending, test);
  }

  /** A reservation under a fresh nonce is valid and adds one live, unstaged entry; nothing else moves. */
  lemma ReserveKeepsValid(actor: Actor, c: Cursor, inv: Invocation, turn: DeliveryTurn, nonce: string, now: int,
                          sizeOf: Sizer)
    requires ValidCursor(actor, c) && ValidTurn(actor, c.generation, turn)
    requires forall p | p in c.readState.pending :: p.nonce != nonce
    ensures var u := Reserve(actor, c, inv, turn, nonce, now, sizeOf);
      && (u.state.Some? <==> u.result == Reserved)
      && (u.state.Some? ==>
            && ValidCursor(actor, u.state.value)
            && u.state.value == WithPending(c, u.state.value.readState.pending).(updatedAt := now)
            && NewPending(inv, turn, nonce, now) in u.state.value.readState.pending
            && (forall p | p in u.state.value.readState.pending ::
                  p == NewPending(inv, turn, nonce, now) || (p in c.readState.pending && p.expiresAt > now)))
  {
    var live := Unexpired(c.readState.pending, now);
    PendingKeepsValid(actor, c, live);
    KeepValidPendings(actor, c.generation, c.readState.pending, LiveAt(now));
    if Reserve(actor, c, inv, turn, nonce, now, sizeOf).state.Some? {
      var entry := NewPending(inv, turn, nonce, now);
      AppendDistinct(live, entry);
      PendingKeepsValid(actor, c, live + [entry]);
    }
  }

  lemma AppendDistinct(pending: seq<Pending>, p: Pending)
    requires DistinctPending(pending)
    requires forall q | q in pending :: q.nonce != p.nonce && q.toolUseId != p.toolUseId
    ensures DistinctPending(pending + [p])
  {
    assert forall i | 0 <= i < |pending| :: pending[i] in pending;
  }

  lemma StagePendings(actor: Actor, generation: Option<nat>, pending: seq<Pending>, p: Pending, output: Envelope)
    requires ValidPendings(actor, generation, pending) && p in pending
    requires output.utf8Bytes <= READ_OUTPUT_CEILING_BYTES
    ensures ValidPendings(actor, generation, StageOutput(pending, p.nonce, output))
    ensures forall i | 0 <= i < |pending| && pending[i].nonce == p.nonce :: pending[i] == p
  {
    hide DistinctPending, StageOutput, ValidPending;
    var staged := StageOutput(pending, p.nonce, output);
    StagedDistinct(pending, p.nonce, output);
    OneOfNonce(pending, p);
    forall q | q in staged ensures ValidPending(actor, generation, q) {
      var i :| 0 <= i < |staged| && staged[i] == q;
      assert pending[i] in pending;
      StagedValid(actor, generation, pending[i], output);
    }
  }

  lemma StagedDistinct(pending: seq<Pending>, nonce: string, output: Envelope)
    requires DistinctPending(pending)
    ensures DistinctPending(StageOutput(pending, nonce, output))
  {
    var staged := StageOutput(pending, nonce, output);
    forall i, j | 0 <= i < j < |staged|
      ensures staged[i].nonce != staged[j].nonce && staged[i].toolUseId != staged[j].toolUseId {
      assert pending[i].nonce != pending[j].nonce && pending[i].toolUseId != pending[j].toolUseId;
    }
  }

  lemma OneOfNonce(pending: seq<Pending>, p: Pending)
    requires DistinctPending(pending) && p in pending
    ensures forall i | 0 <= i < |pending| && pending[i].nonce == p.nonce :: pending[i] == p
  {
    var j :| 0 <= j < |pending| && pending[j] == p;
  }

  lemma StagedValid(actor: Actor, generation: Option<nat>, p: Pending, output: Envelope)
    requires ValidPending(actor, generation, p) && output.utf8Bytes <= READ_OUTPUT_CEILING_BYTES
    ensures ValidPending(actor, generation, p.(output := Some(output)))
  {
  }

  /** Staging attaches an accepted output to its own reservation and to no other. */
  lemma StageKeepsValid(actor: Actor, c: Cursor, inv: Invocation, turn: DeliveryTurn, stdout: Option<Envelope>,
                        now: int, sizeOf: Sizer)
    requires ValidCursor(actor, c)
    ensures var u := Stage(actor, c, inv, turn, stdout, now, sizeOf);
      u.state.Some? ==>
        && ValidCursor(actor, u.state.value)
        && u.state.value == WithPending(c, u.state.value.readState.pending).(updatedAt := now)
        && |u.state.value.readState.pending| == |c.readState.pending|
        && forall i | 0 <= i < |c.readState.pending| ::
             var was, left := c.readState.pending[i], u.state.value.readState.pending[i];
             left == was || (left == was.(output := stdout) && was.output.None? && Answers(was, inv, turn, now)
                             && stdout.Some? && DeliveredEnvelope(stdout.value, inv.query, was.nonce))
  {
    hide ValidPendings, Answers, CursorFits;
    var u := Stage(actor, c, inv, turn, stdout, now, sizeOf);
    if u.state.Some? {
      var p := MatchingPending(actor, c, inv, turn, now).value;
      PendingKeepsValid(actor, c, c.readState.pending);
      StagePendings(actor, c.generation, c.readState.pending, p, stdout.value);
      PendingKeepsValid(actor, c, StageOutput(c.readState.pending, p.nonce, stdout.value));
    }
  }

  lemma DiscardKeepsValid(actor: Actor, c: Cursor, toolUseId: string, turn: DeliveryTurn)
    requires ValidCursor(actor, c)
    ensures var u := Discard(c, toolUseId, turn);
      u.state.Some? ==>
        && ValidCursor(actor, u.state.value)
        && u.state.value == WithPending(c, u.state.value.readState.pending)
        && (forall p :: p in u.state.value.readState.pending <==>
              p in c.readState.pending && (p.toolUseId != toolUseId || p.turn != turn))
  {
    KeepValidPendings(actor, c.generation, c.readState.pending, OtherCall(toolUseId, turn));
    PendingKeepsValid(actor, c, Discarded(c.readState.pending, toolUseId, turn));
  }

  /* ------------------------------- what a commit does ------------------------------- */

  lemma StillUnreadDistinct(delivered: seq<Coverage>, unread: set<RecordKey>)
    requires DistinctKeys(delivered)
    ensures DistinctKeys(StillUnread(delivered, unread))
  {
    hide DistinctKeys, KeyOf, RecordKeyOf;
    if delivered == [] {
      assert StillUnread(delivered, unread) == delivered;
    } else {
      var e, rest := delivered[0], delivered[1..];
      TailKeys(delivered);
      StillUnreadDistinct(rest, unread);
      var kept := StillUnread(rest, unread);
      assert StillUnread(delivered, unread) == if RecordKeyOf(e) in unread then [e] + kept else kept;
      ConsKeys(e, kept);
    }
  }

  lemma TailKeys(delivered: seq<Coverage>)
    requires delivered != [] && DistinctKeys(delivered)
    ensures DistinctKeys(delivered[1..]) && forall d | d in delivered[1..] :: KeyOf(d) != KeyOf(delivered[0])
  {
    hide KeyOf;
    var rest := delivered[1..];
    assert forall i | 0 <= i < |rest| :: rest[i] == delivered[i + 1];
  }

  lemma ConsKeys(e: Coverage, rest: seq<Coverage>)
    requires DistinctKeys(rest) && forall d | d in rest :: KeyOf(d) != KeyOf(e)
    ensures DistinctKeys([e] + rest)
  {
    hide KeyOf;
    assert forall i | 0 <= i < |rest| :: rest[i] in rest;
  }

  /** The coverage a preview builds on, and what it would add. */
  function BaseOf(actor: Actor, c: Cursor, delivered: seq<Coverage>, first: seq<FeedFile>): Cursor
  {
    Collapse(c, ScanUnreadSpec(actor, c, first, RecordKeysOf(delivered)))
  }

  function AddedOf(actor: Actor, c: Cursor, delivered: seq<Coverage>, first: seq<FeedFile>): seq<Coverage>
  {
    StillUnread(delivered, ScanUnreadSpec(actor, c, first, RecordKeysOf(delivered)).unreadKeys)
  }

  lemma PreviewMeans(actor: Actor, c: Cursor, delivered: seq<Coverage>, first: seq<FeedFile>, second: seq<FeedFile>)
    requires ValidCursor(actor, c) && DistinctFiles(first) && DistinctFiles(second) && DistinctKeys(delivered)
    requires PreviewCoverage(actor, c, delivered, first, second).Ok?
    ensures var preview := PreviewCoverage(actor, c, delivered, first, second).value;
      var base, added := BaseOf(actor, c, delivered, first), AddedOf(actor, c, delivered, first);
      && ValidFeeds(preview.state.feeds)
      && WellKeyed(preview.state.readState.coverage)
      && preview.state == c.(feeds := preview.state.feeds,
                             readState := c.readState.(coverage := preview.state.readState.coverage))
      && (preview.advanced <==> exists e :: e in added && News(base.readState.coverage, e))
      && (!preview.advanced ==> |preview.state.readState.coverage| <= |c.readState.coverage|)
      && (forall v, b | Holds(preview.state.readState.coverage, v, b) ::
            Holds(c.readState.coverage, v, b) || (preview.advanced && DeliveredIn(added, v, b)))
  {
    hide ValidReads, ValidGeneration, ValidDelivery, ScanUnreadSpec, MergeAll, WellKeyed, News, DeliveredIn,
      Uncollapsed, ValidFeeds, Holds, RecordKeysOf, DistinctFiles;
    CursorParts(actor, c);
    var before := ScanUnreadSpec(actor, c, first, RecordKeysOf(delivered));
    var base, added := BaseOf(actor, c, delivered, first), AddedOf(actor, c, delivered, first);
    var acc := Merged(base.readState.coverage, false);
    var merged := MergeForScan(base.readState.coverage, added).value;
    var next := base.(readState := base.readState.(coverage := merged.entries));
    ScanFeedsValid(actor, c, first, RecordKeysOf(delivered));
    ScanFeedsValid(actor, next, second, {});
    UncollapsedSmaller(c.readState.coverage, before.collapsed);
    StillUnreadDistinct(delivered, before.unreadKeys);
    MergeAllSound(acc, added, MAX_READ_COVERAGE_RECORDS + |added|);
    MergeAllChangesOnNews(acc, added, MAX_READ_COVERAGE_RECORDS + |added|);
    var after := if merged.changed then ScanUnreadSpec(actor, next, second, {}) else before;
    UncollapsedSmaller(merged.entries, after.collapsed);
    forall v, b | Holds(Collapse(next, after).readState.coverage, v, b)
      ensures Holds(c.readState.coverage, v, b) || (merged.changed && DeliveredIn(added, v, b))
    {
      HeldBeforeCollapse(merged.entries, after.collapsed, v, b);
      if !Holds(c.readState.coverage, v, b) {
        if Holds(base.readState.coverage, v, b) {
          HeldBeforeCollapse(c.readState.coverage, before.collapsed, v, b);
        }
      }
    }
  }

  lemma CursorParts(actor: Actor, c: Cursor)
    requires ValidCursor(actor, c)
    ensures ValidFeeds(c.feeds) && WellKeyed(c.readState.coverage)
  {
  }

  lemma HeldBeforeCollapse(coverage: CoverageMap, collapsed: set<RecordKey>, v: Coverage, b: int)
    requires Holds(Uncollapsed(coverage, collapsed), v, b)
    ensures Holds(coverage, v, b)
  {
  }

  /** Consuming a reservation leaves a valid list that is one shorter. */
  lemma ConsumePendings(actor: Actor, generation: Option<nat>, pending: seq<Pending>, p: Pending)
    requires ValidPendings(actor, generation, pending) && p in pending
    ensures ValidPendings(actor, generation, Without(pending, p.nonce))
    ensures |Without(pending, p.nonce)| == |pending| - 1
    ensures forall q :: q in Without(pending, p.nonce) <==> q in pending && q != p
  {
    KeepValidPendings(actor, generation, pending, OtherNonce(p.nonce));
    WithoutConsumesOne(pending, p);
  }

  lemma AdvancedValid(actor: Actor, c: Cursor, preview: Preview, query: Query, nonce: string, turn: DeliveryTurn,
                      now: int)
    requires ValidCursor(actor, c) && ValidTurn(actor, c.generation, turn) && c.revision + 1 <= MAX_SAFE_INTEGER
    requires ValidFeeds(preview.state.feeds) && WellKeyed(preview.state.readState.coverage)
    requires preview.state == c.(feeds := preview.state.feeds,
                                 readState := c.readState.(coverage := preview.state.readState.coverage))
    requires |preview.state.readState.coverage| <= MAX_READ_COVERAGE_RECORDS
    requires ValidPendings(actor, c.generation, Without(c.readState.pending, nonce))
    ensures ValidCursor(actor, Advanced(c, preview, query, nonce, turn, now))
  {
    hide DistinctPending, WellKeyed, ValidFeeds, ValidPending, Keep;
  }

  /** What a commit that consumed `p` may leave in the cursor file. */
  predicate CommitStores(actor: Actor, c: Cursor, out: Cursor, p: Pending, turn: DeliveryTurn, result: CommitResult)
  {
    && ValidCursor(actor, out) && out.epoch == c.epoch && out.generation == c.generation
    && out.readState.pending == Without(c.readState.pending, p.nonce)
    && |out.readState.pending| == |c.readState.pending| - 1
    && (result.advanced ==>
          result.committed && out.revision == c.revision + 1 && out.stop == None && out.delivery == Delivery(0, None)
          && out.readState.informedTurn == Some(turn))
    && (!result.advanced ==>
          out.revision == c.revision && out.stop == c.stop && out.delivery == c.delivery
          && out.readState.informedTurn == c.readState.informedTurn)
    && (!result.committed ==> out.readState.coverage == c.readState.coverage && out.feeds == c.feeds)
  }

  /** A commit stores nothing without a witnessed reservation, and consumes exactly that one. */
  lemma CommitConsumesWitness(actor: Actor, c: Cursor, inv: Invocation, turn: DeliveryTurn, modelText: Option<Envelope>,
                              now: int, seen: Snapshots, sizeOf: Sizer)
    requires ValidCursor(actor, c) && ValidTurn(actor, c.generation, turn)
    requires DistinctFiles(seen.first) && DistinctFiles(seen.second)
    requires Commit(actor, c, inv, turn, modelText, now, seen, sizeOf).Ok?
    ensures var u := Commit(actor, c, inv, turn, modelText, now, seen, sizeOf).value;
      var p := Witnessed(actor, c, inv, turn, modelText, now, seen.verify);
      && (u.result.committed ==> u.state.Some?)
      && (u.state.Some? ==> p.Some? && CommitStores(actor, c, u.state.value, p.value, turn, u.result))
      && (u.state.None? ==> u.result == REFUSED)
  {
    hide ValidPendings, Answers, ValidFeeds, WellKeyed, VerifyDelivery, Keep, PreviewCoverage, News, DistinctPending,
      ValidPending;
    var p := Witnessed(actor, c, inv, turn, modelText, now, seen.verify);
    if p.Some? {
      PendingKeepsValid(actor, c, c.readState.pending);
      ConsumePendings(actor, c.generation, c.readState.pending, p.value);
      PendingKeepsValid(actor, c, Without(c.readState.pending, p.value.nonce));
      if PreviewCoverage(actor, c, modelText.value.coverage, seen.first, seen.second).Ok? {
        PreviewMeans(actor, c, modelText.value.coverage, seen.first, seen.second);
        var preview := PreviewCoverage(actor, c, modelText.value.coverage, seen.first, seen.second).value;
        if preview.advanced {
          if c.revision + 1 <= MAX_SAFE_INTEGER && |preview.state.readState.coverage| <= MAX_READ_COVERAGE_RECORDS {
            AdvancedValid(actor, c, preview, inv.query, p.value.nonce, turn, now);
          }
        } else {
          IdleValid(actor, c, preview);
          PendingKeepsValid(actor, preview.state, Without(c.readState.pending, p.value.nonce));
        }
      }
    }
  }

  lemma IdleValid(actor: Actor, c: Cursor, preview: Preview)
    requires ValidCursor(actor, c)
    requires ValidFeeds(preview.state.feeds) && WellKeyed(preview.state.readState.coverage)
    requires preview.state == c.(feeds := preview.state.feeds,
                                 readState := c.readState.(coverage := preview.state.readState.coverage))
    requires |preview.state.readState.coverage| <= |c.readState.coverage|
    ensures ValidCursor(actor, preview.state)
  {
    hide DistinctPending, WellKeyed, ValidFeeds, ValidPending;
  }

  /**
   * The revision rises exactly when some delivered, still unread entry says something the stored
   * coverage did not hold, unless room runs out; and a byte newly held was delivered by this output.
   */
  lemma CommitAdvancesOnNews(actor: Actor, c: Cursor, inv: Invocation, turn: DeliveryTurn, modelText: Option<Envelope>,
                             now: int, seen: Snapshots, sizeOf: Sizer)
    requires ValidCursor(actor, c)
    requires DistinctFiles(seen.first) && DistinctFiles(seen.second)
    requires Commit(actor, c, inv, turn, modelText, now, seen, sizeOf).Ok?
    ensures var u := Commit(actor, c, inv, turn, modelText, now, seen, sizeOf).value;
      && (u.result.committed ==> var delivered := modelText.value.coverage;
            (u.result.advanced <==> exists e :: e in AddedOf(actor, c, delivered, seen.first)
                                             && News(BaseOf(actor, c, delivered, seen.first).readState.coverage, e)))
      && (u.state.Some? ==> forall v, b | Holds(u.state.value.readState.coverage, v, b) ::
            Holds(c.readState.coverage, v, b) || (u.result.advanced && DeliveredIn(modelText.value.coverage, v, b)))
  {
    hide ValidCursor, Answers, VerifyDelivery, Keep, PreviewCoverage, News, Holds, DeliveredIn, BaseOf, AddedOf,
      CoverageFits;
    var p := Witnessed(actor, c, inv, turn, modelText, now, seen.verify);
    if p.Some? && PreviewCoverage(actor, c, modelText.value.coverage, seen.first, seen.second).Ok? {
      PreviewMeans(actor, c, modelText.value.coverage, seen.first, seen.second);
      AddedAreDelivered(actor, c, modelText.value.coverage, seen.first);
    }
  }

  lemma AddedAreDelivered(actor: Actor, c: Cursor, delivered: seq<Coverage>, first: seq<FeedFile>)
    ensures forall v, b | DeliveredIn(AddedOf(actor, c, delivered, first), v, b) :: DeliveredIn(delivered, v, b)
  {
  }
}
