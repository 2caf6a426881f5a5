/**
 * No unread turn is ever lost: in every run, a peer turn of the current membership that lies
 * before a saved checkpoint, or that a scan passes over as acknowledged, had every byte of its
 * record or of its attention field shown by earlier committed reads.
 */
module NoTurnLost {
  import opened Base
  import opened ReadState
  import opened Feeds
  import opened NudgeCursor
  import opened Announcements
  import opened ReadDelivery
  import opened DeliveryLaws
  import opened HookTransactions
  import opened LedgerRuns

  /* ------------------------------ what was delivered ------------------------------ */

  /** Byte `i` of this field of this very record is among the bytes shown. */
  predicate ByteShown(log: seq<Page>, t: Turn, field: Field, i: int, byte: Byte)
  {
    exists p :: p in log && p.turn == t && p.field == field && p.range.start <= i < p.range.end
             && i - p.range.start < |p.shown| && p.shown[i - p.range.start] == byte
  }

  predicate AllShown(log: seq<Page>, t: Turn, field: Field)
  {
    && SelectTurnText(t, field).Some?
    && forall i | 0 <= i < |SelectTurnText(t, field).value| ::
      ByteShown(log, t, field, i, SelectTurnText(t, field).value[i])
  }

  predicate Delivered(log: seq<Page>, t: Turn)
  {
    AllShown(log, t, RecordField) || AllShown(log, t, AttentionField(t))
  }

  /** A logged page shows exactly the bytes of its range. */
  predicate TruePage(p: Page)
  {
    && SelectTurnText(p.turn, p.field).Some?
    && 0 <= p.range.start <= p.range.end <= |SelectTurnText(p.turn, p.field).value|
    && p.shown == SelectTurnText(p.turn, p.field).value[p.range.start..p.range.end]
  }

  predicate TrueLog(log: seq<Page>)
  {
    forall p | p in log :: TruePage(p)
  }

  predicate WholeAttention(p: Page)
  {
    p.field == AttentionField(p.turn) && p.range.start == 0
    && SelectTurnText(p.turn, p.field).Some? && p.range.end == |SelectTurnText(p.turn, p.field).value|
  }

  /** A stored coverage byte goes back to a logged page, or to a context that showed the whole attention text. */
  predicate Attested(log: seq<Page>, v: Coverage, b: int)
  {
    exists p :: p in log && p.turn == v.recordHash.turn
             && ((p.field == v.field && p.range.start <= b < p.range.end) || WholeAttention(p))
  }

  ghost predicate CoverageAttested(m: CoverageMap, log: seq<Page>)
  {
    forall v, b | Holds(m, v, b) :: Attested(log, v, b)
  }

  /* ------------------------------ the safety invariant ------------------------------ */

  predicate PrefixDelivered(log: seq<Page>, key: FeedKey, epoch: Epoch, lines: seq<Line>, n: nat)
    requires n <= |lines|
  {
    forall i | 0 <= i < n && InScope(key, epoch, lines[i]) :: Delivered(log, lines[i].turn.value)
  }

  /**
   * A checkpoint of the file that is there now lies at a line boundary with nothing unread before it,
   * also when the file has been shortened by healing.
   */
  predicate CheckpointSafe(feeds: map<FeedKey, Feed>, log: seq<Page>, epoch: Epoch, key: FeedKey, cp: Checkpoint)
  {
    && key in feeds
    && cp.identity <= feeds[key].identity
    && (cp.identity == feeds[key].identity ==>
          && 1 <= cp.nextLine <= |feeds[key].lines| + 1 && cp.offset == Offset(feeds[key].lines, cp.nextLine - 1)
          && PrefixDelivered(log, key, epoch, feeds[key].lines, cp.nextLine - 1))
  }

  predicate CheckpointsSafe(feeds: map<FeedKey, Feed>, log: seq<Page>, epoch: Epoch, saved: map<FeedKey, Checkpoint>)
  {
    forall key | key in saved :: CheckpointSafe(feeds, log, epoch, key, saved[key])
  }

  ghost predicate SafeCursor(feeds: map<FeedKey, Feed>, log: seq<Page>, c: Cursor)
  {
    && CheckpointsSafe(feeds, log, c.epoch, c.feeds)
    && WellKeyed(c.readState.coverage)
    && CoverageAttested(c.readState.coverage, log)
  }

  ghost predicate Safe(w: World)
  {
    && TrueLog(w.log)
    && (w.stored.Some? ==> CheckpointsSafe(w.feeds, w.log, w.stored.value.AtEpoch(), w.stored.value.SavedFeeds()))
    && (w.stored.Some? && w.stored.value.V3? ==>
          WellKeyed(w.stored.value.cursor.readState.coverage)
          && CoverageAttested(w.stored.value.cursor.readState.coverage, w.log))
  }

  /* ------------------------------ acknowledged is delivered ------------------------------ */

  lemma TruePageShows(log: seq<Page>, p: Page, i: int)
    requires TrueLog(log) && p in log && p.range.start <= i < p.range.end
    ensures 0 <= i < |SelectTurnText(p.turn, p.field).value|
    ensures ByteShown(log, p.turn, p.field, i, SelectTurnText(p.turn, p.field).value[i])
  {
    assert TruePage(p);
  }

  lemma WholeAttentionDelivers(log: seq<Page>, p: Page)
    requires TrueLog(log) && p in log && WholeAttention(p)
    ensures Delivered(log, p.turn)
  {
    forall i | 0 <= i < |SelectTurnText(p.turn, p.field).value|
      ensures ByteShown(log, p.turn, p.field, i, SelectTurnText(p.turn, p.field).value[i])
    {
      TruePageShows(log, p, i);
    }
  }

  lemma AcknowledgedByIsDelivered(m: CoverageMap, log: seq<Page>, t: Turn, field: Field)
    requires TrueLog(log) && WellKeyed(m) && CoverageAttested(m, log)
    requires AcknowledgedBy(m, t, field) && (field == RecordField || field == AttentionField(t))
    ensures Delivered(log, t)
  {
    var e := m[CoverageKey(t.id, field)];
    var text := SelectTurnText(t, field).value;
    CompleteIffEveryByte(e);
    if exists p :: p in log && p.turn == t && WholeAttention(p) {
      var p :| p in log && p.turn == t && WholeAttention(p);
      WholeAttentionDelivers(log, p);
    } else {
      forall i | 0 <= i < |text| ensures ByteShown(log, t, field, i, text[i]) {
        assert Holds(m, e, i);
        var p :| p in log && p.turn == e.recordHash.turn
              && ((p.field == e.field && p.range.start <= i < p.range.end) || WholeAttention(p));
        TruePageShows(log, p, i);
      }
      assert AllShown(log, t, field);
    }
  }

  lemma AcknowledgedIsDelivered(m: CoverageMap, log: seq<Page>, t: Turn)
    requires TrueLog(log) && WellKeyed(m) && CoverageAttested(m, log) && Acknowledged(m, t)
    ensures Delivered(log, t)
  {
    if AcknowledgedBy(m, t, RecordField) {
      AcknowledgedByIsDelivered(m, log, t, RecordField);
    } else {
      AcknowledgedByIsDelivered(m, log, t, AttentionField(t));
    }
  }

  /* ------------------------------ scans keep checkpoints safe ------------------------------ */

  lemma VirtualSafe(actor: Actor, w: World, epoch: Epoch)
    requires Safe(w) && VirtualCursorOf(actor, epoch, w.stored).Ok?
    ensures SafeCursor(w.feeds, w.log, VirtualCursorOf(actor, epoch, w.stored).value.state)
  {
    var c := VirtualCursorOf(actor, epoch, w.stored).value.state;
    assert forall v, b :: !Holds(map[], v, b);
  }

  /** Lines a scan passes before its gap are delivered. */
  lemma SettledPrefixDelivered(feeds: map<FeedKey, Feed>, log: seq<Page>, c: Cursor, key: FeedKey, feed: Feed)
    requires SafeCursor(feeds, log, c) && TrueLog(log) && key in feeds && feeds[key] == feed
    ensures var start := ResumeLine(feed, SavedFor(c, key));
      PrefixDelivered(log, key, c.epoch, feed.lines, start)
      && PrefixDelivered(log, key, c.epoch, feed.lines, Gap(LensFor(c, key), feed.lines, start))
  {
    hide Delivered, Acknowledged, AtBoundary;
    var start := ResumeLine(feed, SavedFor(c, key));
    var lens := LensFor(c, key);
    assert PrefixDelivered(log, key, c.epoch, feed.lines, start) by {
      if key in c.feeds {
        assert CheckpointSafe(feeds, log, c.epoch, key, c.feeds[key]);
      }
    }
    forall i | start <= i < Gap(lens, feed.lines, start) && InScope(key, c.epoch, feed.lines[i])
      ensures Delivered(log, feed.lines[i].turn.value)
    {
      assert !Unread(lens, feed.lines[i]);
      AcknowledgedIsDelivered(c.readState.coverage, log, feed.lines[i].turn.value);
    }
  }

  lemma ScanSafe(actor: Actor, feeds: map<FeedKey, Feed>, log: seq<Page>, c: Cursor, files: seq<FeedFile>,
                 targets: set<RecordKey>)
    requires SafeCursor(feeds, log, c) && TrueLog(log) && View(files, feeds)
    ensures CheckpointsSafe(feeds, log, c.epoch, ScanUnreadSpec(actor, c, files, targets).covered)
  {
    hide Delivered, PrefixDelivered, ScanFrom, Holds;
    var scan := ScanUnreadSpec(actor, c, files, targets);
    forall key | key in scan.covered ensures CheckpointSafe(feeds, log, c.epoch, key, scan.covered[key]) {
      if ListedBefore(files, |files|, key) {
        var i :| 0 <= i < |files| && files[i].key == key;
        VisitedCheckpoint(actor, c, files, targets, |files|, i);
        if ScanFile(actor, c, files[i], targets).Some? {
          assert files[i] in files;
          ScannedFileSafe(actor, feeds, log, c, files[i], targets);
        }
      } else {
        UnvisitedKeepsCheckpoint(actor, c, files, targets, |files|, key);
      }
    }
  }

  lemma ScannedFileSafe(actor: Actor, feeds: map<FeedKey, Feed>, log: seq<Page>, c: Cursor, file: FeedFile,
                        targets: set<RecordKey>)
    requires SafeCursor(feeds, log, c) && TrueLog(log)
    requires file.feed.Some? && file.key in feeds && feeds[file.key] == file.feed.value
    requires ScanFile(actor, c, file, targets).Some?
    ensures CheckpointSafe(feeds, log, c.epoch, file.key, ScanFile(actor, c, file, targets).value.covered)
  {
    hide Delivered, PrefixDelivered, SafeCursor, TrueLog;
    var feed := file.feed.value;
    SettledPrefixDelivered(feeds, log, c, file.key, feed);
    var gap := Gap(LensFor(c, file.key), feed.lines, ResumeLine(feed, SavedFor(c, file.key)));
    OffsetMonotone(feed.lines, gap, |feed.lines|);
  }

  lemma CollapseSafe(actor: Actor, feeds: map<FeedKey, Feed>, log: seq<Page>, c: Cursor, files: seq<FeedFile>,
                     targets: set<RecordKey>)
    requires SafeCursor(feeds, log, c) && TrueLog(log) && View(files, feeds)
    ensures SafeCursor(feeds, log, Collapse(c, ScanUnreadSpec(actor, c, files, targets)))
  {
    hide View, TrueLog, CheckpointsSafe, Attested;
    ScanSafe(actor, feeds, log, c, files, targets);
    var scan := ScanUnreadSpec(actor, c, files, targets);
    forall v, b | Holds(Uncollapsed(c.readState.coverage, scan.collapsed), v, b) ensures Attested(log, v, b) {
      assert Holds(c.readState.coverage, v, b);
    }
  }

  /* ------------------------------ safety survives change ------------------------------ */

  lemma DeliveredGrows(log: seq<Page>, more: seq<Page>, t: Turn)
    requires Delivered(log, t)
    ensures Delivered(log + more, t)
  {
    forall field, i: int, byte: Byte | ByteShown(log, t, field, i, byte)
      ensures ByteShown(log + more, t, field, i, byte) {
      var p :| p in log && p.turn == t && p.field == field && p.range.start <= i < p.range.end
            && i - p.range.start < |p.shown| && p.shown[i - p.range.start] == byte;
      assert p in log + more;
    }
  }

  lemma CheckpointSafeGrows(feeds: map<FeedKey, Feed>, grown: map<FeedKey, Feed>, log: seq<Page>, more: seq<Page>,
                            epoch: Epoch, key: FeedKey, cp: Checkpoint)
    requires CheckpointSafe(feeds, log, epoch, key, cp) && FeedsEvolve(feeds, grown)
    ensures CheckpointSafe(grown, log + more, epoch, key, cp)
  {
    hide Delivered;
    var was, now := feeds[key], grown[key];
    assert Evolves(was, now);
    if cp.identity == now.identity {
      OffsetOfPrefix(was.lines, now.lines, cp.nextLine - 1);
      forall i | 0 <= i < cp.nextLine - 1 && InScope(key, epoch, now.lines[i])
        ensures Delivered(log + more, now.lines[i].turn.value)
      {
        assert was.lines[i] == now.lines[i];
        DeliveredGrows(log, more, now.lines[i].turn.value);
      }
    }
  }

  lemma AttestedGrows(m: CoverageMap, log: seq<Page>, more: seq<Page>)
    requires CoverageAttested(m, log)
    ensures CoverageAttested(m, log + more)
  {
    forall v, b | Holds(m, v, b) ensures Attested(log + more, v, b) {
      assert Attested(log, v, b);
      var p :| p in log && p.turn == v.recordHash.turn
            && ((p.field == v.field && p.range.start <= b < p.range.end) || WholeAttention(p));
      assert p in log + more;
    }
  }

  lemma SafeCursorGrows(feeds: map<FeedKey, Feed>, grown: map<FeedKey, Feed>, log: seq<Page>, more: seq<Page>,
                        c: Cursor)
    requires SafeCursor(feeds, log, c) && FeedsEvolve(feeds, grown)
    ensures SafeCursor(grown, log + more, c)
  {
    hide CheckpointSafe, FeedsEvolve, CoverageAttested;
    AttestedGrows(c.readState.coverage, log, more);
    forall key | key in c.feeds ensures CheckpointSafe(grown, log + more, c.epoch, key, c.feeds[key]) {
      CheckpointSafeGrows(feeds, grown, log, more, c.epoch, key, c.feeds[key]);
    }
  }

  /* ------------------------------ a commit attests what it adds ------------------------------ */

  lemma VerifiedEntryAttests(files: seq<FeedFile>, query: Query, body: Body, entry: Coverage)
    requires ValidCoverage(entry) && VerifyEntry(files, query, body, entry).Some?
    ensures var p := VerifyEntry(files, query, body, entry).value;
      TruePage(p) && forall b | Covered(entry.ranges, b) :: Attested([p], entry, b)
  {
    hide FindTurn;
    var p := VerifyEntry(files, query, body, entry).value;
    assert p.turn == entry.recordHash.turn && TruePage(p);
    assert WholeAttention(p) || (p.field == entry.field && p.range == entry.ranges[0]);
    forall b | Covered(entry.ranges, b) ensures Attested([p], entry, b) {
      assert p in [p];
    }
  }

  /** Every byte of a verified envelope's coverage is attested by the pages it showed. */
  lemma VerifiedDeliveryAttests(files: seq<FeedFile>, e: Envelope)
    requires forall entry | entry in e.coverage :: ValidCoverage(entry)
    requires VerifyDelivery(files, e).Some?
    ensures var pages := VerifyDelivery(files, e).value;
      TrueLog(pages) && forall v, b | DeliveredIn(e.coverage, v, b) :: Attested(pages, v, b)
  {
    hide VerifyEntry, TruePage, WholeAttention;
    var pages := VerifyDelivery(files, e).value;
    forall p | p in pages ensures TruePage(p) {
      var i :| 0 <= i < |pages| && pages[i] == p;
      assert e.coverage[i] in e.coverage;
      VerifiedEntryAttests(files, e.query, e.body, e.coverage[i]);
    }
    forall v, b | DeliveredIn(e.coverage, v, b) ensures Attested(pages, v, b) {
      var d :| d in e.coverage && KeyOf(d) == KeyOf(v) && SameVersion(d, v) && Covered(d.ranges, b);
      var i :| 0 <= i < |e.coverage| && e.coverage[i] == d;
      VerifiedEntryAttests(files, e.query, e.body, d);
      assert pages[i] in pages;
      var p :| p in [pages[i]] && p.turn == d.recordHash.turn
            && ((p.field == d.field && p.range.start <= b < p.range.end) || WholeAttention(p));
    }
  }

  /** The state a preview leaves is safe once its delivered entries are attested. */
  lemma PreviewSafe(actor: Actor, first: map<FeedKey, Feed>, second: map<FeedKey, Feed>, log: seq<Page>,
                    pages: seq<Page>, c: Cursor, delivered: seq<Coverage>, seen: Snapshots)
    requires ValidCursor(actor, c) && DistinctKeys(delivered)
    requires SafeCursor(first, log, c) && TrueLog(log) && TrueLog(log + pages)
    requires View(seen.first, first) && View(seen.second, second) && FeedsEvolve(first, second)
    requires forall v, b | DeliveredIn(delivered, v, b) :: Attested(pages, v, b)
    requires PreviewCoverage(actor, c, delivered, seen.first, seen.second).Ok?
    ensures SafeCursor(second, log + pages, PreviewCoverage(actor, c, delivered, seen.first, seen.second).value.state)
  {
    hide ValidCursor, TrueLog, View, FeedsEvolve, CheckpointsSafe, Attested, ScanUnreadSpec, DistinctKeys, Holds,
      DeliveredIn, CoverageAttested, MergeAll, WellKeyed;
    var before := ScanUnreadSpec(actor, c, seen.first, RecordKeysOf(delivered));
    var base := Collapse(c, before);
    var added := StillUnread(delivered, before.unreadKeys);
    var merged := MergeForScan(base.readState.coverage, added).value;
    var next := base.(readState := base.readState.(coverage := merged.entries));
    CollapseSafe(actor, first, log, c, seen.first, RecordKeysOf(delivered));
    SafeCursorGrows(first, second, log, pages, base);
    MergedAttested(base.readState.coverage, log, pages, delivered, before.unreadKeys);
    assert SafeCursor(second, log + pages, next);
    if merged.changed {
      CollapseSafe(actor, second, log + pages, next, seen.second, {});
    } else {
      assert Collapse(next, before).feeds == base.feeds;
      UncollapsedSafe(second, log + pages, next, before.collapsed);
    }
  }

  lemma MergedAttested(coverage: CoverageMap, log: seq<Page>, pages: seq<Page>, delivered: seq<Coverage>,
                       unread: set<RecordKey>)
    requires WellKeyed(coverage) && CoverageAttested(coverage, log + pages)
    requires forall v, b | DeliveredIn(delivered, v, b) :: Attested(pages, v, b)
    requires MergeForScan(coverage, StillUnread(delivered, unread)).Ok?
    ensures var merged := MergeForScan(coverage, StillUnread(delivered, unread)).value;
      WellKeyed(merged.entries) && CoverageAttested(merged.entries, log + pages)
      && (!merged.changed ==> merged.entries == coverage)
  {
    hide WellKeyed, Attested, Holds, DeliveredIn, MergeAll;
    var added := StillUnread(delivered, unread);
    MergeAllSound(Merged(coverage, false), added, MAX_READ_COVERAGE_RECORDS + |added|);
    var entries := MergeForScan(coverage, added).value.entries;
    forall v, b | Holds(entries, v, b) ensures Attested(log + pages, v, b) {
      if !Holds(coverage, v, b) {
        AddedDelivered(delivered, unread, v, b);
        AttestedLater(log, pages, v, b);
      }
    }
  }

  lemma AddedDelivered(delivered: seq<Coverage>, unread: set<RecordKey>, v: Coverage, b: int)
    requires DeliveredIn(StillUnread(delivered, unread), v, b)
    ensures DeliveredIn(delivered, v, b)
  {
  }

  lemma AttestedLater(log: seq<Page>, pages: seq<Page>, v: Coverage, b: int)
    requires Attested(pages, v, b)
    ensures Attested(log + pages, v, b)
  {
    var p :| p in pages && p.turn == v.recordHash.turn
          && ((p.field == v.field && p.range.start <= b < p.range.end) || WholeAttention(p));
    assert p in log + pages;
  }

  lemma UncollapsedSafe(feeds: map<FeedKey, Feed>, log: seq<Page>, c: Cursor, collapsed: set<RecordKey>)
    requires SafeCursor(feeds, log, c)
    ensures var coverage := Uncollapsed(c.readState.coverage, collapsed);
      SafeCursor(feeds, log, c.(readState := c.readState.(coverage := coverage)))
  {
    hide CheckpointsSafe, Attested;
    forall v, b | Holds(Uncollapsed(c.readState.coverage, collapsed), v, b) ensures Attested(log, v, b) {
      assert Holds(c.readState.coverage, v, b);
    }
  }

  /* ------------------------------ every step is safe ------------------------------ */

  /** Safety looks only at the membership, the checkpoints and the coverage. */
  predicate SameReading(c: Cursor, d: Cursor)
  {
    c.epoch == d.epoch && c.feeds == d.feeds && c.readState.coverage == d.readState.coverage
  }

  lemma PreparedReading(v: VirtualCursor, unreadCount: nat, marker: Marker, turn: HookTurn)
    requires Prepared(v, unreadCount, marker, turn).Ok?
    ensures SameReading(Prepared(v, unreadCount, marker, turn).value, v.state)
  {
  }

  lemma DecisionReading(v: VirtualCursor, prepared: Cursor, scan: Scan, marker: Marker, turn: HookTurn,
                        continuation: bool, now: int)
    requires CurrentDeliveryTurn(prepared, turn).Ok?
    ensures var u := DecideClaim(v, prepared, scan, marker, turn, continuation, now);
      u.state.Some? ==> SameReading(u.state.value, prepared) || SameReading(u.state.value, Collapse(prepared, scan))
  {
    hide Claims, DeliveredTo, Uncollapsed;
  }

  /** A claim leaves the reading state as it was or collapses it by its own scan. */
  lemma ClaimOnlyCollapses(v: VirtualCursor, scan: Scan, marker: Marker, turn: HookTurn, continuation: bool, now: int)
    ensures var r := ClaimNudge(v, scan, marker, turn, continuation, now);
      r.Ok? && r.value.state.Some? ==>
        SameReading(r.value.state.value, v.state) || SameReading(r.value.state.value, Collapse(v.state, scan))
  {
    hide DecideClaim, Uncollapsed;
    if Prepared(v, scan.unreadCount, marker, turn).Ok? {
      PreparedReading(v, scan.unreadCount, marker, turn);
      DecisionReading(v, Prepared(v, scan.unreadCount, marker, turn).value, scan, marker, turn, continuation, now);
    }
  }

  lemma NudgeSafe(actor: Actor, sizeOf: Sizer, w: World, e: Event)
    requires e.Nudge? && Safe(w) && Enabled(actor, w, e)
    ensures Safe(Step(actor, sizeOf, w, e))
  {
    hide TrueLog, CheckpointsSafe, CoverageAttested, View, ClaimNudge, ScanUnreadSpec, Collapse, WellKeyed;
    NudgeStep(actor, sizeOf, w, e);
    if VirtualCursorOf(actor, e.epoch, w.stored).Ok? {
      var v := VirtualCursorOf(actor, e.epoch, w.stored).value;
      var scan := ScanUnreadSpec(actor, v.state, e.files, {});
      VirtualSafe(actor, w, e.epoch);
      CollapseSafe(actor, w.feeds, w.log, v.state, e.files, {});
      ClaimOnlyCollapses(v, scan, e.marker, e.turn, e.continuation, e.now);
    }
  }

  lemma PendingStepSafe(actor: Actor, sizeOf: Sizer, w: World, e: Event)
    requires TouchesPending(e)
    requires Safe(w)
    ensures Safe(Step(actor, sizeOf, w, e))
  {
    hide TrueLog, CheckpointsSafe, CoverageAttested, WellKeyed, Step, VirtualCursorOf;
    PendingStep(actor, sizeOf, w, e);
    if VirtualCursorOf(actor, e.epoch, w.stored).Ok? {
      VirtualSafe(actor, w, e.epoch);
    }
  }

  lemma UndoSafe(actor: Actor, sizeOf: Sizer, w: World, e: Event)
    requires e.UndoStop? && Safe(w)
    ensures Safe(Step(actor, sizeOf, w, e))
  {
    hide TrueLog, CheckpointsSafe, CoverageAttested, WellKeyed;
  }

  /** Growth of the feeds and of the log keeps a world safe. */
  lemma GrowthSafe(w: World, grown: map<FeedKey, Feed>, pages: seq<Page>)
    requires Safe(w) && FeedsEvolve(w.feeds, grown) && TrueLog(pages)
    ensures Safe(w.(feeds := grown, log := w.log + pages))
  {
    hide CheckpointSafe, FeedsEvolve, TruePage, CoverageAttested;
    if w.stored.Some? {
      var saved, epoch := w.stored.value.SavedFeeds(), w.stored.value.AtEpoch();
      forall key | key in saved ensures CheckpointSafe(grown, w.log + pages, epoch, key, saved[key]) {
        CheckpointSafeGrows(w.feeds, grown, w.log, pages, epoch, key, saved[key]);
      }
      if w.stored.value.V3? {
        AttestedGrows(w.stored.value.cursor.readState.coverage, w.log, pages);
      }
    }
  }

  lemma EvolveTransitive(a: map<FeedKey, Feed>, b: map<FeedKey, Feed>, c: map<FeedKey, Feed>)
    requires FeedsEvolve(a, b) && FeedsEvolve(b, c)
    ensures FeedsEvolve(a, c)
  {
    forall k | k in a ensures Evolves(a[k], c[k]) {
      assert Evolves(a[k], b[k]) && Evolves(b[k], c[k]);
      EvolvesTransitive(a[k], b[k], c[k]);
    }
  }

  /** What a witnessed commit leaves in the file is safe against the feeds at its end. */
  lemma CommitStateSafe(actor: Actor, sizeOf: Sizer, w: World, e: Event, c: Cursor, current: DeliveryTurn)
    requires e.CommitRead? && Enabled(actor, w, e)
    requires ValidCursor(actor, c) && SafeCursor(w.feeds, w.log, c) && TrueLog(w.log)
    requires Commit(actor, c, e.inv, current, e.modelText, e.now, e.seen, sizeOf).Ok?
    ensures var u := Commit(actor, c, e.inv, current, e.modelText, e.now, e.seen, sizeOf).value;
      && TrueLog(PagesOf(e))
      && (u.state.Some? ==>
            SafeCursor(e.secondFeeds, if u.result.committed then w.log + PagesOf(e) else w.log, u.state.value))
  {
    hide ValidCursor, TrueLog, View, FeedsEvolve, CheckpointsSafe, CoverageAttested, WellKeyed, Attested,
      VerifyDelivery, Keep, PreviewCoverage, CoverageFits, DeliveredIn, Answers;
    assert FeedsEvolve(w.feeds, e.firstFeeds) by { EvolveTransitive(w.feeds, e.verifyFeeds, e.firstFeeds); }
    assert FeedsEvolve(w.feeds, e.secondFeeds) by { EvolveTransitive(w.feeds, e.firstFeeds, e.secondFeeds); }
    PagesAreTrue(e);
    EmptyGrowth(w.log);
    SafeCursorGrows(w.feeds, e.secondFeeds, w.log, [], c);
    SafeCursorGrows(w.feeds, e.firstFeeds, w.log, [], c);
    var p := Witnessed(actor, c, e.inv, current, e.modelText, e.now, e.seen.verify);
    if p.Some? {
      var envelope := e.modelText.value;
      EnvelopeEntriesValid(envelope, e.inv.query, p.value.nonce);
      VerifiedDeliveryAttests(e.seen.verify, envelope);
      TrueLogsJoin(w.log, PagesOf(e));
      if PreviewCoverage(actor, c, envelope.coverage, e.seen.first, e.seen.second).Ok? {
        PreviewSafe(actor, e.firstFeeds, e.secondFeeds, w.log, PagesOf(e), c, envelope.coverage, e.seen);
        PreviewKeepsEpoch(actor, c, envelope.coverage, e.seen);
      }
    }
  }

  lemma EmptyGrowth(log: seq<Page>)
    ensures log + [] == log
  {
  }

  lemma TrueLogsJoin(a: seq<Page>, b: seq<Page>)
    requires TrueLog(a) && TrueLog(b)
    ensures TrueLog(a + b)
  {
  }

  lemma EnvelopeEntriesValid(e: Envelope, query: Query, nonce: string)
    requires DeliveredEnvelope(e, query, nonce)
    ensures (forall entry | entry in e.coverage :: ValidCoverage(entry)) && DistinctKeys(e.coverage)
  {
  }

  lemma PreviewKeepsEpoch(actor: Actor, c: Cursor, delivered: seq<Coverage>, seen: Snapshots)
    requires PreviewCoverage(actor, c, delivered, seen.first, seen.second).Ok?
    ensures PreviewCoverage(actor, c, delivered, seen.first, seen.second).value.state.epoch == c.epoch
  {
  }

  lemma PagesAreTrue(e: Event)
    requires e.CommitRead?
    ensures TrueLog(PagesOf(e))
  {
    hide VerifyDelivery, TruePage;
    if e.modelText.Some? && (forall entry | entry in e.modelText.value.coverage :: ValidCoverage(entry))
       && VerifyDelivery(e.seen.verify, e.modelText.value).Some? {
      VerifiedDeliveryAttests(e.seen.verify, e.modelText.value);
    }
  }

  lemma CommitSafe(actor: Actor, sizeOf: Sizer, w: World, e: Event)
    requires e.CommitRead? && WellFormed(actor, w) && Safe(w) && Enabled(actor, w, e)
    ensures Safe(Step(actor, sizeOf, w, e))
  {
    hide WellFormed, ValidCursor, TrueLog, View, FeedsEvolve, CheckpointsSafe, CoverageAttested, WellKeyed, Commit,
      PagesOf;
    var after := Step(actor, sizeOf, w, e);
    assert FeedsEvolve(w.feeds, e.secondFeeds) by {
      EvolveTransitive(w.feeds, e.verifyFeeds, e.firstFeeds);
      EvolveTransitive(w.feeds, e.firstFeeds, e.secondFeeds);
    }
    PagesAreTrue(e);
    EmptyGrowth(w.log);
    assert TrueLog([]) by { NoPagesTrue(); }
    TrueLogsJoin(w.log, PagesOf(e));
    GrowthSafe(w, e.secondFeeds, []);
    if VirtualCursorOf(actor, e.epoch, w.stored).Ok? {
      var v := VirtualCursorOf(actor, e.epoch, w.stored).value;
      WellFormedVirtual(actor, w, e.epoch);
      VirtualSafe(actor, w, e.epoch);
      CurrentTurnValid(actor, v.state, e.turn);
      var current := CurrentDeliveryTurn(v.state, e.turn).value;
      if Commit(actor, v.state, e.inv, current, e.modelText, e.now, e.seen, sizeOf).Ok? {
        CommitStateSafe(actor, sizeOf, w, e, v.state, current);
        ViewsDistinct(actor, w, e);
        CommitSpendsNonce(actor, sizeOf, w, e, v.state, current);
      }
    }
  }

  lemma NoPagesTrue()
    ensures TrueLog([])
  {
  }

  lemma StepKeepsSafe(actor: Actor, sizeOf: Sizer, w: World, e: Event)
    requires WellFormed(actor, w) && Safe(w) && Enabled(actor, w, e)
    ensures Safe(Step(actor, sizeOf, w, e))
  {
    hide WellFormed, Safe;
    match e
    case Publish(feeds) => GrowthSafe(w, feeds, []); EmptyGrowth(w.log);
    case Nudge(_, _, _, _, _, _) => NudgeSafe(actor, sizeOf, w, e);
    case UndoStop(_, _) => UndoSafe(actor, sizeOf, w, e);
    case ReserveRead(_, _, _, _, _) => PendingStepSafe(actor, sizeOf, w, e);
    case StageRead(_, _, _, _, _) => PendingStepSafe(actor, sizeOf, w, e);
    case CommitRead(_, _, _, _, _, _, _, _, _) => CommitSafe(actor, sizeOf, w, e);
    case DiscardRead(_, _, _) => PendingStepSafe(actor, sizeOf, w, e);
  }

  lemma {:induction false} RunsStaySafe(actor: Actor, sizeOf: Sizer, w: World, es: seq<Event>)
    requires WellFormed(actor, w) && Safe(w) && Possible(actor, sizeOf, w, es)
    ensures WellFormed(actor, Run(actor, sizeOf, w, es)) && Safe(Run(actor, sizeOf, w, es))
    decreases |es|
  {
    hide WellFormed, Safe, Enabled, Step;
    if es != [] {
      StepKeepsWellFormed(actor, sizeOf, w, es[0]);
      StepKeepsSafe(actor, sizeOf, w, es[0]);
      RunsStaySafe(actor, sizeOf, Step(actor, sizeOf, w, es[0]), es[1..]);
    }
  }

  /* ------------------------------ the guarantee ------------------------------ */

  lemma {:induction false} UnreadIsListed(lens: Lens, lines: seq<Line>, start: nat, n: nat, i: nat)
    requires start <= i < n <= |lines| && Unread(lens, lines[i])
    ensures lines[i].turn.value in UnreadTurns(lens, lines, start, n)
    decreases n
  {
    if i < n - 1 {
      UnreadIsListed(lens, lines, start, n - 1, i);
    }
  }

  /**
   * After any run that began without a cursor file, whatever membership the session then holds: each
   * peer turn of that membership in each feed a scan reads is either among the unread turns the
   * scan reports or was delivered, byte for byte, by earlier committed reads.
   */
  lemma NoUnreadTurnIsLost(actor: Actor, sizeOf: Sizer, feeds: map<FeedKey, Feed>, es: seq<Event>, epoch: Epoch,
                           files: seq<FeedFile>, file: FeedFile, i: nat)
    requires Possible(actor, sizeOf, Fresh(feeds), es)
    requires var w := Run(actor, sizeOf, Fresh(feeds), es);
      && View(files, w.feeds) && file in files
      && VirtualCursorOf(actor, epoch, w.stored).Ok?
      && ScanFile(actor, VirtualCursorOf(actor, epoch, w.stored).value.state, file, {}).Some?
    requires i < |file.feed.value.lines| && InScope(file.key, epoch, file.feed.value.lines[i])
    ensures var w := Run(actor, sizeOf, Fresh(feeds), es);
      var c := VirtualCursorOf(actor, epoch, w.stored).value.state;
      var lines := file.feed.value.lines;
      var start := ResumeLine(file.feed.value, SavedFor(c, file.key));
      || lines[i].turn.value in UnreadTurns(LensFor(c, file.key), lines, start, |lines|)
      || Delivered(w.log, lines[i].turn.value)
  {
    var w0 := Fresh(feeds);
    var w := Run(actor, sizeOf, w0, es);
    RunsStaySafe(actor, sizeOf, w0, es);
    var c := VirtualCursorOf(actor, epoch, w.stored).value.state;
    hide Delivered, WellFormed, TrueLog, CheckpointsSafe, CoverageAttested, Acknowledged, UnreadTurns;
    VirtualSafe(actor, w, epoch);
    VirtualEpoch(actor, epoch, w.stored);
    TurnReportedOrDelivered(w.feeds, w.log, c, file.key, file.feed.value, i);
  }

  lemma TurnReportedOrDelivered(feeds: map<FeedKey, Feed>, log: seq<Page>, c: Cursor, key: FeedKey, feed: Feed, i: nat)
    requires SafeCursor(feeds, log, c) && TrueLog(log) && key in feeds && feeds[key] == feed
    requires i < |feed.lines| && InScope(key, c.epoch, feed.lines[i])
    ensures var start := ResumeLine(feed, SavedFor(c, key));
      feed.lines[i].turn.value in UnreadTurns(LensFor(c, key), feed.lines, start, |feed.lines|)
      || Delivered(log, feed.lines[i].turn.value)
  {
    hide Delivered, TrueLog, CheckpointsSafe, CoverageAttested, Acknowledged;
    var start := ResumeLine(feed, SavedFor(c, key));
    var lens := LensFor(c, key);
    SettledPrefixDelivered(feeds, log, c, key, feed);
    if i >= start {
      if Unread(lens, feed.lines[i]) {
        UnreadIsListed(lens, feed.lines, start, |feed.lines|, i);
      } else {
        AcknowledgedIsDelivered(c.readState.coverage, log, feed.lines[i].turn.value);
      }
    }
  }
}
