/**
 * The prefix collapse of src/nudge/unread.ts preserves meaning: a scan from the collapsed cursor
 * reports what a scan from the full one did, exactly when no settled turn has a twin (the same
 * record again) beyond the first gap of its feed.
 */
module PrefixCollapse {
  import opened Base
  import opened ReadState
  import opened Feeds
  import opened NudgeCursor

  /** Dropping the collapsed records' coverage forgets those records and no others. */
  lemma AcknowledgedAfterCollapse(coverage: CoverageMap, collapsed: set<RecordKey>, t: Turn)
    requires WellKeyed(coverage)
    ensures Acknowledged(Uncollapsed(coverage, collapsed), t)
       <==> Acknowledged(coverage, t) && TurnKey(t) !in collapsed
  {
    AcknowledgedByAfterCollapse(coverage, collapsed, t, RecordField);
    AcknowledgedByAfterCollapse(coverage, collapsed, t, AttentionField(t));
  }

  lemma AcknowledgedByAfterCollapse(coverage: CoverageMap, collapsed: set<RecordKey>, t: Turn, field: Field)
    requires WellKeyed(coverage)
    ensures AcknowledgedBy(Uncollapsed(coverage, collapsed), t, field)
       <==> AcknowledgedBy(coverage, t, field) && TurnKey(t) !in collapsed
  {
    var key := CoverageKey(t.id, field);
    if key in coverage {
      assert KeyOf(coverage[key]) == key;
    }
  }

  /** A turn settled before the gap is published once more beyond it. */
  predicate TwinAt(lens: Lens, lines: seq<Line>, start: nat, k: nat)
    requires start <= |lines| && k < |lines|
  {
    && Settled(lens, lines[k])
    && TurnKey(lines[k].turn.value) in SettledKeys(lens, lines, start, Gap(lens, lines, start))
  }

  predicate NoLateTwin(lens: Lens, lines: seq<Line>, start: nat, n: nat)
    requires start <= |lines| && n <= |lines|
  {
    forall k | Gap(lens, lines, start) <= k < n :: !TwinAt(lens, lines, start, k)
  }

  predicate TwinFree(actor: Actor, c: Cursor, file: FeedFile)
  {
    ScanFile(actor, c, file, {}).Some? ==>
      var feed := file.feed.value;
      NoLateTwin(LensFor(c, file.key), feed.lines, ResumeLine(feed, SavedFor(c, file.key)), |feed.lines|)
  }

  predicate NoLateTwins(actor: Actor, c: Cursor, files: seq<FeedFile>, n: nat)
    requires n <= |files|
  {
    forall i | 0 <= i < n :: TwinFree(actor, c, files[i])
  }

  lemma NoLateTwinsStep(actor: Actor, c: Cursor, files: seq<FeedFile>, n: nat)
    requires n < |files|
    ensures NoLateTwins(actor, c, files, n + 1) == (NoLateTwins(actor, c, files, n) && TwinFree(actor, c, files[n]))
  {
  }

  /** The records of a feed are pairwise different, as the deduplicating store keeps them. */
  predicate DistinctRecords(feed: Feed)
  {
    forall i, j | 0 <= i < j < |feed.lines| && feed.lines[i].turn.Some? && feed.lines[j].turn.Some? ::
      TurnKey(feed.lines[i].turn.value) != TurnKey(feed.lines[j].turn.value)
  }

  lemma DistinctRecordsHaveNoTwins(actor: Actor, c: Cursor, files: seq<FeedFile>)
    requires forall f | f in files && f.feed.Some? :: DistinctRecords(f.feed.value)
    ensures NoLateTwins(actor, c, files, |files|)
  {
    forall i | 0 <= i < |files| ensures TwinFree(actor, c, files[i]) {
      assert files[i] in files;
    }
  }

  /** Rescanning one feed from its gap with the collapsed records forgotten. */
  lemma {:induction false} UnreadAfterCollapse(lens: Lens, after: Lens, lines: seq<Line>, start: nat, n: nat)
    requires start <= |lines| && Gap(lens, lines, start) <= n <= |lines|
    requires after.key == lens.key && after.epoch == lens.epoch
    requires forall line :: Settled(after, line) <==>
               (Settled(lens, line)
                && TurnKey(line.turn.value) !in SettledKeys(lens, lines, start, Gap(lens, lines, start)))
    ensures var gap := Gap(lens, lines, start);
      var was, now := UnreadTurns(lens, lines, start, n), UnreadTurns(after, lines, gap, n);
      && |was| <= |now|
      && (NoLateTwin(lens, lines, start, n) ==> was == now)
      && (!NoLateTwin(lens, lines, start, n) ==> |was| < |now|)
    decreases n
  {
    var gap := Gap(lens, lines, start);
    if n == gap {
      FirstUnreadAtGap(lens, lines, start, n);
    } else {
      UnreadAfterCollapse(lens, after, lines, start, n - 1);
      var line := lines[n - 1];
      assert Settled(after, line) <==> Settled(lens, line) && !TwinAt(lens, lines, start, n - 1);
      assert NoLateTwin(lens, lines, start, n) <==>
        NoLateTwin(lens, lines, start, n - 1) && !TwinAt(lens, lines, start, n - 1);
    }
  }

  /** Every key a scan collapses names a record of the feed it was found in. */
  lemma CollapsedBelongToFeed(actor: Actor, c: Cursor, file: FeedFile, targets: set<RecordKey>)
    requires ScanFile(actor, c, file, targets).Some?
    ensures forall key | key in ScanFile(actor, c, file, targets).value.collapsed ::
      key.id.provider == file.key.provider && key.id.session == file.key.session
  {
  }

  /** Seen from one feed, the whole scan's collapsed keys are that feed's own. */
  lemma CollapsedSeenFromFeed(actor: Actor, c: Cursor, files: seq<FeedFile>, targets: set<RecordKey>, i: nat,
                              key: RecordKey)
    requires i < |files| && DistinctFiles(files)
    requires ScanFile(actor, c, files[i], targets).Some?
    requires key.id.provider == files[i].key.provider && key.id.session == files[i].key.session
    ensures key in ScanUnreadSpec(actor, c, files, targets).collapsed
       <==> key in ScanFile(actor, c, files[i], targets).value.collapsed
  {
    CollapsedKeys(actor, c, files, targets, |files|, key);
    forall j | 0 <= j < |files| && ScanFile(actor, c, files[j], targets).Some?
      && key in ScanFile(actor, c, files[j], targets).value.collapsed
      ensures j == i
    {
      CollapsedBelongToFeed(actor, c, files[j], targets);
      assert files[j].key == files[i].key;
    }
  }

  /** The cursor a hook keeps after scanning these files. */
  function Collapsed(actor: Actor, c: Cursor, files: seq<FeedFile>, targets: set<RecordKey>): Cursor
  {
    Collapse(c, ScanUnreadSpec(actor, c, files, targets))
  }

  /** After the collapse a scanned feed resumes at its gap; an unreadable one where it was. */
  lemma ResumesAtGap(actor: Actor, c: Cursor, files: seq<FeedFile>, targets: set<RecordKey>, i: nat)
    requires i < |files| && DistinctFiles(files) && files[i].feed.Some?
    ensures var after := Collapsed(actor, c, files, targets);
      var feed, key := files[i].feed.value, files[i].key;
      var start := ResumeLine(feed, SavedFor(c, key));
      ResumeLine(feed, SavedFor(after, key)) ==
        if ScanFile(actor, c, files[i], targets).Some? then Gap(LensFor(c, key), feed.lines, start) else start
  {
    VisitedCheckpoint(actor, c, files, targets, |files|, i);
    var feed, key := files[i].feed.value, files[i].key;
    if ScanFile(actor, c, files[i], targets).Some? {
      var gap := Gap(LensFor(c, key), feed.lines, ResumeLine(feed, SavedFor(c, key)));
      OffsetMonotone(feed.lines, 0, gap);
      OffsetMonotone(feed.lines, gap, |feed.lines|);
    }
  }

  predicate SameNews(a: FeedScan, b: FeedScan)
  {
    && a.unreadCount == b.unreadCount && a.firstUnread == b.firstUnread
    && a.latest == b.latest && a.unreadKeys == b.unreadKeys
  }

  /** How the scan of one feed after the collapse stands to the scan before it. */
  predicate FileInStep(was: Option<FeedScan>, now: Option<FeedScan>, twinFree: bool)
  {
    && (was.Some? <==> now.Some?)
    && (was.Some? ==> now.value.collapsed == {} && now.value.covered == was.value.covered)
    && (was.Some? && twinFree ==> SameNews(was.value, now.value))
    && (was.Some? && !twinFree ==> was.value.unreadCount < now.value.unreadCount)
    && (was.None? ==> twinFree)
  }

  lemma RescanFile(actor: Actor, c: Cursor, files: seq<FeedFile>, targets: set<RecordKey>, i: nat)
    requires i < |files| && DistinctFiles(files) && WellKeyed(c.readState.coverage)
    ensures var after := Collapsed(actor, c, files, targets);
      FileInStep(ScanFile(actor, c, files[i], targets), ScanFile(actor, after, files[i], targets),
                 TwinFree(actor, c, files[i]))
  {
    ScanIgnoresTargets(actor, c, files[i], targets);
    if files[i].feed.Some? && files[i].key.session != actor.session {
      ResumesAtGap(actor, c, files, targets, i);
      if ScanFile(actor, c, files[i], targets).Some? {
        RescanScannedFile(actor, c, files, targets, i);
      }
    }
  }

  lemma RescanScannedFile(actor: Actor, c: Cursor, files: seq<FeedFile>, targets: set<RecordKey>, i: nat)
    requires i < |files| && DistinctFiles(files) && WellKeyed(c.readState.coverage)
    requires ScanFile(actor, c, files[i], targets).Some?
    ensures var after := Collapsed(actor, c, files, targets);
      FileInStep(ScanFile(actor, c, files[i], targets), ScanFile(actor, after, files[i], targets),
                 TwinFree(actor, c, files[i]))
  {
    hide Acknowledged, NewerThan, Latest, ScanFiles, Uncollapsed, AtBoundary;
    var scan := ScanUnreadSpec(actor, c, files, targets);
    var after := Collapse(c, scan);
    var feed, key := files[i].feed.value, files[i].key;
    var lens, lens' := LensFor(c, key), LensFor(after, key);
    var start := ResumeLine(feed, SavedFor(c, key));
    var gap := Gap(lens, feed.lines, start);
    ResumesAtGap(actor, c, files, targets, i);
    ScanIgnoresTargets(actor, c, files[i], targets);
    forall line ensures Settled(lens', line) <==>
      (Settled(lens, line) && TurnKey(line.turn.value) !in SettledKeys(lens, feed.lines, start, gap))
    {
      if InScope(key, c.epoch, line) {
        AcknowledgedAfterCollapse(c.readState.coverage, scan.collapsed, line.turn.value);
        CollapsedSeenFromFeed(actor, c, files, targets, i, TurnKey(line.turn.value));
      }
    }
    UnreadAfterCollapse(lens, lens', feed.lines, start, |feed.lines|);
    assert gap < |feed.lines| ==> Unread(lens', feed.lines[gap]);
    GapFound(lens', feed.lines, gap, gap);
    assert SettledKeys(lens', feed.lines, gap, gap) == {};
  }

  /** Two scans report the same news. */
  predicate SameReport(a: Scan, b: Scan)
  {
    && a.unreadCount == b.unreadCount && a.firstUnread == b.firstUnread && a.latest == b.latest
    && a.unreadKeys == b.unreadKeys && a.unavailable == b.unavailable
  }

  lemma RescanStart(actor: Actor, c: Cursor, files: seq<FeedFile>, targets: set<RecordKey>)
    ensures SameReport(StartScan(c, files), StartScan(Collapsed(actor, c, files, targets), files))
  {
    var after := Collapsed(actor, c, files, targets);
    forall k ensures k in StartScan(c, files).unavailable <==> k in StartScan(after, files).unavailable {
      if forall f | f in files :: f.key != k {
        UnvisitedKeepsCheckpoint(actor, c, files, targets, |files|, k);
      }
    }
  }

  /** Every file scans in step from the two cursors. */
  predicate FilesInStep(actor: Actor, c: Cursor, after: Cursor, files: seq<FeedFile>, targets: set<RecordKey>)
  {
    forall f | f in files :: FileInStep(ScanFile(actor, c, f, targets), ScanFile(actor, after, f, targets),
                                        TwinFree(actor, c, f))
  }

  lemma RescanInStep(actor: Actor, c: Cursor, files: seq<FeedFile>, targets: set<RecordKey>)
    requires DistinctFiles(files) && WellKeyed(c.readState.coverage)
    ensures FilesInStep(actor, c, Collapsed(actor, c, files, targets), files, targets)
  {
    forall f | f in files
      ensures FileInStep(ScanFile(actor, c, f, targets),
                         ScanFile(actor, Collapsed(actor, c, files, targets), f, targets), TwinFree(actor, c, f))
    {
      var i :| 0 <= i < |files| && files[i] == f;
      RescanFile(actor, c, files, targets, i);
    }
  }

  lemma ReportStep(actor: Actor, c: Cursor, after: Cursor, was: Scan, now: Scan, file: FeedFile,
                   targets: set<RecordKey>)
    requires SameReport(was, now)
    requires FileInStep(ScanFile(actor, c, file, targets), ScanFile(actor, after, file, targets), true)
    ensures SameReport(AddFile(actor, c, was, file, targets), AddFile(actor, after, now, file, targets))
  {
    hide ScanFile, NewerThan;
  }

  /** Without twins the two scans stay in step, file by file. */
  lemma {:induction false} ReportsSame(actor: Actor, c: Cursor, after: Cursor, files: seq<FeedFile>,
                                       targets: set<RecordKey>, n: nat)
    requires n <= |files| && FilesInStep(actor, c, after, files, targets)
    requires NoLateTwins(actor, c, files, n) && SameReport(StartScan(c, files), StartScan(after, files))
    ensures SameReport(ScanFiles(actor, c, files, targets, n), ScanFiles(actor, after, files, targets, n))
  {
    hide SameReport, AddFile, ScanFile, FileInStep, TwinFree, StartScan;
    if n > 0 {
      ReportsSame(actor, c, after, files, targets, n - 1);
      assert files[n - 1] in files && TwinFree(actor, c, files[n - 1]);
      ReportStep(actor, c, after, ScanFiles(actor, c, files, targets, n - 1),
                 ScanFiles(actor, after, files, targets, n - 1), files[n - 1], targets);
    }
  }

  /** The unread turns one listed file contributes. */
  function CountIn(actor: Actor, c: Cursor, file: FeedFile, targets: set<RecordKey>): nat
  {
    match ScanFile(actor, c, file, targets)
    case None => 0
    case Some(fs) => fs.unreadCount
  }

  lemma CountStep(actor: Actor, c: Cursor, files: seq<FeedFile>, targets: set<RecordKey>, n: nat)
    requires n < |files|
    ensures ScanFiles(actor, c, files, targets, n + 1).unreadCount
         == ScanFiles(actor, c, files, targets, n).unreadCount + CountIn(actor, c, files[n], targets)
  {
  }

  /** Each late twin adds to the count of the rescan. */
  lemma {:induction false} CountsGrow(actor: Actor, c: Cursor, after: Cursor, files: seq<FeedFile>,
                                      targets: set<RecordKey>, n: nat)
    requires n <= |files|
    requires forall f | f in files ::
               if TwinFree(actor, c, f) then CountIn(actor, c, f, targets) == CountIn(actor, after, f, targets)
               else CountIn(actor, c, f, targets) < CountIn(actor, after, f, targets)
    ensures var was := ScanFiles(actor, c, files, targets, n).unreadCount;
      var now := ScanFiles(actor, after, files, targets, n).unreadCount;
      if NoLateTwins(actor, c, files, n) then was == now else was < now
  {
    hide CountIn, ScanFile, TwinFree;
    if n > 0 {
      CountsGrow(actor, c, after, files, targets, n - 1);
      CountStep(actor, c, files, targets, n - 1);
      CountStep(actor, after, files, targets, n - 1);
      assert files[n - 1] in files;
      NoLateTwinsStep(actor, c, files, n - 1);
    }
  }

  /** A rescan finds nothing more to collapse. */
  lemma {:induction false} CollapsesNothing(actor: Actor, c: Cursor, after: Cursor, files: seq<FeedFile>,
                                            targets: set<RecordKey>, n: nat)
    requires n <= |files| && FilesInStep(actor, c, after, files, targets)
    ensures ScanFiles(actor, after, files, targets, n).collapsed == {}
  {
    hide ScanFile, TwinFree, NewerThan, ValidCursor;
    if n > 0 {
      CollapsesNothing(actor, c, after, files, targets, n - 1);
      assert files[n - 1] in files;
    }
  }

  lemma ScanIgnoresTargets(actor: Actor, c: Cursor, file: FeedFile, targets: set<RecordKey>)
    ensures ScanFile(actor, c, file, targets).Some? <==> ScanFile(actor, c, file, {}).Some?
  {
  }

  /**
   * The collapsed cursor reports the same unread turns if and only if no feed has a late twin,
   * and then also the same first and latest turn and the same availability.
   */
  lemma CollapsePreservesMeaning(actor: Actor, c: Cursor, files: seq<FeedFile>, targets: set<RecordKey>)
    requires DistinctFiles(files) && WellKeyed(c.readState.coverage)
    ensures var was := ScanUnreadSpec(actor, c, files, targets);
      var now := ScanUnreadSpec(actor, Collapse(c, was), files, targets);
      && (was.unreadCount == now.unreadCount <==> NoLateTwins(actor, c, files, |files|))
      && (NoLateTwins(actor, c, files, |files|) ==> SameReport(was, now))
  {
    var after := Collapsed(actor, c, files, targets);
    RescanInStep(actor, c, files, targets);
    CountsGrow(actor, c, after, files, targets, |files|);
    if NoLateTwins(actor, c, files, |files|) {
      RescanStart(actor, c, files, targets);
      ReportsSame(actor, c, after, files, targets, |files|);
    }
  }

  const LATE_TWIN_ACTOR := Actor(Codex, "me")
  const LATE_TWIN_FEED := FeedKey("claude", "peer")
  const TWIN := Turn(RecordId("claude", "peer", "a"), Some("w"), 1, 0, [], None, [1])
  const UNREAD_BETWEEN := Turn(RecordId("claude", "peer", "b"), Some("w"), 1, 0, [], None, [2])
  const LATE_TWIN_LINES := [Line(1, Some(TWIN)), Line(1, Some(UNREAD_BETWEEN)), Line(1, Some(TWIN))]
  const LATE_TWIN_FILES := [FeedFile(LATE_TWIN_FEED, Some(Feed(1, LATE_TWIN_LINES, 0)))]
  const TWIN_READ := Coverage(TWIN.id, RecordHash(TWIN), RecordField, Sha256([1]), 1, [Range(0, 1)])
  const LATE_TWIN_CURSOR := Cursor(Epoch("w", 0), 1, map[], None, Delivery(0, None), None,
                                   NO_READS.(coverage := map[KeyOf(TWIN_READ) := TWIN_READ]), 0)

  lemma ScanOfOne(actor: Actor, c: Cursor, file: FeedFile, targets: set<RecordKey>)
    requires file.key.session != actor.session
    ensures ScanUnreadSpec(actor, c, [file], targets)
         == AddFound(c, StartScan(c, [file]), file.key, ScanFile(actor, c, file, targets))
  {
    assert ScanFiles(actor, c, [file], targets, 0) == StartScan(c, [file]);
  }

  lemma LateTwinCursorValid()
    ensures ValidCursor(LATE_TWIN_ACTOR, LATE_TWIN_CURSOR)
  {
  }

  lemma LateTwinOffsets()
    ensures Offset(LATE_TWIN_LINES, 1) == 2 && Offset(LATE_TWIN_LINES, 2) == 4 && Offset(LATE_TWIN_LINES, 3) == 6
  {
    var lines := LATE_TWIN_LINES;
    assert lines[0].contentBytes == 1 && lines[1].contentBytes == 1 && lines[2].contentBytes == 1;
    assert Offset(lines, 1) == 2;
    assert Offset(lines, 2) == 4;
  }

  /** The scan before the collapse. */
  lemma ScanOfLateTwin()
    ensures var found := ScanFile(LATE_TWIN_ACTOR, LATE_TWIN_CURSOR, LATE_TWIN_FILES[0], {});
      && found.Some? && found.value.covered == Checkpoint(1, 2, 2, 6) && found.value.unreadCount == 1
      && TurnKey(TWIN) in found.value.collapsed
  {
    hide Latest, NewerThan, AddFound, ScanUnreadSpec, ScanFiles, Offset;
    var c, lines, file := LATE_TWIN_CURSOR, LATE_TWIN_LINES, LATE_TWIN_FILES[0];
    var lens := LensFor(c, LATE_TWIN_FEED);
    assert Unread(lens, lines[1]) && Settled(lens, lines[0]) && Settled(lens, lines[2]);
    GapFound(lens, lines, 0, 1);
    LateTwinOffsets();
    assert UnreadTurns(lens, lines, 0, 1) == [] && UnreadTurns(lens, lines, 0, 2) == [UNREAD_BETWEEN];
    assert UnreadTurns(lens, lines, 0, 3) == [UNREAD_BETWEEN];
    assert TurnKey(lines[0].turn.value) in SettledKeys(lens, lines, 0, 1);
  }

  /** A record that was read, an unread one, the first record again: after the collapse it counts as unread. */
  lemma LateTwinIsReportedAgain()
    ensures DistinctFiles(LATE_TWIN_FILES) && ValidCursor(LATE_TWIN_ACTOR, LATE_TWIN_CURSOR)
    ensures var was := ScanUnreadSpec(LATE_TWIN_ACTOR, LATE_TWIN_CURSOR, LATE_TWIN_FILES, {});
      && was.unreadCount == 1
      && ScanUnreadSpec(LATE_TWIN_ACTOR, Collapse(LATE_TWIN_CURSOR, was), LATE_TWIN_FILES, {}).unreadCount == 2
  {
    hide ScanUnreadSpec, ScanFile, ValidCursor, Collapse;
    LateTwinCursorValid();
    ScanOfLateTwin();
    ScanOfOne(LATE_TWIN_ACTOR, LATE_TWIN_CURSOR, LATE_TWIN_FILES[0], {});
    RescanOfLateTwin(ScanUnreadSpec(LATE_TWIN_ACTOR, LATE_TWIN_CURSOR, LATE_TWIN_FILES, {}));
  }

  lemma UnreadOfLateTwin()
    ensures var lens := Lens(LATE_TWIN_FEED, LATE_TWIN_CURSOR.epoch, map[]);
      UnreadTurns(lens, LATE_TWIN_LINES, 1, 3) == [UNREAD_BETWEEN, TWIN]
  {
    var lens, lines := Lens(LATE_TWIN_FEED, LATE_TWIN_CURSOR.epoch, map[]), LATE_TWIN_LINES;
    assert Unread(lens, lines[1]) && Unread(lens, lines[2]);
    assert UnreadTurns(lens, lines, 1, 2) == [UNREAD_BETWEEN];
  }

  lemma RescanOfLateTwin(was: Scan)
    requires was.covered == map[LATE_TWIN_FEED := Checkpoint(1, 2, 2, 6)] && TurnKey(TWIN) in was.collapsed
    ensures ScanUnreadSpec(LATE_TWIN_ACTOR, Collapse(LATE_TWIN_CURSOR, was), LATE_TWIN_FILES, {}).unreadCount == 2
  {
    hide Latest, NewerThan, ScanUnreadSpec, ScanFiles, Offset, UnreadTurns, Acknowledged;
    var after, lines, file := Collapse(LATE_TWIN_CURSOR, was), LATE_TWIN_LINES, LATE_TWIN_FILES[0];
    assert after.readState.coverage == map[];
    var lens := LensFor(after, LATE_TWIN_FEED);
    UnreadOfLateTwin();
    LateTwinOffsets();
    assert ResumeLine(file.feed.value, SavedFor(after, LATE_TWIN_FEED)) == 1;
    assert UnreadTurns(lens, lines, 1, 3) == [UNREAD_BETWEEN, TWIN];
    var found := ScanFile(LATE_TWIN_ACTOR, after, file, {});
    assert found.Some? && found.value.unreadCount == 2;
    ScanOfOne(LATE_TWIN_ACTOR, after, file, {});
  }

  /** Collapsing again changes nothing, twins or not. */
  lemma CollapseIdempotent(actor: Actor, c: Cursor, files: seq<FeedFile>, targets: set<RecordKey>)
    requires DistinctFiles(files) && WellKeyed(c.readState.coverage)
    ensures var once := Collapsed(actor, c, files, targets);
      Collapse(once, ScanUnreadSpec(actor, once, files, targets)) == once
  {
    var was := ScanUnreadSpec(actor, c, files, targets);
    var once := Collapse(c, was);
    var now := ScanUnreadSpec(actor, once, files, targets);
    RescanInStep(actor, c, files, targets);
    CollapsesNothing(actor, c, once, files, targets, |files|);
    assert Uncollapsed(once.readState.coverage, {}) == once.readState.coverage;
    forall k
      ensures (k in now.covered <==> k in was.covered) && (k in was.covered ==> now.covered[k] == was.covered[k]) {
      if ListedBefore(files, |files|, k) {
        var i :| 0 <= i < |files| && files[i].key == k;
        VisitedCheckpoint(actor, c, files, targets, |files|, i);
        VisitedCheckpoint(actor, once, files, targets, |files|, i);
        RescanFile(actor, c, files, targets, i);
      } else {
        UnvisitedKeepsCheckpoint(actor, c, files, targets, |files|, k);
        UnvisitedKeepsCheckpoint(actor, once, files, targets, |files|, k);
      }
    }
    assert now.covered == was.covered;
  }

  /**
   * Healing may shorten a file. A scan of it goes on at the checkpoint saved before, unless the file is
   * shorter than it was then: it begins at the first line.
   */
  lemma ResumesIffNotShortened(was: Feed, now: Feed, line: nat)
    requires line <= |was.lines| && now.identity == was.identity && was.lines <= now.lines
    ensures ResumeLine(now, Some(CheckpointAt(was, line))) == if Size(now) < Size(was) then 0 else line
  {
    OffsetOfPrefix(was.lines, now.lines, line);
    OffsetMonotone(was.lines, line, |was.lines|);
  }

  /**
   * Such a scan reports as unread again what the last one had settled before the gap: a collapse keeps
   * no coverage of it. It reports too much, never too little.
   */
  lemma ShortenedFeedIsReportedAgain(actor: Actor, c: Cursor, files: seq<FeedFile>, targets: set<RecordKey>, i: nat,
                                     now: Feed)
    requires i < |files| && DistinctFiles(files) && WellKeyed(c.readState.coverage)
    requires ScanFile(actor, c, files[i], targets).Some?
    requires var was := files[i].feed.value;
      now.identity == was.identity && was.lines <= now.lines && Size(now) < Size(was)
    ensures var was, key, after := files[i].feed.value, files[i].key, Collapsed(actor, c, files, targets);
      var start := ResumeLine(was, SavedFor(c, key));
      && ResumeLine(now, SavedFor(after, key)) == 0
      && forall k | start <= k < Gap(LensFor(c, key), was.lines, start) && InScope(key, c.epoch, was.lines[k]) ::
           Unread(LensFor(after, key), now.lines[k])
  {
    hide Acknowledged, ScanFiles, Uncollapsed, WellKeyed;
    var was, key := files[i].feed.value, files[i].key;
    var scan := ScanUnreadSpec(actor, c, files, targets);
    var lens, start := LensFor(c, key), ResumeLine(was, SavedFor(c, key));
    var gap := Gap(lens, was.lines, start);
    VisitedCheckpoint(actor, c, files, targets, |files|, i);
    ResumesIffNotShortened(was, now, gap);
    forall k | start <= k < gap && InScope(key, c.epoch, was.lines[k])
      ensures Unread(LensFor(Collapse(c, scan), key), now.lines[k])
    {
      var t := was.lines[k].turn.value;
      assert Settled(lens, was.lines[k]);
      assert TurnKey(t) in ScanFile(actor, c, files[i], targets).value.collapsed;
      CollapsedSeenFromFeed(actor, c, files, targets, i, TurnKey(t));
      AcknowledgedAfterCollapse(c.readState.coverage, scan.collapsed, t);
    }
  }

  /** A saved offset of a file that has only grown is kept or moves forward. */
  lemma OffsetNeverMovesBack(actor: Actor, c: Cursor, files: seq<FeedFile>, targets: set<RecordKey>, key: FeedKey)
    requires DistinctFiles(files) && key in c.feeds
    requires forall f | f in files && f.key == key && f.feed.Some? ::
      c.feeds[key].identity == f.feed.value.identity && AtBoundary(c.feeds[key], f.feed.value)
    ensures var after := Collapsed(actor, c, files, targets);
      key in after.feeds && c.feeds[key].offset <= after.feeds[key].offset
  {
    if ListedBefore(files, |files|, key) {
      var i :| 0 <= i < |files| && files[i].key == key;
      VisitedCheckpoint(actor, c, files, targets, |files|, i);
      if ScanFile(actor, c, files[i], targets).Some? {
        var feed := files[i].feed.value;
        assert files[i] in files;
        var start := ResumeLine(feed, SavedFor(c, key));
        OffsetMonotone(feed.lines, start, Gap(LensFor(c, key), feed.lines, start));
      }
    } else {
      UnvisitedKeepsCheckpoint(actor, c, files, targets, |files|, key);
    }
  }
}
