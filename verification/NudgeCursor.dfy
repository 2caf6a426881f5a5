/**
 * The hook-owned read cursor: its data (src/nudge/types.ts), the strict validity predicate
 * (src/nudge/store.ts), the scan over all feeds and the prefix collapse (src/nudge/unread.ts).
 */
module NudgeCursor {
  import opened Base
  import opened ReadState
  import opened Feeds

  datatype Provider = Codex | Claude

  /** The session that owns the cursor file. */
  datatype Actor = Actor(provider: Provider, session: string)

  /* --------------------------- queries and envelopes --------------------------- */

  datatype Recipient = Recipient(actor: Actor, epoch: Epoch)

  /** A recognised read command; its SHA-256 is idealised to the query itself. */
  datatype Query =
    | ContextQuery(recipient: Recipient, projectRoot: string, budget: nat, command: string)
    | TurnQuery(recipient: Recipient, projectRoot: string, budget: nat, command: string, turn: string, field: Field)

  /** One turn as a context projection shows it: the attention text, whole or cut. */
  datatype Summary = Summary(id: RecordId, text: Bytes, truncated: bool)

  datatype Body =
    | ContextBody(items: seq<Summary>)
    | PageBody(id: RecordId, recordHash: RecordDigest, field: Field, fieldHash: Digest, total: nat,
               range: Range, complete: bool, text: Bytes)

  /** A canonical CLI read result; being canonical, two with the same text are the same value. */
  datatype Envelope = Envelope(query: Query, nonce: string, eligible: bool, utf8Bytes: nat, body: Body,
                               coverage: seq<Coverage>)

  /* --------------------------------- the cursor --------------------------------- */

  datatype DeliveryTurn = CodexTurn(turnId: string) | ClaudeTurn(generation: nat)

  datatype Delivery = Delivery(highest: nat, lastTurn: Option<DeliveryTurn>)

  datatype Pending = Pending(nonce: string, toolUseId: string, turn: DeliveryTurn, query: Query,
                             inputHash: Digest, createdAt: int, expiresAt: int, output: Option<Envelope>)

  datatype Reads = Reads(pending: seq<Pending>, coverage: CoverageMap, outsideWindow: bool,
                         informedTurn: Option<DeliveryTurn>)

  const NO_READS := Reads([], map[], false, None)

  /** A v3 cursor.  Feed cursors are unique and sorted by key, so they are a map here. */
  datatype Cursor = Cursor(epoch: Epoch, revision: nat, feeds: map<FeedKey, Checkpoint>, stop: Option<nat>,
                           delivery: Delivery, generation: Option<nat>, readState: Reads, updatedAt: int)

  datatype Marker = UserPrompt | ToolBoundary | Stop

  /** What the cursor file holds: an older schema still to be migrated, or a v3 cursor. */
  datatype Stored =
    | V1(epoch: Epoch, revision: nat, feeds: map<FeedKey, Checkpoint>, markers: set<Marker>, updatedAt: int)
    | V2(epoch: Epoch, revision: nat, feeds: map<FeedKey, Checkpoint>, stop: Option<nat>,
         delivery: Delivery, generation: Option<nat>, updatedAt: int)
    | V3(cursor: Cursor)
  {
    function Revision(): nat { if V3? then cursor.revision else revision }

    function AtEpoch(): Epoch { if V3? then cursor.epoch else epoch }

    function SavedFeeds(): map<FeedKey, Checkpoint> { if V3? then cursor.feeds else feeds }
  }

  /* ------------------------- the strict parser's invariants ------------------------- */

  predicate ValidTurn(actor: Actor, generation: Option<nat>, turn: DeliveryTurn)
  {
    match turn
    case CodexTurn(_) => actor.provider == Codex
    case ClaudeTurn(g) => actor.provider == Claude && generation.Some? && 1 <= g <= generation.value
  }

  predicate ValidGeneration(actor: Actor, generation: Option<nat>)
  {
    match actor.provider
    case Codex => generation.None?
    case Claude => generation.Some? && 1 <= generation.value <= MAX_SAFE_INTEGER
  }

  predicate ValidDelivery(actor: Actor, generation: Option<nat>, d: Delivery)
  {
    d.lastTurn.Some? ==> ValidTurn(actor, generation, d.lastTurn.value) && d.highest > 0
  }

  predicate ValidPending(actor: Actor, generation: Option<nat>, p: Pending)
  {
    && ValidTurn(actor, generation, p.turn)
    && p.createdAt < p.expiresAt <= p.createdAt + READ_INVOCATION_TTL_MS
    && (p.output.Some? ==> p.output.value.utf8Bytes <= READ_OUTPUT_CEILING_BYTES)
  }

  predicate DistinctPending(pending: seq<Pending>)
  {
    forall i, j | 0 <= i < j < |pending| ::
      pending[i].nonce != pending[j].nonce && pending[i].toolUseId != pending[j].toolUseId
  }

  predicate ValidFeeds(feeds: map<FeedKey, Checkpoint>)
  {
    forall k | k in feeds :: 1 <= feeds[k].nextLine && feeds[k].offset <= feeds[k].observedSize
  }

  predicate ValidReads(actor: Actor, generation: Option<nat>, readState: Reads)
  {
    && |readState.pending| <= MAX_PENDING_READS
    && DistinctPending(readState.pending)
    && (forall p | p in readState.pending :: ValidPending(actor, generation, p))
    && |readState.coverage| <= MAX_READ_COVERAGE_RECORDS
    && WellKeyed(readState.coverage)
    && (readState.informedTurn.Some? ==> ValidTurn(actor, generation, readState.informedTurn.value))
  }

  predicate ValidCursor(actor: Actor, c: Cursor)
  {
    && 1 <= c.revision <= MAX_SAFE_INTEGER
    && (c.stop.Some? ==> c.stop.value == c.revision)
    && ValidGeneration(actor, c.generation)
    && ValidDelivery(actor, c.generation, c.delivery)
    && ValidFeeds(c.feeds)
    && ValidReads(actor, c.generation, c.readState)
  }

  predicate ValidStored(actor: Actor, s: Stored)
  {
    match s
    case V1(_, revision, feeds, _, _) => 1 <= revision <= MAX_SAFE_INTEGER && ValidFeeds(feeds)
    case V2(epoch, revision, feeds, stop, delivery, generation, updatedAt) =>
      ValidCursor(actor, Cursor(epoch, revision, feeds, stop, delivery, generation, NO_READS, updatedAt))
    case V3(cursor) => ValidCursor(actor, cursor)
  }

  /* -------------------------------- virtual cursor -------------------------------- */

  /** The cursor a hook works from; `legacyMarkers` is set while a v1 file is being upgraded. */
  datatype VirtualCursor = VirtualCursor(state: Cursor, reset: bool, existed: bool, legacyMarkers: Option<set<Marker>>)

  datatype HookError = RevisionOverflow | GenerationMissing | GenerationOverflow | CursorTooLarge | InvalidCoverageEntry

  function MigratedCursor(actor: Actor, v1: Stored): (c: Cursor)
    requires v1.V1?
  {
    Cursor(v1.epoch, v1.revision, v1.feeds,
           if Stop in v1.markers then Some(v1.revision) else None,
           Delivery(0, None),
           if actor.provider == Claude then Some(1) else None,
           NO_READS, v1.updatedAt)
  }

  function NextGenerationBase(actor: Actor, current: Option<Stored>): Option<nat>
  {
    if actor.provider == Codex then None
    else match current
      case None => Some(1)
      case Some(V1(_, _, _, _, _)) => Some(1)
      case Some(V2(_, _, _, _, _, generation, _)) => generation
      case Some(V3(cursor)) => cursor.generation
  }

  function VirtualCursorOf(actor: Actor, epoch: Epoch, current: Option<Stored>): (r: Result<VirtualCursor, HookError>)
  {
    if current.Some? && current.value.AtEpoch() == epoch then
      match current.value
      case V3(cursor) => Ok(VirtualCursor(cursor, false, true, None))
      case V2(e, revision, feeds, stop, delivery, generation, updatedAt) =>
        Ok(VirtualCursor(Cursor(e, revision, feeds, stop, delivery, generation, NO_READS, updatedAt), true, true, None))
      case V1(_, _, _, markers, _) =>
        Ok(VirtualCursor(MigratedCursor(actor, current.value), true, true, Some(markers)))
    else
      var revision := (if current.None? then 0 else current.value.Revision()) + 1;
      if revision > MAX_SAFE_INTEGER then Err(RevisionOverflow)
      else Ok(VirtualCursor(
        Cursor(epoch, revision, map[], None, Delivery(0, None), NextGenerationBase(actor, current), NO_READS,
               epoch.from), current.Some?, current.Some?, None))
  }

  lemma VirtualEpoch(actor: Actor, epoch: Epoch, stored: Option<Stored>)
    requires VirtualCursorOf(actor, epoch, stored).Ok?
    ensures VirtualCursorOf(actor, epoch, stored).value.state.epoch == epoch
  {
  }

  /** Virtual creation and both migrations produce only what the strict parser accepts. */
  lemma VirtualCursorValid(actor: Actor, epoch: Epoch, current: Option<Stored>)
    requires current.Some? ==> ValidStored(actor, current.value)
    requires VirtualCursorOf(actor, epoch, current).Ok?
    ensures var v := VirtualCursorOf(actor, epoch, current).value;
      && ValidCursor(actor, v.state) && v.state.epoch == epoch
      && (current.Some? && current.value.AtEpoch() == epoch ==> v.state.revision == current.value.Revision())
      && (current.Some? && current.value.AtEpoch() != epoch ==> v.state.revision == current.value.Revision() + 1)
      && (current.Some? && current.value.V3? ==> v.state.generation == current.value.cursor.generation)
  {
  }

  /* ------------------------------ scanning all feeds ------------------------------ */

  /** A listed feed file; None when reading it fails for an availability reason. */
  datatype FeedFile = FeedFile(key: FeedKey, feed: Option<Feed>)

  predicate DistinctFiles(files: seq<FeedFile>)
  {
    forall i, j | 0 <= i < j < |files| :: files[i].key != files[j].key
  }

  datatype Scan = Scan(unreadCount: nat, covered: map<FeedKey, Checkpoint>, collapsed: set<RecordKey>,
                       firstUnread: Option<Turn>, latest: Option<Turn>, unreadKeys: set<RecordKey>,
                       unavailable: set<FeedKey>)

  function SavedFor(c: Cursor, key: FeedKey): Option<Checkpoint>
  {
    if key in c.feeds then Some(c.feeds[key]) else None
  }

  function LensFor(c: Cursor, key: FeedKey): Lens
  {
    Lens(key, c.epoch, c.readState.coverage)
  }

  /** The scan of one listed file, if it is a peer's and could be read. */
  function ScanFile(actor: Actor, c: Cursor, file: FeedFile, targets: set<RecordKey>): (r: Option<FeedScan>)
  {
    if file.key.session == actor.session || file.feed.None? then None
    else ScanFeedSpec(LensFor(c, file.key), file.feed.value, SavedFor(c, file.key), targets)
  }

  function StartScan(c: Cursor, files: seq<FeedFile>): Scan
  {
    Scan(0, c.feeds, {}, None, None, {}, set k | k in c.feeds && forall f | f in files :: f.key != k)
  }

  /** A feed with nothing acknowledged is not recorded unless it already was. */
  predicate KeepsCheckpoint(c: Cursor, key: FeedKey, covered: Checkpoint)
  {
    covered.offset > 0 || (key in c.feeds && c.feeds[key].offset == 0)
  }

  /** What one peer feed's scan, or its failure, adds to the whole. */
  function AddFound(c: Cursor, acc: Scan, key: FeedKey, found: Option<FeedScan>): (out: Scan)
  {
    match found
    case None => acc.(unavailable := acc.unavailable + {key})
    case Some(fs) => Scan(
      acc.unreadCount + fs.unreadCount,
      if KeepsCheckpoint(c, key, fs.covered) then acc.covered[key := fs.covered] else acc.covered - {key},
      acc.collapsed + fs.collapsed,
      if fs.firstUnread.Some? && (acc.firstUnread.None? || NewerThan(acc.firstUnread.value, fs.firstUnread.value))
      then fs.firstUnread else acc.firstUnread,
      if fs.latest.Some? && (acc.latest.None? || NewerThan(fs.latest.value, acc.latest.value))
      then fs.latest else acc.latest,
      acc.unreadKeys + fs.unreadKeys,
      acc.unavailable)
  }

  function AddFile(actor: Actor, c: Cursor, acc: Scan, file: FeedFile, targets: set<RecordKey>): (out: Scan)
  {
    if file.key.session == actor.session then acc
    else AddFound(c, acc, file.key, ScanFile(actor, c, file, targets))
  }

  /** The scan after the first `n` files. */
  function ScanFiles(actor: Actor, c: Cursor, files: seq<FeedFile>, targets: set<RecordKey>, n: nat): (out: Scan)
    requires n <= |files|
  {
    if n == 0 then StartScan(c, files)
    else AddFile(actor, c, ScanFiles(actor, c, files, targets, n - 1), files[n - 1], targets)
  }

  function ScanUnreadSpec(actor: Actor, c: Cursor, files: seq<FeedFile>, targets: set<RecordKey>): (out: Scan)
  {
    ScanFiles(actor, c, files, targets, |files|)
  }

  method ScanUnread(actor: Actor, c: Cursor, files: seq<FeedFile>, targets: set<RecordKey>) returns (scan: Scan)
    ensures scan == ScanUnreadSpec(actor, c, files, targets)
  {
    scan := StartScan(c, files);
    var i := 0;
    while i < |files|
      invariant 0 <= i <= |files|
      invariant scan == ScanFiles(actor, c, files, targets, i)
    {
      var file := files[i];
      i := i + 1;
      if file.key.session == actor.session {
        continue;
      }
      var found: Option<FeedScan> := None;
      if file.feed.Some? {
        found := ScanFeed(LensFor(c, file.key), file.feed.value, SavedFor(c, file.key), targets);
      }
      scan := AddFound(c, scan, file.key, found);
    }
  }

  /** Move only past the proved prefix; sparse coverage beyond gaps remains. */
  function Collapse(c: Cursor, scan: Scan): (out: Cursor)
  {
    c.(feeds := scan.covered, readState := c.readState.(coverage := Uncollapsed(c.readState.coverage, scan.collapsed)))
  }

  function Uncollapsed(coverage: CoverageMap, collapsed: set<RecordKey>): CoverageMap
  {
    map k | k in coverage && RecordKeyOf(coverage[k]) !in collapsed :: coverage[k]
  }

  /* --------------------------- what a scan leaves where --------------------------- */

  predicate ListedBefore(files: seq<FeedFile>, n: nat, key: FeedKey)
    requires n <= |files|
  {
    exists i :: 0 <= i < n && files[i].key == key
  }

  /** Feeds not (yet) visited keep their saved checkpoint. */
  lemma {:induction false} UnvisitedKeepsCheckpoint(actor: Actor, c: Cursor, files: seq<FeedFile>,
                                                    targets: set<RecordKey>, n: nat, key: FeedKey)
    requires n <= |files|
    requires !ListedBefore(files, n, key)
    ensures var scan := ScanFiles(actor, c, files, targets, n);
      && (key in scan.covered <==> key in c.feeds)
      && (key in c.feeds ==> scan.covered[key] == c.feeds[key])
  {
    if n > 0 {
      assert files[n - 1].key != key;
      UnvisitedKeepsCheckpoint(actor, c, files, targets, n - 1, key);
    }
  }

  /** A visited feed gets the scan's prefix, or keeps its checkpoint if it could not be read. */
  lemma {:induction false} VisitedCheckpoint(actor: Actor, c: Cursor, files: seq<FeedFile>, targets: set<RecordKey>,
                                             n: nat, i: nat)
    requires i < n <= |files| && DistinctFiles(files)
    ensures var scan := ScanFiles(actor, c, files, targets, n);
      var key := files[i].key;
      match ScanFile(actor, c, files[i], targets)
      case None => (key in scan.covered <==> key in c.feeds) && (key in c.feeds ==> scan.covered[key] == c.feeds[key])
      case Some(fs) =>
        && (key in scan.covered <==> KeepsCheckpoint(c, key, fs.covered))
        && (key in scan.covered ==> scan.covered[key] == fs.covered)
  {
    if i < n - 1 {
      assert files[i].key != files[n - 1].key;
      VisitedCheckpoint(actor, c, files, targets, n - 1, i);
    } else {
      UnvisitedKeepsCheckpoint(actor, c, files, targets, n - 1, files[i].key);
    }
  }

  lemma {:induction false} CollapsedKeys(actor: Actor, c: Cursor, files: seq<FeedFile>, targets: set<RecordKey>, n: nat,
                                         key: RecordKey)
    requires n <= |files|
    ensures key in ScanFiles(actor, c, files, targets, n).collapsed <==>
      exists i :: 0 <= i < n && ScanFile(actor, c, files[i], targets).Some?
               && key in ScanFile(actor, c, files[i], targets).value.collapsed
  {
    if n > 0 {
      CollapsedKeys(actor, c, files, targets, n - 1, key);
      var last := ScanFile(actor, c, files[n - 1], targets);
      if last.Some? && key in last.value.collapsed {
        assert key in ScanFiles(actor, c, files, targets, n).collapsed;
      }
    }
  }
}
