/**
 * The read protocol: reserve one nonce before a read command runs, stage its output, and commit
 * it once the provider proves the model saw that very output (src/nudge/read-invocation.ts,
 * src/nudge/read-preview.ts and src/nudge/read-commit.ts).
 */
module ReadDelivery {
  import opened Base
  import opened ReadState
  import opened Feeds
  import opened NudgeCursor
  import opened Announcements

  const MAX_NUDGE_CURSOR_BYTES: nat := 1048576
  const READ_CURSOR_HEADROOM_BYTES: nat := 65536
  const READ_RECOVERY_ALLOWANCE_BYTES: nat := 24576

  /** One admitted foreground call: its resolved query, its native id and the hash of its input. */
  datatype Invocation = Invocation(query: Query, toolUseId: string, inputHash: Digest)

  /** The stored size of a cursor, as a parameter: its text is not modelled byte by byte. */
  type Sizer = Cursor -> nat

  predicate CursorFits(sizeOf: Sizer, c: Cursor)
  {
    sizeOf(c) <= MAX_NUDGE_CURSOR_BYTES
  }

  function WithPending(c: Cursor, pending: seq<Pending>): Cursor
  {
    c.(readState := c.readState.(pending := pending))
  }

  /* ---------------------------------- reserve ---------------------------------- */

  datatype Reservation = Reserved | ScopeChanged | ReplayedToolId | PendingCapacity

  /** The filters the protocol applies to its pending reads. */
  datatype Test = LiveAt(now: int) | OtherNonce(nonce: string) | OtherCall(toolUseId: string, turn: DeliveryTurn)

  predicate Passes(p: Pending, test: Test)
  {
    match test
    case LiveAt(now) => p.expiresAt > now
    case OtherNonce(nonce) => p.nonce != nonce
    case OtherCall(toolUseId, turn) => p.toolUseId != toolUseId || p.turn != turn
  }

  function Keep(pending: seq<Pending>, test: Test): (out: seq<Pending>)
    ensures forall p :: p in out <==> p in pending && Passes(p, test)
    ensures |out| <= |pending|
  {
    if pending == [] then []
    else (if Passes(pending[0], test) then [pending[0]] else []) + Keep(pending[1..], test)
  }

  function Unexpired(pending: seq<Pending>, now: int): seq<Pending>
  {
    Keep(pending, LiveAt(now))
  }

  function NewPending(inv: Invocation, turn: DeliveryTurn, nonce: string, now: int): Pending
  {
    Pending(nonce, inv.toolUseId, turn, inv.query, inv.inputHash, now, now + READ_INVOCATION_TTL_MS, None)
  }

  function Reserve(actor: Actor, c: Cursor, inv: Invocation, turn: DeliveryTurn, nonce: string, now: int, sizeOf: Sizer)
    : (u: Update<Reservation>)
  {
    if inv.query.recipient != Recipient(actor, c.epoch) then Update(None, ScopeChanged)
    else
      var pending := Unexpired(c.readState.pending, now);
      if exists p :: p in pending && p.toolUseId == inv.toolUseId then Update(None, ReplayedToolId)
      else if |pending| >= MAX_PENDING_READS then Update(None, PendingCapacity)
      else
        var next := WithPending(c, pending + [NewPending(inv, turn, nonce, now)]).(updatedAt := now);
        if CursorFits(sizeOf, next) then Update(Some(next), Reserved) else Update(None, PendingCapacity)
  }

  /* ----------------------------------- stage ----------------------------------- */

  /** A reservation answers this call: same tool use, command, input, query and turn, and still live. */
  predicate Answers(p: Pending, inv: Invocation, turn: DeliveryTurn, now: int)
  {
    && p.toolUseId == inv.toolUseId && p.query == inv.query && p.inputHash == inv.inputHash
    && p.createdAt <= now < p.expiresAt && p.turn == turn
  }

  function FirstAnswer(pending: seq<Pending>, inv: Invocation, turn: DeliveryTurn, now: int): (p: Option<Pending>)
    ensures p.Some? ==> p.value in pending && Answers(p.value, inv, turn, now)
    ensures p.None? ==> forall q | q in pending :: !Answers(q, inv, turn, now)
  {
    if pending == [] then None
    else if Answers(pending[0], inv, turn, now) then Some(pending[0])
    else FirstAnswer(pending[1..], inv, turn, now)
  }

  function MatchingPending(actor: Actor, c: Cursor, inv: Invocation, turn: DeliveryTurn, now: int): (p: Option<Pending>)
    ensures p.Some? ==> p.value in c.readState.pending && Answers(p.value, inv, turn, now)
  {
    if inv.query.recipient != Recipient(actor, c.epoch) then None
    else FirstAnswer(c.readState.pending, inv, turn, now)
  }

  predicate DistinctKeys(coverage: seq<Coverage>)
  {
    forall i, j | 0 <= i < j < |coverage| :: KeyOf(coverage[i]) != KeyOf(coverage[j])
  }

  /** What `parseDeliveredEnvelope` accepts as the output of this very reservation. */
  predicate DeliveredEnvelope(e: Envelope, query: Query, nonce: string)
  {
    && e.eligible && e.query == query && e.nonce == nonce
    && e.utf8Bytes + 1 <= READ_OUTPUT_CEILING_BYTES && e.utf8Bytes + 1 <= query.budget
    && 0 < |e.coverage| <= MAX_READ_COVERAGE_RECORDS
    && (forall entry | entry in e.coverage :: ValidCoverage(entry))
    && DistinctKeys(e.coverage)
  }

  function StageOutput(pending: seq<Pending>, nonce: string, output: Envelope): (out: seq<Pending>)
    ensures |out| == |pending|
    ensures forall i | 0 <= i < |pending| ::
      out[i] == if pending[i].nonce == nonce then pending[i].(output := Some(output)) else pending[i]
  {
    if pending == [] then []
    else [if pending[0].nonce == nonce then pending[0].(output := Some(output)) else pending[0]]
         + StageOutput(pending[1..], nonce, output)
  }

  function Stage(actor: Actor, c: Cursor, inv: Invocation, turn: DeliveryTurn, stdout: Option<Envelope>, now: int,
                 sizeOf: Sizer)
    : (u: Update<bool>)
  {
    var p := MatchingPending(actor, c, inv, turn, now);
    if p.None? || stdout.None? || !DeliveredEnvelope(stdout.value, inv.query, p.value.nonce) then Update(None, false)
    else if p.value.output.Some? then Update(None, p.value.output == stdout)
    else
      var next := WithPending(c, StageOutput(c.readState.pending, p.value.nonce, stdout.value)).(updatedAt := now);
      if CursorFits(sizeOf, next) then Update(Some(next), true) else Update(None, false)
  }

  /* ------------------------ checking a delivery against the feeds ------------------------ */

  datatype Lookup = NotFound | Found(turn: Turn) | Broken

  /** `findTurn` in one feed: a misfiled or conflicting record breaks the search. */
  function FindInFeed(key: FeedKey, lines: seq<Line>, turnId: string, n: nat): (r: Lookup)
    requires n <= |lines|
  {
    if n == 0 then NotFound
    else
      var prior := FindInFeed(key, lines, turnId, n - 1);
      var t := lines[n - 1].turn;
      if prior.Broken? || t.None? || t.value.id.turn != turnId then prior
      else if t.value.id != RecordId(key.provider, key.session, turnId) then Broken
      else if prior.Found? && prior.turn != t.value then Broken
      else Found(t.value)
  }

  function FindTurn(files: seq<FeedFile>, turnId: string, n: nat): (r: Lookup)
    requires n <= |files|
  {
    if n == 0 then NotFound
    else
      var prior := FindTurn(files, turnId, n - 1);
      if prior.Broken? || files[n - 1].feed.None? then prior
      else
        var lines := files[n - 1].feed.value.lines;
        var here := FindInFeed(files[n - 1].key, lines, turnId, |lines|);
        if here.NotFound? then prior
        else if here.Found? && prior.Found? && prior.turn != here.turn then Broken
        else here
  }

  function ProviderName(p: Provider): string { if p == Codex then "codex" else "claude" }

  predicate PeerInEpoch(t: Turn, recipient: Recipient)
  {
    && !(t.id.provider == ProviderName(recipient.actor.provider) && t.id.session == recipient.actor.session)
    && t.workstream == Some(recipient.epoch.workstream)
    && recipient.epoch.from < t.endedAt
  }

  /** The one summary a context shows of this turn. */
  function SummariesOf(items: seq<Summary>, turnId: string): (out: seq<Summary>)
    ensures forall s | s in out :: s in items && s.id.turn == turnId
  {
    if items == [] then []
    else (if items[0].id.turn == turnId then [items[0]] else []) + SummariesOf(items[1..], turnId)
  }

  /** The bytes of a field that reached the model, as the envelope shows them. */
  datatype Page = Page(turn: Turn, field: Field, range: Range, shown: Bytes)

  /** The page an attested coverage entry stands for: a context shows the whole attention text. */
  function PageOf(t: Turn, body: Body, entry: Coverage): (p: Option<Page>)
    requires |entry.ranges| == 1
  {
    match body
    case ContextBody(items) =>
      var shown := SummariesOf(items, t.id.turn);
      var field := AttentionField(t);
      if |shown| == 1 && shown[0].id == t.id && !shown[0].truncated && Some(shown[0].text) == SelectTurnText(t, field)
      then Some(Page(t, field, Range(0, |shown[0].text|), shown[0].text)) else None
    case PageBody(id, recordHash, field, fieldHash, total, range, complete, text) =>
      if id == t.id && recordHash == entry.recordHash && field == entry.field && fieldHash == entry.fieldHash
         && total == entry.total && range == entry.ranges[0] && complete == (range.end == total)
         && 0 <= range.start <= range.end <= total
         && SelectTurnText(t, field).Some? && total == |SelectTurnText(t, field).value|
         && text == SelectTurnText(t, field).value[range.start..range.end]
      then Some(Page(t, field, range, text)) else None
  }

  /** `verifyDeliveredCoverage` for one entry: the published record it attests, as shown. */
  function VerifyEntry(files: seq<FeedFile>, query: Query, body: Body, entry: Coverage): (p: Option<Page>)
    requires ValidCoverage(entry)
  {
    var found := FindTurn(files, entry.id.turn, |files|);
    if !found.Found? || !PeerInEpoch(found.turn, query.recipient) || found.turn.id != entry.id
       || RecordHash(found.turn) != entry.recordHash || |entry.ranges| != 1 then None
    else
      var t := found.turn;
      var text := SelectTurnText(t, entry.field);
      if text.None? || (entry.field != RecordField && entry.field != AttentionField(t))
         || Sha256(text.value) != entry.fieldHash || |text.value| != entry.total then None
      else match query
        case ContextQuery(_, _, _, _) =>
          if body.ContextBody? && entry.ranges[0] == Range(0, entry.total) then PageOf(t, body, entry) else None
        case TurnQuery(_, _, _, _, turn, field) =>
          if body.PageBody? && turn == t.id.turn && field == entry.field then PageOf(t, body, entry) else None
  }

  /** Every entry checks out; None if any does not. */
  function VerifyEntries(files: seq<FeedFile>, query: Query, body: Body, coverage: seq<Coverage>)
    : (ps: Option<seq<Page>>)
    requires forall entry | entry in coverage :: ValidCoverage(entry)
    ensures ps.Some? ==> |ps.value| == |coverage|
    ensures ps.Some? ==>
      forall i | 0 <= i < |coverage| :: VerifyEntry(files, query, body, coverage[i]) == Some(ps.value[i])
  {
    if coverage == [] then Some([])
    else
      var first := VerifyEntry(files, query, body, coverage[0]);
      var rest := VerifyEntries(files, query, body, coverage[1..]);
      if first.None? || rest.None? then None
      else
        var pages := [first.value] + rest.value;
        assert forall i | 0 < i < |coverage| :: coverage[i] == coverage[1..][i - 1] && pages[i] == rest.value[i - 1];
        Some(pages)
  }

  function VerifyDelivery(files: seq<FeedFile>, e: Envelope): (ps: Option<seq<Page>>)
    requires forall entry | entry in e.coverage :: ValidCoverage(entry)
  {
    if e.query.TurnQuery? && |e.coverage| != 1 then None
    else VerifyEntries(files, e.query, e.body, e.coverage)
  }

  /* ----------------------------------- commit ----------------------------------- */

  datatype Preview = Preview(state: Cursor, advanced: bool, unreadCount: nat, incomplete: bool,
                             selectedUnavailable: bool, recovery: bool)

  function StillUnread(delivered: seq<Coverage>, unread: set<RecordKey>): (out: seq<Coverage>)
    ensures forall e | e in out :: e in delivered && RecordKeyOf(e) in unread
    ensures |out| <= |delivered|
  {
    if delivered == [] then []
    else (if RecordKeyOf(delivered[0]) in unread then [delivered[0]] else []) + StillUnread(delivered[1..], unread)
  }

  function RecordKeysOf(delivered: seq<Coverage>): set<RecordKey>
  {
    set e | e in delivered :: RecordKeyOf(e)
  }

  /** Scan, collapse, merge what is still unread, scan again, collapse again. */
  function PreviewCoverage(actor: Actor, c: Cursor, delivered: seq<Coverage>, first: seq<FeedFile>,
                           second: seq<FeedFile>)
    : (r: Result<Preview, MergeError>)
  {
    var before := ScanUnreadSpec(actor, c, first, RecordKeysOf(delivered));
    var base := Collapse(c, before);
    var added := StillUnread(delivered, before.unreadKeys);
    match MergeForScan(base.readState.coverage, added)
    case Err(e) => Err(e)
    case Ok(merged) =>
      var next := base.(readState := base.readState.(coverage := merged.entries));
      var after := if merged.changed then ScanUnreadSpec(actor, next, second, {}) else before;
      var lost := set e | e in delivered && (FeedKey(e.id.provider, e.id.session) in before.unavailable
                                             || FeedKey(e.id.provider, e.id.session) in after.unavailable);
      Ok(Preview(Collapse(next, after), merged.changed, after.unreadCount,
                 before.unavailable != {} || after.unavailable != {}, lost != {},
                 added != [] && before.firstUnread.Some? && forall e | e in added ::
                   RecordKeyOf(e) == TurnKey(before.firstUnread.value)))
  }

  /** Room for the stored gaps; reading the oldest gap may use a reserve. */
  predicate CoverageFits(sizeOf: Sizer, next: Cursor, previous: Cursor, recovery: bool)
  {
    var records, had := |next.readState.coverage|, |previous.readState.coverage|;
    var durable, was := sizeOf(WithPending(next, [])), sizeOf(WithPending(previous, []));
    && records <= MAX_READ_COVERAGE_RECORDS && CursorFits(sizeOf, next)
    && !(records > MAX_READ_COVERAGE_RECORDS - (if recovery then 0 else 2) && records > had)
    && (durable <= MAX_NUDGE_CURSOR_BYTES - READ_CURSOR_HEADROOM_BYTES
        + (if recovery then READ_RECOVERY_ALLOWANCE_BYTES else 0)
        || durable <= was)
  }

  datatype CommitResult = CommitResult(committed: bool, advanced: bool)

  const REFUSED := CommitResult(false, false)

  function Without(pending: seq<Pending>, nonce: string): seq<Pending>
  {
    Keep(pending, OtherNonce(nonce))
  }

  /** The pending read this commit would consume: both witnesses agree and the feeds confirm. */
  function Witnessed(actor: Actor, c: Cursor, inv: Invocation, turn: DeliveryTurn, modelText: Option<Envelope>,
                     now: int, files: seq<FeedFile>): (p: Option<Pending>)
    ensures p.Some? ==>
      && p.value in c.readState.pending && Answers(p.value, inv, turn, now)
      && modelText.Some? && p.value.output == modelText
      && DeliveredEnvelope(modelText.value, inv.query, p.value.nonce)
      && VerifyDelivery(files, modelText.value).Some?
  {
    var p := MatchingPending(actor, c, inv, turn, now);
    if p.None? || p.value.output.None? || modelText.None? then None
    else if !DeliveredEnvelope(modelText.value, inv.query, p.value.nonce) || p.value.output != modelText then None
    else if VerifyDelivery(files, modelText.value).None? then None
    else p
  }

  /** The state an advancing commit stores. */
  function Advanced(c: Cursor, preview: Preview, query: Query, nonce: string, turn: DeliveryTurn, now: int): Cursor
  {
    preview.state.(
      readState := preview.state.readState.(
        pending := Without(preview.state.readState.pending, nonce),
        outsideWindow := (preview.unreadCount > 0 || preview.incomplete)
          && (query.ContextQuery? || c.readState.outsideWindow), informedTurn := Some(turn)),
      revision := c.revision + 1, stop := None, delivery := Delivery(0, None), updatedAt := now)
  }

  /** The three snapshots a commit takes of the feeds: to verify, and before and after the merge. */
  datatype Snapshots = Snapshots(verify: seq<FeedFile>, first: seq<FeedFile>, second: seq<FeedFile>)

  function Commit(actor: Actor, c: Cursor, inv: Invocation, turn: DeliveryTurn, modelText: Option<Envelope>, now: int,
                  seen: Snapshots, sizeOf: Sizer): (r: Result<Update<CommitResult>, HookError>)
  {
    var p := Witnessed(actor, c, inv, turn, modelText, now, seen.verify);
    if p.None? then Ok(Update(None, REFUSED))
    else
      var nonce := p.value.nonce;
      var refused := Update(Some(WithPending(c, Without(c.readState.pending, nonce))), REFUSED);
      match PreviewCoverage(actor, c, modelText.value.coverage, seen.first, seen.second)
      case Err(CoverageCapacity) => Ok(refused)
      case Err(InvalidCoverage) => Err(InvalidCoverageEntry)
      case Ok(preview) =>
        if preview.selectedUnavailable then Ok(Update(None, REFUSED))
        else if !preview.advanced then
          Ok(Update(Some(WithPending(preview.state, Without(preview.state.readState.pending, nonce))),
                    CommitResult(true, false)))
        else if c.revision + 1 > MAX_SAFE_INTEGER then Err(RevisionOverflow)
        else
          var next := Advanced(c, preview, inv.query, nonce, turn, now);
          if CoverageFits(sizeOf, next, c, preview.recovery) then Ok(Update(Some(next), CommitResult(true, true)))
          else Ok(refused)
  }

  /* ----------------------------------- discard ----------------------------------- */

  function Discarded(pending: seq<Pending>, toolUseId: string, turn: DeliveryTurn): seq<Pending>
  {
    Keep(pending, OtherCall(toolUseId, turn))
  }

  function Discard(c: Cursor, toolUseId: string, turn: DeliveryTurn): (u: Update<()>)
  {
    var pending := Discarded(c.readState.pending, toolUseId, turn);
    if |pending| == |c.readState.pending| then Update(None, ()) else Update(Some(WithPending(c, pending)), ())
  }
}
