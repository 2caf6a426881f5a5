/**
 * Canonical feeds and the scan of one feed (src/nudge/unread.ts `scanFeed`): which turns are
 * unread, and how far the contiguous acknowledged prefix reaches.
 */
module Feeds {
  import opened Base
  import opened ReadState

  const MAX_FEED_BYTES: nat := 67108864
  const MAX_RECORD_BYTES: nat := 8388608

  function RecordHash(t: Turn): RecordDigest { RecordDigest(t) }

  function TurnKey(t: Turn): RecordKey { RecordKey(t.id, RecordHash(t)) }

  /** The exact field text shared by page readers and delivery checks. */
  function SelectTurnText(t: Turn, field: Field): (text: Option<Bytes>)
  {
    match field
    case RecordField => Some(t.canonical)
    case RequestField => Some(t.request)
    case ResponseField => t.response
  }

  /** The field whose delivery counts as having read the turn. */
  function AttentionField(t: Turn): Field
  {
    if t.response.None? then RequestField else ResponseField
  }

  /** One stored entry acknowledges this turn through this field. */
  predicate AcknowledgedBy(coverage: CoverageMap, t: Turn, field: Field)
  {
    var key := CoverageKey(t.id, field);
    && key in coverage
    && Complete(coverage[key])
    && coverage[key].recordHash == RecordHash(t)
    && SelectTurnText(t, field).Some?
    && coverage[key].total == |SelectTurnText(t, field).value|
    && coverage[key].fieldHash == Sha256(SelectTurnText(t, field).value)
  }

  predicate Acknowledged(coverage: CoverageMap, t: Turn)
  {
    AcknowledgedBy(coverage, t, RecordField) || AcknowledgedBy(coverage, t, AttentionField(t))
  }

  /* ------------------------------- feed files ------------------------------- */

  /** A complete physical line: its bytes before the LF, and the turn it parses to, if any. */
  datatype Line = Line(contentBytes: nat, turn: Option<Turn>)

  /** `partial` counts the bytes after the last LF. */
  datatype Feed = Feed(identity: nat, lines: seq<Line>, partial: nat)

  datatype FeedKey = FeedKey(provider: string, session: string)

  /** The membership this session currently holds: its workstream and when that began. */
  datatype Epoch = Epoch(workstream: string, from: int)

  datatype Checkpoint = Checkpoint(identity: nat, offset: nat, nextLine: nat, observedSize: nat)

  function Offset(lines: seq<Line>, n: nat): nat
    requires n <= |lines|
  {
    if n == 0 then 0 else Offset(lines, n - 1) + lines[n - 1].contentBytes + 1
  }

  function Size(feed: Feed): nat
  {
    Offset(feed.lines, |feed.lines|) + feed.partial
  }

  lemma OffsetOfPrefix(lines: seq<Line>, more: seq<Line>, n: nat)
    requires n <= |lines| && lines <= more
    ensures Offset(lines, n) == Offset(more, n)
  {
  }

  lemma {:induction false} OffsetMonotone(lines: seq<Line>, i: nat, j: nat)
    requires i <= j <= |lines|
    ensures Offset(lines, i) + (j - i) <= Offset(lines, j)
    decreases j
  {
    if i < j {
      OffsetMonotone(lines, i, j - 1);
    }
  }

  /** A checkpoint taken at a line boundary of this very file. */
  predicate AtBoundary(cp: Checkpoint, feed: Feed)
  {
    && 1 <= cp.nextLine <= |feed.lines| + 1
    && cp.offset == Offset(feed.lines, cp.nextLine - 1)
    && cp.offset <= cp.observedSize <= Size(feed)
  }

  /**
   * `resolveJsonlCheckpoint` on whole lines: the index of the first line to scan.  A checkpoint of
   * another file, of a shortened file or off any line boundary (a rewrite) restarts the scan.
   */
  function ResumeLine(feed: Feed, saved: Option<Checkpoint>): (start: nat)
    ensures start <= |feed.lines|
  {
    if saved.Some? && saved.value.identity == feed.identity && AtBoundary(saved.value, feed)
    then saved.value.nextLine - 1 else 0
  }

  /**
   * How a feed file may change: complete lines are added and an unfinished one comes, grows or is healed
   * away, or another file (with a later identity) takes its place.
   */
  predicate Evolves(f: Feed, g: Feed)
  {
    f.identity < g.identity || (f.identity == g.identity && f.lines <= g.lines)
  }

  lemma EvolvesTransitive(f: Feed, g: Feed, h: Feed)
    requires Evolves(f, g) && Evolves(g, h)
    ensures Evolves(f, h)
  {
  }

  /* --------------------------- scanning one feed --------------------------- */

  /** What a scan of one feed looks through: whose feed, for which membership, knowing what. */
  datatype Lens = Lens(key: FeedKey, epoch: Epoch, coverage: CoverageMap)

  /** A peer turn of this feed that belongs to the current membership. */
  predicate InScope(key: FeedKey, epoch: Epoch, line: Line): (eligible: bool)
    ensures eligible ==> line.turn.Some?
  {
    && line.turn.Some?
    && line.turn.value.id.provider == key.provider
    && line.turn.value.id.session == key.session
    && line.turn.value.workstream == Some(epoch.workstream)
    && epoch.from < line.turn.value.endedAt
  }

  predicate Unread(lens: Lens, line: Line)
  {
    InScope(lens.key, lens.epoch, line) && !Acknowledged(lens.coverage, line.turn.value)
  }

  predicate Settled(lens: Lens, line: Line)
  {
    InScope(lens.key, lens.epoch, line) && Acknowledged(lens.coverage, line.turn.value)
  }

  /** The first unread line at or after `i`, or the end. */
  function Gap(lens: Lens, lines: seq<Line>, i: nat): (g: nat)
    requires i <= |lines|
    ensures i <= g <= |lines|
    ensures forall k | i <= k < g :: !Unread(lens, lines[k])
    ensures g < |lines| ==> Unread(lens, lines[g])
    decreases |lines| - i
  {
    if i == |lines| || Unread(lens, lines[i]) then i else Gap(lens, lines, i + 1)
  }

  /** The unread turns among the first `n` lines from line `i` on, oldest first. */
  function UnreadTurns(lens: Lens, lines: seq<Line>, i: nat, n: nat): (ts: seq<Turn>)
    requires i <= n <= |lines|
    decreases n
  {
    if i == n then []
    else UnreadTurns(lens, lines, i, n - 1) + if Unread(lens, lines[n - 1]) then [lines[n - 1].turn.value] else []
  }

  function SettledKeys(lens: Lens, lines: seq<Line>, i: nat, n: nat): (keys: set<RecordKey>)
    requires i <= n <= |lines|
  {
    set k | i <= k < n && Settled(lens, lines[k]) :: TurnKey(lines[k].turn.value)
  }

  /** `compareTurnRecency` > 0. */
  predicate NewerThan(a: Turn, b: Turn)
  {
    if a.endedAt != b.endedAt then a.endedAt > b.endedAt
    else if a.sequence != b.sequence then a.sequence > b.sequence
    else StringLess(b.id.turn, a.id.turn)
  }

  predicate StringLess(a: string, b: string)
    decreases |a|
  {
    if b == [] then false
    else if a == [] then true
    else if a[0] != b[0] then a[0] < b[0]
    else StringLess(a[1..], b[1..])
  }

  /** The most recent turn, the earlier one on a tie. */
  function Latest(ts: seq<Turn>): (t: Option<Turn>)
    decreases |ts|
  {
    if ts == [] then None
    else
      var sofar := Latest(ts[..|ts| - 1]);
      var last := ts[|ts| - 1];
      if sofar.None? || NewerThan(last, sofar.value) then Some(last) else sofar
  }

  function KeysOf(ts: seq<Turn>): (keys: set<RecordKey>)
  {
    set t | t in ts :: TurnKey(t)
  }

  datatype FeedScan = FeedScan(covered: Checkpoint, collapsed: set<RecordKey>, firstUnread: Option<Turn>,
                               unreadCount: nat, latest: Option<Turn>, unreadKeys: set<RecordKey>)

  /** Within the bounds of a delivery scan; a feed that is not is reported as unavailable. */
  predicate Scannable(feed: Feed, start: nat)
    requires start <= |feed.lines|
  {
    FileFits(feed) && TailFits(feed) && forall k | start <= k < |feed.lines| :: LineFits(feed.lines[k])
  }

  predicate FileFits(feed: Feed) { Size(feed) <= MAX_FEED_BYTES }

  predicate TailFits(feed: Feed) { feed.partial <= MAX_RECORD_BYTES }

  predicate LineFits(line: Line) { line.contentBytes <= MAX_RECORD_BYTES }

  function CheckpointAt(feed: Feed, line: nat): (cp: Checkpoint)
    requires line <= |feed.lines|
    ensures Size(feed) >= cp.offset ==> AtBoundary(cp, feed)
  {
    Checkpoint(feed.identity, Offset(feed.lines, line), line + 1, Size(feed))
  }

  /** The scan of one feed from a given line. */
  function ScanFrom(lens: Lens, feed: Feed, start: nat, targets: set<RecordKey>): (r: Option<FeedScan>)
    requires start <= |feed.lines|
  {
    if !Scannable(feed, start) then None
    else
      var gap := Gap(lens, feed.lines, start);
      var unread := UnreadTurns(lens, feed.lines, start, |feed.lines|);
      Some(FeedScan(
        CheckpointAt(feed, gap), SettledKeys(lens, feed.lines, start, gap),
        if unread == [] then None else Some(unread[0]),
        |unread|, Latest(unread), KeysOf(unread) * targets))
  }

  function ScanFeedSpec(lens: Lens, feed: Feed, saved: Option<Checkpoint>, targets: set<RecordKey>)
    : (r: Option<FeedScan>)
  {
    ScanFrom(lens, feed, ResumeLine(feed, saved), targets)
  }

  lemma ScanStart(lens: Lens, lines: seq<Line>, i: nat, targets: set<RecordKey>)
    requires i <= |lines|
    ensures UnreadTurns(lens, lines, i, i) == [] && SettledKeys(lens, lines, i, i) == {}
    ensures Latest([]) == None && KeysOf([]) * targets == {}
  {
  }

  lemma AppendTurn(ts: seq<Turn>, t: Turn)
    ensures KeysOf(ts + [t]) == KeysOf(ts) + {TurnKey(t)}
    ensures Latest(ts + [t]) == if Latest(ts).None? || NewerThan(t, Latest(ts).value) then Some(t) else Latest(ts)
  {
    assert (ts + [t])[..|ts|] == ts;
    assert t in ts + [t] && forall x | x in ts :: x in ts + [t];
  }

  /** What passing an unread line adds. */
  lemma PassUnread(lens: Lens, lines: seq<Line>, i: nat, n: nat, targets: set<RecordKey>)
    requires i <= n < |lines| && Unread(lens, lines[n])
    ensures var before, after := UnreadTurns(lens, lines, i, n), UnreadTurns(lens, lines, i, n + 1);
      var turn := lines[n].turn.value;
      && |after| == |before| + 1
      && KeysOf(after) * targets
         == KeysOf(before) * targets + (if TurnKey(turn) in targets then {TurnKey(turn)} else {})
      && Latest(after) ==
         if Latest(before).None? || NewerThan(turn, Latest(before).value) then Some(turn) else Latest(before)
  {
    AppendTurn(UnreadTurns(lens, lines, i, n), lines[n].turn.value);
  }

  /** What passing any other line leaves. */
  lemma PassRead(lens: Lens, lines: seq<Line>, i: nat, n: nat)
    requires i <= n < |lines| && !Unread(lens, lines[n])
    ensures UnreadTurns(lens, lines, i, n + 1) == UnreadTurns(lens, lines, i, n)
    ensures SettledKeys(lens, lines, i, n + 1) == SettledKeys(lens, lines, i, n)
         + if Settled(lens, lines[n]) then {TurnKey(lines[n].turn.value)} else {}
    ensures Offset(lines, n + 1) == Offset(lines, n) + lines[n].contentBytes + 1
  {
  }

  /** The first unread turn sits at the gap. */
  lemma {:induction false} FirstUnreadAtGap(lens: Lens, lines: seq<Line>, i: nat, n: nat)
    requires i <= n <= |lines|
    ensures var gap, unread := Gap(lens, lines, i), UnreadTurns(lens, lines, i, n);
      if n <= gap then unread == [] else unread != [] && unread[0] == lines[gap].turn.value
    decreases n
  {
    if i < n {
      FirstUnreadAtGap(lens, lines, i, n - 1);
    }
  }

  /** The gap is wherever the first unread line is found. */
  lemma {:induction false} GapFound(lens: Lens, lines: seq<Line>, i: nat, g: nat)
    requires i <= g <= |lines|
    requires forall k | i <= k < g :: !Unread(lens, lines[k])
    requires g < |lines| ==> Unread(lens, lines[g])
    ensures Gap(lens, lines, i) == g
  {

  }

  lemma ScanRefused(lens: Lens, feed: Feed, start: nat, targets: set<RecordKey>, k: nat)
    requires start <= |feed.lines|
    requires !FileFits(feed) || !TailFits(feed) || (start <= k < |feed.lines| && !LineFits(feed.lines[k]))
    ensures ScanFrom(lens, feed, start, targets) == None
  {
  }

  lemma ScanCompleted(lens: Lens, feed: Feed, start: nat, targets: set<RecordKey>, gap: nat)
    requires start <= gap <= |feed.lines| && Scannable(feed, start)
    requires forall k | start <= k < gap :: !Unread(lens, feed.lines[k])
    requires gap < |feed.lines| ==> Unread(lens, feed.lines[gap])
    ensures var unread := UnreadTurns(lens, feed.lines, start, |feed.lines|);
      ScanFrom(lens, feed, start, targets) == Some(FeedScan(
        Checkpoint(feed.identity, Offset(feed.lines, gap), gap + 1, Size(feed)),
        SettledKeys(lens, feed.lines, start, gap),
        if gap == |feed.lines| then None else feed.lines[gap].turn,
        |unread|, Latest(unread), KeysOf(unread) * targets))
  {
    GapFound(lens, feed.lines, start, gap);
    FirstUnreadAtGap(lens, feed.lines, start, |feed.lines|);
  }

  method ScanFeed(lens: Lens, feed: Feed, saved: Option<Checkpoint>, targets: set<RecordKey>)
    returns (r: Option<FeedScan>)
    ensures r == ScanFeedSpec(lens, feed, saved, targets)
  {
    r := ScanLines(lens, feed, ResumeLine(feed, saved), targets);
  }

  /** The scan loop: one pass that counts what is unread and stops the prefix at the first gap. */
  method ScanLines(lens: Lens, feed: Feed, start: nat, targets: set<RecordKey>) returns (r: Option<FeedScan>)
    requires start <= |feed.lines|
    ensures r == ScanFrom(lens, feed, start, targets)
  {
    hide FileFits, TailFits, LineFits, Acknowledged, NewerThan, SettledKeys, KeysOf, TurnKey, Latest, UnreadTurns,
      ScanFrom, InScope, Offset;
    if !FileFits(feed) {
      ScanRefused(lens, feed, start, targets, 0);
      return None;
    }
    var lines := feed.lines;
    var unreadCount: nat := 0;
    var latest: Option<Turn> := None;
    var unreadKeys: set<RecordKey> := {};
    var collapsed: set<RecordKey> := {};
    var prefixOpen := true;
    var prefixOffset := Offset(lines, start);
    var prefixLine := start;
    var firstUnread: Option<Turn> := None;
    ScanStart(lens, lines, start, targets);
    var k := start;
    while k < |lines|
      invariant start <= prefixLine <= k <= |lines|
      invariant forall j | start <= j < k :: LineFits(lines[j])
      invariant unreadCount == |UnreadTurns(lens, lines, start, k)|
      invariant latest == Latest(UnreadTurns(lens, lines, start, k))
      invariant unreadKeys == KeysOf(UnreadTurns(lens, lines, start, k)) * targets
      invariant forall j | start <= j < prefixLine :: !Unread(lens, lines[j])
      invariant prefixOpen ==> prefixLine == k
      invariant !prefixOpen ==> prefixLine < k && Unread(lens, lines[prefixLine])
      invariant firstUnread == if prefixOpen then None else lines[prefixLine].turn
      invariant prefixOffset == Offset(lines, prefixLine)
      invariant collapsed == SettledKeys(lens, lines, start, prefixLine)
    {
      var line := lines[k];
      if !LineFits(line) {
        ScanRefused(lens, feed, start, targets, k);
        return None;
      }
      var eligible := InScope(lens.key, lens.epoch, line);
      var acknowledged := eligible && Acknowledged(lens.coverage, line.turn.value);
      if eligible && !acknowledged {
        PassUnread(lens, lines, start, k, targets);
        if prefixOpen {
          firstUnread := line.turn;
        }
        prefixOpen := false;
        var turn := line.turn.value;
        if TurnKey(turn) in targets {
          unreadKeys := unreadKeys + {TurnKey(turn)};
        }
        unreadCount := unreadCount + 1;
        if latest.None? || NewerThan(turn, latest.value) {
          latest := Some(turn);
        }
      } else {
        PassRead(lens, lines, start, k);
        if prefixOpen {
          prefixOffset := prefixOffset + line.contentBytes + 1;
          prefixLine := k + 1;
          if acknowledged {
            collapsed := collapsed + {TurnKey(line.turn.value)};
          }
        }
      }
      k := k + 1;
    }
    if !TailFits(feed) {
      ScanRefused(lens, feed, start, targets, 0);
      return None;
    }
    ScanCompleted(lens, feed, start, targets, prefixLine);
    return Some(FeedScan(Checkpoint(feed.identity, prefixOffset, prefixLine + 1, Size(feed)),
                         collapsed, firstUnread, unreadCount, latest, unreadKeys));
  }
}
