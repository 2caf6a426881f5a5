/**
 * src/hooks/claude.ts: Claude's hook events on an actor's lease. Tools run in parallel there, so the
 * claims of a batch gather until the batch is over.
 */
module ClaudeHooks {
  import opened Base
  import opened JsText
  import opened ActiveLease
  import StableJson

  datatype ClaudeEvent =
    | Settles
    | StopEvent
    | SubagentStart
    | Prompt(prompt: string)
    | PreToolUse(awaiting: bool, action: string, claims: seq<Text>, unknownWriteScope: bool)
    | PostToolUse
    | PostToolBatch

  /* ------------------------------ merging claims ------------------------------ */

  predicate Ordered(claims: seq<Text>)
  {
    forall i, j | 0 <= i < j < |claims| :: StableJson.Before(claims[i], claims[j])
  }

  function AddClaim(claims: seq<Text>, claim: Text): (r: seq<Text>)
    ensures forall c :: c in r <==> c == claim || c in claims
  {
    if claims == [] then [claim]
    else
      assert claims == [claims[0]] + claims[1..];
      if claims[0] == claim then claims
      else if StableJson.Before(claim, claims[0]) then [claim] + claims
      else [claims[0]] + AddClaim(claims[1..], claim)
  }

  /** The claims of both lists, each once and in the order of their keys. */
  function MergeClaims(previous: seq<Text>, added: seq<Text>): (r: seq<Text>)
    ensures forall c :: c in r <==> c in previous || c in added
    decreases |previous| + |added|
  {
    if added != [] then
      assert added == added[..|added| - 1] + [added[|added| - 1]];
      AddClaim(MergeClaims(previous, added[..|added| - 1]), added[|added| - 1])
    else if previous != [] then
      assert previous == previous[..|previous| - 1] + [previous[|previous| - 1]];
      AddClaim(MergeClaims(previous[..|previous| - 1], []), previous[|previous| - 1])
    else []
  }

  lemma {:induction false} AddKeepsOrder(claims: seq<Text>, claim: Text)
    requires Ordered(claims)
    ensures Ordered(AddClaim(claims, claim))
    decreases |claims|
  {
    var r := AddClaim(claims, claim);
    if claims == [] || claims[0] == claim {
    } else if StableJson.Before(claim, claims[0]) {
      forall i, j | 0 <= i < j < |r| ensures StableJson.Before(r[i], r[j]) {
        if i == 0 && j > 1 {
          StableJson.BeforeTransitive(claim, claims[0], claims[j - 1]);
        }
      }
    } else {
      AddKeepsOrder(claims[1..], claim);
      StableJson.OneComesFirst(claim, claims[0]);
      var later := AddClaim(claims[1..], claim);
      forall i, j | 0 <= i < j < |r| ensures StableJson.Before(r[i], r[j]) {
        if i == 0 {
          assert later[j - 1] in later;
        } else {
          assert r[i] == later[i - 1] && r[j] == later[j - 1];
        }
      }
    }
  }

  lemma {:induction false} MergeOrdered(previous: seq<Text>, added: seq<Text>)
    ensures Ordered(MergeClaims(previous, added))
    decreases |previous| + |added|
  {
    if added != [] {
      MergeOrdered(previous, added[..|added| - 1]);
      AddKeepsOrder(MergeClaims(previous, added[..|added| - 1]), added[|added| - 1]);
    } else if previous != [] {
      MergeOrdered(previous[..|previous| - 1], []);
      AddKeepsOrder(MergeClaims(previous[..|previous| - 1], []), previous[|previous| - 1]);
    }
  }

  /** Ordered lists of the same claims are one list, so the order in which claims arrive leaves no trace. */
  lemma {:induction false} OrderedUnique(x: seq<Text>, y: seq<Text>)
    requires Ordered(x) && Ordered(y) && forall c :: c in x <==> c in y
    ensures x == y
    decreases |x|
  {
    HeadIsIn(x);
    HeadIsIn(y);
    if x != [] && y != [] {
      FirstEqual(x, y);
      RestsEqual(x, y);
      RestsEqual(y, x);
      OrderedUnique(x[1..], y[1..]);
      assert x == [x[0]] + x[1..] && y == [y[0]] + y[1..];
    }
  }

  lemma HeadIsIn(x: seq<Text>)
    ensures x != [] ==> x[0] in x
  {
  }

  lemma FirstEqual(x: seq<Text>, y: seq<Text>)
    requires Ordered(x) && Ordered(y) && x != [] && y != [] && x[0] in y && y[0] in x
    ensures x[0] == y[0]
  {
    StableJson.OneComesFirst(x[0], y[0]);
  }

  lemma RestsEqual(x: seq<Text>, y: seq<Text>)
    requires Ordered(x) && x != [] && y != [] && x[0] == y[0] && forall c | c in x :: c in y
    ensures forall c | c in x[1..] :: c in y[1..]
  {
    forall c | c in x[1..] ensures c in y[1..] {
      var i :| 0 <= i < |x| - 1 && x[1..][i] == c;
      assert x[i + 1] == c && StableJson.Before(x[0], c);
      assert c in y && c != y[0];
      var j :| 0 <= j < |y| && y[j] == c;
      assert y[1..][j - 1] == c;
    }
  }

  /* ------------------------------ decisions ------------------------------ */

  function DecideClaude(previous: Option<Lease>, e: ClaudeEvent): (d: Decision)
  {
    match e
    case Settles => WriteLease(IdleUpdate(None))
    case StopEvent => WriteLease(IdleUpdate(None))
    case SubagentStart => WriteLease(LeaseUpdate(Working, None, NO_WORK.(unknownWriteScope := true)))
    case Prompt(prompt) => WriteLease(LeaseUpdate(Working, None, NO_WORK.(intent := Some(prompt))))
    case PreToolUse(awaiting, action, claims, unknown) =>
      if previous.Some? && previous.value.state.Idle? then Ignore
      else
        var before := if previous.Some? then previous.value.work else NO_WORK;
        WriteLease(LeaseUpdate(
          if awaiting then Waiting else Working, None,
          if awaiting then Work(before.intent, Some(action), [], false, None)
          else Work(before.intent, Some(action), MergeClaims(before.claims, claims),
                    before.unknownWriteScope || unknown, None)))
    case PostToolUse => Ignore
    case PostToolBatch =>
      if !Live(previous) then Ignore
      else WriteLease(LeaseUpdate(Working, None, NO_WORK.(intent := previous.value.work.intent)))
  }

  function Step(lease: Option<Lease>, e: ClaudeEvent, now: int): (next: Option<Lease>)
  {
    match DecideClaude(lease, e)
    case Ignore => lease
    case WriteLease(update) => Apply(lease, WriteOp(update, DEFAULT_TTL_MS, None, now))
  }

  datatype Timed = Timed(event: ClaudeEvent, now: int)

  function Run(lease: Option<Lease>, events: seq<Timed>): (next: Option<Lease>)
    decreases |events|
  {
    if events == [] then lease
    else
      var last := events[|events| - 1];
      Step(Run(lease, events[..|events| - 1]), last.event, last.now)
  }

  predicate ToolKind(e: ClaudeEvent)
  {
    e.PreToolUse? || e.PostToolUse? || e.PostToolBatch?
  }

  /** After the turn settled, no sequence of delayed tool hooks changes the tombstone. */
  lemma {:induction false} TombstoneHolds(lease: Option<Lease>, events: seq<Timed>)
    requires lease.Some? && lease.value.state.Idle? && forall e | e in events :: ToolKind(e.event)
    ensures Run(lease, events) == lease
    decreases |events|
  {
    if events != [] {
      assert events[|events| - 1] in events;
      TombstoneHolds(lease, events[..|events| - 1]);
    }
  }

  /* ------------------------------ a batch of parallel tools ------------------------------ */

  /** Starting tools and single completions, in any order. */
  predicate WithinBatch(e: ClaudeEvent)
  {
    e.PostToolUse? || (e.PreToolUse? && !e.awaiting)
  }

  predicate Claims(e: ClaudeEvent, c: Text)
  {
    e.PreToolUse? && c in e.claims
  }

  predicate Claimed(events: seq<Timed>, c: Text)
  {
    exists e :: e in events && Claims(e.event, c)
  }

  predicate Unscoped(e: ClaudeEvent)
  {
    e.PreToolUse? && e.unknownWriteScope
  }

  predicate AnyUnscoped(events: seq<Timed>)
  {
    exists e :: e in events && Unscoped(e.event)
  }

  /** One more event of the batch. */
  lemma StepGathers(lease: Option<Lease>, e: ClaudeEvent, now: int, c: Text)
    requires Live(lease) && WithinBatch(e) && RevisionOf(lease) < MAX_SAFE_INTEGER
    ensures var next := Step(lease, e, now);
      && Live(next) && RevisionOf(next) <= RevisionOf(lease) + 1
      && (c in next.value.work.claims <==> c in lease.value.work.claims || Claims(e, c))
      && (next.value.work.unknownWriteScope <==> lease.value.work.unknownWriteScope || Unscoped(e))
      && (Ordered(lease.value.work.claims) ==> Ordered(next.value.work.claims))
  {
    if e.PreToolUse? {
      MergeOrdered(lease.value.work.claims, e.claims);
    }
  }

  /**
   * Through a whole batch no claim is lost and none is invented: a path is claimed exactly when it was
   * before or some tool of the batch claims it, and likewise for a tool of unknown scope.
   */
  lemma {:induction false} ClaimsGather(lease: Option<Lease>, events: seq<Timed>, c: Text)
    requires Live(lease) && (forall e | e in events :: WithinBatch(e.event))
    requires RevisionOf(lease) + |events| <= MAX_SAFE_INTEGER
    ensures var after := Run(lease, events);
      && Live(after) && RevisionOf(after) <= RevisionOf(lease) + |events|
      && (c in after.value.work.claims <==> c in lease.value.work.claims || Claimed(events, c))
      && (after.value.work.unknownWriteScope <==> lease.value.work.unknownWriteScope || AnyUnscoped(events))
      && (Ordered(lease.value.work.claims) ==> Ordered(after.value.work.claims))
    decreases |events|
  {
    hide Step, Claims, Ordered, Live, WithinBatch, Unscoped;
    if events != [] {
      var init, last := events[..|events| - 1], events[|events| - 1];
      assert events == init + [last];
      ClaimsGather(lease, init, c);
      StepGathers(Run(lease, init), last.event, last.now, c);
    }
  }

  /** The tools of a batch may start in any order: the lease claims the same. */
  lemma BatchOrderIsFree(lease: Option<Lease>, a: seq<Timed>, b: seq<Timed>)
    requires Live(lease) && Ordered(lease.value.work.claims) && (forall e | e in a :: WithinBatch(e.event))
    requires multiset(a) == multiset(b) && RevisionOf(lease) + |a| <= MAX_SAFE_INTEGER
    ensures Run(lease, a).Some? && Run(lease, b).Some?
    ensures Run(lease, a).value.work.claims == Run(lease, b).value.work.claims
    ensures Run(lease, a).value.work.unknownWriteScope == Run(lease, b).value.work.unknownWriteScope
  {
    hide Step, Run, Ordered, WithinBatch;
    SameEvents(a, b);
    ClaimsGather(lease, a, []);
    ClaimsGather(lease, b, []);
    forall c ensures c in Run(lease, a).value.work.claims <==> c in Run(lease, b).value.work.claims {
      ClaimsGather(lease, a, c);
      ClaimsGather(lease, b, c);
    }
    OrderedUnique(Run(lease, a).value.work.claims, Run(lease, b).value.work.claims);
  }

  lemma SameEvents(a: seq<Timed>, b: seq<Timed>)
    requires multiset(a) == multiset(b)
    ensures |a| == |b| && forall e :: e in a <==> e in b
  {
    assert |multiset(a)| == |a| && |multiset(b)| == |b|;
    forall e ensures e in a <==> e in b {
      assert e in a <==> e in multiset(a);
      assert e in b <==> e in multiset(b);
    }
  }
}
