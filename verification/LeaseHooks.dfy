/**
 * src/hooks/codex.ts and src/hooks/claude.ts: what each hook event does to its actor's lease. The
 * staleness rules are here as the code has them; the lemmas say what they amount to over runs.
 */
module LeaseHooks {
  import opened Base
  import opened ActiveLease

  /** The tool events that describe work: each with what it would write. */
  datatype ToolEvent =
    | PreToolUse(awaiting: bool, work: Work)
    | PermissionRequest(awaiting: bool, work: Work)
    | PostToolUse
    | PreCompact
    | PostCompact

  /**
   * One Codex hook event of an actor. `attested`: the event names its native turn and a clean rollout
   * names that turn as the last it started.
   */
  datatype CodexEvent =
    | SessionBoundary(turn: Option<string>)
    | SubagentStart(turn: Option<string>)
    | SubagentStop(turn: Option<string>, attested: bool)
    | UserPrompt(turn: Option<string>, prompt: string)
    | Tool(turn: Option<string>, attested: bool, tool: ToolEvent)
    | Stop(turn: Option<string>, attested: bool)

  /** The main actor, or a child whose root is visibly live or not. */
  datatype ActorView = Main | Child(rootLive: bool)

  function TurnOfLease(previous: Option<Lease>): Option<string>
  {
    if previous.Some? then previous.value.turnId else None
  }

  predicate TurnsDiffer(current: Option<string>, event: Option<string>)
  {
    current.Some? && event.Some? && current != event
  }

  predicate IsIdle(previous: Option<Lease>)
  {
    previous.Some? && previous.value.state.Idle?
  }

  /** Rollover to another turn needs the trace's word, and a turn to look for. */
  predicate RollsOver(turn: Option<string>, attested: bool)
  {
    turn.Some? && attested
  }

  predicate FirstSeenChildRefused(view: ActorView, previous: Option<Lease>)
  {
    view.Child? && previous.None? && !view.rootLive
  }

  predicate StaleTool(view: ActorView, previous: Option<Lease>, turn: Option<string>, attested: bool)
  {
    if FirstSeenChildRefused(view, previous) then true
    else
      var stale := TurnsDiffer(TurnOfLease(previous), turn);
      if view.Child? then
        if stale then !RollsOver(turn, attested) else IsIdle(previous)
      else if !IsIdle(previous) then stale
      else if turn.None? || TurnOfLease(previous) == turn then true
      else !RollsOver(turn, attested)
  }

  predicate StaleStop(previous: Option<Lease>, turn: Option<string>, attested: bool)
  {
    TurnsDiffer(TurnOfLease(previous), turn) && (!IsIdle(previous) || !RollsOver(turn, attested))
  }

  predicate Pristine(lease: Lease)
  {
    lease.state.Working? && lease.work == NO_WORK
  }

  predicate StalePrompt(view: ActorView, previous: Option<Lease>, turn: Option<string>)
  {
    view.Child? &&
    (|| TurnsDiffer(TurnOfLease(previous), turn)
     || (if previous.None? then !view.rootLive else !Pristine(previous.value)))
  }

  predicate StaleStart(view: ActorView, previous: Option<Lease>, turn: Option<string>)
  {
    TurnsDiffer(TurnOfLease(previous), turn) || previous.Some? || FirstSeenChildRefused(view, previous)
  }

  function SameTurnIntent(previous: Option<Lease>, turn: Option<string>): Option<string>
  {
    if turn.Some? && TurnOfLease(previous) == turn then previous.value.work.intent else None
  }

  function SameTurnContinuation(previous: Option<Lease>, turn: Option<string>): Option<string>
  {
    if turn.Some? && TurnOfLease(previous) == turn then previous.value.work.continuation else None
  }

  /** What a tool event that is not stale writes. */
  function ToolUpdate(previous: Option<Lease>, turn: Option<string>, tool: ToolEvent): LeaseUpdate
  {
    var continuation := SameTurnContinuation(previous, turn);
    match tool
    case PreToolUse(awaiting, work) =>
      LeaseUpdate(if awaiting then Waiting else Working, turn,
                  work.(intent := SameTurnIntent(previous, turn), continuation := continuation))
    case PermissionRequest(awaiting, work) =>
      var sameTurn := turn.Some? && TurnOfLease(previous) == turn;
      var kept := if sameTurn && previous.value.work.action.Some?
                  then if awaiting then work.(action := previous.value.work.action) else previous.value.work
                  else work;
      LeaseUpdate(Waiting, turn, kept.(intent := SameTurnIntent(previous, turn), continuation := continuation))
    case PostToolUse =>
      LeaseUpdate(Working, turn, NO_WORK.(intent := SameTurnIntent(previous, turn), continuation := continuation))
    case PreCompact =>
      LeaseUpdate(Working, turn, NO_WORK.(intent := if previous.Some? then previous.value.work.intent else None,
                                          action := Some("compact"), continuation := continuation))
    case PostCompact =>
      LeaseUpdate(Working, turn, NO_WORK.(intent := if previous.Some? then previous.value.work.intent else None,
                                          continuation := continuation))
  }

  function DecideCodex(view: ActorView, previous: Option<Lease>, e: CodexEvent): (d: Decision)
  {
    match e
    case SessionBoundary(turn) => WriteLease(IdleUpdate(turn))
    case SubagentStart(turn) =>
      if StaleStart(view, previous, turn) then Ignore else WriteLease(LeaseUpdate(Working, turn, NO_WORK))
    case SubagentStop(turn, attested) =>
      if TurnsDiffer(TurnOfLease(previous), turn) && !RollsOver(turn, attested) then Ignore
      else WriteLease(IdleUpdate(turn))
    case UserPrompt(turn, prompt) =>
      if StalePrompt(view, previous, turn) then Ignore
      else WriteLease(LeaseUpdate(Working, turn, NO_WORK.(intent := Some(prompt))))
    case Tool(turn, attested, tool) =>
      if StaleTool(view, previous, turn, attested) then Ignore else WriteLease(ToolUpdate(previous, turn, tool))
    case Stop(turn, attested) =>
      if StaleStop(previous, turn, attested) then Ignore else WriteLease(IdleUpdate(turn))
  }

  /** One event at a time: the decision is taken on the very lease it replaces. */
  function Step(view: ActorView, lease: Option<Lease>, e: CodexEvent, now: int): (next: Option<Lease>)
  {
    match DecideCodex(view, lease, e)
    case Ignore => lease
    case WriteLease(update) => Apply(lease, WriteOp(update, DEFAULT_TTL_MS, None, now))
  }

  datatype Timed = Timed(view: ActorView, event: CodexEvent, now: int)

  function Run(lease: Option<Lease>, events: seq<Timed>): (next: Option<Lease>)
    decreases |events|
  {
    if events == [] then lease else Run(Step(events[0].view, lease, events[0].event, events[0].now), events[1..])
  }

  predicate Commits(lease: Option<Lease>, e: Timed)
  {
    Step(e.view, lease, e.event, e.now) != lease
  }

  function Committed(lease: Option<Lease>, events: seq<Timed>): nat
    decreases |events|
  {
    if events == [] then 0
    else
      (if Commits(lease, events[0]) then 1 else 0)
      + Committed(Step(events[0].view, lease, events[0].event, events[0].now), events[1..])
  }

  /** Over every sequence of events the revision counts the commits: it rises by one with each, and never otherwise. */
  lemma {:induction false} RevisionCountsCommits(lease: Option<Lease>, events: seq<Timed>)
    ensures RevisionOf(Run(lease, events)) == RevisionOf(lease) + Committed(lease, events)
    decreases |events|
  {
    if events != [] {
      RevisionCountsCommits(Step(events[0].view, lease, events[0].event, events[0].now), events[1..]);
    }
  }

  /* ------------------------------ a settled turn stays settled ------------------------------ */

  predicate Settled(lease: Option<Lease>, turn: string)
  {
    IsIdle(lease) && lease.value.turnId == Some(turn)
  }

  /** What a delayed hook of the settled turn can be: not a root prompt, which begins a turn, nor a session boundary. */
  predicate OfSettledTurn(view: ActorView, e: CodexEvent, turn: string)
  {
    match e
    case SessionBoundary(_) => false
    case UserPrompt(t, _) => view.Child? && (t == Some(turn) || t == None)
    case SubagentStart(t) => t == Some(turn) || t == None
    case Tool(t, _, _) => t == Some(turn) || t == None
    case SubagentStop(t, _) => t == Some(turn)
    case Stop(t, _) => t == Some(turn)
  }

  /**
   * No sequence of delayed events of the settled turn revives its tombstone, whatever the trace says
   * and whether or not the root is live.
   */
  lemma {:induction false} TombstoneHolds(lease: Option<Lease>, events: seq<Timed>, turn: string)
    requires Settled(lease, turn) && forall e | e in events :: OfSettledTurn(e.view, e.event, turn)
    ensures Settled(Run(lease, events), turn)
    decreases |events|
  {
    if events != [] {
      assert events[0] in events;
      TombstoneHolds(Step(events[0].view, lease, events[0].event, events[0].now), events[1..], turn);
    }
  }

  /**
   * The exact rule: an event turns a tombstone into live work if and only if it is a root prompt, or a
   * tool event of another turn that the trace attests.
   */
  lemma RevivalIff(view: ActorView, lease: Option<Lease>, e: CodexEvent, now: int)
    requires IsIdle(lease) && RevisionOf(lease) < MAX_SAFE_INTEGER
    ensures Live(Step(view, lease, e, now)) <==>
      || (e.UserPrompt? && view.Main?)
      || (e.Tool? && RollsOver(e.turn, e.attested) && e.turn != lease.value.turnId
          && (view.Main? || lease.value.turnId.Some?))
  {
  }

  /* ------------------------------ a live turn is not idled by another ------------------------------ */

  /** A late event of another turn: a tool event or a Stop. */
  predicate OfOtherTurn(e: CodexEvent, turn: string)
  {
    (e.Tool? || e.Stop?) && e.turn.Some? && e.turn != Some(turn)
  }

  /** Late Stops and tool events of other turns leave the main actor's live lease exactly as it is. */
  lemma {:induction false} LiveTurnIsUntouched(lease: Option<Lease>, events: seq<Timed>, turn: string)
    requires Live(lease) && lease.value.turnId == Some(turn)
    requires forall e | e in events :: e.view.Main? && OfOtherTurn(e.event, turn)
    ensures Run(lease, events) == lease
    decreases |events|
  {
    if events != [] {
      assert events[0] in events;
      LiveTurnIsUntouched(lease, events[1..], turn);
    }
  }

  /** A Stop idles live work exactly when it names the same turn, or one of the two names none. */
  lemma StopIdlesIff(view: ActorView, lease: Option<Lease>, turn: Option<string>, attested: bool, now: int)
    requires Live(lease) && RevisionOf(lease) < MAX_SAFE_INTEGER
    ensures IsIdle(Step(view, lease, Stop(turn, attested), now)) <==>
      turn.None? || lease.value.turnId.None? || turn == lease.value.turnId
  {
  }

  /* ------------------------------ children ------------------------------ */

  /** Start and stop of a child converge to idle in either order. */
  lemma ChildOrderConverges(lease: Option<Lease>, turn: string, attested: bool, rootLive: bool, first: int, second: int)
    requires lease.None?
    ensures var stop, start := SubagentStop(Some(turn), attested), SubagentStart(Some(turn));
      && Settled(Run(lease, [Timed(Child(rootLive), start, first), Timed(Child(rootLive), stop, second)]), turn)
      && Settled(Run(lease, [Timed(Child(rootLive), stop, first), Timed(Child(rootLive), start, second)]), turn)
  {
    var stop, start := SubagentStop(Some(turn), attested), SubagentStart(Some(turn));
    RunTwo(lease, Timed(Child(rootLive), start, first), Timed(Child(rootLive), stop, second));
    RunTwo(lease, Timed(Child(rootLive), stop, first), Timed(Child(rootLive), start, second));
  }

  lemma RunTwo(lease: Option<Lease>, a: Timed, b: Timed)
    ensures Run(lease, [a, b]) == Step(b.view, Step(a.view, lease, a.event, a.now), b.event, b.now)
  {
    assert [a, b][1..] == [b] && [b][1..] == [];
    var middle := Step(a.view, lease, a.event, a.now);
    assert Run(middle, [b]) == Run(Step(b.view, middle, b.event, b.now), []);
  }
}
