/**
 * src/hooks/ingest-attempt.ts: the bounded record of ingest attempts. A summary of observations is a
 * window over the runs of equal observations, and a journal that is full forgets finished attempts first.
 */
module IngestJournal {
  import opened Base

  const MAX_INGEST_ATTEMPTS: nat := 32
  const MAX_TRANSITIONS: nat := 8
  const MAX_JOURNAL_BYTES: nat := 262144

  /** What a poll saw of the transcript: when, how large, and which file. */
  datatype Snapshot = Snapshot(at: int, size: nat, file: string)

  /** A stretch of polls that saw the same. */
  datatype Transition = Transition(firstAt: int, at: int, size: nat, file: string, repeats: nat)

  datatype Observations = Observations(
    count: nat, first: Option<Snapshot>, last: Option<Snapshot>, transitions: seq<Transition>, dropped: nat)

  const NONE_OBSERVED := Observations(0, None, None, [], 0)

  predicate Repeats(t: Transition, s: Snapshot)
  {
    t.size == s.size && t.file == s.file
  }

  function Fresh(s: Snapshot): Transition
  {
    Transition(s.at, s.at, s.size, s.file, 1)
  }

  /** All the runs of a sequence of polls, unbounded. */
  function Runs(os: seq<Snapshot>): (runs: seq<Transition>)
    ensures os != [] ==> runs != []
    ensures |runs| <= |os|
  {
    if os == [] then []
    else
      var init, s := os[..|os| - 1], os[|os| - 1];
      var before := Runs(init);
      if before != [] && Repeats(before[|before| - 1], s) then
        var last := before[|before| - 1];
        before[..|before| - 1] + [last.(at := s.at, repeats := last.repeats + 1)]
      else before + [Fresh(s)]
  }

  function Total(runs: seq<Transition>): nat
  {
    if runs == [] then 0 else Total(runs[..|runs| - 1]) + runs[|runs| - 1].repeats
  }

  lemma TotalPush(runs: seq<Transition>, t: Transition)
    ensures Total(runs + [t]) == Total(runs) + t.repeats
  {
    assert (runs + [t])[..|runs|] == runs;
  }

  /** The runs account for every poll. */
  lemma {:induction false} RunsTotal(os: seq<Snapshot>)
    ensures Total(Runs(os)) == |os|
    decreases |os|
  {
    hide Total;
    if os == [] {
      TotalOfNone();
    } else {
      var init, s := os[..|os| - 1], os[|os| - 1];
      var before := Runs(init);
      RunsTotal(init);
      if before != [] && Repeats(before[|before| - 1], s) {
        var n := |before| - 1;
        TotalPush(before[..n], before[n]);
        assert before == before[..n] + [before[n]];
        TotalPush(before[..n], before[n].(at := s.at, repeats := before[n].repeats + 1));
      } else {
        TotalPush(before, Fresh(s));
      }
    }
  }

  lemma TotalOfNone()
    ensures Total([]) == 0
  {
  }

  predicate Differ(a: Transition, b: Transition)
  {
    a.size != b.size || a.file != b.file
  }

  /** One more poll lengthens the last run or begins one that differs from it. */
  lemma NextRunDiffers(before: seq<Transition>, s: Snapshot, i: nat)
    requires i + 1 < |before| ==> Differ(before[i], before[i + 1])
    ensures var n := |before| - 1;
      var after := if before != [] && Repeats(before[n], s)
                   then before[..n] + [before[n].(at := s.at, repeats := before[n].repeats + 1)]
                   else before + [Fresh(s)];
      i + 1 < |after| ==> Differ(after[i], after[i + 1])
  {
  }

  /** Runs next to each other differ, so no shorter list describes the same polls. */
  lemma {:induction false} RunsDiffer(os: seq<Snapshot>, i: nat)
    requires i + 1 < |Runs(os)|
    ensures Differ(Runs(os)[i], Runs(os)[i + 1])
    decreases |os|
  {
    hide Differ, Repeats, Fresh;
    var init, s := os[..|os| - 1], os[|os| - 1];
    var before := Runs(init);
    if i + 1 < |before| {
      RunsDiffer(init, i);
    }
    NextRunDiffers(before, s, i);
  }

  /** The newest of a list, at most `n`. */
  function Newest<T>(xs: seq<T>, n: nat): (r: seq<T>)
    ensures |r| == Min(n, |xs|)
  {
    if |xs| <= n then xs else xs[|xs| - n..]
  }

  lemma NewestIs<T>(xs: seq<T>, k: nat, n: nat)
    requires k <= |xs| && |xs| - k == Min(n, |xs|)
    ensures Newest(xs, n) == xs[k..]
  {
  }

  /** What the summary of a sequence of polls ought to be. */
  function SummaryOf(os: seq<Snapshot>): Observations
  {
    Observations(
      |os|, if os == [] then None else Some(os[0]), if os == [] then None else Some(os[|os| - 1]),
      Newest(Runs(os), MAX_TRANSITIONS), |Runs(os)| - |Newest(Runs(os), MAX_TRANSITIONS)|)
  }

  /** Records one more poll in a summary, which keeps only the newest transitions. */
  method AddObservation(current: Observations, snapshot: Snapshot) returns (next: Observations)
    ensures |next.transitions| <= MAX_TRANSITIONS
    ensures next == Added(current, snapshot)
  {
    hide Newest, Repeats, Fresh, Added;
    var transitions := current.transitions;
    if |transitions| > 0 && Repeats(transitions[|transitions| - 1], snapshot) {
      var previous := transitions[|transitions| - 1];
      transitions := transitions[..|transitions| - 1] + [previous.(at := snapshot.at, repeats := previous.repeats + 1)];
    } else {
      transitions := transitions + [Fresh(snapshot)];
    }
    var pushed := transitions;
    var dropped := current.dropped;
    while |transitions| > MAX_TRANSITIONS
      invariant |transitions| + (dropped - current.dropped) == |pushed| && dropped >= current.dropped
      invariant |transitions| >= Min(MAX_TRANSITIONS, |pushed|)
      invariant transitions == pushed[dropped - current.dropped..]
    {
      assert transitions[1..] == pushed[dropped + 1 - current.dropped..];
      transitions := transitions[1..];
      dropped := dropped + 1;
    }
    AddedIs(current, snapshot, dropped - current.dropped);
    var first := if current.first.Some? then current.first else Some(snapshot);
    next := Observations(current.count + 1, first, Some(snapshot), transitions, dropped);
  }

  function Pushed(transitions: seq<Transition>, s: Snapshot): seq<Transition>
  {
    var n := |transitions|;
    if n > 0 && Repeats(transitions[n - 1], s) then
      transitions[..n - 1] + [transitions[n - 1].(at := s.at, repeats := transitions[n - 1].repeats + 1)]
    else transitions + [Fresh(s)]
  }

  lemma AddedIs(current: Observations, s: Snapshot, k: nat)
    requires var pushed := Pushed(current.transitions, s);
      k <= |pushed| && |pushed| - k == Min(MAX_TRANSITIONS, |pushed|)
    ensures var first := if current.first.Some? then current.first else Some(s);
      Added(current, s) == Observations(current.count + 1, first, Some(s), Pushed(current.transitions, s)[k..],
                                        current.dropped + k)
  {
    hide Newest, Repeats;
    NewestIs(Pushed(current.transitions, s), k, MAX_TRANSITIONS);
  }

  function Added(current: Observations, s: Snapshot): Observations
  {
    var transitions := Pushed(current.transitions, s);
    Observations(
      current.count + 1, if current.first.Some? then current.first else Some(s), Some(s),
      Newest(transitions, MAX_TRANSITIONS), current.dropped + |transitions| - |Newest(transitions, MAX_TRANSITIONS)|)
  }

  function AddAll(os: seq<Snapshot>): Observations
  {
    if os == [] then NONE_OBSERVED else Added(AddAll(os[..|os| - 1]), os[|os| - 1])
  }

  /** The bounded summary, kept poll by poll, is the newest part of the unbounded one. */
  lemma {:induction false} SummaryRefinesRuns(os: seq<Snapshot>)
    ensures AddAll(os) == SummaryOf(os)
    decreases |os|
  {
    hide Newest;
    if os != [] {
      var init, s := os[..|os| - 1], os[|os| - 1];
      SummaryRefinesRuns(init);
      WindowMoves(Runs(init), s);
      assert |os| > 1 ==> init[0] == os[0];
    }
  }

  lemma WindowMoves(before: seq<Transition>, s: Snapshot)
    ensures var window := Newest(before, MAX_TRANSITIONS);
      if before != [] && Repeats(before[|before| - 1], s) then
        var last := before[|before| - 1];
        var more := last.(at := s.at, repeats := last.repeats + 1);
        && window != [] && window[|window| - 1] == last
        && Newest(before[..|before| - 1] + [more], MAX_TRANSITIONS) == window[..|window| - 1] + [more]
        && Newest(window[..|window| - 1] + [more], MAX_TRANSITIONS) == window[..|window| - 1] + [more]
      else
        && (window != [] ==> before != [] && window[|window| - 1] == before[|before| - 1])
        && Newest(before + [Fresh(s)], MAX_TRANSITIONS) == Newest(window + [Fresh(s)], MAX_TRANSITIONS)
  {
  }

  /* ------------------------------ the journal ------------------------------ */

  datatype Attempt = Attempt(id: string, finished: bool, runnerInput: Option<string>, observations: Observations)

  datatype Journal = Journal(dropped: nat, attempts: seq<Attempt>)

  datatype JournalError = TooLarge

  type Weight = Journal -> nat

  /** The first finished attempt, or the first of all. */
  function OldestToDrop(attempts: seq<Attempt>): (i: nat)
    requires attempts != []
    ensures i < |attempts|
    ensures !attempts[i].finished ==> i == 0 && forall k | 0 <= k < |attempts| :: !attempts[k].finished
    ensures forall k | 0 <= k < i :: !attempts[k].finished
  {
    if attempts[0].finished || |attempts| == 1 then 0
    else
      var i := OldestToDrop(attempts[1..]);
      assert forall k | 0 < k < |attempts| :: attempts[k] == attempts[1..][k - 1];
      if attempts[1..][i].finished then i + 1 else 0
  }

  function DropOldest(j: Journal): (r: Journal)
    requires j.attempts != []
    ensures |r.attempts| == |j.attempts| - 1 && r.dropped == j.dropped + 1
  {
    var i := OldestToDrop(j.attempts);
    Journal(j.dropped + 1, j.attempts[..i] + j.attempts[i + 1..])
  }

  /** After dropping so many. */
  function DropMany(j: Journal, n: nat): (r: Journal)
    requires n <= |j.attempts|
    ensures |r.attempts| == |j.attempts| - n && r.dropped == j.dropped + n
    decreases n
  {
    if n == 0 then j else DropOldest(DropMany(j, n - 1))
  }

  function Running(attempts: seq<Attempt>): seq<Attempt>
  {
    if attempts == [] then [] else (if attempts[0].finished then [] else [attempts[0]]) + Running(attempts[1..])
  }

  function FinishedCount(attempts: seq<Attempt>): (n: nat)
    ensures n <= |attempts|
  {
    if attempts == [] then 0 else (if attempts[0].finished then 1 else 0) + FinishedCount(attempts[1..])
  }

  lemma {:induction false} RunningConcat(a: seq<Attempt>, b: seq<Attempt>)
    ensures Running(a + b) == Running(a) + Running(b) && FinishedCount(a + b) == FinishedCount(a) + FinishedCount(b)
    decreases |a|
  {
    if a == [] {
      assert a + b == b;
    } else {
      assert (a + b)[0] == a[0] && (a + b)[1..] == a[1..] + b;
      RunningConcat(a[1..], b);
    }
  }

  lemma {:induction false} NoneFinished(attempts: seq<Attempt>)
    requires forall k | 0 <= k < |attempts| :: !attempts[k].finished
    ensures FinishedCount(attempts) == 0 && Running(attempts) == attempts
    decreases |attempts|
  {
    if attempts != [] {
      NoneFinished(attempts[1..]);
      assert attempts == [attempts[0]] + attempts[1..];
    }
  }

  lemma RunningOne(x: Attempt)
    ensures Running([x]) == (if x.finished then [] else [x]) && FinishedCount([x]) == (if x.finished then 1 else 0)
  {
    assert [x][1..] == [];
  }

  lemma DropOldestKeepsRunning(j: Journal)
    requires j.attempts != []
    ensures FinishedCount(j.attempts) > 0 ==>
      && Running(DropOldest(j).attempts) == Running(j.attempts)
      && FinishedCount(DropOldest(j).attempts) == FinishedCount(j.attempts) - 1
  {
    hide Running, FinishedCount, OldestToDrop;
    var a := j.attempts;
    var i := OldestToDrop(a);
    var head, x, tail := a[..i], a[i], a[i + 1..];
    assert a == head + ([x] + tail);
    RunningConcat(head, [x] + tail);
    RunningConcat([x], tail);
    RunningConcat(head, tail);
    RunningOne(x);
    if !x.finished {
      NoneFinished(a);
    }
  }

  /** Whatever is dropped, finished attempts go first: no running attempt is lost while one is left. */
  lemma {:induction false} RunningAttemptsOutlastFinished(j: Journal, n: nat)
    requires n <= FinishedCount(j.attempts)
    ensures Running(DropMany(j, n).attempts) == Running(j.attempts)
    ensures FinishedCount(DropMany(j, n).attempts) == FinishedCount(j.attempts) - n
    decreases n
  {
    if n > 0 {
      RunningAttemptsOutlastFinished(j, n - 1);
      DropOldestKeepsRunning(DropMany(j, n - 1));
    }
  }

  /** The last resort: the newest attempt alone, without its runner input and its older transitions. */
  function Compacted(j: Journal): (r: Journal)
    requires j.attempts != []
    ensures |r.attempts| == 1 && r.dropped == j.dropped
  {
    var newest := j.attempts[|j.attempts| - 1];
    var o := newest.observations;
    var kept := Newest(o.transitions, 1);
    j.(attempts := [newest.(runnerInput := None,
                            observations := o.(transitions := kept, dropped := o.dropped + |o.transitions| - |kept|))])
  }

  /** Dropping fewer than `n` attempts leaves too many, or too many bytes. */
  ghost predicate TooHeavyBelow(journal: Journal, n: nat, weigh: Weight)
  {
    forall m: nat | m < n && m <= |journal.attempts| && |journal.attempts| - m <= MAX_INGEST_ATTEMPTS ::
      weigh(DropMany(journal, m)) > MAX_JOURNAL_BYTES
  }

  lemma DropNone(journal: Journal)
    ensures DropMany(journal, 0) == journal
  {
  }

  lemma DropOneMore(journal: Journal, n: nat)
    requires n < |journal.attempts|
    ensures DropMany(journal, n + 1) == DropOldest(DropMany(journal, n))
  {
  }

  /** What is left when all attempts but one are dropped. */
  function LastLeft(journal: Journal): (r: Journal)
    requires journal.attempts != []
    ensures |r.attempts| == 1
  {
    DropMany(journal, |journal.attempts| - 1)
  }

  /**
   * Fits a journal into its bounds. Attempts and drops together stay as many; what remains has lost the
   * fewest attempts that make it fit; and a compacted attempt still accounts for all its transitions. A
   * journal without attempts is left alone, whatever it weighs.
   */
  method FitJournal(journal: Journal, weigh: Weight) returns (result: Result<Journal, JournalError>)
    ensures journal.attempts == [] ==> result == Ok(journal)
    ensures result.Ok? && journal.attempts != [] ==>
      var fitted := result.value;
      && |fitted.attempts| <= MAX_INGEST_ATTEMPTS && weigh(fitted) <= MAX_JOURNAL_BYTES
      && fitted.dropped + |fitted.attempts| == journal.dropped + |journal.attempts|
      && var dropped := |journal.attempts| - |fitted.attempts|;
      && dropped >= 0
      && (fitted == DropMany(journal, dropped)
          || (|fitted.attempts| == 1 && fitted == Compacted(DropMany(journal, dropped))
              && weigh(DropMany(journal, dropped)) > MAX_JOURNAL_BYTES))
      && TooHeavyBelow(journal, dropped, weigh)
    ensures result.Err? ==>
      && journal.attempts != [] && TooHeavyBelow(journal, |journal.attempts|, weigh)
      && weigh(Compacted(LastLeft(journal))) > MAX_JOURNAL_BYTES
  {
    hide DropMany, DropOldest, Compacted;
    var fitted := journal;
    DropNone(journal);
    ghost var n := 0;
    while |fitted.attempts| > MAX_INGEST_ATTEMPTS
      invariant n <= |journal.attempts| && fitted == DropMany(journal, n)
      invariant n > 0 ==> |journal.attempts| - n >= MAX_INGEST_ATTEMPTS
      decreases |fitted.attempts|
    {
      DropOneMore(journal, n);
      fitted := DropOldest(fitted);
      n := n + 1;
    }
    while |fitted.attempts| > 1 && weigh(fitted) > MAX_JOURNAL_BYTES
      invariant n <= |journal.attempts| && fitted == DropMany(journal, n) && |fitted.attempts| <= MAX_INGEST_ATTEMPTS
      invariant journal.attempts != [] ==> fitted.attempts != []
      invariant TooHeavyBelow(journal, n, weigh)
      decreases |fitted.attempts|
    {
      DropOneMore(journal, n);
      fitted := DropOldest(fitted);
      n := n + 1;
    }
    if weigh(fitted) > MAX_JOURNAL_BYTES {
      if fitted.attempts == [] {
        return Ok(fitted);
      }
      fitted := Compacted(fitted);
    }
    if weigh(fitted) > MAX_JOURNAL_BYTES {
      return Err(TooLarge);
    }
    return Ok(fitted);
  }
}
