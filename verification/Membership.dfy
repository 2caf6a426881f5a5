/**
 * Membership of a session in workstreams: src/hooks/participation.ts extends an append-only history,
 * src/runner/workstream-stamp.ts stamps records by it, and src/reader/publish.ts attributes attempts.
 */
module Membership {
  import opened Base

  datatype Member = Member(workstream: string, from: int)

  /** The stored consent record: v1 is unscoped; an early v2 named its workstream without a history. */
  datatype Participation =
    | V1(joinedAt: int)
    | V2(workstream: string, joinedAt: int, memberships: Option<seq<Member>>)

  /** The last time a JavaScript Date can hold. */
  const MAX_DATE: int := 8640000000000000

  datatype EnrollError = InvalidTime

  function MembershipsOf(p: Option<Participation>): (ms: seq<Member>)
  {
    if p.None? || p.value.V1? then []
    else if p.value.memberships.Some? then p.value.memberships.value
    else [Member(p.value.workstream, p.value.joinedAt)]
  }

  /** validateMemberships: not empty, strictly increasing times, and the last one current. */
  predicate ValidMemberships(ms: seq<Member>, current: string)
  {
    ms != [] && Increasing(ms) && ms[|ms| - 1].workstream == current
  }

  predicate Increasing(ms: seq<Member>)
  {
    forall i, j | 0 <= i < j < |ms| :: ms[i].from < ms[j].from
  }

  predicate ValidParticipation(p: Participation)
  {
    p.V2? && p.memberships.Some? ==> ValidMemberships(p.memberships.value, p.workstream)
  }

  /** A later time than the last membership's, even when the clock has gone backwards. */
  function NextMembershipFrom(ms: seq<Member>, requestedFrom: int): (from: Result<int, EnrollError>)
    ensures from.Ok? ==> from.value >= requestedFrom && (ms != [] ==> from.value > ms[|ms| - 1].from)
  {
    var from := if ms == [] || requestedFrom > ms[|ms| - 1].from then requestedFrom else ms[|ms| - 1].from + 1;
    if from < -MAX_DATE || from > MAX_DATE then Err(InvalidTime) else Ok(from)
  }

  function Enrolled(previous: Option<Participation>, workstream: string, joinedAt: int)
    : (r: Result<Participation, EnrollError>)
  {
    var prior := MembershipsOf(previous);
    match NextMembershipFrom(prior, joinedAt)
    case Err(e) => Err(e)
    case Ok(from) =>
      Ok(V2(workstream, if previous.None? then joinedAt else previous.value.joinedAt,
            Some(prior + [Member(workstream, from)])))
  }

  datatype Move = Move(workstream: string, at: int)

  function AfterMove(p: Option<Participation>, m: Move): (next: Option<Participation>)
  {
    match Enrolled(p, m.workstream, m.at)
    case Err(_) => p
    case Ok(next) => Some(next)
  }

  class ParticipationRecord {
    var stored: Option<Participation>

    constructor ()
      ensures stored == None
    {
      stored := None;
    }

    /** Joining, or moving to another workstream: the history is extended by one membership. */
    method Enroll(workstream: string, joinedAt: int) returns (r: Result<(), EnrollError>)
      requires stored.Some? ==> ValidParticipation(stored.value)
      modifies this
      ensures r.Err? ==> stored == old(stored)
      ensures r.Ok? ==>
        && stored.Some? && ValidParticipation(stored.value) && stored.value.V2? && stored.value.workstream == workstream
        && old(MembershipsOf(stored)) <= MembershipsOf(stored)
        && |MembershipsOf(stored)| == |old(MembershipsOf(stored))| + 1
      ensures stored == AfterMove(old(stored), Move(workstream, joinedAt))
    {
      var prior := MembershipsOf(stored);
      var from := NextMembershipFrom(prior, joinedAt);
      if from.Err? {
        return Err(from.error);
      }
      var first := if stored.None? then joinedAt else stored.value.joinedAt;
      stored := Some(V2(workstream, first, Some(prior + [Member(workstream, from.value)])));
      return Ok(());
    }
  }

  /* ------------------------------ stamps ------------------------------ */

  /** A membership that is in effect at a time: begun, and no later one begun. */
  predicate InEffect(ms: seq<Member>, i: int, at: int)
  {
    0 <= i < |ms| && ms[i].from <= at && forall j | i < j < |ms| :: ms[j].from > at
  }

  /** The workstream in effect at a time, by its definition. */
  ghost predicate IsStamp(ms: seq<Member>, at: int, stamp: Option<string>)
  {
    match stamp
    case None => forall i | 0 <= i < |ms| :: ms[i].from > at
    case Some(w) => exists i :: InEffect(ms, i, at) && ms[i].workstream == w
  }

  /** src/runner/workstream-stamp.ts, the inner loop: it stops at the first membership that is too late. */
  method StampByTimestamp(ms: seq<Member>, timestamp: int) returns (stamp: Option<string>)
    ensures stamp == StampAt(ms, timestamp)
    ensures Increasing(ms) ==> IsStamp(ms, timestamp, stamp)
  {
    stamp := None;
    var i := 0;
    while i < |ms|
      invariant 0 <= i <= |ms|
      invariant forall j | 0 <= j < i :: ms[j].from <= timestamp
      invariant stamp == if i == 0 then None else Some(ms[i - 1].workstream)
    {
      if ms[i].from > timestamp { break; }
      stamp := Some(ms[i].workstream);
      i := i + 1;
    }
    StampAtPrefix(ms, timestamp, i);
    if i > 0 && Increasing(ms) {
      assert InEffect(ms, i - 1, timestamp);
    }
  }

  function StampAt(ms: seq<Member>, at: int): (stamp: Option<string>)
  {
    if ms == [] || ms[0].from > at then None
    else
      var later := StampAt(ms[1..], at);
      if later.Some? then later else Some(ms[0].workstream)
  }

  lemma {:induction false} StampAtPrefix(ms: seq<Member>, at: int, i: nat)
    requires i <= |ms| && (forall j | 0 <= j < i :: ms[j].from <= at) && (i < |ms| ==> ms[i].from > at)
    ensures StampAt(ms, at) == if i == 0 then None else Some(ms[i - 1].workstream)
    decreases |ms|
  {
    if i > 0 {
      StampAtPrefix(ms[1..], at, i - 1);
    }
  }

  /** src/reader/publish.ts: the membership an attempt is attributed to is the one that stamps its records. */
  method EffectiveMembership(ms: seq<Member>, triggeredAt: int) returns (effective: Option<Member>)
    ensures StampAt(ms, triggeredAt) == if effective.Some? then Some(effective.value.workstream) else None
    ensures Increasing(ms) && effective.Some? ==> exists i :: InEffect(ms, i, triggeredAt) && ms[i] == effective.value
  {
    effective := None;
    var i := 0;
    while i < |ms|
      invariant 0 <= i <= |ms|
      invariant forall j | 0 <= j < i :: ms[j].from <= triggeredAt
      invariant effective == if i == 0 then None else Some(ms[i - 1])
    {
      if ms[i].from <= triggeredAt {
        effective := Some(ms[i]);
      } else {
        break;
      }
      i := i + 1;
    }
    StampAtPrefix(ms, triggeredAt, i);
    if i > 0 && Increasing(ms) {
      assert InEffect(ms, i - 1, triggeredAt);
    }
  }

  /** There is at most one stamp, so the definition leaves nothing open. */
  lemma StampUnique(ms: seq<Member>, at: int, a: Option<string>, b: Option<string>)
    requires IsStamp(ms, at, a) && IsStamp(ms, at, b)
    ensures a == b
  {
    if a.Some? && b.Some? {
      var i :| InEffect(ms, i, at) && ms[i].workstream == a.value;
      var j :| InEffect(ms, j, at) && ms[j].workstream == b.value;
      assert i == j;
    }
  }

  /* ------------------------------ moves ------------------------------ */

  function AfterMoves(p: Option<Participation>, moves: seq<Move>): (next: Option<Participation>)
    decreases |moves|
  {
    if moves == [] then p else AfterMoves(AfterMove(p, moves[0]), moves[1..])
  }

  predicate Consistent(p: Option<Participation>)
  {
    p.Some? ==> ValidParticipation(p.value)
  }

  lemma MoveExtends(p: Option<Participation>, m: Move)
    requires Consistent(p)
    ensures Consistent(AfterMove(p, m)) && MembershipsOf(p) <= MembershipsOf(AfterMove(p, m))
    ensures Increasing(MembershipsOf(AfterMove(p, m)))
  {
  }

  /** Over any sequence of moves, whatever the clock does, the history is only extended and stays increasing. */
  lemma {:induction false} HistoryOnlyExtends(p: Option<Participation>, moves: seq<Move>)
    requires Consistent(p)
    ensures Consistent(AfterMoves(p, moves)) && MembershipsOf(p) <= MembershipsOf(AfterMoves(p, moves))
    ensures Increasing(MembershipsOf(AfterMoves(p, moves)))
    decreases |moves|
  {
    if moves != [] {
      MoveExtends(p, moves[0]);
      HistoryOnlyExtends(AfterMove(p, moves[0]), moves[1..]);
    }
  }

  lemma {:induction false} StampOfExtended(ms: seq<Member>, m: Member, at: int)
    requires Increasing(ms + [m])
    ensures StampAt(ms + [m], at) == if m.from <= at then Some(m.workstream) else StampAt(ms, at)
    decreases |ms|
  {
    if ms == [] {
      assert ([m])[1..] == [];
    } else {
      var all := ms + [m];
      assert all[0] == ms[0] && all[1..] == ms[1..] + [m];
      assert all[0].from < all[|ms|].from;
      assert Increasing(ms[1..] + [m]) by {
        forall i, j | 0 <= i < j < |ms| ensures (ms[1..] + [m])[i].from < (ms[1..] + [m])[j].from {
          assert all[i + 1].from < all[j + 1].from;
        }
      }
      StampOfExtended(ms[1..], m, at);
    }
  }

  /** A move takes the records from its own time on, and no others. */
  lemma MoveStampsLaterRecords(p: Option<Participation>, m: Move, at: int)
    requires Consistent(p) && Enrolled(p, m.workstream, m.at).Ok?
    ensures var ms, after := MembershipsOf(p), MembershipsOf(AfterMove(p, m));
      StampAt(after, at) == if after[|after| - 1].from <= at then Some(m.workstream) else StampAt(ms, at)
  {
    MoveExtends(p, m);
    var ms, after := MembershipsOf(p), MembershipsOf(AfterMove(p, m));
    assert after == ms + [after[|after| - 1]];
    StampOfExtended(ms, after[|after| - 1], at);
  }

  /** Memberships entered since the history had `count` of them begin after `at`. */
  predicate BeginLater(ms: seq<Member>, count: nat, at: int)
  {
    forall i | count <= i < |ms| :: at < ms[i].from
  }

  /**
   * So a record keeps its stamp through every move whose membership begins after it: also when a
   * clock set back has asked for an earlier time.
   */
  lemma {:induction false} StampsAreNeverRewritten(p: Option<Participation>, moves: seq<Move>, at: int)
    requires Consistent(p) && BeginLater(MembershipsOf(AfterMoves(p, moves)), |MembershipsOf(p)|, at)
    ensures StampAt(MembershipsOf(AfterMoves(p, moves)), at) == StampAt(MembershipsOf(p), at)
    decreases |moves|
  {
    if moves != [] {
      var m := moves[0];
      var next := AfterMove(p, m);
      MoveExtends(p, m);
      HistoryOnlyExtends(next, moves[1..]);
      if Enrolled(p, m.workstream, m.at).Ok? {
        MoveStampsLaterRecords(p, m, at);
        var ms, all := MembershipsOf(next), MembershipsOf(AfterMoves(p, moves));
        assert all[|ms| - 1] == ms[|ms| - 1];
      }
      StampsAreNeverRewritten(next, moves[1..], at);
    }
  }

  predicate BegunSince(p: Option<Participation>, at: int)
  {
    MembershipsOf(p) != [] && at <= MembershipsOf(p)[|MembershipsOf(p)| - 1].from
  }

  /**
   * What can be told beforehand: no move reaches a record that is no later than the newest membership,
   * whatever the clock does, nor one that is earlier than all the times asked for.
   */
  lemma {:induction false} NoMoveReachesBack(p: Option<Participation>, moves: seq<Move>, at: int)
    requires Consistent(p) && (BegunSince(p, at) || forall m | m in moves :: at < m.at)
    ensures BeginLater(MembershipsOf(AfterMoves(p, moves)), |MembershipsOf(p)|, at)
    ensures StampAt(MembershipsOf(AfterMoves(p, moves)), at) == StampAt(MembershipsOf(p), at)
    decreases |moves|
  {
    var ms, all := MembershipsOf(p), MembershipsOf(AfterMoves(p, moves));
    HistoryOnlyExtends(p, moves);
    if BegunSince(p, at) {
      assert all[|ms| - 1] == ms[|ms| - 1];
    } else if moves != [] {
      var next := AfterMove(p, moves[0]);
      if Enrolled(p, moves[0].workstream, moves[0].at).Ok? {
        MoveExtends(p, moves[0]);
        HistoryOnlyExtends(next, moves[1..]);
        assert BegunSince(next, at);
        assert all[|ms|] == MembershipsOf(next)[|ms|];
      } else {
        NoMoveReachesBack(p, moves[1..], at);
      }
    }
    StampsAreNeverRewritten(p, moves, at);
  }
}
