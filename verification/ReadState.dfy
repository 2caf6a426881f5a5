/**
 * src/nudge/read-state.ts: sparse coverage of delivered byte ranges.  `MergeReadRanges` and
 * `MergeCoverage` are the source's loops; the functions beside them say what the loops compute, and the
 * lemmas say what that means in terms of the bytes covered.
 */
module ReadState {
  import opened Base

  const MAX_PENDING_READS: nat := 32
  const READ_OUTPUT_CEILING_BYTES: nat := 8192
  const READ_INVOCATION_TTL_MS: nat := 300000
  const MAX_READ_COVERAGE_RECORDS: nat := 1024
  const MAX_READ_COVERAGE_RANGES: nat := 256

  datatype Range = Range(start: int, end: int)

  datatype MergeError = InvalidCoverage | CoverageCapacity

  /* ------------------------------- byte ranges ------------------------------- */

  predicate ValidRange(r: Range)
  {
    0 <= r.start <= r.end <= MAX_SAFE_INTEGER
  }

  predicate ValidRanges(rs: seq<Range>)
  {
    forall r | r in rs :: ValidRange(r)
  }

  predicate Before(a: Range, b: Range)
  {
    a.start < b.start || (a.start == b.start && a.end <= b.end)
  }

  /** Byte `b` lies in one of the ranges. */
  predicate Covered(rs: seq<Range>, b: int)
  {
    exists r :: r in rs && r.start <= b < r.end
  }

  predicate NonEmpty(rs: seq<Range>)
  {
    forall r | r in rs :: r.start < r.end
  }

  /** Sorted, and between two neighbours at least one byte is missing. */
  predicate Gapped(rs: seq<Range>)
  {
    forall i | 0 < i < |rs| :: rs[i - 1].end < rs[i].start
  }

  predicate Ordered(rs: seq<Range>)
  {
    forall i | 0 < i < |rs| :: Before(rs[i - 1], rs[i])
  }

  function Insert(r: Range, rs: seq<Range>): (out: seq<Range>)
    requires Ordered(rs)
    ensures Ordered(out) && out != []
    ensures out[0] == r || (rs != [] && out[0] == rs[0])
    ensures multiset(out) == multiset(rs) + multiset{r}
  {
    if rs == [] then [r]
    else if Before(r, rs[0]) then
      OrderedCons(r, rs);
      assert multiset([r] + rs) == multiset{r} + multiset(rs);
      [r] + rs
    else
      OrderedTail(rs);
      var rest := Insert(r, rs[1..]);
      OrderedCons(rs[0], rest);
      assert rs == [rs[0]] + rs[1..];
      [rs[0]] + rest
  }

  lemma OrderedTail(rs: seq<Range>)
    requires rs != [] && Ordered(rs)
    ensures Ordered(rs[1..]) && (|rs| > 1 ==> Before(rs[0], rs[1..][0]))
  {
    hide Before;
    var rest := rs[1..];
    forall i | 0 < i < |rest| ensures Before(rest[i - 1], rest[i]) {
      assert Before(rs[i], rs[i + 1]);
    }
    assert |rs| > 1 ==> Before(rs[0], rs[1]);
  }

  lemma OrderedCons(r: Range, rest: seq<Range>)
    requires Ordered(rest) && (rest != [] ==> Before(r, rest[0]))
    ensures Ordered([r] + rest)
  {
    hide Before;
    var all := [r] + rest;
    forall i | 0 < i < |all| ensures Before(all[i - 1], all[i]) {
      if i > 1 {
        assert Before(rest[i - 2], rest[i - 1]);
      }
    }
  }

  /** The order `Array.prototype.sort` leaves, by start and then by end. */
  function Sort(rs: seq<Range>): (out: seq<Range>)
    ensures Ordered(out)
    ensures multiset(out) == multiset(rs)
  {
    if rs == [] then []
    else
      assert rs == [rs[0]] + rs[1..];
      Insert(rs[0], Sort(rs[1..]))
  }

  lemma SortMembers(rs: seq<Range>)
    ensures forall r :: r in Sort(rs) <==> r in rs
  {
    forall r ensures r in Sort(rs) <==> r in rs {
      assert r in Sort(rs) <==> r in multiset(Sort(rs));
      assert r in rs <==> r in multiset(rs);
    }
  }

  /** One turn of the merge loop: extend the last range or open a new one. */
  function Push(merged: seq<Range>, r: Range): (out: seq<Range>)
  {
    if merged != [] && r.start <= merged[|merged| - 1].end then
      var last := merged[|merged| - 1];
      merged[..|merged| - 1] + [Range(last.start, Max(last.end, r.end))]
    else merged + [r]
  }

  function PushAll(merged: seq<Range>, rs: seq<Range>): (out: seq<Range>)
    decreases |rs|
  {
    if rs == [] then merged else PushAll(Push(merged, rs[0]), rs[1..])
  }

  /** The merged form of a list of ranges, in any order. */
  function Merge(rs: seq<Range>): (out: seq<Range>)
  {
    PushAll([], Sort(rs))
  }

  function MergeReadRangesSpec(rs: seq<Range>): (r: Result<seq<Range>, MergeError>)
  {
    if !ValidRanges(rs) then Err(InvalidCoverage)
    else if |Merge(rs)| > MAX_READ_COVERAGE_RANGES then Err(CoverageCapacity)
    else Ok(Merge(rs))
  }

  method MergeReadRanges(ranges: seq<Range>) returns (r: Result<seq<Range>, MergeError>)
    ensures r == MergeReadRangesSpec(ranges)
  {
    hide Ordered, Sort, Merging, Merge, ValidRange, ValidRanges;
    var sorted := Sort(ranges);
    SortMembers(ranges);
    MergingBegins(ranges);
    var merged: seq<Range> := [];
    var i := 0;
    while i < |sorted|
      invariant 0 <= i <= |sorted|
      invariant Merging(ranges, merged, sorted, i)
      invariant forall k | 0 <= k < i :: ValidRange(sorted[k])
    {
      var range := sorted[i];
      MergingStep(ranges, merged, sorted, i);
      if !ValidRange(range) {
        assert range in ranges && !ValidRanges(ranges) by { OneInvalid(ranges, range); }
        return Err(InvalidCoverage);
      }
      if merged != [] && range.start <= merged[|merged| - 1].end {
        var previous := merged[|merged| - 1];
        merged := merged[..|merged| - 1] + [Range(previous.start, Max(previous.end, range.end))];
      } else {
        merged := merged + [range];
      }
      i := i + 1;
    }
    MergingEnds(ranges, merged, sorted);
    AllValid(ranges, sorted);
    if |merged| > MAX_READ_COVERAGE_RANGES {
      return Err(CoverageCapacity);
    }
    return Ok(merged);
  }

  /** What is merged so far, with the sorted ranges from `i` on, gives the merged form. */
  predicate Merging(ranges: seq<Range>, merged: seq<Range>, sorted: seq<Range>, i: nat)
  {
    i <= |sorted| && PushAll(merged, sorted[i..]) == Merge(ranges)
  }

  lemma MergingBegins(ranges: seq<Range>)
    ensures Merging(ranges, [], Sort(ranges), 0)
  {
    assert Sort(ranges)[0..] == Sort(ranges);
  }

  lemma MergingStep(ranges: seq<Range>, merged: seq<Range>, sorted: seq<Range>, i: nat)
    requires Merging(ranges, merged, sorted, i) && i < |sorted|
    ensures Merging(ranges, Push(merged, sorted[i]), sorted, i + 1)
  {
    hide Merge, Push;
    assert sorted[i..][0] == sorted[i] && sorted[i..][1..] == sorted[i + 1..];
  }

  lemma MergingEnds(ranges: seq<Range>, merged: seq<Range>, sorted: seq<Range>)
    requires Merging(ranges, merged, sorted, |sorted|)
    ensures merged == Merge(ranges)
  {
    hide Merge;
  }

  lemma OneInvalid(ranges: seq<Range>, r: Range)
    requires r in ranges && !ValidRange(r)
    ensures !ValidRanges(ranges)
  {
  }

  lemma AllValid(ranges: seq<Range>, sorted: seq<Range>)
    requires (forall r :: r in sorted <==> r in ranges) && forall k | 0 <= k < |sorted| :: ValidRange(sorted[k])
    ensures ValidRanges(ranges)
  {
    hide ValidRange;
    assert forall r | r in ranges :: r in sorted;
  }

  lemma PushKeeps(merged: seq<Range>, r: Range)
    requires Gapped(merged) && NonEmpty(merged)
    requires r.start <= r.end
    requires merged != [] ==> merged[|merged| - 1].start <= r.start
    ensures Gapped(Push(merged, r))
    ensures r.start < r.end ==> NonEmpty(Push(merged, r))
    ensures forall b :: Covered(Push(merged, r), b) <==> Covered(merged, b) || r.start <= b < r.end
    ensures Push(merged, r)[|Push(merged, r)| - 1].start <= r.start
  {
    hide Covered;
    var out := Push(merged, r);
    if merged != [] && r.start <= merged[|merged| - 1].end {
      var last := merged[|merged| - 1];
      var grown := Range(last.start, Max(last.end, r.end));
      assert merged == merged[..|merged| - 1] + [last];
      assert out == merged[..|merged| - 1] + [grown];
      forall b ensures Covered(out, b) <==> Covered(merged, b) || r.start <= b < r.end {
        CoveredAppend(merged[..|merged| - 1], last, b);
        CoveredAppend(merged[..|merged| - 1], grown, b);
      }
    } else {
      forall b ensures Covered(out, b) <==> Covered(merged, b) || r.start <= b < r.end {
        CoveredAppend(merged, r, b);
      }
    }
  }

  lemma CoveredAppend(rs: seq<Range>, r: Range, b: int)
    ensures Covered(rs + [r], b) <==> Covered(rs, b) || r.start <= b < r.end
  {
    assert r in rs + [r];
    assert forall x | x in rs :: x in rs + [r];
  }

  lemma CoveredConcat(x: seq<Range>, y: seq<Range>, b: int)
    ensures Covered(x + y, b) <==> Covered(x, b) || Covered(y, b)
  {
    assert forall r | r in x :: r in x + y;
    assert forall r | r in y :: r in x + y;
  }

  lemma {:induction false} PushAllKeeps(merged: seq<Range>, rs: seq<Range>)
    requires Gapped(merged) && NonEmpty(merged)
    requires Ordered(rs) && NonEmpty(rs)
    requires merged != [] && rs != [] ==> merged[|merged| - 1].start <= rs[0].start
    ensures Gapped(PushAll(merged, rs)) && NonEmpty(PushAll(merged, rs))
    ensures forall b :: Covered(PushAll(merged, rs), b) <==> Covered(merged, b) || Covered(rs, b)
    decreases |rs|
  {
    if rs != [] {
      var pushed := Push(merged, rs[0]);
      PushKeeps(merged, rs[0]);
      PushAllKeeps(pushed, rs[1..]);
      forall b ensures Covered(rs, b) <==> rs[0].start <= b < rs[0].end || Covered(rs[1..], b) {
        assert rs == [rs[0]] + rs[1..];
        CoveredConcat([rs[0]], rs[1..], b);
      }
    }
  }

  /** Merging loses no delivered byte, invents none, and leaves ranges that nothing can join. */
  lemma MergeCoversUnion(rs: seq<Range>)
    requires NonEmpty(rs)
    ensures Gapped(Merge(rs)) && NonEmpty(Merge(rs))
    ensures forall b :: Covered(Merge(rs), b) <==> Covered(rs, b)
  {
    SortMembers(rs);
    PushAllKeeps([], Sort(rs));
  }

  /** The last byte gap after the first range of a gapped list. */
  lemma FirstRangeBounds(rs: seq<Range>)
    requires rs != [] && Gapped(rs) && NonEmpty(rs)
    ensures forall r | r in rs[1..] :: rs[0].end < r.start
    decreases |rs|
  {
    if |rs| > 1 {
      FirstRangeBounds(rs[1..]);
      assert rs[1..] == [rs[1]] + rs[1..][1..];
    }
  }

  lemma FirstByteCovered(rs: seq<Range>)
    requires NonEmpty(rs)
    ensures if rs == [] then forall x :: !Covered(rs, x) else Covered(rs, rs[0].start)
  {
  }

  /** A gapped list of non-empty ranges is determined by the bytes it covers. */
  lemma {:induction false} NormalFormUnique(a: seq<Range>, b: seq<Range>)
    requires Gapped(a) && NonEmpty(a) && Gapped(b) && NonEmpty(b)
    requires forall x :: Covered(a, x) <==> Covered(b, x)
    ensures a == b
    decreases |a|
  {
    hide Covered;
    FirstByteCovered(a);
    FirstByteCovered(b);
    if a != [] {
      FirstRangeBounds(a);
      FirstRangeBounds(b);
      FirstRangesAgree(a, b);
      TailsAgree(a, b);
      NormalFormUnique(a[1..], b[1..]);
      assert a == [a[0]] + a[1..] && b == [b[0]] + b[1..];
    }
  }

  lemma TailsAgree(a: seq<Range>, b: seq<Range>)
    requires a != [] && b != [] && a[0] == b[0]
    requires forall r | r in a[1..] :: a[0].end < r.start
    requires forall r | r in b[1..] :: b[0].end < r.start
    requires forall x :: Covered(a, x) <==> Covered(b, x)
    ensures forall x :: Covered(a[1..], x) <==> Covered(b[1..], x)
  {
    assert a == [a[0]] + a[1..] && b == [b[0]] + b[1..];
    forall x ensures Covered(a[1..], x) <==> Covered(b[1..], x) {
      CoveredConcat([a[0]], a[1..], x);
      CoveredConcat([b[0]], b[1..], x);
    }
  }

  lemma FirstRangesAgree(a: seq<Range>, b: seq<Range>)
    requires a != [] && b != []
    requires NonEmpty(a) && NonEmpty(b)
    requires forall r | r in a[1..] :: a[0].end < r.start
    requires forall r | r in b[1..] :: b[0].end < r.start
    requires forall x :: Covered(a, x) <==> Covered(b, x)
    ensures a[0] == b[0]
  {
    assert a == [a[0]] + a[1..] && b == [b[0]] + b[1..];
    forall x ensures Covered(a, x) <==> a[0].start <= x < a[0].end || Covered(a[1..], x) {
      CoveredConcat([a[0]], a[1..], x);
    }
    forall x ensures Covered(b, x) <==> b[0].start <= x < b[0].end || Covered(b[1..], x) {
      CoveredConcat([b[0]], b[1..], x);
    }
    assert Covered(a, a[0].start) && Covered(b, b[0].start);
    assert !Covered(a, a[0].end) && !Covered(b, b[0].end);
    assert a[0].start == b[0].start;
    var aEnd, bEnd := a[0].end, b[0].end;
    assert aEnd < bEnd ==> Covered(b, aEnd);
    assert bEnd < aEnd ==> Covered(a, bEnd);
  }

  /** Any two lists of non-empty ranges with the same bytes merge to the same list. */
  lemma MergeIsCanonical(a: seq<Range>, b: seq<Range>)
    requires NonEmpty(a) && NonEmpty(b)
    ensures (forall x :: Covered(a, x) <==> Covered(b, x)) <==> Merge(a) == Merge(b)
  {
    MergeCoversUnion(a);
    MergeCoversUnion(b);
    if forall x :: Covered(a, x) <==> Covered(b, x) {
      NormalFormUnique(Merge(a), Merge(b));
    }
  }

  /** A list already in merged form is left alone. */
  lemma MergeIdempotent(rs: seq<Range>)
    requires Gapped(rs) && NonEmpty(rs)
    ensures Merge(rs) == rs
  {
    MergeCoversUnion(rs);
    NormalFormUnique(Merge(rs), rs);
  }

  /* ------------------------------ coverage entries ------------------------------ */

  datatype Field = RecordField | RequestField | ResponseField

  datatype RecordId = RecordId(provider: string, session: string, turn: string)

  /** A published turn; `canonical` is its stable JSON text, the record field. */
  datatype Turn = Turn(id: RecordId, workstream: Option<string>, endedAt: int, sequence: int,
                       request: Bytes, response: Option<Bytes>, canonical: Bytes)

  /**
   * The SHA-256 of a record's stable JSON text.  Stable JSON is injective (module StableJson), so
   * the idealised digest stands for the record itself.
   */
  datatype RecordDigest = RecordDigest(turn: Turn)

  datatype Coverage = Coverage(id: RecordId, recordHash: RecordDigest, field: Field, fieldHash: Digest,
                               total: nat, ranges: seq<Range>)

  datatype CoverageKey = CoverageKey(id: RecordId, field: Field)

  /** One published version of one record. */
  datatype RecordKey = RecordKey(id: RecordId, recordHash: RecordDigest)

  type CoverageMap = map<CoverageKey, Coverage>

  function KeyOf(e: Coverage): CoverageKey { CoverageKey(e.id, e.field) }

  function RecordKeyOf(e: Coverage): RecordKey { RecordKey(e.id, e.recordHash) }

  /** What `parseCoverage` demands of the ranges: in bounds, normalised, and empty only for an empty field. */
  predicate ValidCoverage(e: Coverage)
  {
    && e.total <= MAX_SAFE_INTEGER
    && 0 < |e.ranges| <= MAX_READ_COVERAGE_RANGES
    && (forall r | r in e.ranges :: 0 <= r.start <= r.end <= e.total && (r.start == r.end ==> e.total == 0))
    && Gapped(e.ranges)
  }

  predicate WellKeyed(m: CoverageMap)
  {
    forall k | k in m :: KeyOf(m[k]) == k && ValidCoverage(m[k])
  }

  predicate Complete(e: Coverage)
  {
    |e.ranges| == 1 && e.ranges[0] == Range(0, e.total)
  }

  predicate SameVersion(a: Coverage, b: Coverage)
  {
    a.recordHash == b.recordHash && a.fieldHash == b.fieldHash && a.total == b.total
  }

  /** An entry counts as complete exactly when every byte of the field was delivered. */
  lemma CompleteIffEveryByte(e: Coverage)
    requires ValidCoverage(e)
    ensures Complete(e) <==> forall b | 0 <= b < e.total :: Covered(e.ranges, b)
  {
    if Complete(e) {
      assert e.ranges[0] in e.ranges;
    } else if forall b | 0 <= b < e.total :: Covered(e.ranges, b) {
      if e.total == 0 {
        EmptyFieldRanges(e);
      } else {
        var whole := [Range(0, e.total)];
        forall b ensures Covered(whole, b) <==> Covered(e.ranges, b) {
          assert whole[0] in whole;
        }
        NormalFormUnique(whole, e.ranges);
      }
    }
  }

  /** What storing a delivered entry under its key leaves there. */
  function MergedEntry(m: CoverageMap, e: Coverage): (r: Result<Coverage, MergeError>)
  {
    if KeyOf(e) in m && SameVersion(m[KeyOf(e)], e) then
      match MergeReadRangesSpec(m[KeyOf(e)].ranges + e.ranges)
      case Ok(ranges) => Ok(e.(ranges := ranges))
      case Err(error) => Err(error)
    else Ok(e)
  }

  datatype Merged = Merged(entries: CoverageMap, changed: bool)

  function MergeOne(acc: Merged, e: Coverage, maximumRecords: nat): (r: Result<Merged, MergeError>)
  {
    if !ValidCoverage(e) then Err(InvalidCoverage)
    else match MergedEntry(acc.entries, e)
      case Err(error) => Err(error)
      case Ok(next) =>
        if KeyOf(e) in acc.entries && acc.entries[KeyOf(e)] == next then Ok(acc)
        else
          var entries := acc.entries[KeyOf(e) := next];
          if |entries| > maximumRecords then Err(CoverageCapacity) else Ok(Merged(entries, true))
  }

  function MergeAll(acc: Merged, delivered: seq<Coverage>, maximumRecords: nat): (r: Result<Merged, MergeError>)
    decreases |delivered|
  {
    if delivered == [] then Ok(acc)
    else match MergeOne(acc, delivered[0], maximumRecords)
      case Err(error) => Err(error)
      case Ok(next) => MergeAll(next, delivered[1..], maximumRecords)
  }

  method MergeCoverage(coverage: CoverageMap, delivered: seq<Coverage>, maximumRecords: nat)
    returns (r: Result<Merged, MergeError>)
    ensures r == MergeAll(Merged(coverage, false), delivered, maximumRecords)
  {
    var entries := coverage;
    var changed := false;
    var i := 0;
    while i < |delivered|
      invariant 0 <= i <= |delivered|
      invariant MergeAll(Merged(entries, changed), delivered[i..], maximumRecords)
             == MergeAll(Merged(coverage, false), delivered, maximumRecords)
    {
      var entry := delivered[i];
      assert delivered[i..][1..] == delivered[i + 1..];
      if !ValidCoverage(entry) {
        return Err(InvalidCoverage);
      }
      var key := KeyOf(entry);
      var next := entry;
      if key in entries && SameVersion(entries[key], entry) {
        var ranges := MergeReadRanges(entries[key].ranges + entry.ranges);
        if ranges.Err? {
          return Err(ranges.error);
        }
        next := entry.(ranges := ranges.value);
      }
      i := i + 1;
      if key in entries && entries[key] == next {
        continue;
      }
      entries := entries[key := next];
      changed := true;
      if |entries| > maximumRecords {
        return Err(CoverageCapacity);
      }
    }
    return Ok(Merged(entries, changed));
  }

  /** The transient merge used while a commit is being decided. */
  function MergeForScan(coverage: CoverageMap, delivered: seq<Coverage>): (r: Result<Merged, MergeError>)
  {
    if |delivered| > MAX_READ_COVERAGE_RECORDS then Err(CoverageCapacity)
    else MergeAll(Merged(coverage, false), delivered, MAX_READ_COVERAGE_RECORDS + |delivered|)
  }

  /** Byte `b` of this very version of this field is recorded as delivered. */
  predicate Holds(m: CoverageMap, v: Coverage, b: int)
  {
    KeyOf(v) in m && SameVersion(m[KeyOf(v)], v) && Covered(m[KeyOf(v)].ranges, b)
  }

  /** Two normalised range lists of one field merge to the normalised list of their union. */
  lemma MergeFieldRanges(a: Coverage, e: Coverage)
    requires ValidCoverage(a) && ValidCoverage(e) && a.total == e.total
    ensures Gapped(Merge(a.ranges + e.ranges)) && Merge(a.ranges + e.ranges) != []
    ensures forall r | r in Merge(a.ranges + e.ranges) ::
              0 <= r.start <= r.end <= e.total && (r.start == r.end ==> e.total == 0)
    ensures forall b :: Covered(Merge(a.ranges + e.ranges), b) <==> Covered(a.ranges, b) || Covered(e.ranges, b)
  {
    var both := a.ranges + e.ranges;
    forall b ensures Covered(both, b) <==> Covered(a.ranges, b) || Covered(e.ranges, b) {
      CoveredConcat(a.ranges, e.ranges, b);
    }
    if e.total == 0 {
      EmptyFieldRanges(a);
      EmptyFieldRanges(e);
      MergeEmptyField();
    } else {
      assert forall r | r in both :: r in a.ranges || r in e.ranges;
      MergeCoversUnion(both);
      forall r | r in Merge(both) ensures 0 <= r.start < r.end <= e.total {
        assert Covered(Merge(both), r.start) && Covered(Merge(both), r.end - 1);
      }
      assert e.ranges[0] in both;
      assert Covered(both, e.ranges[0].start);
    }
  }

  lemma MergeEmptyField()
    ensures Merge([Range(0, 0)] + [Range(0, 0)]) == [Range(0, 0)]
  {
    var z := Range(0, 0);
    assert ([z] + [z])[1..] == [z] && [z][1..] == [];
    assert Sort([z]) == [z];
    assert Sort([z] + [z]) == [z] + [z];
    assert PushAll([z], [z]) == [z];
  }

  lemma MergedEntryMeans(m: CoverageMap, e: Coverage)
    requires WellKeyed(m) && ValidCoverage(e)
    requires MergedEntry(m, e).Ok?
    ensures var next := MergedEntry(m, e).value;
      && ValidCoverage(next) && KeyOf(next) == KeyOf(e) && SameVersion(next, e)
      && forall b :: Covered(next.ranges, b) <==> Covered(e.ranges, b) || Holds(m, e, b)
  {
    if KeyOf(e) in m && SameVersion(m[KeyOf(e)], e) {
      MergeFieldRanges(m[KeyOf(e)], e);
    }
  }

  lemma EmptyFieldRanges(e: Coverage)
    requires ValidCoverage(e) && e.total == 0
    ensures e.ranges == [Range(0, 0)]
  {
    assert e.ranges[0] in e.ranges;
    if |e.ranges| > 1 {
      LaterRangeStartsLate(e.ranges);
    }
  }

  lemma LaterRangeStartsLate(rs: seq<Range>)
    requires Gapped(rs) && |rs| > 1 && rs[0].end >= 0
    ensures exists r :: r in rs && r.start > 0
  {
    assert rs[1] in rs && rs[1].start > 0;
  }

  /** Byte `b` of this version of this field is among the delivered entries. */
  predicate DeliveredIn(delivered: seq<Coverage>, v: Coverage, b: int)
  {
    exists e :: e in delivered && KeyOf(e) == KeyOf(v) && SameVersion(e, v) && Covered(e.ranges, b)
  }

  /** What one delivered entry does to the stored map: everything else is left alone. */
  lemma MergeOneMeans(acc: Merged, e: Coverage, maximumRecords: nat)
    requires WellKeyed(acc.entries)
    requires MergeOne(acc, e, maximumRecords).Ok?
    ensures WellKeyed(MergeOne(acc, e, maximumRecords).value.entries)
    ensures MergeOne(acc, e, maximumRecords).value.entries
         == acc.entries[KeyOf(e) := MergedEntry(acc.entries, e).value]
  {
    MergedEntryMeans(acc.entries, e);
  }

  /** A stored byte of another version of the same field gives way; every other stored byte stays. */
  lemma MergeOneHolds(acc: Merged, e: Coverage, maximumRecords: nat, v: Coverage, b: int)
    requires WellKeyed(acc.entries)
    requires MergeOne(acc, e, maximumRecords).Ok?
    ensures Holds(MergeOne(acc, e, maximumRecords).value.entries, v, b) <==>
      if KeyOf(v) == KeyOf(e) then SameVersion(e, v) && (Covered(e.ranges, b) || Holds(acc.entries, v, b))
      else Holds(acc.entries, v, b)
  {
    MergeOneMeans(acc, e, maximumRecords);
    MergedEntryMeans(acc.entries, e);
    var next := MergedEntry(acc.entries, e).value;
    if KeyOf(v) == KeyOf(e) && SameVersion(e, v) {
      assert Holds(acc.entries, v, b) <==> Holds(acc.entries, e, b);
    }
  }

  /** A delivered entry of another version of the same field makes the stored one give way. */
  predicate Superseded(delivered: seq<Coverage>, v: Coverage)
  {
    exists d :: d in delivered && KeyOf(d) == KeyOf(v) && !SameVersion(d, v)
  }

  predicate Delivers(e: Coverage, v: Coverage, b: int)
  {
    KeyOf(e) == KeyOf(v) && SameVersion(e, v) && Covered(e.ranges, b)
  }

  predicate LastDelivery(delivered: seq<Coverage>, i: int, v: Coverage, b: int)
  {
    0 <= i < |delivered| && Delivers(delivered[i], v, b) && !Superseded(delivered[i + 1..], v)
  }

  /** Byte `b` of this version is delivered, and no other version of the field comes after it. */
  ghost predicate DeliveredLast(delivered: seq<Coverage>, v: Coverage, b: int)
  {
    exists i :: LastDelivery(delivered, i, v, b)
  }

  lemma SupersededStep(delivered: seq<Coverage>, v: Coverage)
    requires delivered != []
    ensures Superseded(delivered, v) <==>
      (KeyOf(delivered[0]) == KeyOf(v) && !SameVersion(delivered[0], v)) || Superseded(delivered[1..], v)
  {
    hide KeyOf, SameVersion;
    assert delivered == [delivered[0]] + delivered[1..];
  }

  lemma DeliveredLastStep(delivered: seq<Coverage>, v: Coverage, b: int)
    requires delivered != []
    ensures DeliveredLast(delivered, v, b) <==>
      (Delivers(delivered[0], v, b) && !Superseded(delivered[1..], v)) || DeliveredLast(delivered[1..], v, b)
  {
    hide Delivers, Superseded;
    var rest := delivered[1..];
    assert LastDelivery(delivered, 0, v, b) <==> Delivers(delivered[0], v, b) && !Superseded(rest, v);
    forall i: nat ensures LastDelivery(delivered, i + 1, v, b) <==> LastDelivery(rest, i, v, b) {
      if i < |rest| {
        assert rest[i] == delivered[i + 1] && rest[i + 1..] == delivered[i + 2..];
      }
    }
    if DeliveredLast(delivered, v, b) {
      var i :| LastDelivery(delivered, i, v, b);
      assert i > 0 ==> LastDelivery(rest, i - 1, v, b);
    }
    if DeliveredLast(rest, v, b) {
      var i :| LastDelivery(rest, i, v, b);
      assert LastDelivery(delivered, i + 1, v, b);
    }
  }

  /**
   * What merging holds, exactly: a byte delivered for a version that no later entry supersedes, and a
   * byte held before for a version that none supersedes at all. So of the last version of each field
   * no byte is lost.
   */
  lemma {:induction false} MergeAllHolds(acc: Merged, delivered: seq<Coverage>, maximumRecords: nat, v: Coverage,
                                         b: int)
    requires WellKeyed(acc.entries)
    requires MergeAll(acc, delivered, maximumRecords).Ok?
    ensures Holds(MergeAll(acc, delivered, maximumRecords).value.entries, v, b) <==>
      DeliveredLast(delivered, v, b) || (Holds(acc.entries, v, b) && !Superseded(delivered, v))
    decreases |delivered|
  {
    hide WellKeyed, Holds, KeyOf, SameVersion, Covered, MergeOne, DeliveredLast, Superseded;
    if delivered == [] {
      NothingDelivered(v, b);
    } else {
      var e, rest := delivered[0], delivered[1..];
      var next := MergeOne(acc, e, maximumRecords).value;
      MergeOneMeans(acc, e, maximumRecords);
      MergeOneHolds(acc, e, maximumRecords, v, b);
      MergeAllHolds(next, rest, maximumRecords, v, b);
      DeliveredLastStep(delivered, v, b);
      SupersededStep(delivered, v);
    }
  }

  lemma NothingDelivered(v: Coverage, b: int)
    ensures !DeliveredLast([], v, b) && !Superseded([], v)
  {
  }

  /**
   * Merging attests nothing by itself: a byte held afterwards was held before for that version or
   * was delivered for that version; entries stay well formed; and the flag rises only on change.
   */
  lemma {:induction false} MergeAllSound(acc: Merged, delivered: seq<Coverage>, maximumRecords: nat)
    requires WellKeyed(acc.entries)
    requires MergeAll(acc, delivered, maximumRecords).Ok?
    ensures var out := MergeAll(acc, delivered, maximumRecords).value;
      && WellKeyed(out.entries)
      && (acc.changed ==> out.changed)
      && (!out.changed ==> out == acc)
      && (forall v, b | Holds(out.entries, v, b) :: Holds(acc.entries, v, b) || DeliveredIn(delivered, v, b))
    decreases |delivered|
  {
    hide WellKeyed, Holds, MergeOne, DeliveredIn, DeliveredLast;
    if delivered != [] {
      var next := MergeOne(acc, delivered[0], maximumRecords).value;
      MergeOneMeans(acc, delivered[0], maximumRecords);
      MergeOneFlags(acc, delivered[0], maximumRecords);
      MergeAllSound(next, delivered[1..], maximumRecords);
    }
    var out := MergeAll(acc, delivered, maximumRecords).value;
    forall v, b | Holds(out.entries, v, b) ensures Holds(acc.entries, v, b) || DeliveredIn(delivered, v, b) {
      MergeAllHolds(acc, delivered, maximumRecords, v, b);
      LastIsDelivered(delivered, v, b);
    }
  }

  lemma MergeOneFlags(acc: Merged, e: Coverage, maximumRecords: nat)
    requires MergeOne(acc, e, maximumRecords).Ok?
    ensures var next := MergeOne(acc, e, maximumRecords).value;
      (acc.changed ==> next.changed) && (!next.changed ==> next == acc)
  {
  }

  lemma LastIsDelivered(delivered: seq<Coverage>, v: Coverage, b: int)
    ensures DeliveredLast(delivered, v, b) ==> DeliveredIn(delivered, v, b)
  {
    hide Superseded;
    if DeliveredLast(delivered, v, b) {
      var i :| LastDelivery(delivered, i, v, b);
      assert delivered[i] in delivered;
    }
  }

  /** A delivered entry says something the stored map does not hold yet. */
  ghost predicate News(m: CoverageMap, e: Coverage)
  {
    || KeyOf(e) !in m
    || !SameVersion(m[KeyOf(e)], e)
    || exists b :: Covered(e.ranges, b) && !Holds(m, e, b)
  }

  lemma MergeOneChangesOnNews(acc: Merged, e: Coverage, maximumRecords: nat)
    requires WellKeyed(acc.entries)
    requires MergeOne(acc, e, maximumRecords).Ok?
    ensures var next := MergeOne(acc, e, maximumRecords).value;
      if News(acc.entries, e) then next.changed else next == acc
  {
    MergedEntryMeans(acc.entries, e);
    var next := MergedEntry(acc.entries, e).value;
    if KeyOf(e) in acc.entries && SameVersion(acc.entries[KeyOf(e)], e) {
      var prior := acc.entries[KeyOf(e)];
      if News(acc.entries, e) {
        var b :| Covered(e.ranges, b) && !Holds(acc.entries, e, b);
        assert Covered(next.ranges, b) && !Covered(prior.ranges, b);
      } else if e.total == 0 {
        EmptyFieldRanges(prior);
        EmptyFieldRanges(next);
      } else {
        NormalFormUnique(next.ranges, prior.ranges);
      }
    }
  }

  /** An entry under another key neither makes nor unmakes this one news. */
  lemma NewsElsewhere(acc: Merged, e: Coverage, maximumRecords: nat, d: Coverage)
    requires WellKeyed(acc.entries) && KeyOf(d) != KeyOf(e)
    requires MergeOne(acc, e, maximumRecords).Ok?
    ensures News(MergeOne(acc, e, maximumRecords).value.entries, d) <==> News(acc.entries, d)
  {
    MergeOneMeans(acc, e, maximumRecords);
    forall b ensures Holds(MergeOne(acc, e, maximumRecords).value.entries, d, b) <==> Holds(acc.entries, d, b) {
      MergeOneHolds(acc, e, maximumRecords, d, b);
    }
  }

  /** The merge reports a change exactly when some delivered entry is news; then nothing else has to be. */
  lemma {:induction false} MergeAllChangesOnNews(acc: Merged, delivered: seq<Coverage>, maximumRecords: nat)
    requires WellKeyed(acc.entries)
    requires forall i, j | 0 <= i < j < |delivered| :: KeyOf(delivered[i]) != KeyOf(delivered[j])
    requires MergeAll(acc, delivered, maximumRecords).Ok?
    ensures var out := MergeAll(acc, delivered, maximumRecords).value;
      if exists e :: e in delivered && News(acc.entries, e) then out.changed else out == acc
    decreases |delivered|
  {
    hide WellKeyed, News, MergeOne, KeyOf;
    if delivered != [] {
      var e, rest := delivered[0], delivered[1..];
      var next := MergeOne(acc, e, maximumRecords).value;
      MergeOneMeans(acc, e, maximumRecords);
      MergeOneChangesOnNews(acc, e, maximumRecords);
      MergeAllChangesOnNews(next, rest, maximumRecords);
      MergeAllSound(next, rest, maximumRecords);
      assert delivered == [e] + rest;
      forall d | d in rest ensures News(next.entries, d) <==> News(acc.entries, d) {
        var i :| 0 <= i < |rest| && rest[i] == d;
        assert KeyOf(delivered[0]) != KeyOf(delivered[i + 1]);
        NewsElsewhere(acc, e, maximumRecords, d);
      }
    }
  }
}
