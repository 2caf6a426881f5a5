/**
 * src/core/jsonl-reader.ts: the incremental reader.  `IterateJsonlForward` is the source's loop
 * over stream chunks with carried fragments; it is proved to compute plain LF-splitting of the
 * bytes before the pinned end, whatever the chunks.
 */
module JsonlReader {
  import opened Base
  import opened JsonlLines

  /** A complete line: parsed, or malformed and yielded as data. */
  datatype LineEvent<V> =
    | Record(value: V, raw: Bytes, lineNumber: nat, start: nat, next: nat)
    | Malformed(raw: Bytes, lineNumber: nat, start: nat, next: nat)

  datatype Partial = Partial(start: nat, length: nat, lineNumber: nat)

  datatype Summary = Summary(checkpointOffset: nat, nextLine: nat, bytesRead: nat, completeLines: nat,
                             parsedLines: nat, malformedLines: nat, partial: Option<Partial>)

  /** What a read yields, and whether it ended in a summary or in the line-limit error. */
  datatype Reading<V> = Completed(events: seq<LineEvent<V>>, summary: Summary)
    | LimitExceeded(events: seq<LineEvent<V>>)

  /** Line content without an optional CR before the LF. */
  function Content(line: Bytes): (c: Bytes)
  {
    if line != [] && line[|line| - 1] == CR then line[..|line| - 1] else line
  }

  function EventOf<V>(line: Bytes, offset: nat, lineNumber: nat, decode: Bytes -> Option<V>): LineEvent<V>
  {
    match decode(Content(line))
    case Some(value) => Record(value, Content(line), lineNumber, offset, offset + |line| + 1)
    case None => Malformed(Content(line), lineNumber, offset, offset + |line| + 1)
  }

  /** The bytes the lines take with their LFs. */
  function Extent(lines: seq<Bytes>): nat
  {
    if lines == [] then 0 else Extent(lines[..|lines| - 1]) + |lines[|lines| - 1]| + 1
  }

  /** The events of consecutive complete lines. */
  function Events<V>(lines: seq<Bytes>, offset: nat, lineNumber: nat, decode: Bytes -> Option<V>)
    : (es: seq<LineEvent<V>>)
    ensures |es| == |lines|
  {
    if lines == [] then []
    else
      var n := |lines| - 1;
      Events(lines[..n], offset, lineNumber, decode)
        + [EventOf(lines[n], offset + Extent(lines[..n]), lineNumber + n, decode)]
  }

  function Parsed<V>(es: seq<LineEvent<V>>): (n: nat)
    ensures n <= |es|
  {
    if es == [] then 0 else Parsed(es[..|es| - 1]) + if es[|es| - 1].Record? then 1 else 0
  }

  predicate Within(length: nat, limit: Option<nat>)
  {
    limit.Some? ==> length <= limit.value
  }

  /** The leading lines that respect the line limit. */
  function WithinLimit(lines: seq<Bytes>, limit: Option<nat>): (n: nat)
    ensures n <= |lines| && (forall i | 0 <= i < n :: Within(|lines[i]|, limit))
    ensures n < |lines| ==> !Within(|lines[n]|, limit)
  {
    if lines == [] || !Within(|lines[0]|, limit) then 0 else 1 + WithinLimit(lines[1..], limit)
  }

  /** Plain splitting of the bytes `s`, read from `offset` on. */
  function ReadSpec<V>(s: Bytes, offset: nat, lineNumber: nat, limit: Option<nat>, decode: Bytes -> Option<V>)
    : (r: Reading<V>)
  {
    var lines, tail := Lines(s), Tail(s);
    var good := WithinLimit(lines, limit);
    if good < |lines| then LimitExceeded(Events(lines[..good], offset, lineNumber, decode))
    else
      var events := Events(lines, offset, lineNumber, decode);
      if !Within(|tail|, limit) then LimitExceeded(events)
      else
        var checkpoint := offset + Extent(lines);
        Completed(events, Summary(checkpoint, lineNumber + |lines|, |s|, |lines|, Parsed(events),
                                  |lines| - Parsed(events),
          if tail == [] then None else Some(Partial(checkpoint, |tail|, lineNumber + |lines|))))
  }

  function Concat(chunks: seq<Bytes>): (s: Bytes)
  {
    if chunks == [] then [] else Concat(chunks[..|chunks| - 1]) + chunks[|chunks| - 1]
  }

  lemma ConcatPush(chunks: seq<Bytes>, c: Bytes)
    ensures Concat(chunks + [c]) == Concat(chunks) + c
  {
    assert (chunks + [c])[..|chunks|] == chunks;
  }

  /* ------------------------------ one step of the split ------------------------------ */

  lemma EventsPush<V>(lines: seq<Bytes>, line: Bytes, offset: nat, lineNumber: nat, decode: Bytes -> Option<V>)
    ensures Extent(lines + [line]) == Extent(lines) + |line| + 1
    ensures Events(lines + [line], offset, lineNumber, decode)
         == Events(lines, offset, lineNumber, decode)
           + [EventOf(line, offset + Extent(lines), lineNumber + |lines|, decode)]
  {
    assert (lines + [line])[..|lines|] == lines;
  }

  lemma ParsedPush<V>(es: seq<LineEvent<V>>, e: LineEvent<V>)
    ensures Parsed(es + [e]) == Parsed(es) + if e.Record? then 1 else 0
  {
    assert (es + [e])[..|es|] == es;
  }

  /** A segment that reaches an LF completes the carried line. */
  lemma LineCompletes(done: Bytes, segment: Bytes)
    requires LF !in segment
    ensures Lines(done + segment + [LF]) == Lines(done) + [Tail(done) + segment]
    ensures Tail(done + segment + [LF]) == []
  {
    hide Lines, Tail;
    SplitConcat(done, segment + [LF]);
    LinesOfOne(Tail(done) + segment, []);
    NoLines([]);
    assert done + segment + [LF] == done + (segment + [LF]);
    assert Tail(done) + segment + [LF] + [] == Tail(done) + (segment + [LF]);
  }

  /** A segment without an LF only lengthens the tail. */
  lemma TailGrows(done: Bytes, segment: Bytes)
    requires LF !in segment
    ensures Lines(done + segment) == Lines(done) && Tail(done + segment) == Tail(done) + segment
  {
    hide Lines, Tail;
    SplitConcat(done, segment);
    NoLines(Tail(done) + segment);
  }

  lemma {:induction false} WithinConcat(x: seq<Bytes>, y: seq<Bytes>, limit: Option<nat>)
    requires forall l | l in x :: Within(|l|, limit)
    ensures WithinLimit(x + y, limit) == |x| + WithinLimit(y, limit)
    decreases |x|
  {
    if x == [] {
      assert x + y == y;
    } else {
      assert (x + y)[1..] == x[1..] + y;
      WithinConcat(x[1..], y, limit);
    }
  }

  /** A carried line that is too long stays the first line, or the tail, whatever follows it. */
  lemma CarriedTooLong(t: Bytes, rest: Bytes, limit: Option<nat>)
    requires LF !in t && !Within(|t|, limit)
    ensures WithinLimit(Lines(t + rest), limit) == 0
    ensures Lines(t + rest) == [] ==> !Within(|Tail(t + rest)|, limit)
  {
    var s := t + rest;
    var i := FirstLf(s);
    if i == |s| {
      NoLines(s);
    } else {
      assert s[..|t|] == t;
    }
  }

  /** Once the carried line is too long, whatever follows, the read fails after the same lines. */
  lemma LimitHit<V>(done: Bytes, rest: Bytes, offset: nat, lineNumber: nat, limit: Option<nat>,
                    decode: Bytes -> Option<V>)
    requires forall l | l in Lines(done) :: Within(|l|, limit)
    requires !Within(|Tail(done)|, limit)
    ensures ReadSpec(done + rest, offset, lineNumber, limit, decode)
      == LimitExceeded(Events(Lines(done), offset, lineNumber, decode))
  {
    hide Lines, Tail, Events, Within, WithinLimit, Extent, Parsed;
    var lines, carried := Lines(done), Tail(done) + rest;
    SplitConcat(done, rest);
    WithinConcat(lines, Lines(carried), limit);
    CarriedTooLong(Tail(done), rest, limit);
    assert (lines + Lines(carried))[..|lines|] == lines;
    if Lines(carried) == [] {
      assert lines + Lines(carried) == lines;
    }
  }

  lemma ReadCompletes<V>(s: Bytes, offset: nat, lineNumber: nat, limit: Option<nat>, decode: Bytes -> Option<V>)
    requires forall l | l in Lines(s) :: Within(|l|, limit)
    requires Within(|Tail(s)|, limit)
    ensures ReadSpec(s, offset, lineNumber, limit, decode).Completed?
    ensures ReadSpec(s, offset, lineNumber, limit, decode).events == Events(Lines(s), offset, lineNumber, decode)
  {
    WithinConcat(Lines(s), [], limit);
    assert Lines(s) + [] == Lines(s);
  }

  /* ------------------------------ the reader ------------------------------ */

  /** What a read is asked for: where it starts, its line limit and its line parser. */
  datatype Job<!V> = Job(offset: nat, lineNumber: nat, limit: Option<nat>, decode: Bytes -> Option<V>)

  /** The reader's variables. */
  datatype Reader<V> = Reader(fragments: seq<Bytes>, fragmentBytes: nat, events: seq<LineEvent<V>>,
                              checkpointOffset: nat,
                              nextLine: nat, completeLines: nat, parsedLines: nat, malformedLines: nat)

  function ReadAll<V>(job: Job<V>, s: Bytes): Reading<V>
  {
    ReadSpec(s, job.offset, job.lineNumber, job.limit, job.decode)
  }

  /** The reader's variables after consuming the bytes `done`. */
  predicate Consumed<V(==)>(job: Job<V>, done: Bytes, r: Reader<V>)
  {
    && Concat(r.fragments) == Tail(done) && r.fragmentBytes == |Tail(done)|
    && r.events == Events(Lines(done), job.offset, job.lineNumber, job.decode)
    && r.checkpointOffset == job.offset + Extent(Lines(done))
    && r.nextLine == job.lineNumber + |Lines(done)|
    && r.completeLines == |Lines(done)| && r.parsedLines == Parsed(r.events)
    && r.parsedLines + r.malformedLines == |r.events|
    && (forall l | l in Lines(done) :: Within(|l|, job.limit))
    && Within(|Tail(done)|, job.limit)
  }

  lemma ConsumedNothing<V>(job: Job<V>)
    ensures Consumed(job, [], Reader([], 0, [], job.offset, job.lineNumber, 0, 0, 0)) && Concat([]) == []
  {
  }

  /** The variables after one more complete line. */
  function WithLine<V>(job: Job<V>, r: Reader<V>, line: Bytes): Reader<V>
  {
    var event := EventOf(line, r.checkpointOffset, r.nextLine, job.decode);
    Reader([], 0, r.events + [event], r.checkpointOffset + |line| + 1, r.nextLine + 1, r.completeLines + 1,
           r.parsedLines + (if event.Record? then 1 else 0), r.malformedLines + (if event.Record? then 0 else 1))
  }

  /** Consuming a segment up to and including its LF. */
  lemma ConsumeLine<V>(job: Job<V>, done: Bytes, r: Reader<V>, segment: Bytes)
    requires Consumed(job, done, r) && LF !in segment && Within(r.fragmentBytes + |segment|, job.limit)
    ensures Consumed(job, done + segment + [LF], WithLine(job, r, Concat(r.fragments + [segment])))
    ensures |Concat(r.fragments + [segment])| == r.fragmentBytes + |segment|
  {
    hide Lines, Tail, Events, Extent, Parsed, EventOf;
    var line := Tail(done) + segment;
    ConcatPush(r.fragments, segment);
    LineCompletes(done, segment);
    EventsPush(Lines(done), line, job.offset, job.lineNumber, job.decode);
    ParsedPush(r.events, EventOf(line, r.checkpointOffset, r.nextLine, job.decode));
  }

  /** Consuming a segment that has no LF. */
  lemma ConsumeTail<V>(job: Job<V>, done: Bytes, r: Reader<V>, segment: Bytes)
    requires Consumed(job, done, r) && LF !in segment && Within(r.fragmentBytes + |segment|, job.limit)
    ensures Consumed(job, done + segment,
                     r.(fragments := r.fragments + [segment], fragmentBytes := r.fragmentBytes + |segment|))
  {
    hide Lines, Tail, Events, Within, Extent, Parsed;
    TailGrows(done, segment);
    ConcatPush(r.fragments, segment);
  }

  /** The line limit struck by the carried bytes and a further segment. */
  lemma ConsumeTooLong<V>(job: Job<V>, done: Bytes, r: Reader<V>, segment: Bytes, rest: Bytes)
    requires Consumed(job, done, r) && LF !in segment && !Within(r.fragmentBytes + |segment|, job.limit)
    ensures ReadAll(job, done + segment + rest) == LimitExceeded(r.events)
  {
    hide Lines, Tail, Events, Within, Extent, Parsed, ReadSpec;
    TailGrows(done, segment);
    LimitHit(done + segment, rest, job.offset, job.lineNumber, job.limit, job.decode);
  }

  lemma ConsumedAll<V>(job: Job<V>, done: Bytes, r: Reader<V>)
    requires Consumed(job, done, r)
    ensures ReadAll(job, done) == Completed(r.events, Summary(
      r.checkpointOffset, r.nextLine, |done|, r.completeLines, r.parsedLines, r.malformedLines,
      if r.fragmentBytes == 0 then None else Some(Partial(r.checkpointOffset, r.fragmentBytes, r.nextLine))))
  {
    hide Lines, Tail, Events, Within, Extent, Parsed;
    ReadCompletes(done, job.offset, job.lineNumber, job.limit, job.decode);
  }

  /** The next LF of a chunk from `start` on, or the chunk's length. */
  function NextLf(chunk: Bytes, start: nat): (i: nat)
    requires start <= |chunk|
    ensures start <= i <= |chunk| && LF !in chunk[start..i]
    ensures i < |chunk| ==> chunk[i] == LF
  {
    assert chunk[start..][..FirstLf(chunk[start..])] == chunk[start..start + FirstLf(chunk[start..])];
    start + FirstLf(chunk[start..])
  }

  lemma {:induction false} ExtentIsLength(lines: seq<Bytes>)
    ensures Extent(lines) == |Unsplit(lines)|
    decreases |lines|
  {
    if lines != [] {
      var n := |lines| - 1;
      ExtentIsLength(lines[..n]);
      assert lines == lines[..n] + [lines[n]];
      UnsplitConcat(lines[..n], [lines[n]]);
      assert Unsplit([lines[n]]) == lines[n] + [LF] + Unsplit([]);
    }
  }

  /** The checkpoint of a completed read is where its tail begins. */
  lemma CheckpointAtTail(s: Bytes)
    ensures Extent(Lines(s)) + |Tail(s)| == |s|
    ensures s[Extent(Lines(s))..] == Tail(s)
  {
    SplitRoundTrip(s);
    ExtentIsLength(Lines(s));
  }

  /* ------------------------------ the pinned end ------------------------------ */

  /** How many of the bytes come before the end. */
  function PinnedLength<V>(job: Job<V>, s: Bytes, endOffset: Option<nat>): (n: nat)
    requires endOffset.Some? ==> job.offset <= endOffset.value
    ensures n <= |s|
  {
    if endOffset.Some? && endOffset.value < job.offset + |s| then endOffset.value - job.offset else |s|
  }

  lemma PinnedMeans<V>(job: Job<V>, s: Bytes, endOffset: Option<nat>)
    requires endOffset.Some? ==> job.offset <= endOffset.value
    ensures var n := PinnedLength(job, s, endOffset);
      && (endOffset.None? ==> n == |s|)
      && (endOffset.Some? ==> job.offset + n <= endOffset.value && (job.offset + n == endOffset.value || n == |s|))
  {
  }

  /** A summary of the bytes `t`, except that the unfinished line may have been read beyond their end. */
  predicate SummaryUpTo(summary: Summary, pinned: Summary, bytes: nat)
  {
    && summary == pinned.(bytesRead := summary.bytesRead, partial := summary.partial)
    && pinned.bytesRead <= summary.bytesRead <= bytes
    && (summary.partial.None? ==> pinned.partial.None?)
    && (summary.partial.Some? ==>
          && summary.partial.value.start == pinned.checkpointOffset
          && summary.partial.value.lineNumber == pinned.nextLine
          && (pinned.partial.Some? ==> pinned.partial.value.length <= summary.partial.value.length))
  }

  /**
   * A read of chunks that may run past the end. It yields the events of the bytes before the end, and
   * its checkpoint and counts are theirs. Only the length of the unfinished line may include bytes
   * beyond, and a line that crosses the end may exceed the line limit there.
   */
  predicate Answers<V(==)>(job: Job<V>, s: Bytes, n: nat, r: Reading<V>)
    requires n <= |s|
  {
    var pinned := ReadAll(job, s[..n]);
    && r.events == pinned.events
    && (n == |s| ==> r == pinned)
    && (pinned.LimitExceeded? ==> r.LimitExceeded?)
    && (r.LimitExceeded? ==> r == ReadAll(job, s))
    && (r.Completed? ==> SummaryUpTo(r.summary, pinned.summary, |s|))
  }

  /** Where the end cuts what was consumed, in its unfinished line. */
  lemma CutAtEnd(done: Bytes, n: nat)
    requires Extent(Lines(done)) <= n <= |done|
    ensures Lines(done[..n]) == Lines(done) && Extent(Lines(done)) + |Tail(done[..n])| == n
  {
    var lines, tail := Lines(done), Tail(done);
    SplitRoundTrip(done);
    ExtentIsLength(lines);
    var cut := tail[..n - |Unsplit(lines)|];
    assert done[..n] == Unsplit(lines) + cut;
    SplitUnique(lines, cut);
  }

  /** The line limit struck after the last line that ends before the end. */
  lemma TooLongAtEnd<V>(job: Job<V>, done: Bytes, r: Reader<V>, segment: Bytes, rest: Bytes, n: nat)
    requires Consumed(job, done, r) && LF !in segment && !Within(r.fragmentBytes + |segment|, job.limit)
    requires Extent(Lines(done)) <= n <= |done + segment + rest|
    ensures Answers(job, done + segment + rest, n, LimitExceeded(r.events))
  {
    hide Lines, Tail, Events, Extent, Parsed, ReadSpec, WithinLimit;
    var all, s := done + segment, done + segment + rest;
    ConsumeTooLong(job, done, r, segment, rest);
    TailGrows(done, segment);
    if |all| <= n {
      assert s[..n] == all + rest[..n - |all|];
      ConsumeTooLong(job, done, r, segment, rest[..n - |all|]);
      assert n == |s| ==> s[..n] == s;
    } else {
      assert s[..n] == all[..n];
      CutAtEnd(all, n);
      EventsOfRead(job, s[..n]);
    }
  }

  /** Lines that respect the limit are all yielded, whatever the tail. */
  lemma EventsOfRead<V>(job: Job<V>, s: Bytes)
    requires forall l | l in Lines(s) :: Within(|l|, job.limit)
    ensures ReadAll(job, s).events == Events(Lines(s), job.offset, job.lineNumber, job.decode)
  {
    WithinConcat(Lines(s), [], job.limit);
    assert Lines(s) + [] == Lines(s);
  }

  /** The summary of a reader that has consumed a beginning of the bytes which reaches the end. */
  lemma Finishes<V>(job: Job<V>, s: Bytes, n: nat, done: Bytes, r: Reader<V>, bytesRead: nat)
    requires n <= |s| && Ended(job, s, n, done, r, bytesRead)
    ensures Answers(job, s, n, Completed(r.events, Summary(
      r.checkpointOffset, r.nextLine, bytesRead, r.completeLines, r.parsedLines, r.malformedLines,
      if r.fragmentBytes == 0 then None else Some(Partial(r.checkpointOffset, r.fragmentBytes, r.nextLine)))))
  {
    hide Lines, Tail, Events, Extent, Parsed, ReadAll, Within;
    ConsumedAll(job, done, r);
    ConsumedMeans(job, done, r);
    if n == |s| {
      assert done == s && s[..n] == s;
    } else {
      CutAtEnd(done, n);
      assert s[..n] == done[..n];
      ShorterTail(done, n, job.limit);
      CutReading(job, done, r, n);
    }
  }

  lemma ShorterTail(done: Bytes, n: nat, limit: Option<nat>)
    requires Extent(Lines(done)) <= n <= |done| && Within(|Tail(done)|, limit)
    ensures Within(|Tail(done[..n])|, limit) && |Tail(done[..n])| <= |Tail(done)|
  {
    hide Lines, Tail, Extent;
    CutAtEnd(done, n);
    CutAtEnd(done, |done|);
    assert done[..|done|] == done;
  }

  lemma CutReading<V>(job: Job<V>, done: Bytes, r: Reader<V>, n: nat)
    requires Consumed(job, done, r)
    requires n <= |done| && Lines(done[..n]) == Lines(done) && Within(|Tail(done[..n])|, job.limit)
    ensures ReadAll(job, done[..n]) == Completed(r.events, Summary(
      r.checkpointOffset, r.nextLine, n, r.completeLines, r.parsedLines, r.malformedLines,
      if Tail(done[..n]) == [] then None else Some(Partial(r.checkpointOffset, |Tail(done[..n])|, r.nextLine))))
  {
    hide Lines, Tail, Events, Within, Extent, Parsed;
    ReadCompletes(done[..n], job.offset, job.lineNumber, job.limit, job.decode);
  }

  /** The reader has consumed the bytes `done`, and `todo` are left of all bytes. */
  ghost predicate Progress<V>(job: Job<V>, s: Bytes, n: nat, done: Bytes, r: Reader<V>, todo: Bytes)
  {
    s == done + todo && Consumed(job, done, r) && r.checkpointOffset <= job.offset + n
  }

  /** The reader has consumed bytes up to the end, or all bytes. */
  ghost predicate Ended<V>(job: Job<V>, s: Bytes, n: nat, done: Bytes, r: Reader<V>, bytesRead: nat)
  {
    && done <= s && Consumed(job, done, r)
    && r.checkpointOffset <= job.offset + n && n <= |done| <= bytesRead <= |s|
  }

  lemma Begins<V>(job: Job<V>, chunks: seq<Bytes>, n: nat)
    ensures Progress(job, Concat(chunks), n, [], Reader([], 0, [], job.offset, job.lineNumber, 0, 0, 0),
                     Concat(chunks[0..]))
  {
    ConsumedNothing(job);
    assert chunks[0..] == chunks;
  }

  lemma NextChunk(chunks: seq<Bytes>, k: nat)
    requires k < |chunks|
    ensures Concat(chunks[k..]) == chunks[k][0..] + Concat(chunks[k + 1..])
  {
    hide Concat;
    ConcatConcat([chunks[k]], chunks[k + 1..]);
    ConcatOne(chunks[k]);
    assert chunks[k..] == [chunks[k]] + chunks[k + 1..];
    assert chunks[k][0..] == chunks[k];
  }

  lemma NoLimitYet<V>(
    job: Job<V>, s: Bytes, n: nat, done: Bytes, r: Reader<V>, chunk: Bytes, start: nat, end: nat, rest: Bytes)
    requires n <= |s| && start <= end <= |chunk| && Progress(job, s, n, done, r, chunk[start..] + rest)
    requires LF !in chunk[start..end]
    ensures !Within(r.fragmentBytes + (end - start), job.limit) ==> Answers(job, s, n, LimitExceeded(r.events))
    ensures Within(r.fragmentBytes + (end - start), job.limit) ==>
      var segment := chunk[start..end];
      Progress(job, s, n, done + segment,
               r.(fragments := r.fragments + [segment], fragmentBytes := r.fragmentBytes + |segment|),
               chunk[end..] + rest)
  {
    hide Within, Consumed, Answers, Extent, Lines, Tail, Concat, ReadAll;
    var segment := chunk[start..end];
    assert chunk[start..] == segment + chunk[end..];
    assert s == done + segment + (chunk[end..] + rest);
    ConsumedMeans(job, done, r);
    if Within(r.fragmentBytes + |segment|, job.limit) {
      ConsumeTail(job, done, r, segment);
    } else {
      TooLongAtEnd(job, done, r, segment, chunk[end..] + rest, n);
    }
  }

  lemma OneMoreLine<V>(
    job: Job<V>, s: Bytes, endOffset: Option<nat>, done: Bytes, r: Reader<V>, chunk: Bytes, start: nat, end: nat,
    rest: Bytes)
    requires endOffset.Some? ==> job.offset <= endOffset.value
    requires start <= end < |chunk| && chunk[end] == LF && LF !in chunk[start..end]
    requires Progress(job, s, PinnedLength(job, s, endOffset), done, r, chunk[start..] + rest)
    requires Within(r.fragmentBytes + (end - start), job.limit)
    requires endOffset.Some? ==> r.checkpointOffset + r.fragmentBytes + (end - start) + 1 <= endOffset.value
    ensures Progress(job, s, PinnedLength(job, s, endOffset), done + chunk[start..end + 1],
                     WithLine(job, r, Concat(r.fragments + [chunk[start..end]])), chunk[end + 1..] + rest)
  {
    hide Within, Consumed, Extent, Lines, Tail, Concat, EventOf, PinnedLength;
    PinnedMeans(job, s, endOffset);
    var segment := chunk[start..end];
    assert chunk[start..end + 1] == segment + [LF];
    assert chunk[start..] == chunk[start..end + 1] + chunk[end + 1..];
    ConsumedMeans(job, done, r);
    ConsumeLine(job, done, r, segment);
    assert done + chunk[start..end + 1] == done + segment + [LF];
  }

  /** A line that ends past the end: the reader stops there. */
  lemma StopsAtLine<V>(job: Job<V>, s: Bytes, endOffset: Option<nat>, done: Bytes, r: Reader<V>, todo: Bytes,
                       bytesRead: nat)
    requires endOffset.Some? && job.offset <= endOffset.value
    requires Progress(job, s, PinnedLength(job, s, endOffset), done, r, todo)
    requires r.checkpointOffset + r.fragmentBytes >= endOffset.value && |done| <= bytesRead <= |s|
    ensures Ended(job, s, PinnedLength(job, s, endOffset), done, r, bytesRead)
  {
    hide Consumed, PinnedLength;
    PinnedMeans(job, s, endOffset);
    ConsumedMeans(job, done, r);
  }

  lemma StopsAtLast<V>(job: Job<V>, s: Bytes, n: nat, done: Bytes, r: Reader<V>, todo: Bytes)
    requires n <= |s| && Progress(job, s, n, done, r, todo) && todo == []
    ensures Ended(job, s, n, done, r, |done|)
  {
    hide Consumed;
  }

  /**
   * The chunked read. A line that ends past the pinned end is not yielded; what precedes it counts as
   * an unfinished line, and the chunks after it are drained.
   */
  method IterateJsonlForward<V(==)>(job: Job<V>, chunks: seq<Bytes>, endOffset: Option<nat>) returns (r: Reading<V>)
    requires endOffset.Some? ==> job.offset <= endOffset.value
    ensures Answers(job, Concat(chunks), PinnedLength(job, Concat(chunks), endOffset), r)
  {
    hide Progress, Ended, Within, EventOf, Concat, NextLf, Answers, PinnedLength;
    ghost var s := Concat(chunks);
    ghost var n := PinnedLength(job, s, endOffset);
    var fragments: seq<Bytes> := [];
    var fragmentBytes: nat, bytesRead: nat := 0, 0;
    var checkpointOffset: nat := job.offset;
    var nextLine: nat := job.lineNumber;
    var completeLines: nat, parsedLines: nat, malformedLines: nat := 0, 0, 0;
    var events: seq<LineEvent<V>> := [];
    var reachedEnd := false;
    ghost var done: Bytes := [];
    Begins(job, chunks, n);
    var k := 0;
    while k < |chunks|
      invariant 0 <= k <= |chunks|
      invariant !reachedEnd ==> bytesRead == |done| && Progress(job, s, n, done,
        Reader(fragments, fragmentBytes, events, checkpointOffset, nextLine, completeLines, parsedLines,
               malformedLines), Concat(chunks[k..]))
      invariant reachedEnd ==> Ended(job, s, n, done,
        Reader(fragments, fragmentBytes, events, checkpointOffset, nextLine, completeLines, parsedLines,
               malformedLines), bytesRead)
    {
      if reachedEnd {
        k := k + 1;
        continue;
      }
      var chunk := chunks[k];
      ghost var rest := Concat(chunks[k + 1..]);
      NextChunk(chunks, k);
      bytesRead := bytesRead + |chunk|;
      var segmentStart := 0;
      var newline := NextLf(chunk, 0);
      while newline < |chunk|
        invariant 0 <= segmentStart <= newline <= |chunk| && newline == NextLf(chunk, segmentStart)
        invariant !reachedEnd && bytesRead == |done| + |chunk| - segmentStart
        invariant Progress(job, s, n, done,
          Reader(fragments, fragmentBytes, events, checkpointOffset, nextLine, completeLines, parsedLines,
                 malformedLines), chunk[segmentStart..] + rest)
        decreases |chunk| - newline
      {
        var segment := chunk[segmentStart..newline];
        ghost var reader := Reader(fragments, fragmentBytes, events, checkpointOffset, nextLine,
                                   completeLines, parsedLines, malformedLines);
        NoLimitYet(job, s, n, done, reader, chunk, segmentStart, newline, rest);
        if !Within(fragmentBytes + |segment|, job.limit) {
          return LimitExceeded(events);
        }
        if endOffset.Some? && checkpointOffset + fragmentBytes + |segment| + 1 > endOffset.value {
          fragments := fragments + [segment];
          fragmentBytes := fragmentBytes + |segment|;
          done := done + segment;
          segmentStart := |chunk|;
          reachedEnd := true;
          reader := reader.(fragments := fragments, fragmentBytes := fragmentBytes);
          BytesWithin(job, s, n, done, reader, chunk, newline, rest);
          StopsAtLine(job, s, endOffset, done, reader, chunk[newline..] + rest, bytesRead);
          break;
        }
        OneMoreLine(job, s, endOffset, done, reader, chunk, segmentStart, newline, rest);
        var lineBytes := Concat(fragments + [segment]);
        var event := EventOf(lineBytes, checkpointOffset, nextLine, job.decode);
        fragments, fragmentBytes := [], 0;
        checkpointOffset := checkpointOffset + |lineBytes| + 1;
        nextLine := nextLine + 1;
        completeLines := completeLines + 1;
        if event.Record? {
          parsedLines := parsedLines + 1;
        } else {
          malformedLines := malformedLines + 1;
        }
        events := events + [event];
        done := done + chunk[segmentStart..newline + 1];
        segmentStart := newline + 1;
        newline := NextLf(chunk, segmentStart);
      }
      if segmentStart < |chunk| {
        var remainder := chunk[segmentStart..];
        ghost var reader := Reader(fragments, fragmentBytes, events, checkpointOffset, nextLine,
                                   completeLines, parsedLines, malformedLines);
        assert remainder == chunk[segmentStart..newline];
        NoLimitYet(job, s, n, done, reader, chunk, segmentStart, newline, rest);
        if !Within(fragmentBytes + |remainder|, job.limit) {
          return LimitExceeded(events);
        }
        fragments := fragments + [remainder];
        fragmentBytes := fragmentBytes + |remainder|;
        done := done + remainder;
      }
      assert chunk[|chunk|..] + rest == rest;
      if endOffset.Some? && checkpointOffset >= endOffset.value {
        if !reachedEnd {
          ghost var reader := Reader(fragments, fragmentBytes, events, checkpointOffset, nextLine,
                                     completeLines, parsedLines, malformedLines);
          BytesWithin(job, s, n, done, reader, [], 0, rest);
          StopsAtLine(job, s, endOffset, done, reader, rest, bytesRead);
        }
        reachedEnd := true;
      }
      k := k + 1;
    }
    ghost var reader := Reader(fragments, fragmentBytes, events, checkpointOffset, nextLine,
                               completeLines, parsedLines, malformedLines);
    if !reachedEnd {
      NothingLeft(chunks);
      StopsAtLast(job, s, n, done, reader, Concat(chunks[k..]));
    }
    Finishes(job, s, n, done, reader, bytesRead);
    var partial := None;
    if fragmentBytes != 0 {
      partial := Some(Partial(checkpointOffset, fragmentBytes, nextLine));
    }
    return Completed(events, Summary(checkpointOffset, nextLine, bytesRead, completeLines, parsedLines, malformedLines,
                                     partial));
  }

  lemma BytesWithin<V>(job: Job<V>, s: Bytes, n: nat, done: Bytes, r: Reader<V>, chunk: Bytes, end: nat, rest: Bytes)
    requires end <= |chunk| && Progress(job, s, n, done, r, chunk[end..] + rest)
    ensures |done| + |chunk| - end <= |s|
  {
    hide Consumed;
  }

  lemma NothingLeft(chunks: seq<Bytes>)
    ensures Concat(chunks[|chunks|..]) == []
  {
  }

  lemma ConsumedMeans<V>(job: Job<V>, done: Bytes, r: Reader<V>)
    requires Consumed(job, done, r)
    ensures r.checkpointOffset == job.offset + Extent(Lines(done))
      && r.checkpointOffset + r.fragmentBytes == job.offset + |done|
  {
    CheckpointAtTail(done);
  }

  lemma {:induction false} ConcatConcat(x: seq<Bytes>, y: seq<Bytes>)
    ensures Concat(x + y) == Concat(x) + Concat(y)
    decreases |y|
  {
    hide Concat;
    if y == [] {
      NothingLeft(y);
      assert x + y == x && y[|y|..] == y;
    } else {
      var n := |y| - 1;
      ConcatConcat(x, y[..n]);
      ConcatPush(x + y[..n], y[n]);
      ConcatPush(y[..n], y[n]);
      assert x + y == (x + y[..n]) + [y[n]] && y == y[..n] + [y[n]];
    }
  }

  lemma ConcatOne(chunk: Bytes)
    ensures Concat([chunk]) == chunk
  {
    assert [chunk][..0] == [];
  }
}
