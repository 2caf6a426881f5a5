/**
 * src/core/checkpoint.ts: resuming a JSONL file where an earlier read left off.  A read resumed
 * at a checkpoint of a file that only grew continues exactly the earlier one; what a changed file
 * can hide from the anchor is stated too.
 */
module Checkpoint {
  import opened Base
  import opened JsonlLines
  import opened JsonlReader

  const CHECKPOINT_ANCHOR_BYTES: nat := 64

  /** A regular file as observed: its identity (device, inode, birth time) and its bytes. */
  datatype File = File(identity: nat, bytes: Bytes)

  datatype Anchor = Anchor(byteLength: nat, sha256: Digest)

  datatype JsonlCheckpoint = JsonlCheckpoint(identity: nat, byteOffset: nat, nextLine: nat, observedSize: nat,
                                             anchor: Anchor)

  datatype Status = Start | Resume | Rotated | Truncated | Rewritten

  datatype Resolution = Resolution(status: Status, startOffset: nat, nextLine: nat)

  /** The hash of up to 64 bytes before an offset. */
  function AnchorAt(bytes: Bytes, offset: nat): (a: Anchor)
    requires offset <= |bytes|
  {
    var length := Min(CHECKPOINT_ANCHOR_BYTES, offset);
    Anchor(length, Sha256(bytes[offset - length..offset]))
  }

  predicate ValidCheckpoint(c: JsonlCheckpoint)
  {
    && 1 <= c.nextLine && c.byteOffset <= c.observedSize
    && c.anchor.byteLength == Min(CHECKPOINT_ANCHOR_BYTES, c.byteOffset)
  }

  /** The checkpoint a completed read of `file` ends at. */
  function CreateCheckpoint(file: File, summary: Summary): (c: JsonlCheckpoint)
    requires summary.checkpointOffset <= |file.bytes|
  {
    JsonlCheckpoint(file.identity, summary.checkpointOffset, summary.nextLine, |file.bytes|,
                    AnchorAt(file.bytes, summary.checkpointOffset))
  }

  /** Where to read from, given the file that is at the path now. */
  function ResolveCheckpoint(file: File, saved: Option<JsonlCheckpoint>): (r: Resolution)
    ensures r.startOffset <= |file.bytes|
  {
    match saved
    case None => Resolution(Start, 0, 1)
    case Some(c) =>
      if file.identity != c.identity then Resolution(Rotated, 0, 1)
      else if |file.bytes| < c.byteOffset || |file.bytes| < c.observedSize then Resolution(Truncated, 0, 1)
      else if AnchorAt(file.bytes, c.byteOffset) != c.anchor then Resolution(Rewritten, 0, 1)
      else Resolution(Resume, c.byteOffset, c.nextLine)
  }

  /** A read of the whole file as it is, from a resolved position. */
  function ReadFrom<V>(file: File, at: Resolution, limit: Option<nat>, decode: Bytes -> Option<V>): (r: Reading<V>)
    requires at.startOffset <= |file.bytes|
  {
    ReadSpec(file.bytes[at.startOffset..], at.startOffset, at.nextLine, limit, decode)
  }

  /* ------------------------------ resuming continues ------------------------------ */

  lemma {:induction false} ExtentConcat(x: seq<Bytes>, y: seq<Bytes>)
    ensures Extent(x + y) == Extent(x) + Extent(y)
    decreases |y|
  {
    if y == [] {
      assert x + y == x;
    } else {
      var n := |y| - 1;
      ExtentConcat(x, y[..n]);
      assert (x + y)[..|x + y| - 1] == x + y[..n];
    }
  }

  lemma {:induction false} EventsConcat<V>(x: seq<Bytes>, y: seq<Bytes>, offset: nat, lineNumber: nat,
                                           decode: Bytes -> Option<V>)
    ensures Events(x + y, offset, lineNumber, decode)
         == Events(x, offset, lineNumber, decode) + Events(y, offset + Extent(x), lineNumber + |x|, decode)
    decreases |y|
  {
    hide EventOf, Extent, Events;
    if y == [] {
      assert x + y == x;
      NoEvents(offset + Extent(x), lineNumber + |x|, decode);
    } else {
      var n := |y| - 1;
      var init, last := y[..n], y[n];
      EventsConcat(x, init, offset, lineNumber, decode);
      ExtentConcat(x, init);
      assert y == init + [last] && x + y == (x + init) + [last];
      EventsPush(x + init, last, offset, lineNumber, decode);
      EventsPush(init, last, offset + Extent(x), lineNumber + |x|, decode);
    }
  }

  lemma NoEvents<V>(offset: nat, lineNumber: nat, decode: Bytes -> Option<V>)
    ensures Events([], offset, lineNumber, decode) == []
  {
  }

  lemma {:induction false} ParsedConcat<V>(x: seq<LineEvent<V>>, y: seq<LineEvent<V>>)
    ensures Parsed(x + y) == Parsed(x) + Parsed(y)
    decreases |y|
  {
    if y == [] {
      assert x + y == x;
    } else {
      var n := |y| - 1;
      ParsedConcat(x, y[..n]);
      assert x + y == (x + y[..n]) + [y[n]] && y == y[..n] + [y[n]];
      ParsedPush(x + y[..n], y[n]);
      ParsedPush(y[..n], y[n]);
    }
  }

  /** `whole` is `first` continued by `rest`. */
  predicate Continues<V(==)>(first: Reading<V>, rest: Reading<V>, whole: Reading<V>)
    requires first.Completed?
  {
    && whole.events == first.events + rest.events
    && (whole.Completed? <==> rest.Completed?)
    && (whole.Completed? ==>
          && whole.summary.checkpointOffset == rest.summary.checkpointOffset
          && whole.summary.nextLine == rest.summary.nextLine
          && whole.summary.partial == rest.summary.partial
          && whole.summary.completeLines == first.summary.completeLines + rest.summary.completeLines
          && whole.summary.parsedLines == first.summary.parsedLines + rest.summary.parsedLines
          && whole.summary.malformedLines == first.summary.malformedLines + rest.summary.malformedLines)
  }

  lemma CompletedMeans<V>(s: Bytes, offset: nat, lineNumber: nat, limit: Option<nat>, decode: Bytes -> Option<V>)
    requires ReadSpec(s, offset, lineNumber, limit, decode).Completed?
    ensures forall l | l in Lines(s) :: Within(|l|, limit)
    ensures Within(|Tail(s)|, limit)
  {
  }

  /** Reading on from the checkpoint, tail included, continues the first read, limit failures and all. */
  lemma ResumeContinues<V>(a: Bytes, b: Bytes, offset: nat, lineNumber: nat, limit: Option<nat>,
                           decode: Bytes -> Option<V>)
    requires ReadSpec(a, offset, lineNumber, limit, decode).Completed?
    ensures var first := ReadSpec(a, offset, lineNumber, limit, decode);
      var rest := ReadSpec(Tail(a) + b, first.summary.checkpointOffset, first.summary.nextLine, limit, decode);
      Continues(first, rest, ReadSpec(a + b, offset, lineNumber, limit, decode))
  {
    hide Lines, Tail, Within, WithinLimit, Events, Extent, Parsed;
    var x, y := Lines(a), Lines(Tail(a) + b);
    CompletedMeans(a, offset, lineNumber, limit, decode);
    SplitConcat(a, b);
    WithinConcat(x, y, limit);
    var good := WithinLimit(y, limit);
    EventsConcat(x, y[..good], offset, lineNumber, decode);
    ExtentConcat(x, y[..good]);
    assert (x + y)[..|x| + good] == x + y[..good];
    if good == |y| {
      assert y[..good] == y && (x + y)[..|x| + good] == x + y;
      ParsedConcat(Events(x, offset, lineNumber, decode), Events(y, offset + Extent(x), lineNumber + |x|, decode));
    }
  }

  /**
   * A file that only grew resumes at the checkpoint of the earlier read, and the resumed read and
   * the earlier one together are one read of the grown file.
   */
  lemma ResumedReadIsOneRead<V>(was: File, now: File, at: Resolution, limit: Option<nat>, decode: Bytes -> Option<V>)
    requires at.startOffset <= |was.bytes| && at.nextLine >= 1
    requires now.identity == was.identity && was.bytes <= now.bytes
    requires ReadFrom(was, at, limit, decode).Completed?
    ensures var first := ReadFrom(was, at, limit, decode);
      && first.summary.checkpointOffset <= |was.bytes|
      && var saved := CreateCheckpoint(was, first.summary);
      var resumed := ResolveCheckpoint(now, Some(saved));
      && ValidCheckpoint(saved)
      && resumed == Resolution(Resume, saved.byteOffset, saved.nextLine)
      && Continues(first, ReadFrom(now, resumed, limit, decode), ReadFrom(now, at, limit, decode))
  {
    hide Lines, Tail, Events, Extent, Parsed, Continues, WithinLimit;
    var a := was.bytes[at.startOffset..];
    var b := now.bytes[|was.bytes|..];
    var first := ReadFrom(was, at, limit, decode);
    CheckpointAtTail(a);
    ResumeContinues(a, b, at.startOffset, at.nextLine, limit, decode);
    var offset := first.summary.checkpointOffset;
    assert now.bytes[at.startOffset..] == a + b;
    assert now.bytes[offset..] == Tail(a) + b by {
      assert a[Extent(Lines(a))..] == was.bytes[offset..];
      assert now.bytes[offset..] == was.bytes[offset..] + b;
    }
    var length := Min(CHECKPOINT_ANCHOR_BYTES, offset);
    assert now.bytes[offset - length..offset] == was.bytes[offset - length..offset];
  }

  /* ------------------------------ what the anchor sees ------------------------------ */

  /** The checkpoint at a line boundary of a file. */
  function CheckpointAt(file: File, offset: nat, nextLine: nat): JsonlCheckpoint
    requires offset <= |file.bytes|
  {
    JsonlCheckpoint(file.identity, offset, nextLine, |file.bytes|, AnchorAt(file.bytes, offset))
  }

  /** The last bytes before an offset that an anchor covers. */
  function LastBefore(bytes: Bytes, offset: nat): (last: Bytes)
    requires offset <= |bytes|
  {
    bytes[offset - Min(CHECKPOINT_ANCHOR_BYTES, offset)..offset]
  }

  /**
   * A read goes on at a checkpoint exactly when the file is the same one, is no shorter than it was,
   * and still has the same last bytes before the offset. Every other file is read from its start.
   */
  lemma ReplacedFileRestarts(was: File, offset: nat, nextLine: nat, now: File)
    requires offset <= |was.bytes|
    ensures var r := ResolveCheckpoint(now, Some(CheckpointAt(was, offset, nextLine)));
      if now.identity == was.identity && |was.bytes| <= |now.bytes|
        && LastBefore(now.bytes, offset) == LastBefore(was.bytes, offset)
      then r == Resolution(Resume, offset, nextLine)
      else r.startOffset == 0 && r.nextLine == 1 && r.status != Resume
  {
  }

  /** Every file that resumes at this offset still starts with the bytes that were read. */
  ghost predicate AnchorProvesPrefix(was: File, offset: nat, nextLine: nat)
    requires offset <= |was.bytes|
  {
    forall now: File | ResolveCheckpoint(now, Some(CheckpointAt(was, offset, nextLine))).status == Resume ::
      |now.bytes| >= offset && now.bytes[..offset] == was.bytes[..offset]
  }

  /** The anchor rules out a rewritten prefix exactly when the whole prefix fits in it. */
  lemma AnchorProvesShortPrefixes(was: File, offset: nat, nextLine: nat)
    requires offset <= |was.bytes|
    ensures AnchorProvesPrefix(was, offset, nextLine) <==> offset <= CHECKPOINT_ANCHOR_BYTES
  {
    if offset <= CHECKPOINT_ANCHOR_BYTES {
      forall now: File | ResolveCheckpoint(now, Some(CheckpointAt(was, offset, nextLine))).status == Resume
        ensures now.bytes[..offset] == was.bytes[..offset]
      {
        assert now.bytes[0..offset] == was.bytes[0..offset];
      }
    } else {
      var other: Byte := if was.bytes[0] == 0 then 1 else 0;
      var now := File(was.identity, was.bytes[0 := other]);
      assert now.bytes[offset - CHECKPOINT_ANCHOR_BYTES..offset] == was.bytes[offset - CHECKPOINT_ANCHOR_BYTES..offset];
      assert ResolveCheckpoint(now, Some(CheckpointAt(was, offset, nextLine))).status == Resume;
      assert now.bytes[..offset][0] != was.bytes[..offset][0];
    }
  }
}
