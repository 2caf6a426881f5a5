/**
 * src/reader/catalogue.ts: the catalogue reads only the end of a feed. Whenever it calls its recent
 * turns complete, they are the newest turns of the whole feed, wherever the cut fell.
 */
module FeedScan {
  import opened Base
  import opened JsonlLines
  import JsonlReader

  /** What one line is read as. */
  datatype Verdict<+T> = Malformed | Invalid | Turn(turn: T)

  datatype Coverage = Complete | FeedPartial | FeedMalformed | FeedInvalidRecords | FeedScanLimit

  datatype Limits = Limits(maxFileBytes: nat, maxScanBytes: nat, maxRecordBytes: nat, turnsPerSession: nat)

  datatype TooLarge = FileTooLarge | RecordTooLarge

  datatype Scan<+T> = Scan(
    turns: seq<T>, malformed: nat, invalid: nat, partial: bool, scanLimited: bool, clean: bool,
    recentTurns: seq<T>, recentCoverage: Coverage)

  /* ------------------------------ lines ------------------------------ */

  /** The contents of the lines that have any. */
  function Contents(lines: seq<Bytes>): (cs: seq<Bytes>)
    ensures |cs| <= |lines|
    decreases |lines|
  {
    if lines == [] then []
    else (if JsonlReader.Content(lines[0]) == [] then [] else [JsonlReader.Content(lines[0])]) + Contents(lines[1..])
  }

  lemma {:induction false} ContentsConcat(a: seq<Bytes>, b: seq<Bytes>)
    ensures Contents(a + b) == Contents(a) + Contents(b)
    decreases |a|
  {
    if a == [] {
      assert a + b == b;
    } else {
      assert (a + b)[0] == a[0] && (a + b)[1..] == a[1..] + b;
      ContentsConcat(a[1..], b);
    }
  }

  /** What a suffix shows: from the first line break on, when it starts in the middle of the file. */
  function ShownPart(suffix: Bytes, startsMidFile: bool): Bytes
  {
    if !startsMidFile then suffix
    else if FirstLf(suffix) == |suffix| then []
    else suffix[FirstLf(suffix) + 1..]
  }

  function SuffixLines(suffix: Bytes, startsMidFile: bool): seq<Bytes>
  {
    Contents(Lines(ShownPart(suffix, startsMidFile)))
  }

  /** The lines a suffix shows are the last lines of the file. */
  lemma SuffixShowsLast(bytes: Bytes, start: nat)
    requires start <= |bytes|
    ensures var shown, all := SuffixLines(bytes[start..], start > 0), Contents(Lines(bytes));
      |shown| <= |all| && all[|all| - |shown|..] == shown && (start == 0 ==> shown == all)
  {
    hide Lines, Tail, Contents;
    var head, suffix := bytes[..start], bytes[start..];
    assert bytes == head + suffix;
    if start == 0 {
      assert suffix == bytes;
    } else {
      var i := FirstLf(suffix);
      if i == |suffix| {
        NoLines([]);
        NoContents();
      } else {
        SplitConcat(head, suffix);
        assert Tail(head) + suffix == (Tail(head) + suffix[..i]) + [LF] + suffix[i + 1..];
        LinesOfOne(Tail(head) + suffix[..i], suffix[i + 1..]);
        ContentsConcat([Tail(head) + suffix[..i]], Lines(suffix[i + 1..]));
        ContentsConcat(Lines(head), [Tail(head) + suffix[..i]] + Lines(suffix[i + 1..]));
      }
    }
  }

  lemma NoContents()
    ensures Contents([]) == []
  {
  }

  /* ------------------------------ turns, newest first ------------------------------ */

  function TurnsIn<T>(lines: seq<Bytes>, read: Bytes -> Verdict<T>): (ts: seq<T>)
    ensures |ts| <= |lines|
    decreases |lines|
  {
    if lines == [] then []
    else TurnsIn(lines[1..], read) + if read(lines[0]).Turn? then [read(lines[0]).turn] else []
  }

  function Count<T>(lines: seq<Bytes>, read: Bytes -> Verdict<T>, bad: Verdict<()>): nat
    decreases |lines|
  {
    if lines == [] then 0
    else Count(lines[1..], read, bad) + if IsBad(read(lines[0]), bad) then 1 else 0
  }

  predicate IsBad<T>(v: Verdict<T>, bad: Verdict<()>)
  {
    (v.Malformed? && bad.Malformed?) || (v.Invalid? && bad.Invalid?)
  }

  /** A bad line stands among the newest, with fewer than `n` turns after it. */
  predicate BadAmongNewest<T>(lines: seq<Bytes>, read: Bytes -> Verdict<T>, bad: Verdict<()>, n: nat)
    decreases |lines|
  {
    lines != [] && (BadAmongNewest(lines[1..], read, bad, n)
                    || (IsBad(read(lines[0]), bad) && |TurnsIn(lines[1..], read)| < n))
  }

  /** Counted back from the newest, which is line 0. */
  function NthNewest(lines: seq<Bytes>, j: nat): Bytes
    requires j < |lines|
  {
    lines[|lines| - 1 - j]
  }

  /** The newest `n` lines, or all of them, are turns: these. */
  predicate NewestAre<T(==)>(lines: seq<Bytes>, read: Bytes -> Verdict<T>, n: nat, turns: seq<T>)
  {
    && |turns| == Min(n, |lines|)
    && forall j | 0 <= j < |turns| :: read(NthNewest(lines, j)) == Turn(turns[j])
  }

  predicate NewestAreTurns<T>(lines: seq<Bytes>, read: Bytes -> Verdict<T>, n: nat)
  {
    forall j | 0 <= j < Min(n, |lines|) :: read(NthNewest(lines, j)).Turn?
  }

  lemma WithoutOldest(lines: seq<Bytes>)
    requires lines != []
    ensures forall j | 0 <= j < |lines| - 1 :: NthNewest(lines[1..], j) == NthNewest(lines, j)
    ensures NthNewest(lines, |lines| - 1) == lines[0]
  {
  }

  /** When the newest lines are turns, the scan collects them first and in that order. */
  lemma {:induction false} NewestCollected<T>(lines: seq<Bytes>, read: Bytes -> Verdict<T>, n: nat)
    requires NewestAreTurns(lines, read, n)
    ensures |TurnsIn(lines, read)| >= Min(n, |lines|)
    ensures NewestAre(lines, read, n, TurnsIn(lines, read)[..Min(n, |lines|)])
    decreases |lines|
  {
    hide NthNewest;
    if lines != [] {
      WithoutOldest(lines);
      NewestCollected(lines[1..], read, n);
    }
  }

  /** No bad line counts against the recent turns exactly when the newest lines are all turns. */
  lemma {:induction false} NoBadIff<T>(lines: seq<Bytes>, read: Bytes -> Verdict<T>, n: nat)
    ensures !BadAmongNewest(lines, read, Malformed, n) && !BadAmongNewest(lines, read, Invalid, n) <==>
      NewestAreTurns(lines, read, n)
    decreases |lines|
  {
    hide NthNewest, NewestAre;
    if lines != [] {
      WithoutOldest(lines);
      NoBadIff(lines[1..], read, n);
      if NewestAreTurns(lines[1..], read, n) {
        NewestCollected(lines[1..], read, n);
        OldestDecides(lines, read, n);
      } else {
        NewestOfRest(lines, read, n);
      }
    }
  }

  lemma OldestDecides<T>(lines: seq<Bytes>, read: Bytes -> Verdict<T>, n: nat)
    requires lines != [] && NewestAreTurns(lines[1..], read, n)
    ensures NewestAreTurns(lines, read, n) <==> n <= |lines| - 1 || read(lines[0]).Turn?
  {
    hide NthNewest;
    WithoutOldest(lines);
    if n > |lines| - 1 {
      assert NewestAreTurns(lines, read, n) ==> read(NthNewest(lines, |lines| - 1)).Turn?;
    }
  }

  lemma NewestOfRest<T>(lines: seq<Bytes>, read: Bytes -> Verdict<T>, n: nat)
    requires lines != [] && !NewestAreTurns(lines[1..], read, n)
    ensures !NewestAreTurns(lines, read, n)
  {
    hide NthNewest;
    WithoutOldest(lines);
  }

  /* ------------------------------ the scan ------------------------------ */

  /** The first line that is too long for the reader, if any, fails the scan. */
  predicate WithinRecordLimit(lines: seq<Bytes>, limits: Limits)
  {
    forall i | 0 <= i < |lines| :: |lines[i]| <= limits.maxRecordBytes
  }

  /** src/reader/catalogue.ts, completeSuffixLines. */
  method CompleteSuffixLines(suffix: Bytes, startsMidFile: bool, partialTail: bool) returns (lines: seq<Bytes>)
    requires partialTail == (suffix != [] && suffix[|suffix| - 1] != LF)
    ensures lines == SuffixLines(suffix, startsMidFile)
  {
    hide Lines, Tail, Contents, Collected, LastLf, FirstLf;
    var start, end := 0, |suffix|;
    NothingShown();
    if startsMidFile {
      var firstNewline := FirstLf(suffix);
      if firstNewline == |suffix| {
        return [];
      }
      start := firstNewline + 1;
    }
    if partialTail {
      var lastNewline := LastLf(suffix);
      if lastNewline < start {
        NoLines(suffix[start..]);
        return [];
      }
      end := lastNewline + 1;
    }
    lines := [];
    var lineStart := start;
    NothingCollected(suffix, start);
    for index := start to end
      invariant start <= lineStart <= index
      invariant Collected(suffix, start, lineStart, index, lines)
    {
      LineGoesOn(suffix, start, lineStart, index, lines);
      if suffix[index] != LF { continue; }
      var lineEnd := index;
      if lineEnd > lineStart && suffix[lineEnd - 1] == CR {
        lineEnd := lineEnd - 1;
      }
      assert suffix[lineStart..lineEnd] == JsonlReader.Content(suffix[lineStart..index]);
      if lineEnd > lineStart {
        lines := lines + [suffix[lineStart..lineEnd]];
      }
      lineStart := index + 1;
    }
    AllCollected(suffix, start, lineStart, end, lines);
  }

  lemma NothingShown()
    ensures Contents(Lines([])) == []
  {
  }

  /** What the loop has collected before `index`: the contents of the lines that end before `lineStart`. */
  predicate Collected(suffix: Bytes, start: nat, lineStart: nat, index: nat, lines: seq<Bytes>)
  {
    && start <= lineStart <= index <= |suffix| && LF !in suffix[lineStart..index]
    && lines == Contents(Lines(suffix[start..lineStart])) && Tail(suffix[start..lineStart]) == []
  }

  lemma NothingCollected(suffix: Bytes, start: nat)
    requires start <= |suffix|
    ensures Collected(suffix, start, start, start, [])
  {
    NothingShown();
    assert suffix[start..start] == [];
  }

  lemma LineGoesOn(suffix: Bytes, start: nat, lineStart: nat, index: nat, lines: seq<Bytes>)
    requires index < |suffix| && Collected(suffix, start, lineStart, index, lines)
    ensures suffix[index] != LF ==> Collected(suffix, start, lineStart, index + 1, lines)
    ensures suffix[index] == LF ==>
      var c := JsonlReader.Content(suffix[lineStart..index]);
      Collected(suffix, start, index + 1, index + 1, if c == [] then lines else lines + [c])
  {
    hide Lines, Tail, Contents;
    assert suffix[lineStart..index + 1] == suffix[lineStart..index] + [suffix[index]];
    if suffix[index] == LF {
      LineEnds(suffix, start, lineStart, index);
    }
  }

  lemma AllCollected(suffix: Bytes, start: nat, lineStart: nat, end: nat, lines: seq<Bytes>)
    requires Collected(suffix, start, lineStart, end, lines)
    requires end == |suffix| || (forall k | end <= k < |suffix| :: suffix[k] != LF)
    ensures lines == Contents(Lines(suffix[start..]))
  {
    hide Lines, Tail, Contents;
    var head, rest := suffix[start..lineStart], suffix[lineStart..];
    assert suffix[start..] == head + rest;
    assert LF !in rest by {
      assert rest == suffix[lineStart..end] + suffix[end..];
    }
    SplitConcat(head, rest);
    assert [] + rest == rest;
    NoLines(rest);
    assert Lines(head) + [] == Lines(head);
  }

  /** The line from `lineStart` to the line break at `index` is the next one. */
  lemma LineEnds(suffix: Bytes, start: nat, lineStart: nat, index: nat)
    requires start <= lineStart <= index < |suffix| && suffix[index] == LF && LF !in suffix[lineStart..index]
    requires Tail(suffix[start..lineStart]) == []
    ensures Tail(suffix[start..index + 1]) == []
    ensures var c := JsonlReader.Content(suffix[lineStart..index]);
      Contents(Lines(suffix[start..index + 1]))
      == Contents(Lines(suffix[start..lineStart])) + (if c == [] then [] else [c])
  {
    hide Lines, Tail;
    var line := suffix[lineStart..index];
    assert suffix[start..index + 1] == suffix[start..lineStart] + (line + [LF]);
    SplitConcat(suffix[start..lineStart], line + [LF]);
    assert [] + (line + [LF]) == line + [LF] + [];
    LinesOfOne(line, []);
    NoLines([]);
    ContentsConcat(Lines(suffix[start..lineStart]), [line]);
    assert [line] + [] == [line];
    var one: seq<Bytes> := [line];
    assert one[1..] == [];
  }

  /**
   * The scan of a feed. Recent coverage is complete exactly when the feed ends in a whole line, the
   * newest lines that are shown are turns, and there are enough of them or the whole feed is shown;
   * and then the recent turns are the newest lines of the whole feed.
   */
  method ScanFeed<T>(bytes: Bytes, limits: Limits, read: Bytes -> Verdict<T>)
    returns (result: Result<Scan<T>, TooLarge>)
    ensures result == Err(FileTooLarge) <==> |bytes| > limits.maxFileBytes
    ensures |bytes| <= limits.maxFileBytes ==>
      var start := |bytes| - Min(|bytes|, limits.maxScanBytes);
      var shown := SuffixLines(bytes[start..], start > 0);
      var partial := bytes != [] && limits.maxScanBytes > 0 && bytes[|bytes| - 1] != LF;
      && (result.Ok? <==> WithinRecordLimit(shown, limits))
      && (result.Ok? ==>
            var scan := result.value;
            && scan.partial == partial && scan.scanLimited == (start > 0)
            && scan.turns == TurnsIn(shown, read) && scan.malformed == Count(shown, read, Malformed)
            && scan.invalid == Count(shown, read, Invalid)
            && scan.clean == (start == 0 && !partial && scan.malformed == 0 && scan.invalid == 0)
            && (scan.recentCoverage == Complete <==>
                  && !partial && NewestAreTurns(shown, read, limits.turnsPerSession)
                  && (start == 0 || |shown| >= limits.turnsPerSession))
            && (scan.recentCoverage == Complete ==>
                  NewestAre(Contents(Lines(bytes)), read, limits.turnsPerSession, scan.recentTurns)))
  {
    hide Lines, Contents, SuffixLines, NewestAreTurns, NewestAre, TurnsIn, Count, BadAmongNewest;
    if |bytes| > limits.maxFileBytes {
      return Err(FileTooLarge);
    }
    var length := Min(|bytes|, limits.maxScanBytes);
    var start := |bytes| - length;
    var suffix := bytes[start..];
    var partial := |suffix| > 0 && suffix[|suffix| - 1] != LF;
    var lines := CompleteSuffixLines(suffix, start > 0, partial);
    var turns: seq<T>, malformed, invalid, recentMalformed, recentInvalid := [], 0, 0, false, false;
    var n := limits.turnsPerSession;
    var index := |lines|;
    NothingScanned(read, n);
    assert lines[|lines|..] == [];
    while index > 0
      invariant 0 <= index <= |lines|
      invariant WithinRecordLimit(lines[index..], limits)
      invariant Scanned(lines[index..], read, n, turns, malformed, invalid, recentMalformed, recentInvalid)
    {
      index := index - 1;
      var line := lines[index];
      assert lines[index..] == [line] + lines[index + 1..];
      if |line| > limits.maxRecordBytes {
        return Err(RecordTooLarge);
      }
      ScannedOneMore(line, lines[index + 1..], read, n, turns, malformed, invalid, recentMalformed, recentInvalid);
      match read(line) {
        case Malformed =>
          malformed := malformed + 1;
          if |turns| < n { recentMalformed := true; }
        case Invalid =>
          invalid := invalid + 1;
          if |turns| < n { recentInvalid := true; }
        case Turn(turn) =>
          turns := turns + [turn];
      }
    }
    assert lines[0..] == lines;
    var recentTurns := turns[..Min(n, |turns|)];
    var coverage :=
      if partial then FeedPartial
      else if recentMalformed then FeedMalformed
      else if recentInvalid then FeedInvalidRecords
      else if start > 0 && |recentTurns| < n then FeedScanLimit
      else Complete;
    NoBadIff(lines, read, n);
    if NewestAreTurns(lines, read, n) {
      NewestCollected(lines, read, n);
      if start == 0 || |lines| >= n {
        RecentAreNewest(bytes, start, read, n);
      }
    }
    result := Ok(Scan(turns, malformed, invalid, partial, start > 0,
                      start == 0 && !partial && malformed == 0 && invalid == 0, recentTurns, coverage));
  }

  /** What the scan has counted over the lines from some point to the newest. */
  predicate Scanned<T(==)>(
    lines: seq<Bytes>, read: Bytes -> Verdict<T>, n: nat,
    turns: seq<T>, malformed: nat, invalid: nat, recentMalformed: bool, recentInvalid: bool)
  {
    && turns == TurnsIn(lines, read) && malformed == Count(lines, read, Malformed)
    && invalid == Count(lines, read, Invalid)
    && recentMalformed == BadAmongNewest(lines, read, Malformed, n)
    && recentInvalid == BadAmongNewest(lines, read, Invalid, n)
  }

  lemma NothingScanned<T>(read: Bytes -> Verdict<T>, n: nat)
    ensures Scanned([], read, n, [], 0, 0, false, false)
  {
  }

  lemma ScannedOneMore<T>(
    line: Bytes, lines: seq<Bytes>, read: Bytes -> Verdict<T>, n: nat,
    turns: seq<T>, malformed: nat, invalid: nat, recentMalformed: bool, recentInvalid: bool)
    requires Scanned(lines, read, n, turns, malformed, invalid, recentMalformed, recentInvalid)
    ensures var all := [line] + lines;
      match read(line)
      case Malformed =>
        Scanned(all, read, n, turns, malformed + 1, invalid, recentMalformed || |turns| < n, recentInvalid)
      case Invalid =>
        Scanned(all, read, n, turns, malformed, invalid + 1, recentMalformed, recentInvalid || |turns| < n)
      case Turn(turn) => Scanned(all, read, n, turns + [turn], malformed, invalid, recentMalformed, recentInvalid)
  {
    var all := [line] + lines;
    assert all[0] == line && all[1..] == lines;
  }

  /** The newest lines that are shown are the newest lines of the feed. */
  lemma RecentAreNewest<T>(bytes: Bytes, start: nat, read: Bytes -> Verdict<T>, n: nat)
    requires start <= |bytes|
    requires var shown := SuffixLines(bytes[start..], start > 0);
      NewestAreTurns(shown, read, n) && (start == 0 || |shown| >= n)
    ensures var shown := SuffixLines(bytes[start..], start > 0);
      |TurnsIn(shown, read)| >= Min(n, |shown|)
      && NewestAre(Contents(Lines(bytes)), read, n, TurnsIn(shown, read)[..Min(n, |shown|)])
  {
    hide Lines, Contents, SuffixLines, TurnsIn;
    var shown, all := SuffixLines(bytes[start..], start > 0), Contents(Lines(bytes));
    SuffixShowsLast(bytes, start);
    NewestCollected(shown, read, n);
    assert forall j | 0 <= j < |shown| :: NthNewest(all, j) == NthNewest(shown, j);
  }
}
