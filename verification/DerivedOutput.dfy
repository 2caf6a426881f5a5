/**
 * src/output/jsonl-store.ts, the steps on the open file: heal the torn tail, index what is stored,
 * append what is new. `DerivedFile` is the file; the write calls transfer as much as they like.
 */
module DerivedOutput {
  import opened Base
  import opened JsonlLines
  import opened JsonlStore

  datatype StoreError = EmptyId | NoForwardProgress

  datatype Appending = Appending(appended: nat, skipped: nat, conflicted: nat, conflictedIds: seq<string>)

  /* ------------------------------ conflicts ------------------------------ */

  /** The records that stored lines are read as; lines that identify nothing are passed over. */
  function Readable(lines: seq<Bytes>, parse: Parser): (rs: seq<Rec>)
    decreases |lines|
  {
    if lines == [] then [] else ReadableOf(lines[0], parse) + Readable(lines[1..], parse)
  }

  function ReadableOf(line: Bytes, parse: Parser): (rs: seq<Rec>)
  {
    if line == [] || parse(line).None? || parse(line).value.id == "" then [] else [parse(line).value]
  }

  lemma ReadableStep(lines: seq<Bytes>, parse: Parser)
    requires lines != []
    ensures Readable(lines, parse) == ReadableOf(lines[0], parse) + Readable(lines[1..], parse)
  {
  }

  lemma NothingReadable(parse: Parser)
    ensures Readable([], parse) == []
  {
  }

  /** The first version of each identifier. */
  function Versions(known: map<string, Bytes>, rs: seq<Rec>): (m: map<string, Bytes>)
    decreases |rs|
  {
    if rs == [] then known
    else Versions(if rs[0].id in known then known else known[rs[0].id := rs[0].canonical], rs[1..])
  }

  /** The identifiers that come again with other content, once for each time they do. */
  function Conflicts(known: map<string, Bytes>, rs: seq<Rec>): (ids: seq<string>)
    decreases |rs|
  {
    if rs == [] then []
    else if rs[0].id in known then
      (if known[rs[0].id] != rs[0].canonical then [rs[0].id] else []) + Conflicts(known, rs[1..])
    else Conflicts(known[rs[0].id := rs[0].canonical], rs[1..])
  }

  function Reported(ids: seq<string>): (report: seq<string>)
    ensures report <= ids && |report| == Min(|ids|, CONFLICT_ID_REPORT_LIMIT)
  {
    ids[..Min(|ids|, CONFLICT_ID_REPORT_LIMIT)]
  }

  function FirstWith(rs: seq<Rec>, id: string): (i: nat)
    ensures i <= |rs| && (i < |rs| ==> rs[i].id == id) && forall k | 0 <= k < i :: rs[k].id != id
  {
    if rs == [] || rs[0].id == id then 0 else 1 + FirstWith(rs[1..], id)
  }

  /** The version that stands for an identifier is that of its first record. */
  lemma {:induction false} VersionsAreFirst(known: map<string, Bytes>, rs: seq<Rec>, id: string)
    ensures id in Versions(known, rs) <==> id in known || FirstWith(rs, id) < |rs|
    ensures id in known ==> Versions(known, rs)[id] == known[id]
    ensures id !in known && FirstWith(rs, id) < |rs| ==> Versions(known, rs)[id] == rs[FirstWith(rs, id)].canonical
    decreases |rs|
  {
    if rs != [] {
      VersionsAreFirst(if rs[0].id in known then known else known[rs[0].id := rs[0].canonical], rs[1..], id);
    }
  }

  /** One record more is a conflict exactly when its identifier's first version reads otherwise. */
  lemma {:induction false} ConflictsConcat(known: map<string, Bytes>, a: seq<Rec>, b: seq<Rec>)
    ensures Conflicts(known, a + b) == Conflicts(known, a) + Conflicts(Versions(known, a), b)
    decreases |a|
  {
    if a == [] {
      assert a + b == b;
    } else {
      assert (a + b)[0] == a[0] && (a + b)[1..] == a[1..] + b;
      if a[0].id in known {
        ConflictsConcat(known, a[1..], b);
      } else {
        ConflictsConcat(known[a[0].id := a[0].canonical], a[1..], b);
      }
    }
  }

  lemma ConflictMeans(earlier: seq<Rec>, r: Rec)
    ensures var i := FirstWith(earlier, r.id);
      Conflicts(map[], earlier + [r])
      == Conflicts(map[], earlier) + if i < |earlier| && earlier[i].canonical != r.canonical then [r.id] else []
  {
    ConflictsConcat(map[], earlier, [r]);
    VersionsAreFirst(map[], earlier, r.id);
    assert [r][1..] == [];
  }

  /** Learning line by line keeps the first version of every readable record. */
  lemma {:induction false} LearnAllIsVersions(known: map<string, Bytes>, lines: seq<Bytes>, parse: Parser)
    ensures LearnAll(known, lines, parse) == Versions(known, Readable(lines, parse))
    decreases |lines|
  {
    if lines != [] {
      var known' := Learn(known, lines[0], parse);
      LearnAllIsVersions(known', lines[1..], parse);
      var head := ReadableOf(lines[0], parse);
      VersionsConcat(known, head, Readable(lines[1..], parse));
      assert Versions(known, head) == known' by {
        assert head != [] ==> head[1..] == [];
      }
    }
  }

  lemma {:induction false} VersionsConcat(known: map<string, Bytes>, a: seq<Rec>, b: seq<Rec>)
    ensures Versions(known, a + b) == Versions(Versions(known, a), b)
    decreases |a|
  {
    if a == [] {
      assert a + b == b;
    } else {
      assert (a + b)[0] == a[0] && (a + b)[1..] == a[1..] + b;
      VersionsConcat(if a[0].id in known then known else known[a[0].id := a[0].canonical], a[1..], b);
    }
  }

  lemma {:induction false} ReadableConcat(a: seq<Bytes>, b: seq<Bytes>, parse: Parser)
    ensures Readable(a + b, parse) == Readable(a, parse) + Readable(b, parse)
    decreases |a|
  {
    hide Readable, ReadableOf;
    if a == [] {
      assert a + b == b;
      NothingReadable(parse);
    } else {
      assert (a + b)[0] == a[0] && (a + b)[1..] == a[1..] + b;
      ReadableConcat(a[1..], b, parse);
      ReadableStep(a, parse);
      ReadableStep(a + b, parse);
      var head := ReadableOf(a[0], parse);
      var rest, more := Readable(a[1..], parse), Readable(b, parse);
      assert head + (rest + more) == head + rest + more;
    }
  }

  /* ------------------------------ the last LF ------------------------------ */

  /** No LF at or after a position. */
  predicate UnbrokenFrom(bytes: Bytes, from: int)
  {
    0 <= from <= |bytes| && forall k | from <= k < |bytes| :: bytes[k] != LF
  }

  lemma LastLfOfChunk(bytes: Bytes, from: nat, to: nat)
    requires from <= to <= |bytes| && UnbrokenFrom(bytes, to)
    ensures var i := LastLf(bytes[from..to]);
      UnbrokenFrom(bytes, from + i + 1) && (i >= 0 ==> bytes[from + i] == LF)
  {
    hide LastLf;
    var chunk := bytes[from..to];
    var i := LastLf(chunk);
    forall k | from + i + 1 <= k < |bytes| ensures bytes[k] != LF {
      if k < to {
        assert bytes[k] == chunk[k - from];
      }
    }
  }

  lemma HealIs(bytes: Bytes, at: nat)
    requires UnbrokenFrom(bytes, at) && (at == 0 || bytes[at - 1] == LF)
    ensures Heal(bytes) == bytes[..at]
  {
    hide Lines, Tail;
    var head, rest := bytes[..at], bytes[at..];
    assert bytes == head + rest;
    assert LF !in rest;
    assert Tail(head) == [] by {
      if at == 0 {
        NoLines(head);
      } else {
        assert head == head[..at - 1] + [LF];
        SplitConcat(head[..at - 1], [LF]);
        LinesOfOne(Tail(head[..at - 1]), []);
        assert Tail(head[..at - 1]) + [LF] + [] == Tail(head[..at - 1]) + [LF];
        NoLines([]);
      }
    }
    SplitConcat(head, rest);
    assert [] + rest == rest;
    NoLines(rest);
  }

  /* ------------------------------ the file ------------------------------ */

  class DerivedFile {
    var bytes: Bytes

    constructor (stored: Bytes)
      ensures bytes == stored
    {
      bytes := stored;
    }

    /** Truncates a torn last line, looking backwards for the last LF one chunk at a time. */
    method HealPartialTail()
      modifies this
      ensures bytes == Heal(old(bytes))
    {
      if |bytes| == 0 || bytes[|bytes| - 1] == LF {
        HealIs(bytes, |bytes|);
        return;
      }
      var position, truncateAt := |bytes|, 0;
      while position > 0
        invariant 0 <= position <= |bytes| && truncateAt == 0
        invariant bytes == old(bytes) && UnbrokenFrom(bytes, position)
      {
        var length := if HEAL_CHUNK_BYTES < position then HEAL_CHUNK_BYTES else position;
        position := position - length;
        var newline := LastNewlineOfChunk(position, length);
        if newline >= 0 {
          truncateAt := position + newline + 1;
          break;
        }
      }
      HealIs(bytes, truncateAt);
      bytes := bytes[..truncateAt];
    }

    /** Reads one chunk and looks for its last LF; nothing after the chunk holds one. */
    method LastNewlineOfChunk(position: nat, length: nat) returns (newline: int)
      requires position + length <= |bytes| && UnbrokenFrom(bytes, position + length)
      ensures -1 <= newline < length && UnbrokenFrom(bytes, position + newline + 1)
      ensures newline >= 0 ==> bytes[position + newline] == LF
    {
      LastLfOfChunk(bytes, position, position + length);
      newline := LastLf(bytes[position..position + length]);
    }

    /** Indexes what is stored: the first version of an identifier stands, a later other one is a conflict. */
    method ReadExistingRecords(parse: Parser)
      returns (records: map<string, Bytes>, conflicts: nat, conflictIds: seq<string>)
      ensures var stored := Readable(Lines(bytes) + [Tail(bytes)], parse);
        && records == Versions(map[], stored) && conflicts == |Conflicts(map[], stored)|
        && conflictIds == Reported(Conflicts(map[], stored))
    {
      hide Lines, Tail, Versions, Conflicts, Readable;
      var lines := Lines(bytes) + [Tail(bytes)];
      records, conflicts, conflictIds := map[], 0, [];
      NothingStored(parse);
      ghost var met := [];
      for i := 0 to |lines|
        invariant met == Readable(lines[..i], parse) && records == Versions(map[], met)
        invariant conflicts == |Conflicts(map[], met)| && conflictIds == Reported(Conflicts(map[], met))
      {
        OneMoreLine(lines, i, parse);
        if lines[i] == [] { continue; }
        var value := parse(lines[i]);
        if value.None? || value.value.id == "" { continue; }
        var r := value.value;
        VersionsAreFirst(map[], met, r.id);
        OneMoreRecord(met, r);
        if r.id in records {
          if records[r.id] != r.canonical {
            conflicts := conflicts + 1;
            if |conflictIds| < CONFLICT_ID_REPORT_LIMIT {
              conflictIds := conflictIds + [r.id];
            }
          }
        } else {
          records := records[r.id := r.canonical];
        }
        met := met + [r];
      }
      assert lines[..|lines|] == lines;
    }

    /** Writes at the end; a call that transfers nothing ends the attempt with a part written. */
    method AppendToHandle(data: Bytes) returns (result: Result<(), StoreError>)
      modifies this
      ensures result.Ok? ==> bytes == old(bytes) + data
      ensures result.Err? ==> result.error.NoForwardProgress?
      ensures result.Err? ==> exists n :: 0 <= n < |data| && bytes == old(bytes) + data[..n]
    {
      var written := 0;
      while written < |data|
        invariant 0 <= written <= |data| && bytes == old(bytes) + data[..written]
      {
        var bytesWritten: nat :| bytesWritten <= |data| - written;
        if bytesWritten == 0 {
          return Err(NoForwardProgress);
        }
        assert data[..written + bytesWritten] == data[..written] + data[written..written + bytesWritten];
        bytes := bytes + data[written..written + bytesWritten];
        written := written + bytesWritten;
      }
      assert data[..written] == data;
      return Ok(());
    }

    /** Appends the records whose identifiers are neither stored nor earlier in the batch. */
    method AppendUnique(batch: seq<Rec>, parse: Parser) returns (result: Result<Appending, StoreError>)
      modifies this
      ensures result.Ok? ==> bytes == Appended(old(bytes), batch, parse)
      ensures result.Ok? ==> result.value.appended + result.value.skipped == |batch|
      ensures result.Ok? && batch != [] ==>
        var conflicts := Conflicts(map[], Readable(Lines(old(bytes)), parse) + batch);
        result.value.conflicted == |conflicts| && result.value.conflictedIds == Reported(conflicts)
      ensures result.Ok? && batch == [] ==> result.value == Appending(0, 0, 0, [])
      ensures result == Err(EmptyId) <==> exists r :: r in batch && r.id == ""
      ensures result == Err(EmptyId) ==> bytes == Heal(old(bytes))
      ensures result == Err(NoForwardProgress) ==> StoppedAppend(old(bytes), batch, parse, bytes)
    {
      hide Lines, Tail, Heal, Versions, Conflicts, Readable, NewRecords, LearnAll, TextsOf, Reported, Unsplit,
        Addition, Appended, StoppedAppend, Sorted;
      AppendedMeans(bytes, batch, parse);
      if batch == [] {
        return Ok(Appending(0, 0, 0, []));
      }
      HealMeans(bytes);
      HealPartialTail();
      ghost var stored := Readable(Lines(bytes), parse);
      var known, conflicted, conflictedIds := ReadExistingRecords(parse);
      EmptyTailTellsNothing(Lines(bytes), parse);
      LearnAllIsVersions(map[], Lines(bytes), parse);
      var seen: map<string, Bytes>, texts: seq<Bytes>, skipped := map[], [], 0;
      ghost var added: seq<Rec> := [];
      NothingSorted(known, stored, batch);
      for i := 0 to |batch|
        invariant bytes == Heal(old(bytes)) && texts == TextsOf(added)
        invariant Sorted(known, stored, batch, i, seen, added, skipped, conflicted, conflictedIds)
        invariant forall r | r in batch[..i] :: r.id != ""
      {
        var r := batch[i];
        if r.id == "" {
          return Err(EmptyId);
        }
        assert batch[..i + 1] == batch[..i] + [r];
        SortOne(known, stored, batch, i, seen, added, skipped, conflicted, conflictedIds);
        if r.id in known {
          if known[r.id] != r.canonical {
            conflicted := conflicted + 1;
            if |conflictedIds| < CONFLICT_ID_REPORT_LIMIT {
              conflictedIds := conflictedIds + [r.id];
            }
          }
          skipped := skipped + 1;
        } else if r.id in seen {
          if seen[r.id] != r.canonical {
            conflicted := conflicted + 1;
            if |conflictedIds| < CONFLICT_ID_REPORT_LIMIT {
              conflictedIds := conflictedIds + [r.id];
            }
          }
          skipped := skipped + 1;
        } else {
          seen := seen[r.id := r.canonical];
          texts := texts + [r.canonical];
          TextsPush(added, r);
          added := added + [r];
        }
      }
      AllSorted(known, stored, batch, seen, added, skipped, conflicted, conflictedIds);
      assert batch[..|batch|] == batch;
      var data := Unsplit(texts);
      if |texts| > 0 {
        var outcome := AppendToHandle(data);
        if outcome.Err? {
          StoppedMeans(old(bytes), batch, parse, bytes);
          return Err(outcome.error);
        }
      } else {
        NoTextsNoData(old(bytes), texts);
      }
      return Ok(Appending(|texts|, skipped, conflicted, conflictedIds));
    }
  }

  /* ------------------------------ the records of a batch, one by one ------------------------------ */

  /** What the loop over a batch has found after `i` records. */
  ghost predicate Sorted(
    known: map<string, Bytes>, stored: seq<Rec>, batch: seq<Rec>, i: nat,
    seen: map<string, Bytes>, added: seq<Rec>, skipped: nat, conflicted: nat, conflictedIds: seq<string>)
  {
    && i <= |batch| && seen.Keys !! known.Keys && |added| + skipped == i
    && added + NewRecords(known + seen, batch[i..]) == NewRecords(known, batch)
    && known + seen == Versions(map[], stored + batch[..i])
    && conflicted == |Conflicts(map[], stored + batch[..i])|
    && conflictedIds == Reported(Conflicts(map[], stored + batch[..i]))
  }

  lemma NothingSorted(known: map<string, Bytes>, stored: seq<Rec>, batch: seq<Rec>)
    requires known == Versions(map[], stored)
    ensures Sorted(known, stored, batch, 0, map[], [], 0, |Conflicts(map[], stored)|,
                   Reported(Conflicts(map[], stored)))
    ensures TextsOf([]) == []
  {
    assert known + map[] == known && stored + batch[..0] == stored && batch[0..] == batch;
  }

  lemma SortOne(
    known: map<string, Bytes>, stored: seq<Rec>, batch: seq<Rec>, i: nat,
    seen: map<string, Bytes>, added: seq<Rec>, skipped: nat, conflicted: nat, conflictedIds: seq<string>)
    requires i < |batch| && Sorted(known, stored, batch, i, seen, added, skipped, conflicted, conflictedIds)
    ensures var r := batch[i];
      if r.id in known || r.id in seen then
        var first := if r.id in known then known[r.id] else seen[r.id];
        if first == r.canonical then Sorted(known, stored, batch, i + 1, seen, added, skipped + 1, conflicted,
                                            conflictedIds)
        else
          Sorted(known, stored, batch, i + 1, seen, added, skipped + 1, conflicted + 1,
                 if |conflictedIds| < CONFLICT_ID_REPORT_LIMIT then conflictedIds + [r.id] else conflictedIds)
      else Sorted(known, stored, batch, i + 1, seen[r.id := r.canonical], added + [r], skipped, conflicted,
                  conflictedIds)
  {
    hide Versions, Conflicts, NewRecords;
    var r := batch[i];
    assert batch[i..][0] == r && batch[i..][1..] == batch[i + 1..];
    assert stored + batch[..i + 1] == (stored + batch[..i]) + [r];
    OneMoreRecord(stored + batch[..i], r);
    NewRecordsStep(known + seen, batch[i..]);
    if r.id !in known && r.id !in seen {
      assert known + seen[r.id := r.canonical] == (known + seen)[r.id := r.canonical];
      var later := NewRecords((known + seen)[r.id := r.canonical], batch[i + 1..]);
      assert added + ([r] + later) == (added + [r]) + later;
    }
  }

  lemma AllSorted(
    known: map<string, Bytes>, stored: seq<Rec>, batch: seq<Rec>,
    seen: map<string, Bytes>, added: seq<Rec>, skipped: nat, conflicted: nat, conflictedIds: seq<string>)
    requires Sorted(known, stored, batch, |batch|, seen, added, skipped, conflicted, conflictedIds)
    ensures added == NewRecords(known, batch) && |added| + skipped == |batch|
    ensures conflicted == |Conflicts(map[], stored + batch)|
      && conflictedIds == Reported(Conflicts(map[], stored + batch))
  {
    assert batch[..|batch|] == batch && batch[|batch|..] == [];
    NewRecordsStep(known + seen, []);
    assert added + [] == added;
  }

  lemma TextsPush(added: seq<Rec>, r: Rec)
    ensures TextsOf(added + [r]) == TextsOf(added) + [r.canonical]
  {
  }

  lemma AppendedMeans(bytes: Bytes, batch: seq<Rec>, parse: Parser)
    ensures Appended(bytes, batch, parse) == if batch == [] then bytes else Heal(bytes) + Addition(bytes, batch, parse)
    ensures Addition(bytes, batch, parse)
         == Unsplit(TextsOf(NewRecords(LearnAll(map[], Lines(Heal(bytes)), parse), batch)))
  {
  }

  lemma StoppedMeans(bytes: Bytes, batch: seq<Rec>, parse: Parser, left: Bytes)
    requires var data := Addition(bytes, batch, parse);
      exists n :: 0 <= n < |data| && left == Heal(bytes) + data[..n]
    ensures StoppedAppend(bytes, batch, parse, left)
  {
  }

  lemma NoTextsNoData(bytes: Bytes, texts: seq<Bytes>)
    requires texts == []
    ensures Heal(bytes) + Unsplit(texts) == Heal(bytes)
  {
  }

  lemma NothingStored(parse: Parser)
    ensures Readable([], parse) == [] && Versions(map[], []) == map[] && Conflicts(map[], []) == []
  {
  }

  lemma OneMoreLine(lines: seq<Bytes>, i: nat, parse: Parser)
    requires i < |lines|
    ensures Readable(lines[..i + 1], parse)
         == Readable(lines[..i], parse)
            + ReadableOf(lines[i], parse)
  {
    assert lines[..i + 1] == lines[..i] + [lines[i]];
    ReadableConcat(lines[..i], [lines[i]], parse);
    var one: seq<Bytes> := [lines[i]];
    assert one[1..] == [];
  }

  lemma OneMoreRecord(met: seq<Rec>, r: Rec)
    ensures var known := Versions(map[], met);
      && Versions(map[], met + [r]) == (if r.id in known then known else known[r.id := r.canonical])
      && Conflicts(map[], met + [r])
         == Conflicts(map[], met) + (if r.id in known && known[r.id] != r.canonical then [r.id] else [])
  {
    VersionsConcat(map[], met, [r]);
    ConflictsConcat(map[], met, [r]);
    assert [r][1..] == [];
  }

  lemma EmptyTailTellsNothing(lines: seq<Bytes>, parse: Parser)
    ensures Readable(lines + [[]], parse) == Readable(lines, parse)
  {
    ReadableConcat(lines, [[]], parse);
    var none: seq<Bytes> := [[]];
    assert none[1..] == [];
  }
}
