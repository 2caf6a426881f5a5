/**
 * src/output/jsonl-store.ts: the append-only store that suppresses identifiers already present.
 * `DerivedFile` carries the source's steps on the file; the lemmas say that an interrupted append
 * is repaired by healing and running the same batch again.
 */
module JsonlStore {
  import opened Base
  import opened JsonlLines

  const CONFLICT_ID_REPORT_LIMIT: nat := 8
  const HEAL_CHUNK_BYTES: nat := 65536

  /** A derived record: its identifier and its canonical text. */
  datatype Rec = Rec(id: string, canonical: Bytes)

  /** What a stored line is read as: JSON parsing, the identifier and re-serialisation together. */
  type Parser = Bytes -> Option<Rec>

  /** The batch survives storage: no LF in a line, and each line reads back as its own record. */
  predicate Faithful(batch: seq<Rec>, parse: Parser)
  {
    forall r | r in batch :: LF !in r.canonical && r.canonical != [] && parse(r.canonical) == Some(r) && r.id != ""
  }

  /** The text up to and including the last LF. */
  function Heal(bytes: Bytes): (healed: Bytes)
    ensures healed <= bytes
  {
    bytes[..|bytes| - |Tail(bytes)|]
  }

  /** Reading one stored line: the first version of an identifier stands. */
  function Learn(known: map<string, Bytes>, line: Bytes, parse: Parser): map<string, Bytes>
  {
    if line == [] then known
    else match parse(line)
      case None => known
      case Some(r) => if r.id == "" || r.id in known then known else known[r.id := r.canonical]
  }

  function LearnAll(known: map<string, Bytes>, lines: seq<Bytes>, parse: Parser): map<string, Bytes>
    decreases |lines|
  {
    if lines == [] then known else LearnAll(Learn(known, lines[0], parse), lines[1..], parse)
  }

  /** The records of a batch that are neither stored nor earlier in the batch. */
  function NewRecords(known: map<string, Bytes>, batch: seq<Rec>): (out: seq<Rec>)
    ensures forall r | r in out :: r in batch && r.id !in known
    ensures |out| <= |batch|
    decreases |batch|
  {
    if batch == [] then []
    else if batch[0].id in known then NewRecords(known, batch[1..])
    else [batch[0]] + NewRecords(known[batch[0].id := batch[0].canonical], batch[1..])
  }

  function TextsOf(rs: seq<Rec>): (ls: seq<Bytes>)
    ensures |ls| == |rs| && forall i | 0 <= i < |rs| :: ls[i] == rs[i].canonical
  {
    seq(|rs|, i requires 0 <= i < |rs| => rs[i].canonical)
  }

  /** What an append adds after the healed text. */
  function Addition(bytes: Bytes, batch: seq<Rec>, parse: Parser): Bytes
  {
    Unsplit(TextsOf(NewRecords(LearnAll(map[], Lines(Heal(bytes)), parse), batch)))
  }

  /** The file after an uninterrupted append. */
  function Appended(bytes: Bytes, batch: seq<Rec>, parse: Parser): (out: Bytes)
  {
    if batch == [] then bytes else Heal(bytes) + Addition(bytes, batch, parse)
  }

  /** What an append can leave if it stops anywhere: before healing, or after any prefix of its bytes. */
  predicate StoppedAppend(bytes: Bytes, batch: seq<Rec>, parse: Parser, left: Bytes)
  {
    || left == bytes
    || exists n :: 0 <= n <= |Addition(bytes, batch, parse)| && left == Heal(bytes) + Addition(bytes, batch, parse)[..n]
  }

  /* ------------------------------ healing ------------------------------ */

  lemma HealMeans(bytes: Bytes)
    ensures Heal(bytes) == Unsplit(Lines(bytes)) && Heal(bytes) + Tail(bytes) == bytes
    ensures Lines(Heal(bytes)) == Lines(bytes) && Tail(Heal(bytes)) == []
  {
    SplitRoundTrip(bytes);
    SplitUnique(Lines(bytes), []);
    assert Unsplit(Lines(bytes)) + [] == Unsplit(Lines(bytes));
  }

  /** Any prefix of joined lines splits into the first of those lines and a torn rest. */
  lemma {:induction false} TornLines(ls: seq<Bytes>, n: nat) returns (m: nat)
    requires (forall l | l in ls :: LF !in l) && n <= |Unsplit(ls)|
    ensures m <= |ls| && Lines(Unsplit(ls)[..n]) == ls[..m]
    decreases |ls|
  {
    hide Lines, Tail;
    if ls == [] {
      m := 0;
      NoLines([]);
    } else {
      var line, rest := ls[0], Unsplit(ls[1..]);
      var width := |line| + 1;
      if n < width {
        m := 0;
        assert Unsplit(ls)[..n] == line[..n] by { assert Unsplit(ls)[..n] == (line + [LF])[..n]; }
        assert forall i | 0 <= i < n :: line[..n][i] in line;
        NoLines(line[..n]);
      } else {
        var k := TornLines(ls[1..], n - width);
        m := k + 1;
        assert Unsplit(ls)[..n] == line + [LF] + rest[..n - width];
        LinesOfOne(line, rest[..n - width]);
        assert ls[..m] == [line] + ls[1..][..k];
      }
    }
  }

  /* ------------------------------ appending what is left ------------------------------ */

  lemma {:induction false} LearnConcat(known: map<string, Bytes>, x: seq<Bytes>, y: seq<Bytes>, parse: Parser)
    ensures LearnAll(known, x + y, parse) == LearnAll(LearnAll(known, x, parse), y, parse)
    decreases |x|
  {
    if x == [] {
      assert x + y == y;
    } else {
      assert (x + y)[1..] == x[1..] + y;
      LearnConcat(Learn(known, x[0], parse), x[1..], y, parse);
    }
  }

  lemma TextsCons(r: Rec, later: seq<Rec>, m: nat)
    requires m <= |later|
    ensures TextsOf([r] + later)[..m + 1] == [r.canonical] + TextsOf(later)[..m]
  {
  }

  lemma LearnOwn(known: map<string, Bytes>, r: Rec, lines: seq<Bytes>, parse: Parser)
    requires parse(r.canonical) == Some(r) && r.canonical != [] && r.id != "" && r.id !in known
    ensures LearnAll(known, [r.canonical] + lines, parse) == LearnAll(known[r.id := r.canonical], lines, parse)
  {
  }

  lemma NewRecordsStep(known: map<string, Bytes>, batch: seq<Rec>)
    ensures batch == [] ==> NewRecords(known, batch) == []
    ensures batch != [] && batch[0].id in known ==> NewRecords(known, batch) == NewRecords(known, batch[1..])
    ensures batch != [] && batch[0].id !in known ==>
              NewRecords(known, batch) == [batch[0]] + NewRecords(known[batch[0].id := batch[0].canonical], batch[1..])
  {
  }

  /** After the first `m` new records are stored, the same batch has exactly the others left. */
  lemma {:induction false} WrittenAreSkipped(known: map<string, Bytes>, batch: seq<Rec>, m: nat, parse: Parser)
    requires Faithful(batch, parse) && m <= |NewRecords(known, batch)|
    ensures NewRecords(LearnAll(known, TextsOf(NewRecords(known, batch))[..m], parse), batch)
      == NewRecords(known, batch)[m..]
    decreases |batch|
  {
    hide LearnAll, TextsOf, NewRecords;
    var left := NewRecords(known, batch);
    if m == 0 {
      assert TextsOf(left)[..m] == [];
      LearnNothing(known, parse);
    } else if batch != [] {
      var r, rest := batch[0], batch[1..];
      NewRecordsStep(known, batch);
      if r.id in known {
        WrittenAreSkipped(known, rest, m, parse);
        LearnKeeps(known, TextsOf(left)[..m], parse);
        NewRecordsStep(LearnAll(known, TextsOf(left)[..m], parse), batch);
      } else {
        var known' := known[r.id := r.canonical];
        var later := NewRecords(known', rest);
        TextsCons(r, later, m - 1);
        LearnOwn(known, r, TextsOf(later)[..m - 1], parse);
        WrittenAreSkipped(known', rest, m - 1, parse);
        LearnKeeps(known', TextsOf(later)[..m - 1], parse);
        NewRecordsStep(LearnAll(known', TextsOf(later)[..m - 1], parse), batch);
      }
    } else {
      NewRecordsStep(known, batch);
    }
  }

  lemma LearnNothing(known: map<string, Bytes>, parse: Parser)
    ensures LearnAll(known, [], parse) == known
  {
  }

  lemma {:induction false} LearnKeeps(known: map<string, Bytes>, lines: seq<Bytes>, parse: Parser)
    ensures forall id | id in known :: id in LearnAll(known, lines, parse)
    decreases |lines|
  {
    if lines != [] {
      LearnKeeps(Learn(known, lines[0], parse), lines[1..], parse);
    }
  }

  /** What is known once the first `m` new records follow the healed text. */
  lemma KnownAfterWriting(bytes: Bytes, batch: seq<Rec>, parse: Parser, m: nat)
    requires Faithful(batch, parse)
    requires m <= |NewRecords(LearnAll(map[], Lines(Heal(bytes)), parse), batch)|
    ensures var known := LearnAll(map[], Lines(Heal(bytes)), parse);
      var written := TextsOf(NewRecords(known, batch))[..m];
      && Lines(Heal(bytes) + Unsplit(written)) == Lines(Heal(bytes)) + written
      && Heal(Heal(bytes) + Unsplit(written)) == Heal(bytes) + Unsplit(written)
      && LearnAll(map[], Lines(Heal(bytes) + Unsplit(written)), parse) == LearnAll(known, written, parse)
  {
    hide Lines, Tail, Heal, LearnAll;
    var known := LearnAll(map[], Lines(Heal(bytes)), parse);
    var left := NewRecords(known, batch);
    var written := TextsOf(left)[..m];
    HealMeans(bytes);
    assert forall l | l in written :: LF !in l by {
      forall l | l in written ensures LF !in l {
        var i :| 0 <= i < m && written[i] == l;
        assert left[i] in batch;
      }
    }
    SplitConcat(Heal(bytes), Unsplit(written));
    assert [] + Unsplit(written) == Unsplit(written);
    SplitUnique(written, []);
    assert Unsplit(written) + [] == Unsplit(written);
    LearnConcat(map[], Lines(Heal(bytes)), written, parse);
    HealOfWhole(Heal(bytes) + Unsplit(written));
  }

  lemma HealOfWhole(bytes: Bytes)
    requires Tail(bytes) == []
    ensures Heal(bytes) == bytes
  {
  }

  /** Appending to a text that already holds the first `m` new records only adds the others. */
  lemma AppendTheRest(bytes: Bytes, batch: seq<Rec>, parse: Parser, m: nat)
    requires Faithful(batch, parse) && batch != []
    requires m <= |NewRecords(LearnAll(map[], Lines(Heal(bytes)), parse), batch)|
    ensures var written := TextsOf(NewRecords(LearnAll(map[], Lines(Heal(bytes)), parse), batch))[..m];
      Appended(Heal(bytes) + Unsplit(written), batch, parse) == Appended(bytes, batch, parse)
  {
    hide Lines, Tail, Heal, LearnAll, NewRecords, Unsplit, TextsOf, Faithful;
    var known := LearnAll(map[], Lines(Heal(bytes)), parse);
    var left := NewRecords(known, batch);
    var texts := TextsOf(left);
    KnownAfterWriting(bytes, batch, parse, m);
    WrittenAreSkipped(known, batch, m, parse);
    TextsDrop(left, m);
    UnsplitConcat(texts[..m], texts[m..]);
    assert texts[..m] + texts[m..] == texts;
  }

  lemma TextsDrop(rs: seq<Rec>, m: nat)
    requires m <= |rs|
    ensures TextsOf(rs[m..]) == TextsOf(rs)[m..]
  {
  }

  /**
   * Crash and retry: whatever an interrupted append left behind, healing and running the same batch
   * again gives the very bytes an uninterrupted run gives.
   */
  lemma CrashRetryConverges(bytes: Bytes, batch: seq<Rec>, parse: Parser, left: Bytes)
    requires Faithful(batch, parse) && batch != [] && StoppedAppend(bytes, batch, parse, left)
    ensures Appended(left, batch, parse) == Appended(bytes, batch, parse)
    ensures Appended(Heal(left), batch, parse) == Appended(bytes, batch, parse)
  {
    hide Lines, Tail, LearnAll, NewRecords, Unsplit;
    HealIdempotent(left);
    if left != bytes {
      var n :| 0 <= n <= |Addition(bytes, batch, parse)| && left == Heal(bytes) + Addition(bytes, batch, parse)[..n];
      var all := TextsOf(NewRecords(LearnAll(map[], Lines(Heal(bytes)), parse), batch));
      assert forall l | l in all :: LF !in l by { TextsHaveNoLf(bytes, batch, parse); }
      var m := TornLines(all, n);
      HealMeans(bytes);
      HealMeans(left);
      SplitConcat(Heal(bytes), Unsplit(all)[..n]);
      assert [] + Unsplit(all)[..n] == Unsplit(all)[..n];
      UnsplitConcat(Lines(Heal(bytes)), all[..m]);
      assert Heal(left) == Heal(bytes) + Unsplit(all[..m]);
      AppendTheRest(bytes, batch, parse, m);
    }
  }

  lemma HealIdempotent(bytes: Bytes)
    ensures Heal(Heal(bytes)) == Heal(bytes)
  {
    HealMeans(bytes);
  }

  lemma TextsHaveNoLf(bytes: Bytes, batch: seq<Rec>, parse: Parser)
    requires Faithful(batch, parse)
    ensures forall l | l in TextsOf(NewRecords(LearnAll(map[], Lines(Heal(bytes)), parse), batch)) :: LF !in l
  {
    var left := NewRecords(LearnAll(map[], Lines(Heal(bytes)), parse), batch);
    forall l | l in TextsOf(left) ensures LF !in l {
      var i :| 0 <= i < |left| && TextsOf(left)[i] == l;
      assert left[i] in batch;
    }
  }

  /* ------------------------------ batches in sequence ------------------------------ */

  lemma {:induction false} NewRecordsConcat(known: map<string, Bytes>, a: seq<Rec>, b: seq<Rec>)
    ensures NewRecords(known, a) <= NewRecords(known, a + b)
    decreases |a|
  {
    if a != [] {
      assert (a + b)[1..] == a[1..] + b && (a + b)[0] == a[0];
      if a[0].id in known {
        NewRecordsConcat(known, a[1..], b);
      } else {
        NewRecordsConcat(known[a[0].id := a[0].canonical], a[1..], b);
      }
    }
  }

  /** Appending one batch and then a longer one that begins with it is appending the longer one. */
  lemma AppendInParts(bytes: Bytes, a: seq<Rec>, b: seq<Rec>, parse: Parser)
    requires Faithful(a + b, parse) && a + b != []
    ensures Appended(Appended(bytes, a, parse), a + b, parse) == Appended(bytes, a + b, parse)
  {
    hide Lines, Tail, Heal, LearnAll, NewRecords, Unsplit;
    var known := LearnAll(map[], Lines(Heal(bytes)), parse);
    if a == [] {
      assert a + b == b;
    } else {
      var m := |NewRecords(known, a)|;
      NewRecordsConcat(known, a, b);
      assert TextsOf(NewRecords(known, a + b))[..m] == TextsOf(NewRecords(known, a));
      AppendTheRest(bytes, a + b, parse, m);
    }
  }

  /* ------------------------------ identifiers stay unique ------------------------------ */

  /** The identifier a stored line carries, if it can be read. */
  function IdOf(line: Bytes, parse: Parser): (id: Option<string>)
  {
    if line == [] || parse(line).None? then None else Some(parse(line).value.id)
  }

  /** No two stored lines carry the same identifier. */
  predicate UniqueIds(lines: seq<Bytes>, parse: Parser)
  {
    forall i, j | 0 <= i < j < |lines| :: IdOf(lines[i], parse).None? || IdOf(lines[i], parse) != IdOf(lines[j], parse)
  }

  /** No stored line carries the empty identifier, which the index passes over. */
  predicate NamedIds(lines: seq<Bytes>, parse: Parser)
  {
    forall i | 0 <= i < |lines| :: IdOf(lines[i], parse) != Some("")
  }

  lemma {:induction false} LearnedId(known: map<string, Bytes>, lines: seq<Bytes>, i: nat, parse: Parser)
    requires i < |lines| && IdOf(lines[i], parse).Some? && IdOf(lines[i], parse) != Some("")
    ensures IdOf(lines[i], parse).value in LearnAll(known, lines, parse)
    decreases |lines|
  {
    var known' := Learn(known, lines[0], parse);
    if i == 0 {
      LearnKeeps(known', lines[1..], parse);
    } else {
      LearnedId(known', lines[1..], i - 1, parse);
    }
  }

  predicate DistinctIds(rs: seq<Rec>)
  {
    forall i, j | 0 <= i < j < |rs| :: rs[i].id != rs[j].id
  }

  predicate LacksId(rs: seq<Rec>, id: string)
  {
    forall i | 0 <= i < |rs| :: rs[i].id != id
  }

  lemma DistinctCons(r: Rec, later: seq<Rec>)
    requires DistinctIds(later) && LacksId(later, r.id)
    ensures DistinctIds([r] + later)
  {
    var rs := [r] + later;
    forall i, j | 0 <= i < j < |rs| ensures rs[i].id != rs[j].id {
      assert rs[j] == later[j - 1];
      assert i > 0 ==> rs[i] == later[i - 1];
    }
  }

  lemma {:induction false} NewRecordsDistinct(known: map<string, Bytes>, batch: seq<Rec>)
    ensures DistinctIds(NewRecords(known, batch))
    decreases |batch|
  {
    hide DistinctIds, LacksId;
    if batch == [] {
      NothingIsDistinct();
    } else if batch[0].id in known {
      NewRecordsDistinct(known, batch[1..]);
    } else {
      var known' := known[batch[0].id := batch[0].canonical];
      NewRecordsDistinct(known', batch[1..]);
      NewLackKnown(known', batch[1..], batch[0].id);
      DistinctCons(batch[0], NewRecords(known', batch[1..]));
    }
  }

  lemma NewLackKnown(known: map<string, Bytes>, batch: seq<Rec>, id: string)
    requires id in known
    ensures LacksId(NewRecords(known, batch), id)
  {
    hide NewRecords;
    var left := NewRecords(known, batch);
    forall i | 0 <= i < |left| ensures left[i].id != id {
      assert left[i] in left;
    }
  }

  lemma NothingIsDistinct()
    ensures DistinctIds([])
  {
  }

  /**
   * An append changes no stored byte, and a file whose identifiers are unique keeps them unique,
   * the empty identifier apart.
   */
  lemma AppendKeepsStoredAndUnique(bytes: Bytes, batch: seq<Rec>, parse: Parser)
    requires Faithful(batch, parse) && batch != []
    requires UniqueIds(Lines(bytes), parse) && NamedIds(Lines(bytes), parse)
    ensures Heal(bytes) <= Appended(bytes, batch, parse)
    ensures Lines(bytes) <= Lines(Appended(bytes, batch, parse))
    ensures UniqueIds(Lines(Appended(bytes, batch, parse)), parse)
  {
    hide Lines, Tail, Heal, LearnAll, NewRecords, Unsplit, TextsOf;
    var known := LearnAll(map[], Lines(Heal(bytes)), parse);
    var left := NewRecords(known, batch);
    var texts := TextsOf(left);
    HealMeans(bytes);
    KnownAfterWriting(bytes, batch, parse, |left|);
    assert texts[..|left|] == texts;
    NewRecordsDistinct(known, batch);
    var stored := Lines(bytes);
    var lines := stored + texts;
    forall i, j | 0 <= i < j < |lines| && IdOf(lines[i], parse).Some?
      ensures IdOf(lines[i], parse) != IdOf(lines[j], parse)
    {
      var n := |stored|;
      if j >= n {
        assert left[j - n] in left;
        NewId(batch, left[j - n], parse);
        if i >= n {
          assert left[i - n] in left;
          NewId(batch, left[i - n], parse);
        } else {
          LearnedId(map[], stored, i, parse);
        }
      }
    }
  }

  lemma NewId(batch: seq<Rec>, r: Rec, parse: Parser)
    requires Faithful(batch, parse) && r in batch
    ensures IdOf(r.canonical, parse) == Some(r.id)
  {
  }
}
