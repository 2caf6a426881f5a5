/** Plain LF-splitting of a byte string: the reference every JSONL component is held to. */
module JsonlLines {
  import opened Base

  /** The position of the first LF, or the length. */
  function FirstLf(s: Bytes): (i: nat)
    ensures i <= |s| && LF !in s[..i]
    ensures i < |s| ==> s[i] == LF
    ensures i == |s| <==> LF !in s
  {
    if s == [] then 0
    else if s[0] == LF then 0
    else
      assert s == [s[0]] + s[1..];
      1 + FirstLf(s[1..])
  }

  /** The position of the last LF, or -1. */
  function LastLf(s: Bytes): (i: int)
    ensures -1 <= i < |s| && (i >= 0 ==> s[i] == LF)
    ensures forall k | i < k < |s| :: s[k] != LF
  {
    if s == [] then -1
    else if s[|s| - 1] == LF then |s| - 1
    else LastLf(s[..|s| - 1])
  }

  /** The complete lines, without their LF. */
  function Lines(s: Bytes): (ls: seq<Bytes>)
    ensures forall l | l in ls :: LF !in l
  {
    if FirstLf(s) == |s| then [] else [s[..FirstLf(s)]] + Lines(s[FirstLf(s) + 1..])
  }

  /** The bytes after the last LF. */
  function Tail(s: Bytes): (t: Bytes)
    ensures LF !in t && |t| <= |s|
  {
    if FirstLf(s) == |s| then s else Tail(s[FirstLf(s) + 1..])
  }

  function Unsplit(ls: seq<Bytes>): (s: Bytes)
  {
    if ls == [] then [] else ls[0] + [LF] + Unsplit(ls[1..])
  }

  lemma {:induction false} FirstLfIs(s: Bytes, i: nat)
    requires i < |s| && s[i] == LF && LF !in s[..i]
    ensures FirstLf(s) == i
  {
    if i > 0 {
      assert s[0] in s[..i];
      assert s[..i] == [s[0]] + s[1..][..i - 1];
      FirstLfIs(s[1..], i - 1);
    }
  }

  lemma LinesOfOne(line: Bytes, rest: Bytes)
    requires LF !in line
    ensures Lines(line + [LF] + rest) == [line] + Lines(rest)
    ensures Tail(line + [LF] + rest) == Tail(rest)
  {
    var s := line + [LF] + rest;
    assert s[..|line|] == line && s[|line| + 1..] == rest;
    FirstLfIs(s, |line|);
  }

  lemma NoLines(s: Bytes)
    requires LF !in s
    ensures Lines(s) == [] && Tail(s) == s
  {
  }

  /** Splitting loses nothing: the lines with their LFs and the tail are the string. */
  lemma {:induction false} SplitRoundTrip(s: Bytes)
    ensures Unsplit(Lines(s)) + Tail(s) == s
    decreases |s|
  {
    hide Lines, Tail;
    var i := FirstLf(s);
    if i == |s| {
      NoLines(s);
    } else {
      var line, rest := s[..i], s[i + 1..];
      SplitRoundTrip(rest);
      LinesOfOne(line, rest);
      assert s == line + [LF] + rest;
      assert ([line] + Lines(rest))[1..] == Lines(rest);
    }
  }

  /** And there is no other way to split: lines and tail without LF are what they were joined from. */
  lemma {:induction false} SplitUnique(ls: seq<Bytes>, t: Bytes)
    requires (forall l | l in ls :: LF !in l) && LF !in t
    ensures Lines(Unsplit(ls) + t) == ls && Tail(Unsplit(ls) + t) == t
    decreases |ls|
  {
    if ls == [] {
      assert Unsplit(ls) + t == t;
    } else {
      SplitUnique(ls[1..], t);
      LinesOfOne(ls[0], Unsplit(ls[1..]) + t);
      assert Unsplit(ls) + t == ls[0] + [LF] + (Unsplit(ls[1..]) + t);
    }
  }

  /** Splitting more bytes only continues the tail: the law behind chunks and resumption. */
  lemma {:induction false} SplitConcat(a: Bytes, b: Bytes)
    ensures Lines(a + b) == Lines(a) + Lines(Tail(a) + b)
    ensures Tail(a + b) == Tail(Tail(a) + b)
    decreases |a|
  {
    hide Lines, Tail;
    var i := FirstLf(a);
    if i == |a| {
      NoLines(a);
    } else {
      var line, rest := a[..i], a[i + 1..];
      SplitConcat(rest, b);
      LinesOfOne(line, rest);
      LinesOfOne(line, rest + b);
      assert a == line + [LF] + rest;
      assert a + b == line + [LF] + (rest + b);
    }
  }

  lemma {:induction false} UnsplitConcat(x: seq<Bytes>, y: seq<Bytes>)
    ensures Unsplit(x + y) == Unsplit(x) + Unsplit(y)
    decreases |x|
  {
    if x == [] {
      assert x + y == y;
    } else {
      UnsplitConcat(x[1..], y);
      assert (x + y)[1..] == x[1..] + y;
    }
  }
}
