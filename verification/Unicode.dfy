/**
 * UTF-8 as section 3 of RFC 3629 defines it, and the boundary tests of src/reader/record-page.ts and
 * src/reader/budget.ts that look at single bytes only.
 */
module Unicode {
  import opened Base

  /** A Unicode scalar value: no surrogate is one. */
  type Scalar = c: int | 0 <= c < 0x110000 && !(0xD800 <= c < 0xE000)

  /** The test of the source, (byte & 0xC0) == 0x80. */
  predicate Continuation(b: Byte)
  {
    0x80 <= b < 0xC0
  }

  function Encode(c: Scalar): (s: Bytes)
    ensures 1 <= |s| <= 4 && !Continuation(s[0])
    ensures forall i | 1 <= i < |s| :: Continuation(s[i])
  {
    if c < 0x80 then [c]
    else if c < 0x800 then [0xC0 + c / 64, 0x80 + c % 64]
    else if c < 0x10000 then [0xE0 + c / 64 / 64, 0x80 + c / 64 % 64, 0x80 + c % 64]
    else [0xF0 + c / 64 / 64 / 64, 0x80 + c / 64 / 64 % 64, 0x80 + c / 64 % 64, 0x80 + c % 64]
  }

  function Utf8(cs: seq<Scalar>): (s: Bytes)
  {
    if cs == [] then [] else Encode(cs[0]) + Utf8(cs[1..])
  }

  /** Between two code points, judged by the byte at the offset alone. */
  predicate IsBoundary(bytes: Bytes, offset: int)
    requires 0 <= offset <= |bytes|
  {
    offset == 0 || offset == |bytes| || !Continuation(bytes[offset])
  }

  lemma {:induction false} Utf8Concat(a: seq<Scalar>, b: seq<Scalar>)
    ensures Utf8(a + b) == Utf8(a) + Utf8(b)
    decreases |a|
  {
    if a == [] {
      assert a + b == b;
    } else {
      Utf8Concat(a[1..], b);
      assert (a + b)[0] == a[0] && (a + b)[1..] == a[1..] + b;
    }
  }

  lemma FirstByteStarts(cs: seq<Scalar>)
    ensures cs != [] ==> Utf8(cs) != [] && !Continuation(Utf8(cs)[0])
  {
  }

  /** The byte test is right: it accepts exactly the ends of whole code points. */
  lemma {:induction false} BoundaryIsPrefix(cs: seq<Scalar>, offset: nat) returns (k: nat)
    requires offset <= |Utf8(cs)| && IsBoundary(Utf8(cs), offset)
    ensures k <= |cs| && offset == |Utf8(cs[..k])| && Utf8(cs)[..offset] == Utf8(cs[..k])
      && Utf8(cs)[offset..] == Utf8(cs[k..])
    decreases |cs|
  {
    hide Encode;
    if offset == 0 {
      k := 0;
    } else {
      var c, rest := cs[0], cs[1..];
      var w := |Encode(c)|;
      if offset < w {
        assert false;
      }
      if offset < |Utf8(cs)| {
        assert Utf8(cs)[offset] == Utf8(rest)[offset - w];
      }
      k := BoundaryIsPrefix(rest, offset - w);
      PrependOne(cs, offset, k);
      k := k + 1;
    }
  }

  lemma PrependOne(cs: seq<Scalar>, offset: nat, k: nat)
    requires cs != [] && k <= |cs| - 1 && |Encode(cs[0])| <= offset <= |Utf8(cs)|
    requires var rest, after := cs[1..], offset - |Encode(cs[0])|;
      after == |Utf8(rest[..k])| && Utf8(rest)[..after] == Utf8(rest[..k]) && Utf8(rest)[after..] == Utf8(rest[k..])
    ensures offset == |Utf8(cs[..k + 1])|
    ensures Utf8(cs)[..offset] == Utf8(cs[..k + 1]) && Utf8(cs)[offset..] == Utf8(cs[k + 1..])
  {
    hide Encode;
    var c, rest := cs[0], cs[1..];
    var w := |Encode(c)|;
    assert cs[..k + 1][1..] == rest[..k] && cs[k + 1..] == rest[k..];
    assert Utf8(cs)[..offset] == Encode(c) + Utf8(rest)[..offset - w];
    assert Utf8(cs)[offset..] == Utf8(rest)[offset - w..];
  }

  lemma PrefixIsBoundary(cs: seq<Scalar>, k: nat)
    requires k <= |cs|
    ensures |Utf8(cs[..k])| <= |Utf8(cs)| && IsBoundary(Utf8(cs), |Utf8(cs[..k])|)
    ensures Utf8(cs)[..|Utf8(cs[..k])|] == Utf8(cs[..k])
  {
    Utf8Concat(cs[..k], cs[k..]);
    assert cs[..k] + cs[k..] == cs;
    FirstByteStarts(cs[k..]);
    var offset := |Utf8(cs[..k])|;
    if 0 < offset < |Utf8(cs)| {
      assert Utf8(cs)[offset] == Utf8(cs[k..])[0];
    }
  }

  /** What lies between two boundaries is whole code points. */
  lemma BetweenBoundaries(cs: seq<Scalar>, from: nat, to: nat) returns (j: nat, k: nat)
    requires from <= to <= |Utf8(cs)| && IsBoundary(Utf8(cs), from) && IsBoundary(Utf8(cs), to)
    ensures j <= k <= |cs| && Utf8(cs)[from..to] == Utf8(cs[j..k])
    ensures from < to ==> j < k
  {
    k := BoundaryIsPrefix(cs, to);
    var head := cs[..k];
    assert Utf8(head) == Utf8(cs)[..to];
    if from < to {
      assert Utf8(head)[from] == Utf8(cs)[from];
    }
    j := BoundaryIsPrefix(head, from);
    assert head[j..] == cs[j..k];
    assert Utf8(head)[from..] == Utf8(cs)[from..to];
    if j == k {
      assert cs[j..k] == [];
    }
  }

  /* ------------------------------ decoding is unique ------------------------------ */

  /** Different scalars differ in their first bytes already: no encoding is a prefix of another's text. */
  lemma EncodePrefixFree(a: Scalar, b: Scalar, s: Bytes, t: Bytes)
    requires Encode(a) + s == Encode(b) + t
    ensures a == b && s == t
  {
    var x, y := Encode(a) + s, Encode(b) + t;
    assert x[0] == Encode(a)[0] && y[0] == Encode(b)[0];
    assert |Encode(a)| == |Encode(b)|;
    assert Encode(a) == x[..|Encode(a)|] && Encode(b) == y[..|Encode(b)|];
    assert s == x[|Encode(a)|..] && t == y[|Encode(b)|..];
    SameEncoding(a, b);
  }

  lemma SixBits(a: int, b: int)
    requires a / 64 == b / 64 && a % 64 == b % 64
    ensures a == b
  {
  }

  lemma SameEncoding(a: Scalar, b: Scalar)
    requires Encode(a) == Encode(b)
    ensures a == b
  {
    var x, y := Encode(a), Encode(b);
    if |x| == 1 {
      assert x[0] == y[0];
    } else if |x| == 2 {
      SameTwo(a, b);
      SixBits(a, b);
    } else if |x| == 3 {
      SameThree(a, b);
      SixBits(a / 64, b / 64);
      SixBits(a, b);
    } else {
      SameFour(a, b);
      SixBits(a / 64 / 64, b / 64 / 64);
      SixBits(a / 64, b / 64);
      SixBits(a, b);
    }
  }

  lemma SameTwo(a: Scalar, b: Scalar)
    requires Encode(a) == Encode(b) && |Encode(a)| == 2
    ensures a / 64 == b / 64 && a % 64 == b % 64
  {
    var x, y := Encode(a), Encode(b);
    assert x[0] == y[0] && x[1] == y[1];
  }

  lemma SameThree(a: Scalar, b: Scalar)
    requires Encode(a) == Encode(b) && |Encode(a)| == 3
    ensures a / 64 / 64 == b / 64 / 64 && a / 64 % 64 == b / 64 % 64 && a % 64 == b % 64
  {
    var x, y := Encode(a), Encode(b);
    assert x[0] == y[0] && x[1] == y[1] && x[2] == y[2];
  }

  lemma SameFour(a: Scalar, b: Scalar)
    requires Encode(a) == Encode(b) && |Encode(a)| == 4
    ensures a / 64 / 64 / 64 == b / 64 / 64 / 64 && a / 64 / 64 % 64 == b / 64 / 64 % 64
    ensures a / 64 % 64 == b / 64 % 64 && a % 64 == b % 64
  {
    var x, y := Encode(a), Encode(b);
    assert x[0] == y[0] && x[1] == y[1] && x[2] == y[2] && x[3] == y[3];
  }

  /** UTF-8 text stands for one sequence of code points only. */
  lemma {:induction false} Utf8Injective(a: seq<Scalar>, b: seq<Scalar>)
    requires Utf8(a) == Utf8(b)
    ensures a == b
    decreases |a|
  {
    FirstByteStarts(a);
    FirstByteStarts(b);
    if a != [] && b != [] {
      EncodePrefixFree(a[0], b[0], Utf8(a[1..]), Utf8(b[1..]));
      Utf8Injective(a[1..], b[1..]);
    }
  }

  /* ------------------------------ the scanners ------------------------------ */

  /** src/reader/record-page.ts: the end of the code point that starts here. */
  method NextCodePointEnd(bytes: Bytes, start: int) returns (end: Option<nat>)
    ensures end.Some? <==> 0 <= start < |bytes| && IsBoundary(bytes, start)
    ensures end.Some? ==> start < end.value <= |bytes| && IsBoundary(bytes, end.value)
    ensures end.Some? ==> forall i | start < i < end.value :: !IsBoundary(bytes, i)
  {
    if start < 0 || start >= |bytes| || !IsBoundary(bytes, start) {
      return None;
    }
    var e: nat := start + 1;
    while e < |bytes| && Continuation(bytes[e])
      invariant start < e <= |bytes|
      invariant forall i | start < i < e :: Continuation(bytes[i])
    {
      e := e + 1;
    }
    return Some(e);
  }

  /** src/reader/record-page.ts: the last boundary at or before a candidate, but not before `minimum`. */
  method PreviousCodePointBoundary(bytes: Bytes, candidate: nat, minimum: nat) returns (end: nat)
    requires candidate <= |bytes| && minimum <= |bytes| && IsBoundary(bytes, minimum)
    ensures minimum <= end <= |bytes| && IsBoundary(bytes, end)
    ensures end <= candidate || end == minimum
    ensures forall i | end < i <= candidate :: !IsBoundary(bytes, i)
  {
    end := if candidate < minimum then minimum else candidate;
    while end > minimum && !IsBoundary(bytes, end)
      invariant minimum <= end <= |bytes| && (end <= candidate || end == minimum)
      invariant forall i | end < i <= candidate :: !IsBoundary(bytes, i)
    {
      end := end - 1;
    }
  }

  /**
   * src/reader/budget.ts: the longest prefix of whole code points within a byte limit. The source
   * walks the code points of a string; here they are given.
   */
  method TruncateReaderUtf8(value: seq<Scalar>, maximumBytes: nat) returns (result: seq<Scalar>)
    ensures result <= value && |Utf8(result)| <= maximumBytes
    ensures |result| == |value| || |Utf8(value[..|result| + 1])| > maximumBytes
  {
    if |Utf8(value)| <= maximumBytes {
      return value;
    }
    var used := 0;
    result := [];
    for i := 0 to |value|
      invariant result == value[..i] && used == |Utf8(result)| && used <= maximumBytes
    {
      var width := |Encode(value[i])|;
      assert value[..i + 1] == result + [value[i]];
      Utf8Concat(result, [value[i]]);
      assert [value[i]][1..] == [];
      if used + width > maximumBytes {
        break;
      }
      result := result + [value[i]];
      used := used + width;
    }
  }
}
