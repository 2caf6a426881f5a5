/**
 * JavaScript strings as UTF-16 code units: which of them are Unicode text, what `Buffer.from(_, "utf8")`
 * makes of them, and how `JSON.stringify` quotes them.
 */
module JsText {
  import opened Base
  import opened Unicode

  type Unit = u: int | 0 <= u < 0x10000

  type Text = seq<Unit>

  predicate High(u: Unit) { 0xD800 <= u < 0xDC00 }

  predicate Low(u: Unit) { 0xDC00 <= u < 0xE000 }

  /** The text begins with a surrogate pair. */
  predicate PairFirst(s: Text)
  {
    |s| >= 2 && High(s[0]) && Low(s[1])
  }

  /** Every surrogate is half of a pair. */
  predicate WellFormed(s: Text)
  {
    if s == [] then true
    else if PairFirst(s) then WellFormed(s[2..])
    else !High(s[0]) && !Low(s[0]) && WellFormed(s[1..])
  }

  /** src/reader/record-page.ts: true exactly for a string that is not Unicode text. */
  method HasLoneSurrogate(text: Text) returns (lone: bool)
    ensures lone <==> !WellFormed(text)
  {
    var index := 0;
    while index < |text|
      invariant 0 <= index <= |text| && WellFormed(text) == WellFormed(text[index..])
    {
      var unit := text[index];
      var rest := text[index..];
      assert rest[0] == unit && rest[1..] == text[index + 1..];
      if High(unit) {
        if index + 1 < |text| && Low(text[index + 1]) {
          assert rest[2..] == text[index + 2..];
          index := index + 2;
          continue;
        }
        return true;
      }
      if Low(unit) {
        return true;
      }
      index := index + 1;
    }
    return false;
  }

  /* ------------------------------ code points ------------------------------ */

  function Utf16One(c: Scalar): (s: Text)
    ensures |s| == 1 || PairFirst(s)
  {
    if c < 0x10000 then [c] else [0xD800 + (c - 0x10000) / 1024, 0xDC00 + (c - 0x10000) % 1024]
  }

  function Utf16(cs: seq<Scalar>): Text
  {
    if cs == [] then [] else Utf16One(cs[0]) + Utf16(cs[1..])
  }

  /** The code points of a string; a lone surrogate is replaced by U+FFFD, as Node's encoder does. */
  function Scalars(s: Text): seq<Scalar>
  {
    if s == [] then []
    else if PairFirst(s) then [0x10000 + (s[0] - 0xD800) * 1024 + (s[1] - 0xDC00)] + Scalars(s[2..])
    else if High(s[0]) || Low(s[0]) then [0xFFFD] + Scalars(s[1..])
    else [s[0]] + Scalars(s[1..])
  }

  function ToUtf8(s: Text): Bytes
  {
    Utf8(Scalars(s))
  }

  lemma {:induction false} WellFormedRoundTrip(s: Text)
    requires WellFormed(s)
    ensures Utf16(Scalars(s)) == s
    decreases |s|
  {
    if s != [] {
      var k := if PairFirst(s) then 2 else 1;
      WellFormedRoundTrip(s[k..]);
      var cs := Scalars(s);
      assert cs[1..] == Scalars(s[k..]);
      assert s == s[..k] + s[k..];
      assert Utf16One(cs[0]) == s[..k];
    }
  }

  /** Well-formed strings are told apart by their UTF-8 bytes. */
  lemma ToUtf8Injective(a: Text, b: Text)
    requires WellFormed(a) && WellFormed(b) && ToUtf8(a) == ToUtf8(b)
    ensures a == b
  {
    Utf8Injective(Scalars(a), Scalars(b));
    WellFormedRoundTrip(a);
    WellFormedRoundTrip(b);
  }

  /** Others are not: a lone surrogate gives the bytes of U+FFFD. */
  lemma LoneSurrogatesCollide(u: Unit)
    requires High(u) || Low(u)
    ensures ToUtf8([u]) == ToUtf8([0xFFFD]) && [u] != [0xFFFD]
  {
    assert Scalars([u]) == [0xFFFD] && Scalars([0xFFFD]) == [0xFFFD];
  }

  /* ------------------------------ quoting ------------------------------ */

  const QUOTE: Unit := 0x22
  const BACKSLASH: Unit := 0x5C
  const LOWER_U: Unit := 0x75

  function HexDigit(n: int): (u: Unit)
    requires 0 <= n < 16
  {
    if n < 10 then 0x30 + n else 0x61 + n - 10
  }

  function UnicodeEscape(u: Unit): Text
  {
    [BACKSLASH, LOWER_U, HexDigit(u / 16 / 16 / 16), HexDigit(u / 16 / 16 % 16), HexDigit(u / 16 % 16),
     HexDigit(u % 16)]
  }

  /** The letter of a two-unit escape, where there is one. */
  function ShortEscape(u: Unit): Option<Unit>
  {
    if u == 0x08 then Some(0x62)
    else if u == 0x09 then Some(0x74)
    else if u == 0x0A then Some(0x6E)
    else if u == 0x0C then Some(0x66)
    else if u == 0x0D then Some(0x72)
    else if u == QUOTE then Some(QUOTE)
    else if u == BACKSLASH then Some(BACKSLASH)
    else None
  }

  /** How many units the next piece of a string takes, and how it is written. */
  function Taken(s: Text): (k: nat)
    requires s != []
    ensures 1 <= k <= |s|
  {
    if PairFirst(s) then 2 else 1
  }

  function Piece(s: Text): (p: Text)
    requires s != []
    ensures p != [] && p[0] != QUOTE
  {
    if PairFirst(s) then s[..2]
    else if ShortEscape(s[0]).Some? then [BACKSLASH, ShortEscape(s[0]).value]
    else if s[0] < 0x20 || High(s[0]) || Low(s[0]) then UnicodeEscape(s[0])
    else [s[0]]
  }

  function Escaped(s: Text): Text
    decreases |s|
  {
    if s == [] then [] else Piece(s) + Escaped(s[Taken(s)..])
  }

  /** JSON.stringify of a string. */
  function Quoted(s: Text): (q: Text)
    ensures q != [] && q[0] == QUOTE
  {
    [QUOTE] + Escaped(s) + [QUOTE]
  }

  lemma SixteenBits(a: Unit, b: Unit)
    requires UnicodeEscape(a) == UnicodeEscape(b)
    ensures a == b
  {
    var x, y := UnicodeEscape(a), UnicodeEscape(b);
    assert x[2] == y[2] && x[3] == y[3] && x[4] == y[4] && x[5] == y[5];
    Nibble(a / 16 / 16, b / 16 / 16);
    Nibble(a / 16, b / 16);
    Nibble(a, b);
  }

  lemma Nibble(a: int, b: int)
    requires a / 16 == b / 16 && a % 16 == b % 16
    ensures a == b
  {
  }

  /** A piece is recognised wherever a text begins with it. */
  lemma PieceUnique(a: Text, b: Text, s: Text, t: Text)
    requires a != [] && b != [] && Piece(a) + s == Piece(b) + t
    ensures Taken(a) == Taken(b) && a[..Taken(a)] == b[..Taken(b)] && s == t
  {
    var x, y := Piece(a), Piece(b);
    var all := x + s;
    assert all[0] == x[0] == y[0];
    assert all[1..] == x[1..] + s == y[1..] + t;
    if |x| >= 2 && |y| >= 2 {
      assert all[1] == x[1] == y[1];
    }
    assert |x| == |y|;
    assert x == all[..|x|] == y;
    assert s == all[|x|..] == t;
    if |x| == 6 {
      SixteenBits(a[0], b[0]);
    }
  }

  /** A quoted string ends where it ends: neither its text nor what follows can be mistaken. */
  lemma {:induction false} EscapedUnique(a: Text, b: Text, s: Text, t: Text)
    requires Escaped(a) + [QUOTE] + s == Escaped(b) + [QUOTE] + t
    ensures a == b && s == t
    decreases |a|
  {
    hide Piece, Taken;
    var x, y := Escaped(a) + [QUOTE] + s, Escaped(b) + [QUOTE] + t;
    if a == [] || b == [] {
      assert x[0] == y[0];
      if a == [] && b == [] {
        assert x[1..] == s && y[1..] == t;
      }
    } else {
      var restA, restB := a[Taken(a)..], b[Taken(b)..];
      assert x == Piece(a) + (Escaped(restA) + [QUOTE] + s);
      assert y == Piece(b) + (Escaped(restB) + [QUOTE] + t);
      PieceUnique(a, b, Escaped(restA) + [QUOTE] + s, Escaped(restB) + [QUOTE] + t);
      EscapedUnique(restA, restB, s, t);
      assert a == a[..Taken(a)] + restA && b == b[..Taken(b)] + restB;
    }
  }

  lemma QuotedUnique(a: Text, b: Text, s: Text, t: Text)
    requires Quoted(a) + s == Quoted(b) + t
    ensures a == b && s == t
  {
    hide Escaped;
    var x, y := Quoted(a) + s, Quoted(b) + t;
    assert x[1..] == Escaped(a) + [QUOTE] + s && y[1..] == Escaped(b) + [QUOTE] + t;
    EscapedUnique(a, b, s, t);
  }

  lemma {:induction false} WellFormedConcat(a: Text, b: Text)
    requires WellFormed(a) && WellFormed(b)
    ensures WellFormed(a + b)
    decreases |a|
  {
    if a == [] {
      assert a + b == b;
    } else {
      var k := Taken(a);
      WellFormedConcat(a[k..], b);
      assert (a + b)[k..] == a[k..] + b;
    }
  }

  lemma PieceWellFormed(s: Text)
    requires s != []
    ensures WellFormed(Piece(s))
  {
    var p := Piece(s);
    if |p| == 6 {
      EscapeIsAscii(s[0]);
      AsciiWellFormed(p);
    } else if PairFirst(s) {
      assert p[2..] == [];
    } else if |p| == 2 {
      AsciiWellFormed(p);
    } else {
      assert p[1..] == [];
    }
  }

  lemma EscapeIsAscii(u: Unit)
    ensures forall i | 0 <= i < 6 :: UnicodeEscape(u)[i] < 0x80
  {
  }

  lemma {:induction false} AsciiWellFormed(s: Text)
    requires forall i | 0 <= i < |s| :: s[i] < 0xD800
    ensures WellFormed(s)
  {
    if s != [] {
      AsciiWellFormed(s[1..]);
    }
  }

  /** Quoting makes Unicode text of every string, lone surrogates included. */
  lemma {:induction false} QuotedWellFormed(s: Text)
    ensures WellFormed(Quoted(s))
  {
    EscapedWellFormed(s);
    AsciiWellFormed([QUOTE]);
    WellFormedConcat([QUOTE], Escaped(s));
    WellFormedConcat([QUOTE] + Escaped(s), [QUOTE]);
  }

  lemma {:induction false} EscapedWellFormed(s: Text)
    ensures WellFormed(Escaped(s))
    decreases |s|
  {
    if s != [] {
      PieceWellFormed(s);
      EscapedWellFormed(s[Taken(s)..]);
      WellFormedConcat(Piece(s), Escaped(s[Taken(s)..]));
    }
  }

  /* ------------------------------ direct text ------------------------------ */

  /** src/reader/record-page.ts: a field as it is paged: itself when it is Unicode text, else quoted. */
  datatype Selected = Selected(text: Text, jsonString: bool)

  method SelectDirectText(text: Text) returns (selected: Selected)
    ensures selected == DirectText(text)
    ensures WellFormed(selected.text) && (selected.jsonString <==> !WellFormed(text))
  {
    QuotedWellFormed(text);
    var lone := HasLoneSurrogate(text);
    if !lone {
      return Selected(text, false);
    }
    return Selected(Quoted(text), true);
  }

  function DirectText(text: Text): Selected
  {
    if WellFormed(text) then Selected(text, false) else Selected(Quoted(text), true)
  }

  /** The paged bytes together with the representation identify the field, whatever its units. */
  lemma DirectTextIsLossless(a: Text, b: Text)
    requires ToUtf8(DirectText(a).text) == ToUtf8(DirectText(b).text)
      && DirectText(a).jsonString == DirectText(b).jsonString
    ensures a == b
  {
    QuotedWellFormed(a);
    QuotedWellFormed(b);
    ToUtf8Injective(DirectText(a).text, DirectText(b).text);
    if !WellFormed(a) {
      assert Quoted(a) + [] == Quoted(b) + [];
      QuotedUnique(a, b, [], []);
    }
  }
}
