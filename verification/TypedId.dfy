/**
 * src/core/id.ts: the byte sequence a stable identifier is the hash of. Each part is framed by its
 * length, so parts may hold any character, the separators included.
 */
module TypedId {
  import opened Base
  import opened Decimal
  import opened JsText

  datatype IdType = Session | Turn | Action | Evidence | Lease

  const NUL: Byte := 0
  const COLON: Byte := 58
  const MINUS: Byte := 45

  /** "barbaro-id-v1" */
  const ID_DOMAIN: Bytes := [98, 97, 114, 98, 97, 114, 111, 45, 105, 100, 45, 118, 49]

  function TypeName(t: IdType): (s: Bytes)
    ensures s != []
  {
    match t
    case Session => [115, 101, 115, 115, 105, 111, 110]
    case Turn => [116, 117, 114, 110]
    case Action => [97, 99, 116, 105, 111, 110]
    case Evidence => [101, 118, 105, 100, 101, 110, 99, 101]
    case Lease => [108, 101, 97, 115, 101]
  }

  /** A part, as the framing sees it: null and undefined alike are missing. */
  type Part = Option<Text>

  function PartBytes(p: Part): (b: Option<Bytes>)
  {
    match p
    case None => None
    case Some(text) => Some(ToUtf8(text))
  }

  /** A missing part has length -1, which no byte length is. */
  function Framed(part: Option<Bytes>): (f: Bytes)
    ensures f != []
  {
    match part
    case None => [MINUS, ZERO + 1, COLON]
    case Some(bytes) => Numeral(|bytes|) + [COLON] + bytes
  }

  function FramedParts(parts: seq<Part>): (f: Bytes)
    decreases |parts|
  {
    if parts == [] then [] else [NUL] + Framed(PartBytes(parts[0])) + FramedParts(parts[1..])
  }

  function EncodeTypedIdInput(t: IdType, parts: seq<Part>): (input: Bytes)
  {
    ID_DOMAIN + [NUL] + TypeName(t) + FramedParts(parts)
  }

  /** Texts without a delimiter that are followed by it are recovered. */
  lemma {:induction false} UpToDelimiter(x: Bytes, y: Bytes, d: Byte, s: Bytes, t: Bytes)
    requires d !in x && d !in y && x + [d] + s == y + [d] + t
    ensures x == y && s == t
    decreases |x|
  {
    var all := x + [d] + s;
    if x == [] || y == [] {
      assert all[0] == (y + [d] + t)[0];
      assert x == [] ==> all[0] == d && all[1..] == s;
      assert y == [] ==> (y + [d] + t)[0] == d && (y + [d] + t)[1..] == t;
    } else {
      assert all[0] == x[0] == y[0];
      assert all[1..] == x[1..] + [d] + s == y[1..] + [d] + t;
      UpToDelimiter(x[1..], y[1..], d, s, t);
      assert x == [x[0]] + x[1..] && y == [y[0]] + y[1..];
    }
  }

  lemma FrameStarts(a: Option<Bytes>)
    ensures a.None? ==> Framed(a)[0] == MINUS
    ensures a.Some? ==> IsDigit(Framed(a)[0])
  {
    if a.Some? {
      assert Framed(a)[0] == Numeral(|a.value|)[0];
      assert Numeral(|a.value|)[0] in Numeral(|a.value|);
    }
  }

  lemma SameSplit(x: Bytes, y: Bytes, s: Bytes, t: Bytes)
    requires x + s == y + t && |x| == |y|
    ensures x == y && s == t
  {
    assert x == (x + s)[..|x|] && y == (y + t)[..|y|];
    assert s == (x + s)[|x|..] && t == (y + t)[|y|..];
  }

  lemma PresentFrame(bytes: Bytes, s: Bytes)
    ensures Framed(Some(bytes)) + s == Numeral(|bytes|) + [COLON] + (bytes + s)
    ensures COLON !in Numeral(|bytes|)
  {
    hide Numeral;
    var digits := Numeral(|bytes|);
    assert digits + [COLON] + bytes + s == digits + [COLON] + (bytes + s);
    assert !IsDigit(COLON);
  }

  /** A frame is read back wherever it stands: its length says where it ends. */
  lemma FrameUnique(a: Option<Bytes>, b: Option<Bytes>, s: Bytes, t: Bytes)
    requires Framed(a) + s == Framed(b) + t
    ensures a == b && s == t
  {
    hide Framed, Numeral;
    FrameStarts(a);
    FrameStarts(b);
    assert (Framed(a) + s)[0] == Framed(a)[0] && (Framed(b) + t)[0] == Framed(b)[0];
    if a.None? {
      SameSplit(Framed(a), Framed(b), s, t);
    } else {
      PresentFrame(a.value, s);
      PresentFrame(b.value, t);
      UpToDelimiter(Numeral(|a.value|), Numeral(|b.value|), COLON, a.value + s, b.value + t);
      NumeralRoundTrip(|a.value|);
      NumeralRoundTrip(|b.value|);
      SameSplit(a.value, b.value, s, t);
    }
  }

  predicate SameParts(x: seq<Part>, y: seq<Part>)
  {
    |x| == |y| && forall i | 0 <= i < |x| :: PartBytes(x[i]) == PartBytes(y[i])
  }

  lemma {:induction false} PartsUnique(x: seq<Part>, y: seq<Part>)
    ensures FramedParts(x) == FramedParts(y) <==> SameParts(x, y)
    decreases |x|
  {
    hide Framed, SameParts, PartBytes;
    if x != [] && y != [] {
      PartsUnique(x[1..], y[1..]);
      SamePartsCons(x, y);
      if FramedParts(x) == FramedParts(y) {
        HeadFrame(x);
        HeadFrame(y);
        FrameUnique(PartBytes(x[0]), PartBytes(y[0]), FramedParts(x[1..]), FramedParts(y[1..]));
      }
    } else {
      SameLength(x, y);
    }
  }

  lemma HeadFrame(x: seq<Part>)
    requires x != []
    ensures FramedParts(x)[1..] == Framed(PartBytes(x[0])) + FramedParts(x[1..])
  {
  }

  lemma SameLength(x: seq<Part>, y: seq<Part>)
    requires x == [] || y == []
    ensures SameParts(x, y) <==> x == [] && y == []
  {
  }

  lemma SamePartsCons(x: seq<Part>, y: seq<Part>)
    requires x != [] && y != []
    ensures SameParts(x, y) <==> PartBytes(x[0]) == PartBytes(y[0]) && SameParts(x[1..], y[1..])
  {
    if PartBytes(x[0]) == PartBytes(y[0]) && SameParts(x[1..], y[1..]) {
      forall i | 0 <= i < |x| ensures PartBytes(x[i]) == PartBytes(y[i]) {
        if i > 0 {
          assert x[1..][i - 1] == x[i] && y[1..][i - 1] == y[i];
        }
      }
    }
  }

  lemma TypeUnique(a: IdType, b: IdType, s: Bytes, t: Bytes)
    requires TypeName(a) + s == TypeName(b) + t
    ensures a == b && s == t
  {
    assert (TypeName(a) + s)[0] == (TypeName(b) + t)[0];
    assert (TypeName(a) + s)[|TypeName(a)|..] == s && (TypeName(b) + t)[|TypeName(b)|..] == t;
  }

  /**
   * The input tells apart the type, the number of parts, missing parts from empty ones, and the
   * UTF-8 bytes of each part; nothing else.
   */
  lemma InputIdentifies(a: IdType, x: seq<Part>, b: IdType, y: seq<Part>)
    ensures EncodeTypedIdInput(a, x) == EncodeTypedIdInput(b, y) <==> a == b && SameParts(x, y)
  {
    hide EncodeTypedIdInput, TypeName, FramedParts, SameParts;
    if EncodeTypedIdInput(a, x) == EncodeTypedIdInput(b, y) {
      AfterDomain(a, x);
      AfterDomain(b, y);
      TypeUnique(a, b, FramedParts(x), FramedParts(y));
    }
    PartsUnique(x, y);
    if a == b && SameParts(x, y) {
      SameInput(a, x, y);
    }
  }

  lemma AfterDomain(t: IdType, parts: seq<Part>)
    ensures |EncodeTypedIdInput(t, parts)| >= 14
    ensures EncodeTypedIdInput(t, parts)[14..] == TypeName(t) + FramedParts(parts)
  {
    hide TypeName, FramedParts;
    var head := ID_DOMAIN + [NUL];
    assert EncodeTypedIdInput(t, parts) == head + (TypeName(t) + FramedParts(parts));
  }

  lemma SameInput(t: IdType, x: seq<Part>, y: seq<Part>)
    requires FramedParts(x) == FramedParts(y)
    ensures EncodeTypedIdInput(t, x) == EncodeTypedIdInput(t, y)
  {
  }

  predicate UnicodeParts(parts: seq<Part>)
  {
    forall i | 0 <= i < |parts| && parts[i].Some? :: WellFormed(parts[i].value)
  }

  /** On Unicode text the input is injective, whatever characters the parts hold. */
  lemma InputInjective(a: IdType, x: seq<Part>, b: IdType, y: seq<Part>)
    requires UnicodeParts(x) && UnicodeParts(y) && EncodeTypedIdInput(a, x) == EncodeTypedIdInput(b, y)
    ensures a == b && x == y
  {
    InputIdentifies(a, x, b, y);
    forall i | 0 <= i < |x| ensures x[i] == y[i] {
      assert PartBytes(x[i]) == PartBytes(y[i]);
      if x[i].Some? {
        ToUtf8Injective(x[i].value, y[i].value);
      }
    }
  }

  /** It is not on arbitrary strings: a lone surrogate shares the identifier of U+FFFD. */
  lemma LoneSurrogatePartsCollide(t: IdType)
    ensures EncodeTypedIdInput(t, [Some([0xD800])]) == EncodeTypedIdInput(t, [Some([0xFFFD])])
  {
    LoneSurrogatesCollide(0xD800);
    InputIdentifies(t, [Some([0xD800])], t, [Some([0xFFFD])]);
  }
}
