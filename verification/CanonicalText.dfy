/**
 * The canonical text says exactly what a value means: equal meanings have one text, different
 * meanings have different texts. Every hash of a record relies on this.
 */
module CanonicalText {
  import opened Base
  import opened JsText
  import opened Unicode
  import opened StableJson

  /* ------------------------------ the members of an object ------------------------------ */

  lemma {:induction false} MemberKnown(props: Props, p: Prop<JsValue>)
    requires UniqueKeys(props) && p in props && !Omitted(p.value)
    ensures p.key in Members(props) && Members(props)[p.key] == Meaning(p.value)
  {
    var i :| 0 <= i < |props| && props[i] == p;
    if i > 0 {
      assert props[1..][i - 1] == p;
      MemberKnown(props[1..], p);
    }
  }

  lemma {:induction false} MemberComesFrom(props: Props, k: Text) returns (p: Prop<JsValue>)
    requires k in Members(props)
    ensures p in props && !Omitted(p.value) && p.key == k
  {
    if !Omitted(props[0].value) && props[0].key == k {
      p := props[0];
    } else {
      p := MemberComesFrom(props[1..], k);
    }
  }

  /** The sorted lists agree pointwise: in keys, and in what the values mean. */
  predicate SameMembers(x: Props, y: Props)
  {
    |x| == |y| && forall i | 0 <= i < |x| :: x[i].key == y[i].key && Meaning(x[i].value) == Meaning(y[i].value)
  }

  lemma SameMembersSameMap(a: Props, b: Props)
    requires UniqueKeys(a) && UniqueKeys(b) && SameMembers(Shown(a), Shown(b))
    ensures Members(a) == Members(b)
  {
    forall k | k in Members(a) ensures k in Members(b) && Members(a)[k] == Members(b)[k] {
      MemberCarriesOver(a, b, k);
    }
    forall k | k in Members(b) ensures k in Members(a) {
      MemberCarriesOver(b, a, k);
    }
  }

  lemma MemberCarriesOver(a: Props, b: Props, k: Text)
    requires UniqueKeys(a) && UniqueKeys(b) && SameMembers(Shown(a), Shown(b)) && k in Members(a)
    ensures k in Members(b) && Members(a)[k] == Members(b)[k]
  {
    hide Members, Meaning;
    var p := MemberComesFrom(a, k);
    var i :| 0 <= i < |Shown(a)| && Shown(a)[i] == p;
    var q := Shown(b)[i];
    assert q in Shown(b);
    MemberKnown(a, p);
    MemberKnown(b, q);
  }

  /** Two lists sorted by key with the same keys have the same key at every place. */
  lemma {:induction false} SortedKeysUnique(x: Props, y: Props)
    requires SortedByKey(x) && SortedByKey(y)
    requires forall p | p in x :: HasKey(y, p.key)
    requires forall p | p in y :: HasKey(x, p.key)
    ensures |x| == |y| && forall i | 0 <= i < |x| :: x[i].key == y[i].key
    decreases |x|
  {
    if x == [] || y == [] {
      assert x != [] ==> HasKey(y, x[0].key);
      assert y != [] ==> HasKey(x, y[0].key);
    } else {
      FirstKeysEqual(x, y);
      KeysOfRest(x, y);
      KeysOfRest(y, x);
      SortedRest(x);
      SortedRest(y);
      SortedKeysUnique(x[1..], y[1..]);
      forall i | 0 <= i < |x| ensures x[i].key == y[i].key {
        if i > 0 {
          assert x[i] == x[1..][i - 1] && y[i] == y[1..][i - 1];
        }
      }
    }
  }

  predicate HasKey(props: Props, key: Text)
  {
    exists i :: 0 <= i < |props| && props[i].key == key
  }

  lemma SortedRest(x: Props)
    requires SortedByKey(x) && x != []
    ensures SortedByKey(x[1..])
  {
  }

  lemma FirstKeysEqual(x: Props, y: Props)
    requires SortedByKey(x) && SortedByKey(y) && x != [] && y != []
    requires HasKey(y, x[0].key) && HasKey(x, y[0].key)
    ensures x[0].key == y[0].key
  {
    var i :| 0 <= i < |y| && y[i].key == x[0].key;
    var j :| 0 <= j < |x| && x[j].key == y[0].key;
    OneComesFirst(x[0].key, y[0].key);
  }

  lemma KeysOfRest(x: Props, y: Props)
    requires SortedByKey(x) && x != [] && y != [] && x[0].key == y[0].key
    requires forall p | p in x :: HasKey(y, p.key)
    ensures forall p | p in x[1..] :: HasKey(y[1..], p.key)
  {
    forall p | p in x[1..] ensures HasKey(y[1..], p.key) {
      var i :| 0 <= i < |x| - 1 && x[1..][i] == p;
      assert x[i + 1] == p;
      assert Before(x[0].key, p.key);
      var j :| 0 <= j < |y| && y[j].key == p.key;
      assert j > 0;
      assert y[1..][j - 1].key == p.key;
    }
  }

  /* ------------------------------ equal meanings, one text ------------------------------ */

  function ItemTexts(items: seq<JsValue>): (ts: seq<Text>)
    ensures |ts| == |items| && forall i | 0 <= i < |items| :: ts[i] == TextOf(items[i])
  {
    seq(|items|, i requires 0 <= i < |items| => TextOf(items[i]))
  }

  function MemberText(p: Prop<JsValue>): Text
  {
    Quoted(p.key) + [COLON] + TextOf(p.value)
  }

  function MemberTexts(props: Props): (ts: seq<Text>)
    ensures |ts| == |props| && forall i | 0 <= i < |props| :: ts[i] == MemberText(props[i])
  {
    seq(|props|, i requires 0 <= i < |props| => MemberText(props[i]))
  }

  lemma TextOfArray(items: seq<JsValue>)
    ensures TextOf(Array(items)) == [0x5B] + Joined(ItemTexts(items)) + [0x5D]
  {
    assert ItemTexts(items) == seq(|items|, i requires 0 <= i < |items| => TextOf(items[i]));
  }

  lemma TextOfPlain(props: Props)
    ensures TextOf(Plain(props)) == [0x7B] + Joined(MemberTexts(Shown(props))) + [0x7D]
  {
    var shown := Shown(props);
    assert MemberTexts(shown) == seq(|shown|, i requires 0 <= i < |shown| =>
      Quoted(shown[i].key) + [COLON] + TextOf(shown[i].value));
  }

  /** The text depends on the meaning only: not on the order of properties, nor on what is omitted. */
  lemma {:induction false} MeaningDecidesText(a: JsValue, b: JsValue)
    requires Accepted(a) && Accepted(b) && Meaning(a) == Meaning(b)
    ensures TextOf(a) == TextOf(b)
    decreases a
  {
    hide Joined, Members, Shown, Quoted;
    if a.Array? {
      forall i | 0 <= i < |a.items| ensures TextOf(a.items[i]) == TextOf(b.items[i]) {
        assert Meaning(a).items[i] == Meaning(b).items[i];
        MeaningDecidesText(a.items[i], b.items[i]);
      }
      TextOfArray(a.items);
      TextOfArray(b.items);
      assert ItemTexts(a.items) == ItemTexts(b.items);
    } else if a.Plain? {
      var x, y := Shown(a.props), Shown(b.props);
      SameMapSameMembers(a.props, b.props);
      forall i | 0 <= i < |x| ensures MemberTexts(x)[i] == MemberTexts(y)[i] {
        assert x[i] in a.props && y[i] in b.props;
        MeaningDecidesText(x[i].value, y[i].value);
      }
      TextOfPlain(a.props);
      TextOfPlain(b.props);
      assert MemberTexts(x) == MemberTexts(y);
    }
  }

  lemma SameMapSameMembers(a: Props, b: Props)
    requires UniqueKeys(a) && UniqueKeys(b) && Members(a) == Members(b)
    ensures SameMembers(Shown(a), Shown(b))
  {
    hide Members, Meaning;
    var x, y := Shown(a), Shown(b);
    ShownSorted(a);
    ShownSorted(b);
    KeysCarryOver(a, b);
    KeysCarryOver(b, a);
    SortedKeysUnique(x, y);
    forall i | 0 <= i < |x| ensures Meaning(x[i].value) == Meaning(y[i].value) {
      assert x[i] in x && y[i] in y;
      MemberKnown(a, x[i]);
      MemberKnown(b, y[i]);
    }
  }

  lemma KeysCarryOver(a: Props, b: Props)
    requires UniqueKeys(a) && Members(a) == Members(b)
    ensures forall p | p in Shown(a) :: HasKey(Shown(b), p.key)
  {
    hide Members, Meaning;
    forall p | p in Shown(a) ensures HasKey(Shown(b), p.key) {
      MemberKnown(a, p);
      var q := MemberComesFrom(b, p.key);
      var i :| 0 <= i < |Shown(b)| && Shown(b)[i] == q;
    }
  }

  /* ------------------------------ different meanings, different texts ------------------------------ */

  /** What can follow a value inside a text, or nothing. */
  predicate Delimited(s: Text)
  {
    s == [] || s[0] == COMMA || s[0] == 0x5D || s[0] == 0x7D
  }

  datatype Kind = NullKind | TrueKind | FalseKind | NumberKind | StringKind | ArrayKind | ObjectKind | NoKind

  function KindOf(v: JsValue): Kind
  {
    match v
    case Boolean(flag) => if flag then TrueKind else FalseKind
    case Number(_) => NumberKind
    case Str(_) => StringKind
    case Array(_) => ArrayKind
    case Plain(_) => ObjectKind
    case _ => NullKind
  }

  /** The first unit of a text says which kind of value it is the text of. */
  function KindOfUnit(u: Unit): Kind
  {
    if u == 0x6E then NullKind
    else if u == 0x74 then TrueKind
    else if u == 0x66 then FalseKind
    else if u == 0x2D || 0x30 <= u < 0x3A then NumberKind
    else if u == QUOTE then StringKind
    else if u == 0x5B then ArrayKind
    else if u == 0x7B then ObjectKind
    else NoKind
  }

  lemma TextStarts(v: JsValue)
    ensures TextOf(v) != [] && KindOfUnit(TextOf(v)[0]) == KindOf(v) != NoKind
  {
  }

  lemma SameKind(a: JsValue, b: JsValue, s: Text, t: Text)
    requires TextOf(a) + s == TextOf(b) + t
    ensures KindOf(a) == KindOf(b)
  {
    hide TextOf;
    TextStarts(a);
    TextStarts(b);
    assert (TextOf(a) + s)[0] == (TextOf(b) + t)[0];
  }

  lemma PastTheShorter(x: Text, y: Text, s: Text, t: Text)
    requires x + s == y + t && |x| < |y|
    ensures s != [] && s[0] == y[|x|]
  {
    assert (x + s)[|x|] == s[0] && (y + t)[|x|] == y[|x|];
  }

  lemma NumberUnique(x: NumberText, y: NumberText, s: Text, t: Text)
    requires x + s == y + t && Delimited(s) && Delimited(t)
    ensures x == y && s == t
  {
    if |x| < |y| {
      PastTheShorter(x, y, s, t);
    } else if |y| < |x| {
      PastTheShorter(y, x, t, s);
    }
    assert x == (x + s)[..|x|] && y == (y + t)[..|y|] && s == (x + s)[|x|..] && t == (y + t)[|y|..];
  }

  lemma SameHead(h: Text, s: Text, t: Text)
    requires h + s == h + t
    ensures s == t
  {
    assert s == (h + s)[|h|..] && t == (h + t)[|h|..];
  }

  /** What follows the first text of a joined list, the closing bracket included. */
  function AfterFirst(texts: seq<Text>, close: Unit, s: Text): Text
    requires texts != []
  {
    if |texts| == 1 then [close] + s else [COMMA] + (Joined(texts[1..]) + [close] + s)
  }

  lemma JoinedSplits(texts: seq<Text>, close: Unit, s: Text)
    requires texts != []
    ensures Joined(texts) + [close] + s == texts[0] + AfterFirst(texts, close, s)
  {
  }

  lemma JoinedStarts(texts: seq<Text>, close: Unit, s: Text)
    requires texts != [] && texts[0] != []
    ensures (Joined(texts) + [close] + s)[0] == texts[0][0]
  {
    JoinedSplits(texts, close, s);
  }

  lemma JoinedNone(close: Unit, s: Text)
    ensures Joined([]) + [close] + s == [close] + s
  {
  }

  lemma AfterFirstUnique(x: seq<Text>, y: seq<Text>, close: Unit, s: Text, t: Text)
    requires x != [] && y != [] && close != COMMA && AfterFirst(x, close, s) == AfterFirst(y, close, t)
    ensures |x| == 1 <==> |y| == 1
    ensures |x| == 1 ==> s == t
    ensures |x| > 1 ==> Joined(x[1..]) + [close] + s == Joined(y[1..]) + [close] + t
  {
    hide Joined;
    var a, b := AfterFirst(x, close, s), AfterFirst(y, close, t);
    assert a[0] == b[0] && a[1..] == b[1..];
    assert |x| == 1 ==> a[1..] == s;
    assert |y| == 1 ==> b[1..] == t;
    assert |x| > 1 ==> a[1..] == Joined(x[1..]) + [close] + s;
    assert |y| > 1 ==> b[1..] == Joined(y[1..]) + [close] + t;
  }

  /** A value's text is recognised wherever it stands before a delimiter: it gives the meaning, and where it ends. */
  lemma {:induction false} TextUnique(a: JsValue, b: JsValue, s: Text, t: Text)
    requires Accepted(a) && Accepted(b) && TextOf(a) + s == TextOf(b) + t && Delimited(s) && Delimited(t)
    ensures Meaning(a) == Meaning(b) && s == t
    decreases a, 1, 0
  {
    hide Joined, Members, Shown, Quoted, Delimited;
    SameKind(a, b, s, t);
    if a.Str? {
      QuotedUnique(a.text, b.text, s, t);
    } else if a.Number? {
      NumberUnique(if a.number.Finite? then a.number.text else [0x30],
                   if b.number.Finite? then b.number.text else [0x30], s, t);
    } else if a.Array? {
      TextOfArray(a.items);
      TextOfArray(b.items);
      var x, y := ItemTexts(a.items), ItemTexts(b.items);
      Unbracket(0x5B, Joined(x), 0x5D, s);
      Unbracket(0x5B, Joined(y), 0x5D, t);
      SameHead([0x5B], Joined(x) + [0x5D] + s, Joined(y) + [0x5D] + t);
      ItemsUnique(a, a.items, b.items, s, t);
    } else if a.Plain? {
      TextOfPlain(a.props);
      TextOfPlain(b.props);
      var x, y := MemberTexts(Shown(a.props)), MemberTexts(Shown(b.props));
      Unbracket(0x7B, Joined(x), 0x7D, s);
      Unbracket(0x7B, Joined(y), 0x7D, t);
      SameHead([0x7B], Joined(x) + [0x7D] + s, Joined(y) + [0x7D] + t);
      MembersUnique(a, Shown(a.props), Shown(b.props), s, t);
      SameMembersSameMap(a.props, b.props);
    } else {
      SameHead(TextOf(a), s, t);
    }
  }

  lemma Unbracket(open: Unit, inner: Text, close: Unit, s: Text)
    ensures [open] + inner + [close] + s == [open] + (inner + [close] + s)
  {
  }

  lemma {:induction false} ItemsUnique(a: JsValue, x: seq<JsValue>, y: seq<JsValue>, s: Text, t: Text)
    requires a.Array? && (forall v | v in x :: v in a.items && Accepted(v)) && forall v | v in y :: Accepted(v)
    requires Joined(ItemTexts(x)) + [0x5D] + s == Joined(ItemTexts(y)) + [0x5D] + t
    ensures |x| == |y| && s == t
    ensures forall i | 0 <= i < |x| :: Meaning(x[i]) == Meaning(y[i])
    decreases a, 0, |x|
  {
    hide Joined, Members, Meaning, TextOf, Accepted;
    var tx, ty := ItemTexts(x), ItemTexts(y);
    if x == [] || y == [] {
      JoinedNone(0x5D, s);
      JoinedNone(0x5D, t);
      if x != [] {
        TextStarts(x[0]);
        JoinedStarts(tx, 0x5D, s);
      } else if y != [] {
        TextStarts(y[0]);
        JoinedStarts(ty, 0x5D, t);
      } else {
        SameHead([0x5D], s, t);
      }
    } else {
      JoinedSplits(tx, 0x5D, s);
      JoinedSplits(ty, 0x5D, t);
      assert x[0] in a.items;
      var i :| 0 <= i < |a.items| && a.items[i] == x[0];
      TextUnique(x[0], y[0], AfterFirst(tx, 0x5D, s), AfterFirst(ty, 0x5D, t));
      AfterFirstUnique(tx, ty, 0x5D, s, t);
      if |x| > 1 {
        assert ItemTexts(x[1..]) == tx[1..] && ItemTexts(y[1..]) == ty[1..];
        ItemsUnique(a, x[1..], y[1..], s, t);
        forall i | 0 <= i < |x| ensures Meaning(x[i]) == Meaning(y[i]) {
          if i > 0 {
            assert x[i] == x[1..][i - 1] && y[i] == y[1..][i - 1];
          }
        }
      }
    }
  }

  lemma MemberStarts(p: Prop<JsValue>)
    ensures MemberText(p) != [] && MemberText(p)[0] == QUOTE
  {
  }

  lemma MemberSplits(p: Prop<JsValue>, rest: Text)
    ensures MemberText(p) + rest == Quoted(p.key) + ([COLON] + (TextOf(p.value) + rest))
  {
    hide Quoted, TextOf;
  }

  lemma {:induction false} MembersUnique(a: JsValue, x: Props, y: Props, s: Text, t: Text)
    requires a.Plain? && (forall p | p in x :: p in a.props && Accepted(p.value))
    requires forall p | p in y :: Accepted(p.value)
    requires Joined(MemberTexts(x)) + [0x7D] + s == Joined(MemberTexts(y)) + [0x7D] + t
    ensures SameMembers(x, y) && s == t
    decreases a, 0, |x|
  {
    hide Joined, Members, Meaning, TextOf, Accepted, MemberText, Quoted;
    var tx, ty := MemberTexts(x), MemberTexts(y);
    if x == [] || y == [] {
      JoinedNone(0x7D, s);
      JoinedNone(0x7D, t);
      if x != [] {
        MemberStarts(x[0]);
        JoinedStarts(tx, 0x7D, s);
      } else if y != [] {
        MemberStarts(y[0]);
        JoinedStarts(ty, 0x7D, t);
      } else {
        SameHead([0x7D], s, t);
      }
    } else {
      var restX, restY := AfterFirst(tx, 0x7D, s), AfterFirst(ty, 0x7D, t);
      JoinedSplits(tx, 0x7D, s);
      JoinedSplits(ty, 0x7D, t);
      MemberSplits(x[0], restX);
      MemberSplits(y[0], restY);
      QuotedUnique(x[0].key, y[0].key, [COLON] + (TextOf(x[0].value) + restX), [COLON] + (TextOf(y[0].value) + restY));
      SameHead([COLON], TextOf(x[0].value) + restX, TextOf(y[0].value) + restY);
      TextUnique(x[0].value, y[0].value, restX, restY);
      AfterFirstUnique(tx, ty, 0x7D, s, t);
      if |x| > 1 {
        assert MemberTexts(x[1..]) == tx[1..] && MemberTexts(y[1..]) == ty[1..];
        MembersUnique(a, x[1..], y[1..], s, t);
        forall i | 0 <= i < |x| ensures x[i].key == y[i].key && Meaning(x[i].value) == Meaning(y[i].value) {
          if i > 0 {
            assert x[i] == x[1..][i - 1] && y[i] == y[1..][i - 1];
          }
        }
      }
    }
  }

  /** Canonical and injective: two accepted values have one text exactly when they mean the same JSON. */
  lemma TextIffMeaning(a: JsValue, b: JsValue)
    requires Accepted(a) && Accepted(b)
    ensures TextOf(a) == TextOf(b) <==> Meaning(a) == Meaning(b)
  {
    hide TextOf, Meaning, Accepted;
    if TextOf(a) == TextOf(b) {
      assert TextOf(a) + [] == TextOf(b) + [];
      TextUnique(a, b, [], []);
    }
    if Meaning(a) == Meaning(b) {
      MeaningDecidesText(a, b);
    }
  }

  /* ------------------------------ what the text can hold ------------------------------ */

  /** Neither a line break nor another control character: a canonical text is one line. */
  predicate OneLine(s: Text)
  {
    forall i | 0 <= i < |s| :: s[i] >= 0x20
  }

  /** Canonical texts are Unicode text on one line, so a JSONL file splits back into them. */
  predicate Storable(s: Text)
  {
    WellFormed(s) && OneLine(s)
  }

  lemma StorableConcat(a: Text, b: Text)
    requires Storable(a) && Storable(b)
    ensures Storable(a + b)
  {
    WellFormedConcat(a, b);
  }

  lemma StorableAscii(s: Text)
    requires forall i | 0 <= i < |s| :: 0x20 <= s[i] < 0x80
    ensures Storable(s)
  {
    AsciiWellFormed(s);
  }

  lemma {:induction false} EscapedOneLine(s: Text)
    ensures OneLine(Escaped(s))
    decreases |s|
  {
    if s != [] {
      EscapedOneLine(s[Taken(s)..]);
      PieceOneLine(s);
    }
  }

  lemma PieceOneLine(s: Text)
    requires s != []
    ensures OneLine(Piece(s))
  {
  }

  lemma QuotedStorable(s: Text)
    ensures Storable(Quoted(s))
  {
    EscapedOneLine(s);
    QuotedWellFormed(s);
  }

  lemma {:induction false} JoinedStorable(texts: seq<Text>)
    requires forall i | 0 <= i < |texts| :: Storable(texts[i])
    ensures Storable(Joined(texts))
    decreases |texts|
  {
    hide Storable;
    if texts == [] {
      StorableAscii([]);
    } else if |texts| > 1 {
      JoinedStorable(texts[1..]);
      StorableAscii([COMMA]);
      StorableConcat(texts[0], [COMMA]);
      StorableConcat(texts[0] + [COMMA], Joined(texts[1..]));
    }
  }

  lemma BracketedStorable(open: Unit, inner: Text, close: Unit)
    requires 0x20 <= open < 0x80 && 0x20 <= close < 0x80 && Storable(inner)
    ensures Storable([open] + inner + [close])
  {
    hide Storable;
    StorableAscii([open]);
    StorableAscii([close]);
    StorableConcat([open], inner);
    StorableConcat([open] + inner, [close]);
  }

  lemma {:induction false} TextStorable(v: JsValue)
    ensures Storable(TextOf(v))
    decreases v
  {
    hide Storable, Joined, Shown, Quoted;
    if v.Str? {
      QuotedStorable(v.text);
    } else if v.Array? {
      var texts := ItemTexts(v.items);
      forall i | 0 <= i < |texts| ensures Storable(texts[i]) {
        TextStorable(v.items[i]);
      }
      TextOfArray(v.items);
      JoinedStorable(texts);
      BracketedStorable(0x5B, Joined(texts), 0x5D);
    } else if v.Plain? {
      var shown := Shown(v.props);
      var texts := MemberTexts(shown);
      forall i | 0 <= i < |texts| ensures Storable(texts[i]) {
        assert shown[i] in v.props;
        TextStorable(shown[i].value);
        MemberStorable(shown[i]);
      }
      TextOfPlain(v.props);
      JoinedStorable(texts);
      BracketedStorable(0x7B, Joined(texts), 0x7D);
    } else {
      StorableAscii(TextOf(v));
    }
  }

  lemma MemberStorable(p: Prop<JsValue>)
    requires Storable(TextOf(p.value))
    ensures Storable(MemberText(p))
  {
    hide Storable, Quoted, TextOf;
    QuotedStorable(p.key);
    StorableAscii([COLON]);
    StorableConcat(Quoted(p.key), [COLON]);
    StorableConcat(Quoted(p.key) + [COLON], TextOf(p.value));
  }

  /** So the bytes that are hashed and stored tell meanings apart as well. */
  lemma BytesIffMeaning(a: JsValue, b: JsValue)
    requires Accepted(a) && Accepted(b)
    ensures ToUtf8(TextOf(a)) == ToUtf8(TextOf(b)) <==> Meaning(a) == Meaning(b)
  {
    hide TextOf, Meaning, Accepted, ToUtf8;
    TextIffMeaning(a, b);
    TextStorable(a);
    TextStorable(b);
    if ToUtf8(TextOf(a)) == ToUtf8(TextOf(b)) {
      ToUtf8Injective(TextOf(a), TextOf(b));
    }
  }

  /** No byte of a stored text is a line break, which is what the JSONL store asks of its records. */
  lemma TextHasNoLineBreak(v: JsValue)
    ensures LF !in ToUtf8(TextOf(v))
  {
    TextStorable(v);
    OneLineBytes(TextOf(v));
  }

  lemma {:induction false} OneLineBytes(s: Text)
    requires OneLine(s)
    ensures LF !in ToUtf8(s)
    decreases |s|
  {
    if s != [] {
      var k := Taken(s);
      OneLineBytes(s[k..]);
      var c := Scalars(s)[0];
      assert Scalars(s)[1..] == Scalars(s[k..]);
      assert c >= 0x20;
      HighBytes(c);
    }
  }

  lemma HighBytes(c: Scalar)
    requires c >= 0x20
    ensures LF !in Encode(c)
  {
    var e := Encode(c);
    assert forall i | 0 <= i < |e| :: e[i] >= 0x20;
  }
}
