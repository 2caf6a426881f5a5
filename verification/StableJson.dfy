/**
 * src/core/stable-json.ts: the canonical text of a JavaScript value. What a value means as JSON is
 * given here by `Meaning`, in which objects are maps; the text is a function of the meaning, and
 * different meanings have different texts.
 */
module StableJson {
  import opened Base
  import opened JsText

  /* ------------------------------ values ------------------------------ */

  const COMMA: Unit := 0x2C
  const COLON: Unit := 0x3A

  /** A unit that occurs in the text of a finite number. */
  predicate NumberUnit(u: Unit)
  {
    0x30 <= u < 0x3A || u == 0x2D || u == 0x2B || u == 0x2E || u == 0x65
  }

  predicate IsNumberText(t: Text)
  {
    && t != [] && (forall i | 0 <= i < |t| :: NumberUnit(t[i]))
    && (t[0] == 0x2D || 0x30 <= t[0] < 0x3A)
  }

  /** The text String() gives a finite number; it stands for the number, which it determines. */
  type NumberText = t: Text | IsNumberText(t) witness [0x30]

  datatype JsNumber = NaN | Infinite(negative: bool) | NegativeZero | Finite(text: NumberText)

  datatype JsValue =
    | Null | Undefined | Function | Symbol | BigInt
    | Boolean(flag: bool)
    | Number(number: JsNumber)
    | Str(text: Text)
    | Array(items: seq<JsValue>)
    | Plain(props: Props)
    | Exotic

  datatype Prop<+V> = Prop(key: Text, value: V)

  type Props = seq<Prop<JsValue>>

  /** What JSON.stringify leaves out of objects and writes as null in arrays. */
  predicate Omitted(v: JsValue)
  {
    v.Undefined? || v.Function? || v.Symbol?
  }

  /** An object has each key once. */
  predicate UniqueKeys<V>(props: seq<Prop<V>>)
  {
    forall i, j | 0 <= i < j < |props| :: props[i].key != props[j].key
  }

  /** Nothing in the value is refused: no NaN or infinity, no BigInt, no object of another prototype. */
  predicate Accepted(v: JsValue)
    decreases v
  {
    match v
    case Number(n) => n.NegativeZero? || n.Finite?
    case BigInt => false
    case Exotic => false
    case Array(items) => forall i | 0 <= i < |items| :: Accepted(items[i])
    case Plain(props) => UniqueKeys(props) && forall i | 0 <= i < |props| :: Accepted(props[i].value)
    case _ => true
  }

  /* ------------------------------ meaning ------------------------------ */

  datatype Json =
    | JNull | JBoolean(flag: bool) | JNumber(text: Text) | JString(text: Text)
    | JArray(items: seq<Json>)
    | JObject(members: map<Text, Json>)

  function Meaning(v: JsValue): Json
    decreases v
  {
    match v
    case Boolean(flag) => JBoolean(flag)
    case Number(n) => if n.Finite? then JNumber(n.text) else JNumber([0x30])
    case Str(text) => JString(text)
    case Array(items) => JArray(seq(|items|, i requires 0 <= i < |items| => Meaning(items[i])))
    case Plain(props) => JObject(Members(props))
    case _ => JNull
  }

  function Members(props: Props): map<Text, Json>
    decreases props
  {
    if props == [] then map[]
    else if Omitted(props[0].value) then Members(props[1..])
    else Members(props[1..])[props[0].key := Meaning(props[0].value)]
  }

  /* ------------------------------ the order of keys ------------------------------ */

  /** src/core/stable-json.ts, compareUtf16CodeUnits: -1, 0 or 1. */
  function CompareUtf16CodeUnits(a: Text, b: Text): (order: int)
    ensures order == 0 <==> a == b
    ensures -1 <= order <= 1
  {
    if a == [] then if b == [] then 0 else -1
    else if b == [] then 1
    else if a[0] != b[0] then if a[0] < b[0] then -1 else 1
    else
      assert a == [a[0]] + a[1..] && b == [b[0]] + b[1..];
      CompareUtf16CodeUnits(a[1..], b[1..])
  }

  predicate Before(a: Text, b: Text)
  {
    CompareUtf16CodeUnits(a, b) == -1
  }

  lemma {:induction false} OneComesFirst(a: Text, b: Text)
    ensures CompareUtf16CodeUnits(b, a) == -CompareUtf16CodeUnits(a, b)
  {
    if a != [] && b != [] && a[0] == b[0] {
      OneComesFirst(a[1..], b[1..]);
    }
  }

  lemma {:induction false} BeforeTransitive(a: Text, b: Text, c: Text)
    requires Before(a, b) && Before(b, c)
    ensures Before(a, c)
  {
    if a != [] && b != [] && c != [] && a[0] == b[0] == c[0] {
      BeforeTransitive(a[1..], b[1..], c[1..]);
    }
  }

  predicate SortedByKey<V>(props: seq<Prop<V>>)
  {
    forall i, j | 0 <= i < j < |props| :: Before(props[i].key, props[j].key)
  }

  function Insert<V(!new)>(p: Prop<V>, props: seq<Prop<V>>): (r: seq<Prop<V>>)
    ensures |r| == |props| + 1
    ensures forall q :: q in r <==> q == p || q in props
  {
    if props == [] || !Before(props[0].key, p.key) then [p] + props
    else
      assert props == [props[0]] + props[1..];
      [props[0]] + Insert(p, props[1..])
  }

  /** The properties in the order of their keys. */
  function SortByKey<V(!new)>(props: seq<Prop<V>>): (r: seq<Prop<V>>)
    ensures |r| == |props|
    ensures forall q :: q in r <==> q in props
  {
    if props == [] then []
    else
      assert props == [props[0]] + props[1..];
      Insert(props[0], SortByKey(props[1..]))
  }

  function KeepShown(props: Props): (r: Props)
    ensures forall q :: q in r <==> q in props && !Omitted(q.value)
  {
    if props == [] then []
    else
      assert props == [props[0]] + props[1..];
      (if Omitted(props[0].value) then [] else [props[0]]) + KeepShown(props[1..])
  }

  /** The properties that are shown, in the order of their keys. */
  function Shown(props: Props): (r: Props)
    ensures forall q :: q in r <==> q in props && !Omitted(q.value)
  {
    KeepShown(SortByKey(props))
  }

  lemma {:induction false} InsertSorted<V(!new)>(p: Prop<V>, props: seq<Prop<V>>)
    requires SortedByKey(props) && forall q | q in props :: q.key != p.key
    ensures SortedByKey(Insert(p, props))
  {
    var r := Insert(p, props);
    if props == [] {
    } else if !Before(props[0].key, p.key) {
      OneComesFirst(p.key, props[0].key);
      forall i, j | 0 <= i < j < |r| ensures Before(r[i].key, r[j].key) {
        if i == 0 && j > 1 {
          BeforeTransitive(p.key, props[0].key, props[j - 1].key);
        }
      }
    } else {
      InsertSorted(p, props[1..]);
      SortedCons(props[0], Insert(p, props[1..]));
    }
  }

  lemma SortedCons<V>(p: Prop<V>, later: seq<Prop<V>>)
    requires SortedByKey(later) && forall q | q in later :: Before(p.key, q.key)
    ensures SortedByKey([p] + later)
  {
    var r := [p] + later;
    forall i, j | 0 <= i < j < |r| ensures Before(r[i].key, r[j].key) {
      assert r[j] == later[j - 1];
      assert i > 0 ==> r[i] == later[i - 1];
    }
  }

  lemma {:induction false} SortSorts<V(!new)>(props: seq<Prop<V>>)
    requires UniqueKeys(props)
    ensures SortedByKey(SortByKey(props))
  {
    if props != [] {
      SortSorts(props[1..]);
      forall q | q in SortByKey(props[1..]) ensures q.key != props[0].key {
        var i :| 0 <= i < |props| - 1 && props[1..][i] == q;
        assert props[i + 1] == q;
      }
      InsertSorted(props[0], SortByKey(props[1..]));
    }
  }

  lemma {:induction false} KeepSorted(props: Props)
    requires SortedByKey(props)
    ensures SortedByKey(KeepShown(props))
  {
    if props != [] {
      KeepSorted(props[1..]);
      if !Omitted(props[0].value) {
        SortedCons(props[0], KeepShown(props[1..]));
      }
    }
  }

  lemma ShownSorted(props: Props)
    requires UniqueKeys(props)
    ensures SortedByKey(Shown(props))
  {
    SortSorts(props);
    KeepSorted(SortByKey(props));
  }

  /* ------------------------------ the text ------------------------------ */

  function Joined(texts: seq<Text>): Text
    decreases |texts|
  {
    if texts == [] then []
    else if |texts| == 1 then texts[0]
    else texts[0] + [COMMA] + Joined(texts[1..])
  }

  const NULL_TEXT: Text := [0x6E, 0x75, 0x6C, 0x6C]
  const TRUE_TEXT: Text := [0x74, 0x72, 0x75, 0x65]
  const FALSE_TEXT: Text := [0x66, 0x61, 0x6C, 0x73, 0x65]

  /** The text of an accepted value; what an object leaves out reads null, as in an array. */
  function TextOf(v: JsValue): (t: Text)
    decreases v
  {
    match v
    case Boolean(flag) => if flag then TRUE_TEXT else FALSE_TEXT
    case Number(n) => if n.Finite? then n.text else [0x30]
    case Str(text) => Quoted(text)
    case Array(items) => [0x5B] + Joined(seq(|items|, i requires 0 <= i < |items| => TextOf(items[i]))) + [0x5D]
    case Plain(props) =>
      var shown := Shown(props);
      [0x7B]
      + Joined(seq(|shown|, i requires 0 <= i < |shown| =>
                 assert shown[i] in props;
                 Quoted(shown[i].key) + [COLON] + TextOf(shown[i].value)))
      + [0x7D]
    case _ => NULL_TEXT
  }
}
