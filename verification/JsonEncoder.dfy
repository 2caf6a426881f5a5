/**
 * src/core/stable-json.ts, encodeJson as it runs: over objects that refer to one another, with the set
 * of objects it is inside of. The text it gives is that of the tree the objects unfold to, and an
 * object is refused as circular exactly when no such tree exists.
 */
module JsonEncoder {
  import opened Base
  import opened JsText
  import opened StableJson
  import opened CanonicalText

  type Ref = nat

  type LeafValue = v: JsValue | !v.Array? && !v.Plain? && !v.Exotic? witness Null

  datatype Val = Leaf(value: LeafValue) | Object(ref: Ref)

  datatype Node = ArrayNode(elements: seq<Val>) | PlainNode(props: seq<Prop<Val>>) | OtherNode

  type Graph = map<Ref, Node>

  predicate Known(g: Graph, v: Val)
  {
    v.Object? ==> v.ref in g
  }

  /** Every reference leads to an object, and an object has each key once. */
  predicate Closed(g: Graph)
  {
    forall r | r in g ::
      match g[r]
      case ArrayNode(elements) => forall i | 0 <= i < |elements| :: Known(g, elements[i])
      case PlainNode(props) => UniqueKeys(props) && forall i | 0 <= i < |props| :: Known(g, props[i].value)
      case OtherNode => true
  }

  /* ------------------------------ the tree behind the objects ------------------------------ */

  /** The tree a value unfolds to below its ancestors, unless it leads back to one of them. */
  function Unfold(g: Graph, v: Val, ancestors: set<Ref>): (tree: Option<JsValue>)
    requires Closed(g) && Known(g, v)
    decreases g.Keys - ancestors, 0
  {
    match v
    case Leaf(value) => var leaf: JsValue := value; Some(leaf)
    case Object(ref) =>
      if ref in ancestors then None
      else
        match g[ref]
        case ArrayNode(elements) =>
          var items := UnfoldItems(g, elements, ancestors + {ref});
          if items.None? then None else Some(Array(items.value))
        case PlainNode(props) =>
          var members := UnfoldProps(g, props, ancestors + {ref});
          if members.None? then None else Some(Plain(members.value))
        case OtherNode => Some(Exotic)
  }

  function UnfoldItems(g: Graph, elements: seq<Val>, ancestors: set<Ref>): (items: Option<seq<JsValue>>)
    requires Closed(g) && forall i | 0 <= i < |elements| :: Known(g, elements[i])
    decreases g.Keys - ancestors, 1
  {
    if exists i :: 0 <= i < |elements| && Unfold(g, elements[i], ancestors).None? then None
    else Some(seq(|elements|, i requires 0 <= i < |elements| => Unfold(g, elements[i], ancestors).value))
  }

  function UnfoldProps(g: Graph, props: seq<Prop<Val>>, ancestors: set<Ref>): (members: Option<Props>)
    requires Closed(g) && forall i | 0 <= i < |props| :: Known(g, props[i].value)
    decreases g.Keys - ancestors, 1
  {
    if exists i :: 0 <= i < |props| && Unfold(g, props[i].value, ancestors).None? then None
    else
      Some(seq(|props|, i requires 0 <= i < |props| => Prop(props[i].key, Unfold(g, props[i].value, ancestors).value)))
  }

  predicate IsChild(g: Graph, parent: Ref, child: Ref)
  {
    && parent in g
    && match g[parent]
       case ArrayNode(elements) => exists i :: 0 <= i < |elements| && elements[i] == Object(child)
       case PlainNode(props) => exists i :: 0 <= i < |props| && props[i].value == Object(child)
       case OtherNode => false
  }

  /** References followed one after another. */
  predicate Chain(g: Graph, path: seq<Ref>)
  {
    forall i, j | 0 <= i < |path| && j == i + 1 < |path| :: IsChild(g, path[i], path[j])
  }

  /** The chain returns to an ancestor, or to an object it has been through. */
  predicate Returns(path: seq<Ref>, ancestors: set<Ref>)
  {
    path != [] && (path[|path| - 1] in ancestors || path[|path| - 1] in path[..|path| - 1])
  }

  lemma {:induction false} ReturningIsRefused(g: Graph, v: Val, ancestors: set<Ref>, path: seq<Ref>)
    requires Closed(g) && Known(g, v) && v.Object?
    requires Chain(g, path) && Returns(path, ancestors) && path[0] == v.ref
    ensures Unfold(g, v, ancestors).None?
    decreases |path|
  {
    if v.ref !in ancestors {
      var rest := path[1..];
      assert |path| > 1;
      assert IsChild(g, path[0], path[1]);
      assert forall i | 0 <= i < |rest| :: rest[i] == path[i + 1];
      assert path == [path[0]] + rest && path[..|path| - 1] == [path[0]] + rest[..|rest| - 1];
      ReturningIsRefused(g, Object(path[1]), ancestors + {v.ref}, rest);
    }
  }

  lemma {:induction false} RefusedReturns(g: Graph, v: Val, ancestors: set<Ref>) returns (path: seq<Ref>)
    requires Closed(g) && Known(g, v) && Unfold(g, v, ancestors).None?
    ensures v.Object? && Chain(g, path) && Returns(path, ancestors) && path[0] == v.ref
    decreases g.Keys - ancestors
  {
    if v.ref in ancestors {
      path := [v.ref];
    } else {
      var below := ancestors + {v.ref};
      var child: Val;
      match g[v.ref] {
        case ArrayNode(elements) =>
          var i :| 0 <= i < |elements| && Unfold(g, elements[i], below).None?;
          child := elements[i];
        case PlainNode(props) =>
          var i :| 0 <= i < |props| && Unfold(g, props[i].value, below).None?;
          child := props[i].value;
        case OtherNode => assert false;
      }
      var rest := RefusedReturns(g, child, below);
      assert IsChild(g, v.ref, rest[0]);
      path := [v.ref] + rest;
      assert path[..|path| - 1] == [v.ref] + rest[..|rest| - 1];
    }
  }

  /** Only real cycles are refused: an object that occurs twice without containing itself is not one. */
  lemma CircularIffReturns(g: Graph, v: Val)
    requires Closed(g) && Known(g, v) && v.Object?
    ensures Unfold(g, v, {}).None? <==> exists path :: Chain(g, path) && Returns(path, {}) && path[0] == v.ref
  {
    if Unfold(g, v, {}).None? {
      var path := RefusedReturns(g, v, {});
    } else {
      forall path | Chain(g, path) && Returns(path, {}) && path[0] == v.ref ensures false {
        ReturningIsRefused(g, v, {}, path);
      }
    }
  }

  /* ------------------------------ encoding ------------------------------ */

  datatype Refusal = NotStableJson | NotSerializable

  /** What encoding a tree gives: a text, nothing for what is omitted, or a refusal. */
  function Encoding(tree: Option<JsValue>, arrayElement: bool): (r: Result<Option<Text>, Refusal>)
  {
    if tree.None? || !Accepted(tree.value) then Err(NotStableJson)
    else if Omitted(tree.value) then Ok(if arrayElement then Some(NULL_TEXT) else None)
    else Ok(Some(TextOf(tree.value)))
  }

  class Encoder {
    const graph: Graph
    var ancestors: set<Ref>

    constructor (g: Graph)
      ensures graph == g && ancestors == {}
    {
      graph := g;
      ancestors := {};
    }

    /** The set of ancestors is as before, whatever the outcome. */
    method EncodeJson(v: Val, arrayElement: bool) returns (result: Result<Option<Text>, Refusal>)
      requires Closed(graph) && Known(graph, v)
      modifies this
      ensures ancestors == old(ancestors)
      ensures result == Encoding(Unfold(graph, v, ancestors), arrayElement)
      decreases graph.Keys - ancestors, 1
    {
      match v
      case Leaf(value) =>
        if !Accepted(value) {
          return Err(NotStableJson);
        }
        if Omitted(value) {
          return Ok(if arrayElement then Some(NULL_TEXT) else None);
        }
        return Ok(Some(TextOf(value)));
      case Object(ref) =>
        if ref in ancestors {
          return Err(NotStableJson);
        }
        ghost var outside := ancestors;
        ancestors := ancestors + {ref};
        match graph[ref] {
          case ArrayNode(elements) => result := EncodeArray(elements);
          case PlainNode(props) => result := EncodePlain(props);
          case OtherNode => result := Err(NotStableJson);
        }
        ancestors := ancestors - {ref};
        assert ancestors == outside;
    }

    method EncodeArray(elements: seq<Val>) returns (result: Result<Option<Text>, Refusal>)
      requires Closed(graph) && forall i | 0 <= i < |elements| :: Known(graph, elements[i])
      modifies this
      ensures ancestors == old(ancestors)
      ensures result == (var items := UnfoldItems(graph, elements, ancestors);
        Encoding(if items.None? then None else Some(Array(items.value)), false))
      decreases graph.Keys - ancestors, 2
    {
      hide TextOf;
      var texts: seq<Text> := [];
      ghost var items: seq<JsValue> := [];
      for index := 0 to |elements|
        invariant ancestors == old(ancestors)
        invariant |items| == |texts| == index
        invariant forall i | 0 <= i < index ::
          Unfold(graph, elements[i], ancestors) == Some(items[i]) && Accepted(items[i])
        invariant forall i | 0 <= i < index :: texts[i] == TextOf(items[i])
      {
        var encoded := EncodeJson(elements[index], true);
        if encoded.Err? {
          RefusedElement(graph, elements, ancestors, index);
          return encoded;
        }
        var tree := Unfold(graph, elements[index], ancestors).value;
        OmittedReadsNull(tree);
        texts := texts + [if encoded.value.Some? then encoded.value.value else NULL_TEXT];
        items := items + [tree];
      }
      assert texts == ItemTexts(items);
      TextOfArray(items);
      assert UnfoldItems(graph, elements, ancestors).value == items;
      return Ok(Some([0x5B] + Joined(texts) + [0x5D]));
    }

    method EncodePlain(props: seq<Prop<Val>>) returns (result: Result<Option<Text>, Refusal>)
      requires Closed(graph) && UniqueKeys(props) && forall i | 0 <= i < |props| :: Known(graph, props[i].value)
      modifies this
      ensures ancestors == old(ancestors)
      ensures result == (var members := UnfoldProps(graph, props, ancestors);
        Encoding(if members.None? then None else Some(Plain(members.value)), false))
      decreases graph.Keys - ancestors, 2
    {
      hide TextOf, Accepted, Unfold, UnfoldProps, KeepShown, Quoted, Joined, MemberTexts, SortByKey, Unfolded,
        AllAccepted;
      var sorted := SortByKey(props);
      var texts: seq<Text> := [];
      ghost var met: Props := [];
      SortedKnown(graph, props);
      NothingMet(graph, ancestors);
      for index := 0 to |sorted|
        invariant ancestors == old(ancestors)
        invariant Unfolded(graph, sorted[..index], met, ancestors) && AllAccepted(met)
        invariant texts == MemberTexts(KeepShown(met))
      {
        var encoded := EncodeJson(sorted[index].value, false);
        if encoded.Err? {
          RefusedMember(graph, props, ancestors, sorted[index]);
          return Err(NotStableJson);
        }
        ghost var p := Prop(sorted[index].key, Unfold(graph, sorted[index].value, ancestors).value);
        KeepOneMore(met, p);
        OneMoreMet(graph, sorted, index, met, p, ancestors);
        met := met + [p];
        if encoded.value.Some? {
          texts := texts + [Quoted(sorted[index].key) + [COLON] + encoded.value.value];
        }
      }
      assert sorted[..|sorted|] == sorted;
      AllMembers(graph, props, ancestors, met);
      TextOfPlain(UnfoldProps(graph, props, ancestors).value);
      return Ok(Some([0x7B] + Joined(texts) + [0x7D]));
    }
  }

  predicate AllAccepted(props: Props)
  {
    forall i | 0 <= i < |props| :: Accepted(props[i].value)
  }

  lemma SortedKnown(g: Graph, props: seq<Prop<Val>>)
    requires forall i | 0 <= i < |props| :: Known(g, props[i].value)
    ensures forall i | 0 <= i < |SortByKey(props)| :: Known(g, SortByKey(props)[i].value)
  {
    hide SortByKey;
    forall i | 0 <= i < |SortByKey(props)| ensures Known(g, SortByKey(props)[i].value) {
      assert SortByKey(props)[i] in props;
    }
  }

  lemma NothingMet(g: Graph, ancestors: set<Ref>)
    requires Closed(g)
    ensures Unfolded(g, [], [], ancestors) && AllAccepted([]) && MemberTexts(KeepShown([])) == []
  {
  }

  lemma OneMoreMet(g: Graph, sorted: seq<Prop<Val>>, index: nat, met: Props, p: Prop<JsValue>, ancestors: set<Ref>)
    requires Closed(g) && index < |sorted| && OneUnfolded(g, sorted[index], p, ancestors) && Accepted(p.value)
    requires Unfolded(g, sorted[..index], met, ancestors) && AllAccepted(met)
    ensures Unfolded(g, sorted[..index + 1], met + [p], ancestors) && AllAccepted(met + [p])
  {
    hide OneUnfolded, Accepted;
    assert sorted[..index + 1] == sorted[..index] + [sorted[index]];
  }

  lemma OmittedReadsNull(v: JsValue)
    ensures Omitted(v) ==> TextOf(v) == NULL_TEXT
  {
  }

  /** One refused element refuses the array. */
  lemma RefusedElement(g: Graph, elements: seq<Val>, ancestors: set<Ref>, i: nat)
    requires Closed(g) && (forall i | 0 <= i < |elements| :: Known(g, elements[i])) && i < |elements|
    requires Unfold(g, elements[i], ancestors).None? || !Accepted(Unfold(g, elements[i], ancestors).value)
    ensures var items := UnfoldItems(g, elements, ancestors);
      items.None? || !Accepted(Array(items.value))
  {
    var items := UnfoldItems(g, elements, ancestors);
    assert items.Some? ==> items.value[i] == Unfold(g, elements[i], ancestors).value;
  }

  /** One refused member refuses the object. */
  lemma RefusedMember(g: Graph, props: seq<Prop<Val>>, ancestors: set<Ref>, p: Prop<Val>)
    requires Closed(g) && (forall i | 0 <= i < |props| :: Known(g, props[i].value)) && p in props
    requires Unfold(g, p.value, ancestors).None? || !Accepted(Unfold(g, p.value, ancestors).value)
    ensures var members := UnfoldProps(g, props, ancestors);
      members.None? || !Accepted(Plain(members.value))
  {
    var i :| 0 <= i < |props| && props[i] == p;
    var members := UnfoldProps(g, props, ancestors);
    assert members.Some? ==> members.value[i].value == Unfold(g, p.value, ancestors).value;
  }

  lemma {:induction false} KeepOneMore(met: Props, p: Prop<JsValue>)
    ensures MemberTexts(KeepShown(met + [p]))
         == MemberTexts(KeepShown(met)) + (if Omitted(p.value) then [] else [MemberText(p)])
  {
    KeepConcat(met, [p]);
    assert [p][1..] == [];
    assert KeepShown([p]) == if Omitted(p.value) then [] else [p];
  }

  lemma {:induction false} KeepConcat(a: Props, b: Props)
    ensures KeepShown(a + b) == KeepShown(a) + KeepShown(b)
  {
    if a == [] {
      assert a + b == b;
    } else {
      assert (a + b)[0] == a[0] && (a + b)[1..] == a[1..] + b;
      KeepConcat(a[1..], b);
    }
  }

  /** The unfolded properties stand pairwise beside the properties. */
  ghost predicate Unfolded(g: Graph, props: seq<Prop<Val>>, members: Props, ancestors: set<Ref>)
    requires Closed(g)
  {
    |props| == |members| && forall i | 0 <= i < |props| :: OneUnfolded(g, props[i], members[i], ancestors)
  }

  ghost predicate OneUnfolded(g: Graph, p: Prop<Val>, q: Prop<JsValue>, ancestors: set<Ref>)
    requires Closed(g)
  {
    p.key == q.key && Known(g, p.value) && Unfold(g, p.value, ancestors) == Some(q.value)
  }

  lemma UnfoldedCons(g: Graph, p: Prop<Val>, q: Prop<JsValue>, ps: seq<Prop<Val>>, qs: Props, ancestors: set<Ref>)
    requires Closed(g) && OneUnfolded(g, p, q, ancestors) && Unfolded(g, ps, qs, ancestors)
    ensures Unfolded(g, [p] + ps, [q] + qs, ancestors)
  {
    hide OneUnfolded;
  }

  lemma UnfoldedRest(g: Graph, ps: seq<Prop<Val>>, qs: Props, ancestors: set<Ref>)
    requires Closed(g) && ps != [] && Unfolded(g, ps, qs, ancestors)
    ensures OneUnfolded(g, ps[0], qs[0], ancestors) && Unfolded(g, ps[1..], qs[1..], ancestors)
  {
    hide OneUnfolded;
  }

  lemma {:induction false} InsertUnfolds(
    g: Graph, p: Prop<Val>, q: Prop<JsValue>, ps: seq<Prop<Val>>, qs: Props, ancestors: set<Ref>)
    requires Closed(g) && OneUnfolded(g, p, q, ancestors) && Unfolded(g, ps, qs, ancestors)
    ensures Unfolded(g, Insert(p, ps), Insert(q, qs), ancestors)
    decreases |ps|
  {
    hide Unfold;
    if ps == [] {
      UnfoldedCons(g, p, q, ps, qs, ancestors);
    } else {
      UnfoldedRest(g, ps, qs, ancestors);
      if !Before(ps[0].key, p.key) {
        UnfoldedCons(g, p, q, ps, qs, ancestors);
      } else {
        InsertUnfolds(g, p, q, ps[1..], qs[1..], ancestors);
        UnfoldedCons(g, ps[0], qs[0], Insert(p, ps[1..]), Insert(q, qs[1..]), ancestors);
      }
    }
  }

  /** Sorting the properties before or after they are unfolded is the same. */
  lemma {:induction false} SortUnfolds(g: Graph, props: seq<Prop<Val>>, members: Props, ancestors: set<Ref>)
    requires Closed(g) && Unfolded(g, props, members, ancestors)
    ensures Unfolded(g, SortByKey(props), SortByKey(members), ancestors)
    decreases |props|
  {
    hide Unfold, OneUnfolded;
    if props != [] {
      UnfoldedRest(g, props, members, ancestors);
      SortUnfolds(g, props[1..], members[1..], ancestors);
      InsertUnfolds(g, props[0], members[0], SortByKey(props[1..]), SortByKey(members[1..]), ancestors);
    }
  }

  /** Once every sorted property is unfolded, so is the object, and it is accepted. */
  lemma AllMembers(g: Graph, props: seq<Prop<Val>>, ancestors: set<Ref>, met: Props)
    requires Closed(g) && UniqueKeys(props) && forall i | 0 <= i < |props| :: Known(g, props[i].value)
    requires Unfolded(g, SortByKey(props), met, ancestors) && AllAccepted(met)
    ensures var members := UnfoldProps(g, props, ancestors);
      members.Some? && Accepted(Plain(members.value)) && Shown(members.value) == KeepShown(met)
  {
    var sorted := SortByKey(props);
    forall i | 0 <= i < |props|
      ensures Unfold(g, props[i].value, ancestors).Some? && Accepted(Unfold(g, props[i].value, ancestors).value)
    {
      assert props[i] in sorted;
      var j :| 0 <= j < |sorted| && sorted[j] == props[i];
      assert OneUnfolded(g, sorted[j], met[j], ancestors);
    }
    var members := UnfoldProps(g, props, ancestors).value;
    assert forall i | 0 <= i < |props| :: OneUnfolded(g, props[i], members[i], ancestors);
    SortUnfolds(g, props, members, ancestors);
    var again := SortByKey(members);
    forall i | 0 <= i < |met| ensures again[i] == met[i] {
      assert OneUnfolded(g, sorted[i], again[i], ancestors) && OneUnfolded(g, sorted[i], met[i], ancestors);
    }
    assert again == met;
  }

  /** The top level: a value that is omitted has no text. */
  method StableStringify(g: Graph, v: Val) returns (result: Result<Text, Refusal>)
    requires Closed(g) && Known(g, v)
    ensures var tree := Unfold(g, v, {});
      && (result.Ok? <==> tree.Some? && Accepted(tree.value) && !Omitted(tree.value))
      && (result.Ok? ==> result.value == TextOf(tree.value))
      && (result == Err(NotSerializable) <==> tree.Some? && Omitted(tree.value))
  {
    var encoder := new Encoder(g);
    var encoded := encoder.EncodeJson(v, false);
    match encoded
    case Err(refusal) => return Err(refusal);
    case Ok(None) => return Err(NotSerializable);
    case Ok(Some(text)) => return Ok(text);
  }
}
