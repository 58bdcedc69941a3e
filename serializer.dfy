/** The tree-to-map serialisation shared by both harness variants. One traversal
    shape, two node encodings: the rule-name-keyed one and the type/name/value
    tagged one. */
module Serializer {
  import opened Outcomes
  import opened JsonValue
  import opened ParseTree

  /** Keyed: a terminal is {type: display name, text: token text} and a
      non-terminal is {rule name: [children]}. Tagged: a terminal is
      {type: "lexer", name: display name, value: token text} and a non-terminal
      is {type: "parser", name: rule name, value: [children]}. */
  datatype Encoding = Keyed | Tagged

  /** What process returns: the map that is rendered as the JSON string, or the
      sentinel string "ERROR". */
  datatype Reply = Document(doc: Json) | ErrorSentinel

  // ---------------------------------------------------------------------------
  // The map of one node, as the sequence of put calls leaves it
  // ---------------------------------------------------------------------------

  /** The map of a terminal node: its display name and its text, under the keys
      of the encoding. */
  function LeafObject(enc: Encoding, display: string, text: string): Json
  {
    match enc
    case Keyed => Obj([("type", Str(display)), ("text", Str(text))])
    case Tagged => Obj([("type", Str("lexer")), ("name", Str(display)), ("value", Str(text))])
  }

  /** The map of a non-terminal node whose children encode to items: the
      children list under the rule name (keyed), or the rule name under "name"
      and the list under "value" (tagged). */
  function RuleObject(enc: Encoding, rule: string, items: seq<Json>): Json
  {
    match enc
    case Keyed => Obj([(rule, Arr(items))])
    case Tagged => Obj([("type", Str("parser")), ("name", Str(rule)), ("value", Arr(items))])
  }

  /** The put calls traverse makes for a terminal, on an empty map, leave exactly
      the terminal's map: the keys in call order, none repeated. */
  lemma LeafPuts(enc: Encoding, display: string, text: string)
    ensures enc == Keyed ==>
      Updated(Updated([], "type", Str(display)), "text", Str(text)) == LeafObject(enc, display, text).fields
    ensures enc == Tagged ==>
      Updated(Updated(Updated([], "type", Str("lexer")), "name", Str(display)), "value", Str(text))
      == LeafObject(enc, display, text).fields
  {
    PutsInOrder2("type", Str(display), "text", Str(text));
    PutsInOrder3("type", Str("lexer"), "name", Str(display), "value", Str(text));
  }

  /** The put calls traverse makes for a non-terminal, on an empty map, leave
      exactly the non-terminal's map with the given children list. */
  lemma RulePuts(enc: Encoding, rule: string, items: seq<Json>)
    ensures enc == Keyed ==> Updated([], rule, Arr(items)) == RuleObject(enc, rule, items).fields
    ensures enc == Tagged ==>
      Updated(Updated(Updated([], "type", Str("parser")), "name", Str(rule)), "value", Arr(items))
      == RuleObject(enc, rule, items).fields
  {
    PutsInOrder3("type", Str("parser"), "name", Str(rule), "value", Arr(items));
  }

  /** The key under which a non-terminal's map holds its children list. */
  function ChildrenKey(enc: Encoding, rule: string): string
  {
    match enc
    case Keyed => rule
    case Tagged => "value"
  }

  /** Putting the filled children list under the children key of a map that
      already holds the (then empty) list yields the map of the whole node. */
  lemma RefillChildren(enc: Encoding, rule: string, items: seq<Json>)
    ensures Updated(RuleObject(enc, rule, []).fields, ChildrenKey(enc, rule), Arr(items))
            == RuleObject(enc, rule, items).fields
  {
    match enc
    case Keyed =>
      UpdatedReplacesLast([], rule, Arr([]), Arr(items));
    case Tagged =>
      var header := [("type", Str("parser")), ("name", Str(rule))];
      PutsInOrder2("type", Str("parser"), "name", Str(rule));
      UpdatedReplacesLast(header, "value", Arr([]), Arr(items));
      assert header + [("value", Arr([]))] == RuleObject(enc, rule, []).fields;
  }

  // ---------------------------------------------------------------------------
  // The encoding of a whole tree
  // ---------------------------------------------------------------------------

  /** toMap(tree): the map a tree serializes to. */
  function Encode(enc: Encoding, vocab: Vocabulary, t: Tree): (r: Json)
    requires WellNamed(t)
    ensures r.Obj?
    decreases t
  {
    match t
    case Terminal(ttype, text) =>
      LeafObject(enc, DisplayName(vocab, ttype), text)
    case NonTerminal(cls, children) =>
      RuleObject(enc, RuleName(cls),
                 seq(|children|, i requires 0 <= i < |children| => Encode(enc, vocab, children[i])))
  }

  /** The keys of a node's map, in order: type, name, value in the tagged
      encoding; type, text for a terminal and the rule name alone for a
      non-terminal in the keyed one. */
  lemma EncodeKeys(enc: Encoding, vocab: Vocabulary, t: Tree)
    requires WellNamed(t)
    ensures enc == Tagged ==> Keys(Encode(enc, vocab, t).fields) == ["type", "name", "value"]
    ensures enc == Keyed && t.Terminal? ==> Keys(Encode(enc, vocab, t).fields) == ["type", "text"]
    ensures enc == Keyed && t.NonTerminal? ==> Keys(Encode(enc, vocab, t).fields) == [RuleName(t.cls)]
  {
    match t
    case Terminal(ttype, text) =>
      LeafKeys(enc, DisplayName(vocab, ttype), text);
    case NonTerminal(cls, children) =>
      RuleKeys(enc, RuleName(cls), seq(|children|, i requires 0 <= i < |children| => Encode(enc, vocab, children[i])));
  }

  lemma LeafKeys(enc: Encoding, display: string, text: string)
    ensures Keys(LeafObject(enc, display, text).fields) ==
            if enc == Tagged then ["type", "name", "value"] else ["type", "text"]
  {
    var f := LeafObject(enc, display, text).fields;
    assert Keys(f) == [f[0].0] + Keys(f[1..]);
    assert Keys(f[1..]) == [f[1].0] + Keys(f[2..]);
    if enc == Tagged {
      assert Keys(f[2..]) == [f[2].0] + Keys(f[3..]);
    }
  }

  lemma RuleKeys(enc: Encoding, rule: string, items: seq<Json>)
    ensures Keys(RuleObject(enc, rule, items).fields) ==
            if enc == Tagged then ["type", "name", "value"] else [rule]
  {
    var f := RuleObject(enc, rule, items).fields;
    assert Keys(f) == [f[0].0] + Keys(f[1..]);
    if enc == Tagged {
      assert Keys(f[1..]) == [f[1].0] + Keys(f[2..]);
      assert Keys(f[2..]) == [f[2].0] + Keys(f[3..]);
    }
  }

  /** The children list of an encoded non-terminal; None for anything else. */
  function Children(enc: Encoding, j: Json): Option<seq<Json>>
  {
    match enc
    case Keyed =>
      if j.Obj? && |j.fields| == 1 && j.fields[0].1.Arr? then Some(j.fields[0].1.items) else None
    case Tagged =>
      if j.Obj? && Lookup(j.fields, "value").Some? && Lookup(j.fields, "value").value.Arr?
      then Some(Lookup(j.fields, "value").value.items) else None
  }

  /** A terminal has no children list; a non-terminal's list has one entry per
      child, and entry i is the encoding of child i. */
  lemma ChildrenOfEncoding(enc: Encoding, vocab: Vocabulary, t: Tree)
    requires WellNamed(t)
    ensures t.Terminal? ==> Children(enc, Encode(enc, vocab, t)) == None
    ensures t.NonTerminal? ==>
      && Children(enc, Encode(enc, vocab, t)).Some?
      && |Children(enc, Encode(enc, vocab, t)).value| == |t.children|
      && forall i :: 0 <= i < |t.children| ==>
           Children(enc, Encode(enc, vocab, t)).value[i] == Encode(enc, vocab, t.children[i])
  {
    var f := Encode(enc, vocab, t).fields;
    if enc == Tagged {
      assert f[1..][1..] == f[2..];
      assert f[2..][1..] == [];
      assert Lookup(f, "value") == Lookup(f[1..], "value") == Lookup(f[2..], "value");
      if t.Terminal? {
        assert Lookup(f[2..], "value") == Some(Str(t.text));
      }
    }
  }

  /** Every map in a value has exactly the given keys, in the given order. */
  predicate EveryObjectHasKeys(j: Json, keys: seq<string>)
    decreases j
  {
    match j
    case Str(_) => true
    case Arr(items) => forall i :: 0 <= i < |items| ==> EveryObjectHasKeys(items[i], keys)
    case Obj(fields) =>
      Keys(fields) == keys && forall i :: 0 <= i < |fields| ==> EveryObjectHasKeys(fields[i].1, keys)
  }

  /** In the tagged encoding every node at every depth, terminal or not, has the
      keys type, name and value, in that order. */
  lemma {:induction false} TaggedKeysEverywhere(vocab: Vocabulary, t: Tree)
    requires WellNamed(t)
    ensures EveryObjectHasKeys(Encode(Tagged, vocab, t), ["type", "name", "value"])
    decreases t
  {
    match t
    case Terminal(_, _) =>
      EncodeKeys(Tagged, vocab, t);
    case NonTerminal(cls, children) =>
      EncodeKeys(Tagged, vocab, t);
      var items := seq(|children|, i requires 0 <= i < |children| => Encode(Tagged, vocab, children[i]));
      forall i | 0 <= i < |items| ensures EveryObjectHasKeys(items[i], ["type", "name", "value"]) {
        TaggedKeysEverywhere(vocab, children[i]);
      }
      assert EveryObjectHasKeys(Arr(items), ["type", "name", "value"]);
  }

  // ---------------------------------------------------------------------------
  // What the encoding keeps: a round trip
  // ---------------------------------------------------------------------------

  /** The information a serialized tree carries: display names, token texts,
      normalised rule names, and the children in order. */
  datatype Shape = Leaf(name: string, text: string) | Node(rule: string, kids: seq<Shape>)

  function Erase(vocab: Vocabulary, t: Tree): (s: Shape)
    requires WellNamed(t)
    ensures t.Terminal? ==> s.Leaf? && s.text == t.text
    ensures t.NonTerminal? ==> s.Node? && |s.kids| == |t.children|
    decreases t
  {
    match t
    case Terminal(ttype, text) => Leaf(DisplayName(vocab, ttype), text)
    case NonTerminal(cls, children) =>
      Node(RuleName(cls), seq(|children|, i requires 0 <= i < |children| => Erase(vocab, children[i])))
  }

  predicate AllSome(ds: seq<Option<Shape>>)
  {
    forall i :: 0 <= i < |ds| ==> ds[i].Some?
  }

  function Unwrap(ds: seq<Option<Shape>>): (r: seq<Shape>)
    requires AllSome(ds)
    ensures |r| == |ds| && forall i :: 0 <= i < |ds| ==> ds[i] == Some(r[i])
  {
    seq(|ds|, i requires 0 <= i < |ds| && AllSome(ds) => ds[i].value)
  }

  /** Reads a serialized tree back; None when the value is not one the encoding produces. */
  function Decode(enc: Encoding, j: Json): Option<Shape>
    decreases j
  {
    if !j.Obj? then None
    else
      var f := j.fields;
      match enc
      case Keyed =>
        if |f| == 2 && f[0].0 == "type" && f[0].1.Str? && f[1].0 == "text" && f[1].1.Str? then
          Some(Leaf(f[0].1.s, f[1].1.s))
        else if |f| == 1 && f[0].1.Arr? then
          var items := f[0].1.items;
          var ds := seq(|items|, i requires 0 <= i < |items| => Decode(enc, items[i]));
          if AllSome(ds) then Some(Node(f[0].0, Unwrap(ds))) else None
        else None
      case Tagged =>
        if |f| == 3 && f[0] == ("type", Str("lexer")) && f[1].0 == "name" && f[1].1.Str?
           && f[2].0 == "value" && f[2].1.Str? then
          Some(Leaf(f[1].1.s, f[2].1.s))
        else if |f| == 3 && f[0] == ("type", Str("parser")) && f[1].0 == "name" && f[1].1.Str?
                && f[2].0 == "value" && f[2].1.Arr? then
          var items := f[2].1.items;
          var ds := seq(|items|, i requires 0 <= i < |items| => Decode(enc, items[i]));
          if AllSome(ds) then Some(Node(f[1].1.s, Unwrap(ds))) else None
        else None
  }

  /** Decoding an encoded tree gives back its shape: names, texts, child counts
      and sibling order all survive, in both encodings. */
  lemma {:induction false} DecodeEncode(enc: Encoding, vocab: Vocabulary, t: Tree)
    requires WellNamed(t)
    ensures Decode(enc, Encode(enc, vocab, t)) == Some(Erase(vocab, t))
    decreases t
  {
    match t
    case Terminal(ttype, text) =>
    case NonTerminal(cls, children) =>
      var items := seq(|children|, i requires 0 <= i < |children| => Encode(enc, vocab, children[i]));
      var ds := seq(|items|, i requires 0 <= i < |items| => Decode(enc, items[i]));
      forall i | 0 <= i < |children| ensures ds[i] == Some(Erase(vocab, children[i])) {
        DecodeEncode(enc, vocab, children[i]);
      }
      var kids := seq(|children|, i requires 0 <= i < |children| => Erase(vocab, children[i]));
      assert Unwrap(ds) == kids;
      assert Encode(enc, vocab, t) == RuleObject(enc, RuleName(cls), items);
  }

  /** Two trees with the same serialization have the same shape, so siblings
      whose shapes differ cannot be swapped without changing the serialization. */
  lemma EncodeDeterminesShape(enc: Encoding, vocab: Vocabulary, t1: Tree, t2: Tree)
    requires WellNamed(t1) && WellNamed(t2)
    requires Encode(enc, vocab, t1) == Encode(enc, vocab, t2)
    ensures Erase(vocab, t1) == Erase(vocab, t2)
  {
    DecodeEncode(enc, vocab, t1);
    DecodeEncode(enc, vocab, t2);
  }

  /** A non-terminal encodes to its rule map around the children's encodings. */
  lemma EncodeNonTerminal(enc: Encoding, vocab: Vocabulary, cls: string, children: seq<Tree>, items: seq<Json>)
    requires WellNamed(NonTerminal(cls, children))
    requires |items| == |children|
    requires forall i :: 0 <= i < |children| ==> items[i] == Encode(enc, vocab, children[i])
    ensures Encode(enc, vocab, NonTerminal(cls, children)) == RuleObject(enc, RuleName(cls), items)
  {
    assert items == seq(|children|, i requires 0 <= i < |children| => Encode(enc, vocab, children[i]));
  }

  /** A terminal encodes to the map of its display name and text. */
  lemma EncodeTerminal(enc: Encoding, vocab: Vocabulary, ttype: int, text: string)
    ensures Encode(enc, vocab, Terminal(ttype, text)) == LeafObject(enc, DisplayName(vocab, ttype), text)
  {
  }

  lemma AddContextName()
    ensures HasRuleName("AddContext") && RuleName("AddContext") == "add"
  {
    assert "Add" + ContextSuffix == "AddContext";
    RuleNameOfContextClass("Add");
  }

  /** The tree of "2+3" under rule add: INT '+' INT. */
  function AddTree(): Tree
  {
    NonTerminal("AddContext", [Terminal(1, "2"), Terminal(2, "+"), Terminal(1, "3")])
  }

  /** A rule context with three terminal children encodes to its rule map around
      the three leaf maps, in order. */
  lemma EncodeThreeTerminals(enc: Encoding, vocab: Vocabulary, cls: string, a: Tree, b: Tree, c: Tree)
    requires HasRuleName(cls) && a.Terminal? && b.Terminal? && c.Terminal?
    ensures WellNamed(NonTerminal(cls, [a, b, c]))
    ensures Encode(enc, vocab, NonTerminal(cls, [a, b, c])) == RuleObject(enc, RuleName(cls),
              [LeafObject(enc, DisplayName(vocab, a.ttype), a.text),
               LeafObject(enc, DisplayName(vocab, b.ttype), b.text),
               LeafObject(enc, DisplayName(vocab, c.ttype), c.text)])
  {
    EncodeTerminal(enc, vocab, a.ttype, a.text);
    EncodeTerminal(enc, vocab, b.ttype, b.text);
    EncodeTerminal(enc, vocab, c.ttype, c.text);
    EncodeNonTerminal(enc, vocab, cls, [a, b, c],
      [LeafObject(enc, DisplayName(vocab, a.ttype), a.text),
       LeafObject(enc, DisplayName(vocab, b.ttype), b.text),
       LeafObject(enc, DisplayName(vocab, c.ttype), c.text)]);
  }

  /** Rule add: INT '+' INT applied to "2+3", under any vocabulary that names
      token types 1 and 2 INT and '+': a non-terminal add with the three
      terminals in input order, in the tagged encoding. */
  lemma TaggedAddExample(vocab: Vocabulary)
    requires 1 in vocab && vocab[1] == "INT" && 2 in vocab && vocab[2] == "'+'"
    ensures WellNamed(AddTree())
    ensures Encode(Tagged, vocab, AddTree()) == Obj([
              ("type", Str("parser")), ("name", Str("add")), ("value", Arr([
                Obj([("type", Str("lexer")), ("name", Str("INT")), ("value", Str("2"))]),
                Obj([("type", Str("lexer")), ("name", Str("'+'")), ("value", Str("+"))]),
                Obj([("type", Str("lexer")), ("name", Str("INT")), ("value", Str("3"))])]))])
  {
    AddContextName();
    EncodeThreeTerminals(Tagged, vocab, "AddContext", Terminal(1, "2"), Terminal(2, "+"), Terminal(1, "3"));
  }

  // ---------------------------------------------------------------------------
  // The traversal as the source performs it
  // ---------------------------------------------------------------------------

  /** The put calls for a terminal node, on a fresh map. */
  method PutTerminal(m: LinkedMap, enc: Encoding, display: string, text: string)
    requires m.entries == []
    modifies m
    ensures Obj(m.entries) == LeafObject(enc, display, text) && m.Valid()
  {
    LeafPuts(enc, display, text);
    if enc == Keyed {
      m.Put("type", Str(display));
      m.Put("text", Str(text));
    } else {
      m.Put("type", Str("lexer"));
      m.Put("name", Str(display));
      m.Put("value", Str(text));
    }
  }

  /** The put calls for a non-terminal node, on a fresh map, made while its
      children list is still empty. */
  method PutRule(m: LinkedMap, enc: Encoding, rule: string)
    requires m.entries == []
    modifies m
    ensures Obj(m.entries) == RuleObject(enc, rule, []) && m.Valid()
  {
    RulePuts(enc, rule, []);
    if enc == Keyed {
      m.Put(rule, Arr([]));
    } else {
      m.Put("type", Str("parser"));
      m.Put("name", Str(rule));
      m.Put("value", Arr([]));
    }
  }

  /** traverse(tree, map) on a fresh map: fills one LinkedHashMap per node by
      put calls. An empty rule name makes charAt(0) throw, which nothing on the
      way up catches. */
  method Traverse(enc: Encoding, vocab: Vocabulary, t: Tree) returns (r: Returned<Json>)
    ensures WellNamed(t) ==> r == Value(Encode(enc, vocab, t))
    ensures !WellNamed(t) ==> r == Raised(StringIndexOutOfBounds)
    decreases t, 1
  {
    var m := new LinkedMap();
    match t
    case Terminal(ttype, text) =>
      PutTerminal(m, enc, DisplayName(vocab, ttype), text);
      r := Value(Obj(m.entries));
    case NonTerminal(cls, children) =>
      var name := StripContext(cls);
      if |name| == 0 {
        return Raised(StringIndexOutOfBounds);
      }
      var rule := LowerFirst(name);
      // The children list goes into the map before it is filled; the map holds
      // that same list object, so the put after the loop only brings the entry
      // up to date and leaves it where it is.
      PutRule(m, enc, rule);
      var filled := TraverseChildren(enc, vocab, t);
      if filled.Raised? {
        return Raised(filled.exception);
      }
      var items := filled.value;
      m.Put(ChildrenKey(enc, rule), Arr(items));
      RefillChildren(enc, rule, items);
      EncodeNonTerminal(enc, vocab, cls, children, items);
      r := Value(Obj(m.entries));
  }

  /** The loop of traverse over a non-terminal's children: one fresh map per
      child, appended to the children list in order, each filled by traverse. */
  method TraverseChildren(enc: Encoding, vocab: Vocabulary, t: Tree) returns (r: Returned<seq<Json>>)
    requires t.NonTerminal?
    ensures (forall k :: 0 <= k < |t.children| ==> WellNamed(t.children[k])) ==>
              r.Value? && |r.value| == |t.children| &&
              forall k :: 0 <= k < |t.children| ==> r.value[k] == Encode(enc, vocab, t.children[k])
    ensures !(forall k :: 0 <= k < |t.children| ==> WellNamed(t.children[k])) ==>
              r == Raised(StringIndexOutOfBounds)
    decreases t, 0
  {
    var children := t.children;
    var items: seq<Json> := [];
    for i := 0 to |children|
      invariant |items| == i
      invariant forall k :: 0 <= k < i ==> WellNamed(children[k])
      invariant forall k :: 0 <= k < i ==> items[k] == Encode(enc, vocab, children[k])
    {
      var nested := Traverse(enc, vocab, children[i]);
      if nested.Raised? {
        return Raised(nested.exception);
      }
      items := items + [nested.value];
    }
    r := Value(items);
  }
}
