/** Exactly which documents survive printing and parsing unchanged. */
module XmlExact {
  import opened Common
  import opened XmlText
  import opened XmlTree
  import opened XmlLexical
  import opened XmlRoundTrip

  // ----- the condition -----

  /** Text of the first data child. */
  function FirstData(children: seq<Node>): string {
    if children == [] then ""
    else if children[0].Data? then children[0].text
    else FirstData(children[1..])
  }

  /** Data nodes hold more than white space and are never neighbours. */
  predicate DataSeparated(nodes: seq<Node>) {
    forall k :: 0 <= k < |nodes| && nodes[k].Data? ==>
      !AllOf(nodes[k].text, Space) && (k > 0 ==> !nodes[k - 1].Data?)
  }

  /** Data is separated in every element, and the value of an element is its first data. */
  predicate Canonical(node: Node) {
    node.Element? ==>
      && DataSeparated(node.children)
      && node.value == FirstData(node.children)
      && forall k :: 0 <= k < |node.children| ==> Canonical(node.children[k])
  }

  predicate CanonicalNodes(nodes: seq<Node>) { forall k :: 0 <= k < |nodes| ==> Canonical(nodes[k]) }

  /** What a caller can check before printing. */
  predicate WellFormed(nodes: seq<Node>) { NoData(nodes) && LexicalNodes(nodes) && CanonicalNodes(nodes) }

  // ----- normal forms are canonical and canonical trees are normal -----

  /** With no empty or NUL-led data, the parser's value rule picks the first data child. */
  lemma {:induction false} ValueIsFirstData(nodes: seq<Node>)
    requires LexicalNodes(nodes) && DataSeparated(nodes)
    ensures ElementValue(nodes) == FirstData(nodes) && NoNul(FirstData(nodes))
    ensures (exists k :: 0 <= k < |nodes| && nodes[k].Data?) ==> FirstData(nodes) != ""
  {
    if nodes != [] {
      var init, last := nodes[..|nodes| - 1], nodes[|nodes| - 1];
      ValueIsFirstData(init);
      FirstDataSnoc(init, last);
      assert init + [last] == nodes;
      if last.Data? {
        assert !AllOf(last.text, Space) && Lexical(last);
      } else if k :| 0 <= k < |nodes| && nodes[k].Data? {
        assert init[k].Data?;
      }
    }
  }

  lemma {:induction false} FirstDataSnoc(nodes: seq<Node>, last: Node)
    ensures FirstData(nodes + [last]) ==
            if exists k :: 0 <= k < |nodes| && nodes[k].Data? then FirstData(nodes)
            else if last.Data? then last.text else ""
    ensures (forall k :: 0 <= k < |nodes| ==> !nodes[k].Data?) ==> FirstData(nodes) == ""
  {
    if nodes != [] {
      FirstDataSnoc(nodes[1..], last);
      assert (nodes + [last])[1..] == nodes[1..] + [last];
      assert forall k :: 0 <= k < |nodes[1..]| ==> nodes[1..][k] == nodes[k + 1];
    }
  }

  /** Normal forms are canonical, and writing down stays possible. */
  lemma {:induction false} NormalIsCanonical(node: Node)
    requires Lexical(node)
    ensures Lexical(Normal(node)) && Canonical(Normal(node))
    decreases node, 1
  {
    if node.Element? {
      if node.children == [] {
        assert DataSeparated(Flush(node.value)) && LexicalNodes(Flush(node.value));
      } else {
        JoinIsCanonical("", node.children);
      }
      ValueIsFirstData(Shown(node));
    }
  }

  lemma {:induction false} JoinIsCanonical(run: string, nodes: seq<Node>)
    requires NoNul(run) && LexicalNodes(nodes)
    ensures LexicalNodes(Join(run, nodes)) && CanonicalNodes(Join(run, nodes)) && DataSeparated(Join(run, nodes))
    decreases nodes, 0
  {
    if nodes == [] {
    } else if nodes[0].Data? {
      assert Lexical(nodes[0]);
      JoinIsCanonical(run + nodes[0].text, nodes[1..]);
    } else {
      NormalIsCanonical(nodes[0]);
      JoinIsCanonical("", nodes[1..]);
      FlushIsCanonical(run);
      ConcatCanonical(Flush(run), Normal(nodes[0]), Join("", nodes[1..]));
    }
  }

  lemma FlushIsCanonical(run: string)
    requires NoNul(run)
    ensures |Flush(run)| <= 1 && LexicalNodes(Flush(run)) && CanonicalNodes(Flush(run)) && DataSeparated(Flush(run))
  {
  }

  lemma ConcatCanonical(a: seq<Node>, node: Node, b: seq<Node>)
    requires |a| <= 1 && !node.Data?
    requires LexicalNodes(a) && CanonicalNodes(a) && DataSeparated(a)
    requires LexicalNodes(b) && CanonicalNodes(b) && DataSeparated(b)
    requires Lexical(node) && Canonical(node)
    ensures LexicalNodes(a + [node] + b) && CanonicalNodes(a + [node] + b) && DataSeparated(a + [node] + b)
  {
    hide Lexical, Canonical, AllOf;
    var c := a + [node] + b;
    assert forall k :: 0 <= k < |b| ==> c[|a| + 1 + k] == b[k];
    assert forall k :: |a| + 1 <= k < |c| ==> c[k] == b[k - |a| - 1];
  }

  /** Canonical trees are their own normal form. */
  lemma {:induction false} CanonicalIsNormal(node: Node)
    requires Lexical(node) && Canonical(node)
    ensures Normal(node) == node
    decreases node, 1
  {
    if node.Element? {
      ValueIsFirstData(node.children);
      if node.children != [] {
        CanonicalJoins("", node.children);
        assert [] + node.children == node.children;
      }
    }
  }

  /** Separated data passes the joining unchanged; a pending run can only be the data node just read. */
  lemma {:induction false} CanonicalJoins(run: string, nodes: seq<Node>)
    requires LexicalNodes(nodes) && CanonicalNodes(nodes) && DataSeparated(nodes)
    requires run != "" ==> !AllOf(run, Space) && (nodes != [] ==> !nodes[0].Data?)
    ensures Join(run, nodes) == (if run == "" then [] else [Data(run)]) + nodes
    decreases nodes, 0
  {
    if nodes == [] {
    } else if nodes[0].Data? {
      assert !AllOf(nodes[0].text, Space);
      assert "" + nodes[0].text == nodes[0].text;
      assert forall k :: 0 <= k < |nodes[1..]| ==> nodes[1..][k] == nodes[k + 1];
      CanonicalJoins(nodes[0].text, nodes[1..]);
      assert [Data(nodes[0].text)] + nodes[1..] == nodes;
    } else {
      CanonicalIsNormal(nodes[0]);
      CanonicalJoins("", nodes[1..]);
      assert [nodes[0]] + nodes[1..] == nodes;
    }
  }

  // ----- what the parser can produce at all -----

  /** Names are names, CDATA does not hold its end, data is not empty, and values follow the value rule. */
  predicate Produced(node: Node) {
    match node
    case Data(text) => text != ""
    case CData(text) => NoNul(text) && NoCDataEnd(text)
    case Element(name, attributes, value, children) =>
      ElementName(name) && value == ElementValue(children)
      && NamedAttributes(attributes)
      && (forall k :: 0 <= k < |children| ==> Produced(children[k]))
  }

  predicate NamedAttributes(attributes: seq<Attribute>) {
    forall k :: 0 <= k < |attributes| ==> attributes[k].name != "" && AllOf(attributes[k].name, AttributeName)
  }

  predicate ProducedNodes(nodes: seq<Node>) { forall k :: 0 <= k < |nodes| ==> Produced(nodes[k]) }

  lemma {:induction false} FindIsFirst(t: string, i: nat, word: string)
    requires Cursor(t, i) && NUL !in word && Find(t, i, word).Reached?
    ensures forall k :: i <= k < Find(t, i, word).next ==> t[k] != NUL && !At(t, k, word)
    decreases |t| - i
  {
    if !StandsAt(t, i, word) {
      FindIsFirst(t, i + 1, word);
    }
  }

  lemma CDataProduced(t: string, i: nat)
    requires Cursor(t, i) && ParseCData(t, i).Done?
    ensures ParseCData(t, i).value.Some? && Produced(ParseCData(t, i).value.value) && ParseCData(t, i).value.value.CData?
  {
    FindIsFirst(t, i, "]]>");
    var j := Find(t, i, "]]>").next;
    var text := t[i..j];
    forall k | 0 <= k < |text| ensures !At(text, k, "]]>") {
      assert !At(t, i + k, "]]>");
      assert k + 3 <= |text| ==> text[k..k + 3] == t[i + k..i + k + 3];
    }
  }

  lemma {:induction false} AttributesProduced(t: string, i: nat)
    requires Cursor(t, i) && ParseAttributes(t, i).Done?
    ensures NamedAttributes(ParseAttributes(t, i).value)
    decreases |t| - i
  {
    if In(t[i], AttributeName) {
      var n := Skip(t, i + 1, AttributeName);
      var e := Skip(t, n, Space);
      var Done(value, v) := ParseQuoted(t, Skip(t, e + 1, Space));
      var a := Attribute(t[i..n], value);
      assert AllOf(a.name, AttributeName);
      AttributeStep(t, i, n, e, value, v);
      hide Skip, ParseQuoted, ParseAttributes, AllOf;
      AttributesProduced(t, Skip(t, v, Space));
    }
  }

  lemma BangProduced(t: string, i: nat)
    requires Cursor(t, i) && t[i] == '!' && ParseBang(t, i).Done?
    ensures ParseBang(t, i).value.Some? ==> Produced(ParseBang(t, i).value.value) && !ParseBang(t, i).value.value.Data?
  {
    hide StandsAt, ParseCData, SkipPast, SkipDoctype, Produced;
    if !StandsAt(t, i + 1, "--") && StandsAt(t, i + 1, "[CDATA[") {
      CDataProduced(t, i + 8);
    }
  }

  lemma {:induction false} ElementProduced(t: string, i: nat)
    requires Cursor(t, i) && t[i] != '!' && ParseElement(t, i).Done?
    ensures ParseElement(t, i).value.Some?
    ensures Produced(ParseElement(t, i).value.value) && ParseElement(t, i).value.value.Element?
    decreases |t| - i, 0
  {
    var n := Skip(t, i, NodeName);
    var a := Skip(t, n, Space);
    NameTaken(t, i);
    hide Skip, ParseAttributes, ParseRest, AllOf, ElementValue, ElementName;
    AttributesProduced(t, a);
    var k := ParseAttributes(t, a).next;
    RestProduced(t, k);
  }

  lemma NameTaken(t: string, i: nat)
    requires Cursor(t, i) && t[i] != '!' && i < Skip(t, i, NodeName)
    ensures ElementName(t[i..Skip(t, i, NodeName)])
  {
  }

  lemma {:induction false} RestProduced(t: string, k: nat)
    requires Cursor(t, k) && ParseRest(t, k).Done?
    ensures ProducedNodes(ParseRest(t, k).value)
    decreases |t| - k, 4
  {
    if t[k] == '>' {
      ContentsProduced(t, k + 1);
    }
  }

  lemma {:induction false} NodeProduced(t: string, i: nat)
    requires Cursor(t, i) && ParseNode(t, i).Done?
    ensures ParseNode(t, i).value.Some? ==> Produced(ParseNode(t, i).value.value) && !ParseNode(t, i).value.value.Data?
    decreases |t| - i, 1
  {
    hide ParseBang, ParseElement, Produced;
    if t[i] == '!' {
      BangProduced(t, i);
    } else if t[i] != '?' {
      ElementProduced(t, i);
    }
  }

  lemma {:induction false} ContentsProduced(t: string, i: nat)
    requires Cursor(t, i) && ParseContents(t, i).Done?
    ensures ProducedNodes(ParseContents(t, i).value)
    decreases |t| - i, 3
  {
    var j := Skip(t, i, Space);
    if t[j] == '<' || t[j] == NUL {
      MarkupProduced(t, j);
    } else {
      MarkupProduced(t, Decode(t, i, '<').next);
    }
  }

  lemma {:induction false} MarkupProduced(t: string, i: nat)
    requires Cursor(t, i) && (t[i] == '<' || t[i] == NUL) && ParseMarkup(t, i).Done?
    ensures ProducedNodes(ParseMarkup(t, i).value)
    decreases |t| - i, 2
  {
    if t[i + 1] != '/' {
      NodeProduced(t, i + 1);
      ContentsProduced(t, ParseNode(t, i + 1).next);
    }
  }

  /** Every document the parser returns is made of produced nodes, and has no data at its top level. */
  lemma {:induction false} DocumentProduced(t: string, i: nat)
    requires Cursor(t, i) && ParseNodes(t, i).Done?
    ensures ProducedNodes(ParseNodes(t, i).value) && NoData(ParseNodes(t, i).value)
    decreases |t| - i
  {
    var j := Skip(t, i, Space);
    if t[j] != NUL {
      NodeProduced(t, j + 1);
      DocumentProduced(t, ParseNode(t, j + 1).next);
    }
  }

  // ----- a terminator inside a string makes the printed text unreadable -----

  function FirstNul(s: string): (m: nat)
    requires NUL in s
    ensures m < |s| && s[m] == NUL && NoNul(s[..m])
  {
    if s[0] == NUL then 0
    else
      assert s == [s[0]] + s[1..];
      var m := FirstNul(s[1..]);
      assert s[..m + 1] == [s[0]] + s[1..][..m];
      m + 1
  }

  /** The printed text holds the terminator right behind the part before the first one. */
  lemma NulPrinted(t: string, i: nat, s: string, noexpand: char)
    requires Cursor(t, i) && NUL in s && At(t, i, Escape(s, noexpand))
    ensures var a := Escape(s[..FirstNul(s)], noexpand);
            At(t, i, a) && i + |a| < |t| && t[i + |a|] == NUL
  {
    hide Escape, At, FirstNul;
    var m := FirstNul(s);
    assert s == s[..m] + s[m..];
    EscapeConcat(s[..m], s[m..], noexpand);
    AtSplit(t, i, Escape(s[..m], noexpand), Escape(s[m..], noexpand));
    NulIsKept(s[m..], noexpand);
    AtFirst(t, i + |Escape(s[..m], noexpand)|, Escape(s[m..], noexpand));
  }

  lemma NulIsKept(s: string, noexpand: char)
    requires s != "" && s[0] == NUL
    ensures Escape(s, noexpand) != "" && Escape(s, noexpand)[0] == NUL
  {
  }

  lemma RunFails(t: string, i: nat, run: string)
    requires Cursor(t, i) && NUL in run && At(t, i, Escape(run, NUL))
    ensures ParseContents(t, i).Fail?
  {
    NulPrinted(t, i, run, NUL);
    RunPrinted(t, i, run[..FirstNul(run)]);
  }

  lemma AttributeFails(t: string, i: nat, a: Attribute, rest: string)
    requires Cursor(t, i) && a.name != "" && AllOf(a.name, AttributeName) && NUL in a.value
    requires At(t, i, PrintAttribute(a) + rest)
    ensures ParseAttributes(t, Skip(t, i, Space)).Fail?
  {
    hide PrintAttribute, At, Escape, Quote, OtherQuote, Decode, ParseAttributes, AddAttribute;
    AttributeParts(t, i, a, rest);
    var q := i + 2 + |a.name|;
    var body := Escape(a.value, OtherQuote(a));
    AtChar(t, q - 1, '=');
    AtChar(t, q, Quote(a));
    QuotePair(a);
    NulPrinted(t, q + 1, a.value, OtherQuote(a));
    AttributeHead(t, i, a);
    var taken := a.value[..FirstNul(a.value)];
    DecodeEscaped(t, q + 1, taken, OtherQuote(a), Quote(a));
    UnclosedValue(t, i + 1, q - 1, q, taken, q + 1 + |Escape(taken, OtherQuote(a))|);
  }

  lemma UnclosedValue(t: string, p: nat, n: nat, q: nat, value: string, v: nat)
    requires Cursor(t, p) && In(t[p], AttributeName) && n == Skip(t, p + 1, AttributeName)
    requires Skip(t, n, Space) == n && t[n] == '=' && Skip(t, n + 1, Space) == q
    requires t[q] == '\'' || t[q] == '\"'
    requires Decode(t, q + 1, t[q]) == Done(value, v) && v < |t| && t[v] == NUL
    ensures ParseAttributes(t, p).Fail?
  {
    hide Decode, Skip, In, AddAttribute;
    assert ParseQuoted(t, q) == Fail(ExpectedQuote);
    hide ParseQuoted;
  }

  lemma {:induction false} AttributesFail(t: string, i: nat, attributes: seq<Attribute>)
    requires Cursor(t, i) && NamedAttributes(attributes)
    requires exists k :: 0 <= k < |attributes| && NUL in attributes[k].value
    requires At(t, i, PrintAttributes(attributes)) && i + |PrintAttributes(attributes)| < |t|
    ensures ParseAttributes(t, Skip(t, i, Space)).Fail?
    decreases |attributes|
  {
    hide PrintAttribute, At, ParseAttributes, Skip, AllOf;
    var a, rest := attributes[0], attributes[1..];
    if NUL in a.value {
      AttributeFails(t, i, a, PrintAttributes(rest));
    } else {
      AttributePrinted(t, i, a, PrintAttributes(rest));
      AtSplit(t, i, PrintAttribute(a), PrintAttributes(rest));
      assert exists k :: 0 <= k < |rest| && NUL in rest[k].value by {
        var k :| 0 <= k < |attributes| && NUL in attributes[k].value;
        assert rest[k - 1] == attributes[k];
      }
      AttributesFail(t, i + |PrintAttribute(a)|, rest);
    }
  }

  lemma {:induction false} ValueWithoutNul(children: seq<Node>)
    requires LexicalNodes(children)
    ensures NoNul(ElementValue(children))
  {
    if children != [] {
      ValueWithoutNul(children[..|children| - 1]);
      assert Lexical(children[|children| - 1]);
    }
  }

  lemma {:induction false} NodeFails(t: string, i: nat, node: Node)
    requires Cursor(t, i) && node.Element? && Produced(node) && !Lexical(node)
    requires At(t, i, PrintNode(node)) && i + |PrintNode(node)| < |t|
    ensures t[i] == '<' && t[i + 1] != '/' && ParseNode(t, i + 1).Fail?
    decreases node, 1
  {
    hide PrintNode, PrintInside, PrintAttributes, At, ParseRest, ParseAttributes, ElementValue, Skip;
    var n := i + 1 + |node.name|;
    var k := n + |PrintAttributes(node.attributes)|;
    ElementParts(t, i, node);
    if exists m :: 0 <= m < |node.attributes| && NUL in node.attributes[m].value {
      AttributesFail(t, n, node.attributes);
    } else {
      AttributesPrinted(t, n, node.attributes);
      if LexicalNodes(node.children) {
        ValueWithoutNul(node.children);
        assert false;
      }
      InsideFails(t, k, node);
    }
  }

  lemma {:induction false} InsideFails(t: string, k: nat, node: Node)
    requires Cursor(t, k) && node.Element? && Produced(node) && !LexicalNodes(node.children)
    requires At(t, k, PrintInside(node)) && k + |PrintInside(node)| < |t|
    ensures ParseRest(t, k).Fail?
    decreases node, 0
  {
    InsideText(node);
    hide At, ParseContents, Escape, PrintNodes, PrintInside;
    var text := Escape("", NUL) + PrintNodes(node.children);
    AtSplit(t, k, ">", text + ("</" + (node.name + ">")));
    AtFirst(t, k, ">");
    ChildrenFail(t, k + 1, "", node.children, node.name);
  }

  lemma {:induction false} ChildrenFail(t: string, i: nat, run: string, nodes: seq<Node>, name: string)
    requires Cursor(t, i) && ProducedNodes(nodes) && ElementName(name) && (NUL in run || !LexicalNodes(nodes))
    requires At(t, i, (Escape(run, NUL) + PrintNodes(nodes)) + ("</" + (name + ">")))
    requires i + |Escape(run, NUL)| + |PrintNodes(nodes)| + |name| + 3 < |t|
    ensures ParseContents(t, i).Fail?
    decreases nodes
  {
    hide At, ParseContents, ParseMarkup, Escape, PrintNode, ElementName, Lexical, Produced, Normal;
    var e, close := Escape(run, NUL), "</" + (name + ">");
    AtSplit(t, i, e + PrintNodes(nodes), close);
    AtSplit(t, i, e, PrintNodes(nodes));
    if NUL in run {
      RunFails(t, i, run);
    } else if nodes[0].Data? {
      DataPrinted(run, nodes);
      DataFails(run, nodes);
      ChildrenFail(t, i, run + nodes[0].text, nodes[1..], name);
    } else {
      var p, rest := PrintNode(nodes[0]), PrintNodes(nodes[1..]);
      var j := i + |e|;
      AtSplit(t, j, p, rest);
      if Lexical(nodes[0]) {
        NodePrinted(t, j, nodes[0]);
        AtSplit(t, j + |p|, rest, close);
        NoRun(rest);
        LexicalTail(nodes);
        ChildrenFail(t, j + |p|, "", nodes[1..], name);
        MarkupStep(t, j, Normal(nodes[0]), j + |p|);
      } else {
        ProducedCData(nodes[0]);
        NodeFails(t, j, nodes[0]);
        MarkupFails(t, j);
      }
      RunPrinted(t, i, run);
    }
  }

  lemma MarkupFails(t: string, j: nat)
    requires Cursor(t, j) && t[j] == '<' && t[j + 1] != '/' && ParseNode(t, j + 1).Fail?
    ensures ParseMarkup(t, j).Fail?
  {
  }

  lemma LexicalTail(nodes: seq<Node>)
    requires nodes != [] && !LexicalNodes(nodes) && Lexical(nodes[0])
    ensures !LexicalNodes(nodes[1..])
  {
    hide Lexical;
    var k :| 0 <= k < |nodes| && !Lexical(nodes[k]);
    assert nodes[1..][k - 1] == nodes[k];
  }

  lemma ProducedCData(node: Node)
    requires !node.Data? && Produced(node) && !Lexical(node)
    ensures node.Element?
  {
  }

  lemma DataFails(run: string, nodes: seq<Node>)
    requires nodes != [] && nodes[0].Data? && NUL !in run && !LexicalNodes(nodes)
    ensures NUL in run + nodes[0].text || !LexicalNodes(nodes[1..])
  {
    if NUL !in nodes[0].text {
      LexicalTail(nodes);
    } else {
      var k :| 0 <= k < |nodes[0].text| && nodes[0].text[k] == NUL;
      assert (run + nodes[0].text)[|run| + k] == NUL;
    }
  }

  lemma {:induction false} NodesFail(t: string, i: nat, nodes: seq<Node>)
    requires Cursor(t, i) && NoData(nodes) && ProducedNodes(nodes) && !LexicalNodes(nodes)
    requires At(t, i, PrintNodes(nodes)) && i + |PrintNodes(nodes)| == |t| - 1
    ensures ParseNodes(t, i).Fail?
    decreases nodes
  {
    hide At, PrintNode, ParseNode, Lexical, Normal, Produced;
    var p, rest := PrintNode(nodes[0]), nodes[1..];
    AtSplit(t, i, p, PrintNodes(rest));
    if Lexical(nodes[0]) {
      NodePrinted(t, i, nodes[0]);
      LexicalTail(nodes);
      NodesFail(t, i + |p|, rest);
    } else {
      ProducedCData(nodes[0]);
      NodeFails(t, i, nodes[0]);
    }
    NoSpaceAt(t, i);
  }

  // ----- the theorem -----

  /** Printing and parsing gives a document back unchanged exactly if it is well formed. */
  lemma RoundTripExactly(nodes: seq<Node>)
    ensures var r := ParseDocument(PrintDocument(nodes));
            (r.Done? && r.value == nodes) <==> WellFormed(nodes)
  {
    var t := PrintDocument(nodes);
    var r := ParseDocument(t);
    assert t[..|PrintNodes(nodes)|] == PrintNodes(nodes);
    if WellFormed(nodes) {
      RoundTrip(nodes);
      CanonicalJoins("", nodes);
      assert [] + nodes == nodes;
    }
    if r.Done? && r.value == nodes {
      DocumentProduced(t, if StandsAt(t, 0, BOM) then 3 else 0);
      NoBom(t, nodes);
      if !LexicalNodes(nodes) {
        NodesFail(t, 0, nodes);
        assert false;
      }
      RoundTrip(nodes);
      JoinIsCanonical("", nodes);
    }
  }

  /** The normal form is a fixed point: a second print and parse changes nothing. */
  lemma SecondRoundTrip(nodes: seq<Node>)
    requires NoData(nodes) && LexicalNodes(nodes)
    ensures WellFormed(Join("", nodes))
    ensures var once := ParseDocument(PrintDocument(nodes));
            once.Done? && ParseDocument(PrintDocument(once.value)) == Done(once.value, |PrintNodes(once.value)|)
  {
    RoundTrip(nodes);
    JoinIsCanonical("", nodes);
    NoDataJoined(nodes);
    RoundTripExactly(Join("", nodes));
    RoundTrip(Join("", nodes));
  }

  lemma {:induction false} NoDataJoined(nodes: seq<Node>)
    requires NoData(nodes)
    ensures NoData(Join("", nodes))
  {
    if nodes != [] {
      NoDataJoined(nodes[1..]);
      assert Join("", nodes) == [] + [Normal(nodes[0])] + Join("", nodes[1..]);
    }
  }
}
