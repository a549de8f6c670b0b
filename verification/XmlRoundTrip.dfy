/** Parsing what was printed gives the normal form of the printed tree, so printing and parsing are inverse
    exactly on the trees in normal form. */
module XmlRoundTrip {
  import opened Common
  import opened XmlText
  import opened XmlTree
  import opened XmlLexical

  // ----- normal form -----

  /** The data node a run of character data becomes: none if it is all white space. */
  function Flush(run: string): seq<Node> { if AllOf(run, Space) then [] else [Data(run)] }

  /** Children after a run of character data: adjacent data joined, white space between markup dropped. */
  function Join(run: string, nodes: seq<Node>): seq<Node>
    decreases nodes, 0
  {
    if nodes == [] then Flush(run)
    else if nodes[0].Data? then Join(run + nodes[0].text, nodes[1..])
    else Flush(run) + [Normal(nodes[0])] + Join("", nodes[1..])
  }

  /** An element without children shows its value as its only data; its value then follows the children. */
  function Normal(node: Node): (r: Node)
    ensures !node.Data? ==> !r.Data?
    decreases node, 1
  {
    match node
    case Data(_) => node
    case CData(_) => node
    case Element(name, attributes, value, children) =>
      var shown := if children == [] then Flush(value) else Join("", children);
      Element(name, attributes, ElementValue(shown), shown)
  }

  // ----- pieces of the printed text -----

  /** No escaped character is markup, the terminator, or white space that was not there. */
  lemma {:induction false} EscapedChars(s: string)
    requires NoNul(s)
    ensures forall k :: 0 <= k < |Escape(s, NUL)| ==> Continues(Escape(s, NUL)[k], '<')
    ensures AllOf(Escape(s, NUL), Space) ==> AllOf(s, Space)
  {
    if s != "" {
      EscapedChars(s[1..]);
      var e, rest := EscapeChar(s[0], NUL), Escape(s[1..], NUL);
      assert Escape(s, NUL) == e + rest;
      if AllOf(e + rest, Space) {
        assert In((e + rest)[0], Space);
        forall k | 0 <= k < |rest| ensures In(rest[k], Space) {
          assert (e + rest)[|e| + k] == rest[k];
        }
        assert s == [s[0]] + s[1..];
      }
    }
  }

  /** Characters of a word that stands in the text. */
  lemma AtIndex(t: string, i: nat, s: string, k: nat)
    requires At(t, i, s) && k < |s|
    ensures t[i + k] == s[k]
  {
    assert t[i..i + |s|][k] == t[i + k];
  }

  lemma AtFirst(t: string, i: nat, s: string)
    requires s != ""
    ensures At(t, i, s) ==> i < |t| && t[i] == s[0]
  {
    assert i + |s| <= |t| ==> t[i..i + |s|][0] == t[i];
  }

  /** The children a run of character data contributes, ahead of those already read. */
  function Lead(run: string, r: Parse<seq<Node>>): Parse<seq<Node>> {
    match r
    case Fail(e) => r
    case Done(rest, k) => Done(Flush(run) + rest, k)
  }

  /** A printed run of character data is read as its data node, or skipped. */
  lemma RunPrinted(t: string, i: nat, run: string)
    requires Cursor(t, i) && NoNul(run) && At(t, i, Escape(run, NUL))
    requires i + |Escape(run, NUL)| < |t| && !Continues(t[i + |Escape(run, NUL)|], '<')
    ensures ParseContents(t, i) == Lead(run, ParseMarkup(t, i + |Escape(run, NUL)|))
  {
    var e := Escape(run, NUL);
    var j := Skip(t, i, Space);
    var end := i + |e|;
    hide Escape, At, ParseMarkup;
    EscapedChars(run);
    forall n | i <= n < end ensures t[n] == e[n - i] {
      AtIndex(t, i, e, n - i);
    }
    assert j <= end;
    if j == end {
      assert AllOf(e, Space);
      AllSpace(t, i, run, end);
    } else {
      assert !In(e[j - i], Space);
      NotAllSpace(t, i, run, end);
    }
  }

  lemma AllSpace(t: string, i: nat, run: string, end: nat)
    requires Cursor(t, i) && end < |t| && !Continues(t[end], '<') && Skip(t, i, Space) == end && AllOf(run, Space)
    ensures ParseContents(t, i) == Lead(run, ParseMarkup(t, end))
  {
    hide ParseMarkup, Skip;
    var r := ParseMarkup(t, end);
    if r.Done? {
      assert [] + r.value == r.value;
    }
  }

  lemma NotAllSpace(t: string, i: nat, run: string, end: nat)
    requires Cursor(t, i) && NoNul(run) && At(t, i, Escape(run, NUL)) && end == i + |Escape(run, NUL)| < |t|
    requires !Continues(t[end], '<') && t[Skip(t, i, Space)] != '<' && t[Skip(t, i, Space)] != NUL
    requires !AllOf(Escape(run, NUL), Space)
    ensures ParseContents(t, i) == Lead(run, ParseMarkup(t, end))
  {
    hide ParseMarkup, Skip, Escape, At, Decode, AllOf;
    if AllOf(run, Space) {
      EscapeSpace(run, NUL);
      assert false;
    }
    DecodeEscaped(t, i, run, NUL, '<');
  }

  /** The first end mark behind a CDATA text is its own. */
  lemma {:induction false} CDataFound(t: string, i: nat, s: string, k: nat)
    requires Cursor(t, i) && NoNul(s) && NoCDataEnd(s) && At(t, i, s) && At(t, i + |s|, "]]>") && k <= |s|
    ensures Find(t, i + k, "]]>") == Reached(i + |s|)
    decreases |s| - k
  {
    assert StandsAt(t, i + |s|, "]]>");
    if k < |s| {
      AtIndex(t, i, s, k);
      if StandsAt(t, i + k, "]]>") {
        assert t[i + k] == "]]>"[0] && t[i + k + 1] == "]]>"[1] && t[i + k + 2] == "]]>"[2];
        assert t[i + |s|] == "]]>"[0] && t[i + |s| + 1] == "]]>"[1];
        assert k + 2 < |s|;
        AtIndex(t, i, s, k + 1);
        AtIndex(t, i, s, k + 2);
        assert s[k..k + 3] == "]]>";
        assert At(s, k, "]]>");
      }
      CDataFound(t, i, s, k + 1);
    }
  }

  /** A printed CDATA node is read back. */
  lemma CDataPrinted(t: string, i: nat, text: string)
    requires Cursor(t, i) && NoNul(text) && NoCDataEnd(text) && At(t, i, PrintNode(CData(text)))
    ensures t[i] == '<' && i + 1 < |t| && t[i + 1] == '!'
    ensures ParseNode(t, i + 1) == Done(Some(CData(text)), i + |PrintNode(CData(text))|)
  {
    hide At, Find, NoCDataEnd, ParseNode, StandsAt;
    AtSplit(t, i, "<![CDATA[", text + "]]>");
    AtSplit(t, i + 9, text, "]]>");
    assert "<![CDATA[" == "<!" + "[CDATA[";
    AtSplit(t, i, "<!", "[CDATA[");
    AtIndex(t, i, "<!", 0);
    AtIndex(t, i, "<!", 1);
    AtFirst(t, i + 2, "[CDATA[");
    AtFirst(t, i + 2, "--");
    AtText(t, i + 9, text);
    AtText(t, i + 9 + |text|, "]]>");
    CDataFound(t, i + 9, text, 0);
    CDataStep(t, i + 1, i + 9 + |text|);
  }

  lemma AtText(t: string, i: nat, s: string)
    requires At(t, i, s)
    ensures i + |s| <= |t| && t[i..i + |s|] == s
  {
  }

  /** What follows "<!" is a CDATA section that ends at `j`. */
  lemma CDataStep(t: string, p: nat, j: nat)
    requires Cursor(t, p) && t[p] == '!' && !At(t, p + 1, "--") && At(t, p + 1, "[CDATA[")
    requires p + 8 < |t| && Find(t, p + 8, "]]>") == Reached(j)
    ensures p + 8 <= j <= |t| - 3 && ParseNode(t, p) == Done(Some(CData(t[p + 8..j])), j + 3)
  {
    hide At, Find;
  }

  /** A closing tag is read as the end of the children. */
  lemma ClosingPrinted(t: string, i: nat, name: string)
    requires Cursor(t, i) && ElementName(name) && At(t, i, "</" + (name + ">"))
    ensures t[i] == '<' && ParseMarkup(t, i) == Done([], i + |name| + 3)
  {
    hide At, Skip, ElementName;
    AtSplit(t, i, "</", name + ">");
    AtSplit(t, i + 2, name, ">");
    AtIndex(t, i, "</", 0);
    AtIndex(t, i, "</", 1);
    AtFirst(t, i + 2 + |name|, ">");
    NameSkipped(t, i + 2, name);
    NoSpaceAt(t, i + 2 + |name|);
  }

  lemma NoSpaceAt(t: string, i: nat)
    requires Cursor(t, i) && !IsSpace(t[i])
    ensures Skip(t, i, Space) == i
  {
  }

  // ----- printed trees are read back -----

  /** The children an element shows when printed. */
  function Shown(node: Node): seq<Node>
    requires node.Element?
  {
    if node.children == [] then Flush(node.value) else Join("", node.children)
  }

  /** The start tag of a printed element. */
  lemma ElementParts(t: string, i: nat, node: Node)
    requires Cursor(t, i) && node.Element? && ElementName(node.name)
    requires At(t, i, PrintNode(node)) && i + |PrintNode(node)| < |t|
    ensures t[i] == '<' && t[i + 1] != '/' && t[i + 1] != '?' && t[i + 1] != '!'
    ensures var n := i + 1 + |node.name|;
            var k := n + |PrintAttributes(node.attributes)|;
            Skip(t, i + 1, NodeName) == n && t[i + 1..n] == node.name
            && At(t, n, PrintAttributes(node.attributes)) && At(t, k, PrintInside(node))
            && k < |t| && (t[k] == '/' || t[k] == '>') && i + |PrintNode(node)| == k + |PrintInside(node)|
  {
    hide PrintInside, PrintAttributes, At;
    var name, attributes, inside := node.name, PrintAttributes(node.attributes), PrintInside(node);
    var n := i + 1 + |name|;
    AtSplit(t, i, "<", name + (attributes + inside));
    AtSplit(t, i + 1, name, attributes + inside);
    AtSplit(t, n, attributes, inside);
    AtFirst(t, i, "<");
    InsideFirst(node);
    AtFirst(t, n + |attributes|, inside);
    if attributes != "" {
      AttributesFirst(node.attributes);
      AtFirst(t, n, attributes);
    }
    NameSkipped(t, i + 1, name);
  }

  /** A name that stands in the text, followed by a character that ends names. */
  lemma NameSkipped(t: string, p: nat, name: string)
    requires Cursor(t, p) && ElementName(name) && At(t, p, name) && p + |name| < |t| && !In(t[p + |name|], NodeName)
    ensures Skip(t, p, NodeName) == p + |name| && t[p..p + |name|] == name
    ensures t[p] != '/' && t[p] != '?' && t[p] != '!'
  {
    forall m | p <= m < p + |name| ensures In(t[m], NodeName) {
      AtIndex(t, p, name, m - p);
    }
    AtFirst(t, p, name);
    SkipUnique(t, p, NodeName, p + |name|);
  }

  lemma InsideFirst(node: Node)
    requires node.Element?
    ensures |PrintInside(node)| >= 2 && (PrintInside(node)[0] == '/' || PrintInside(node)[0] == '>')
  {
  }

  lemma AttributesFirst(attributes: seq<Attribute>)
    requires PrintAttributes(attributes) != ""
    ensures PrintAttributes(attributes)[0] == ' '
  {
  }

  /** An element from its pieces. */
  lemma ElementStep(t: string, p: nat, n: nat, attributes: seq<Attribute>, k: nat, children: seq<Node>, end: nat)
    requires Cursor(t, p) && p < n == Skip(t, p, NodeName) && k < |t|
    requires ParseAttributes(t, Skip(t, n, Space)) == Done(attributes, k) && ParseRest(t, k) == Done(children, end)
    ensures ParseElement(t, p) == Done(Some(Element(t[p..n], attributes, ElementValue(children), children)), end)
  {
    hide ParseAttributes, ParseRest, Skip, ElementValue;
  }

  lemma {:induction false} NodePrinted(t: string, i: nat, node: Node)
    requires Cursor(t, i) && !node.Data? && Lexical(node)
    requires At(t, i, PrintNode(node)) && i + |PrintNode(node)| < |t|
    ensures t[i] == '<' && t[i + 1] != '/'
    ensures ParseNode(t, i + 1) == Done(Some(Normal(node)), i + |PrintNode(node)|)
    decreases node, 1
  {
    hide PrintNode, PrintInside, PrintAttributes, At, ParseElement, ParseRest, ParseAttributes, ElementValue, Skip;
    if node.CData? {
      CDataPrinted(t, i, node.text);
    } else {
      var n := i + 1 + |node.name|;
      var k := n + |PrintAttributes(node.attributes)|;
      ElementParts(t, i, node);
      InsidePrinted(t, k, node);
      AttributesPrinted(t, n, node.attributes);
      ElementStep(t, i + 1, n, node.attributes, k, Shown(node), k + |PrintInside(node)|);
    }
  }

  lemma InsideText(node: Node)
    requires node.Element? && (node.value != "" || node.children != [])
    ensures var run := if node.children == [] then node.value else "";
            PrintInside(node) == ">" + ((Escape(run, NUL) + PrintNodes(node.children)) + ("</" + (node.name + ">")))
  {
    if node.children == [] {
      assert Escape(node.value, NUL) + PrintNodes([]) == Escape(node.value, NUL);
    } else {
      NoRun(PrintNodes(node.children));
    }
  }

  /** What stands behind the attributes of a printed element. */
  lemma {:induction false} InsidePrinted(t: string, k: nat, node: Node)
    requires Cursor(t, k) && node.Element? && Lexical(node)
    requires At(t, k, PrintInside(node)) && k + |PrintInside(node)| < |t|
    ensures ParseRest(t, k) == Done(Shown(node), k + |PrintInside(node)|)
    decreases node, 0
  {
    if node.value == "" && node.children == [] {
      AtFirst(t, k, "/>");
      AtIndex(t, k, "/>", 1);
    } else {
      var run := if node.children == [] then node.value else "";
      InsideText(node);
      hide At, ParseContents, Escape, PrintNodes, PrintInside;
      var text := Escape(run, NUL) + PrintNodes(node.children);
      AtSplit(t, k, ">", text + ("</" + (node.name + ">")));
      AtFirst(t, k, ">");
      ChildrenPrinted(t, k + 1, run, node.children, node.name);
    }
  }

  /** Character data followed by printed nodes and a closing tag. */
  lemma {:induction false} ChildrenPrinted(t: string, i: nat, run: string, nodes: seq<Node>, name: string)
    requires Cursor(t, i) && NoNul(run) && LexicalNodes(nodes) && ElementName(name)
    requires At(t, i, (Escape(run, NUL) + PrintNodes(nodes)) + ("</" + (name + ">")))
    requires i + |Escape(run, NUL)| + |PrintNodes(nodes)| + |name| + 3 < |t|
    ensures ParseContents(t, i) ==
            Done(Join(run, nodes), i + |Escape(run, NUL)| + |PrintNodes(nodes)| + |name| + 3)
    decreases nodes
  {
    hide At, ParseContents, ParseMarkup, Escape, PrintNode, ElementName, Lexical, Flush, NoNul, Normal;
    var e, close := Escape(run, NUL), "</" + (name + ">");
    AtSplit(t, i, e + PrintNodes(nodes), close);
    AtSplit(t, i, e, PrintNodes(nodes));
    if nodes == [] {
      ClosingPrinted(t, i + |e|, name);
      RunPrinted(t, i, run);
      assert Flush(run) + [] == Flush(run);
    } else if nodes[0].Data? {
      DataPrinted(run, nodes);
      ChildrenPrinted(t, i, run + nodes[0].text, nodes[1..], name);
    } else {
      var p, rest := PrintNode(nodes[0]), PrintNodes(nodes[1..]);
      var j := i + |e|;
      AtSplit(t, j, p, rest);
      NodePrinted(t, j, nodes[0]);
      RunPrinted(t, i, run);
      AtSplit(t, j + |p|, rest, close);
      NoRun(rest);
      ChildrenPrinted(t, j + |p|, "", nodes[1..], name);
      MarkupStep(t, j, Normal(nodes[0]), j + |p|);
      JoinStep(run, nodes);
    }
  }

  lemma JoinStep(run: string, nodes: seq<Node>)
    requires nodes != [] && !nodes[0].Data?
    ensures Join(run, nodes) == Flush(run) + ([Normal(nodes[0])] + Join("", nodes[1..]))
  {
    hide Normal, Flush;
  }

  lemma NoRun(rest: string)
    ensures NoNul("") && Escape("", NUL) == "" && Escape("", NUL) + rest == rest
  {
  }

  lemma DataFirst(nodes: seq<Node>)
    requires nodes != [] && nodes[0].Data?
    ensures PrintNodes(nodes) == Escape(nodes[0].text, NUL) + PrintNodes(nodes[1..])
  {
    hide Escape;
  }

  /** A data node prints as more of the run before it. */
  lemma DataPrinted(run: string, nodes: seq<Node>)
    requires nodes != [] && nodes[0].Data?
    ensures NoNul(run) && Lexical(nodes[0]) ==> NoNul(run + nodes[0].text)
    ensures Escape(run + nodes[0].text, NUL) + PrintNodes(nodes[1..]) == Escape(run, NUL) + PrintNodes(nodes)
  {
    hide Escape, PrintNodes;
    EscapeConcat(run, nodes[0].text, NUL);
    var e, f := Escape(run, NUL), Escape(nodes[0].text, NUL);
    DataFirst(nodes);
    assert (e + f) + PrintNodes(nodes[1..]) == e + (f + PrintNodes(nodes[1..]));
  }

  lemma MarkupStep(t: string, j: nat, node: Node, k: nat)
    requires Cursor(t, j) && t[j] == '<' && t[j + 1] != '/' && k < |t| && ParseNode(t, j + 1) == Done(Some(node), k)
    ensures ParseMarkup(t, j) == Add(Some(node), ParseContents(t, k))
  {
    hide ParseNode, ParseContents, Add;
  }

  // ----- documents -----

  predicate NoData(nodes: seq<Node>) { forall k :: 0 <= k < |nodes| ==> !nodes[k].Data? }

  /** Printed nodes followed by the terminator are read back in normal form. */
  lemma {:induction false} NodesPrinted(t: string, i: nat, nodes: seq<Node>)
    requires Cursor(t, i) && NoData(nodes) && LexicalNodes(nodes)
    requires At(t, i, PrintNodes(nodes)) && i + |PrintNodes(nodes)| == |t| - 1
    ensures ParseNodes(t, i) == Done(Join("", nodes), |t| - 1)
    decreases nodes
  {
    hide At, PrintNode, ParseNode, Lexical, Normal;
    if nodes != [] {
      var p, rest := PrintNode(nodes[0]), nodes[1..];
      AtSplit(t, i, p, PrintNodes(rest));
      NodePrinted(t, i, nodes[0]);
      NodesPrinted(t, i + |p|, rest);
      assert Skip(t, i, Space) == i;
      assert Flush("") + [Normal(nodes[0])] + Join("", rest) == [Normal(nodes[0])] + Join("", rest);
    }
  }

  /** `print` with print_no_indenting on a document, zero-terminated. */
  function PrintDocument(nodes: seq<Node>): string { PrintNodes(nodes) + [NUL] }

  /** For every document of elements and CDATA that can be written down at all, parsing the printed text gives
      the normal form. */
  lemma RoundTrip(nodes: seq<Node>)
    requires NoData(nodes) && LexicalNodes(nodes)
    ensures ParseDocument(PrintDocument(nodes)) == Done(Join("", nodes), |PrintNodes(nodes)|)
  {
    var t := PrintDocument(nodes);
    assert t[..|PrintNodes(nodes)|] == PrintNodes(nodes);
    NoBom(t, nodes);
    NodesPrinted(t, 0, nodes);
  }

  lemma NoBom(t: string, nodes: seq<Node>)
    requires NoData(nodes) && t == PrintDocument(nodes)
    ensures !StandsAt(t, 0, BOM)
  {
    if nodes != [] {
      assert PrintNode(nodes[0])[0] == '<';
      assert t[0] == '<';
    }
  }
}
