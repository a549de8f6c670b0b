/** The rapidxml printer under `print_no_indenting`: loops that write through an output iterator, here the text
    written so far. Each is proved against the function of XmlTree that the round trip theorem speaks about. */
module XmlPrinter {
  import opened Common
  import opened XmlText
  import opened XmlTree

  method CopyChars(s: string, out: string) returns (out': string)
    ensures out' == out + s
  {
    out' := out;
    for k := 0 to |s|
      invariant out' == out + s[..k]
    {
      out' := out' + [s[k]];
    }
  }

  lemma {:induction false} EscapeSnoc(s: string, k: nat, noexpand: char)
    requires k < |s|
    ensures Escape(s[..k + 1], noexpand) == Escape(s[..k], noexpand) + EscapeChar(s[k], noexpand)
    decreases k
  {
    if k > 0 {
      assert s[1..][..k] == s[..k + 1][1..] && s[1..][..k - 1] == s[..k][1..];
      EscapeSnoc(s[1..], k - 1, noexpand);
    }
  }

  /** `copy_and_expand_chars`: the switch on one character. */
  method ExpandChar(c: char, noexpand: char, out: string) returns (out': string)
    ensures out' == out + EscapeChar(c, noexpand)
  {
    if c == noexpand {
      return out + [c];
    }
    match c
    case '<' => out' := out + "&lt;";
    case '>' => out' := out + "&gt;";
    case '\'' => out' := out + "&apos;";
    case '\"' => out' := out + "&quot;";
    case '&' => out' := out + "&amp;";
    case _ => out' := out + [c];
  }

  method CopyAndExpandChars(s: string, noexpand: char, out: string) returns (out': string)
    ensures out' == out + Escape(s, noexpand)
  {
    hide EscapeChar;
    out' := out;
    for k := 0 to |s|
      invariant out' == out + Escape(s[..k], noexpand)
    {
      EscapeSnoc(s, k, noexpand);
      out' := ExpandChar(s[k], noexpand, out');
    }
    assert s[..|s|] == s;
  }

  method FindChar(s: string, c: char) returns (found: bool)
    ensures found <==> c in s
  {
    for k := 0 to |s|
      invariant c !in s[..k]
    {
      if s[k] == c {
        return true;
      }
    }
    return false;
  }

  lemma {:induction false} AttributesSnoc(attributes: seq<Attribute>, k: nat)
    requires k < |attributes|
    ensures PrintAttributes(attributes[..k + 1]) == PrintAttributes(attributes[..k]) + PrintAttribute(attributes[k])
    decreases k
  {
    hide PrintAttribute;
    if k > 0 {
      var rest := attributes[1..];
      assert rest[..k] == attributes[..k + 1][1..] && rest[..k - 1] == attributes[..k][1..];
      AttributesSnoc(rest, k - 1);
    }
  }

  method PrintAttributeTo(a: Attribute, out: string) returns (out': string)
    ensures out' == out + PrintAttribute(a)
  {
    hide Escape;
    out' := CopyChars(a.name, out + " ");
    out' := out' + "=";
    var double := FindChar(a.value, '\"');
    if double {
      out' := CopyAndExpandChars(a.value, '\"', out' + "\'");
      out' := out' + "\'";
    } else {
      out' := CopyAndExpandChars(a.value, '\'', out' + "\"");
      out' := out' + "\"";
    }
  }

  method PrintAttributesTo(attributes: seq<Attribute>, out: string) returns (out': string)
    ensures out' == out + PrintAttributes(attributes)
  {
    hide PrintAttribute;
    out' := out;
    for k := 0 to |attributes|
      invariant out' == out + PrintAttributes(attributes[..k])
    {
      AttributesSnoc(attributes, k);
      out' := PrintAttributeTo(attributes[k], out');
    }
    assert attributes[..|attributes|] == attributes;
  }

  lemma {:induction false} NodesSnoc(nodes: seq<Node>, k: nat)
    requires k < |nodes|
    ensures PrintNodes(nodes[..k + 1]) == PrintNodes(nodes[..k]) + PrintNode(nodes[k])
    decreases k
  {
    hide PrintNode;
    if k > 0 {
      var rest := nodes[1..];
      assert rest[..k] == nodes[..k + 1][1..] && rest[..k - 1] == nodes[..k][1..];
      NodesSnoc(rest, k - 1);
    }
  }

  /** `print_children`, which is also all there is to printing a document. */
  method PrintChildrenTo(nodes: seq<Node>, out: string) returns (out': string)
    ensures out' == out + PrintNodes(nodes)
    decreases nodes, 1
  {
    hide PrintNode;
    out' := out;
    for k := 0 to |nodes|
      invariant out' == out + PrintNodes(nodes[..k])
    {
      NodesSnoc(nodes, k);
      out' := PrintNodeTo(nodes[k], out');
    }
    assert nodes[..|nodes|] == nodes;
  }

  /** `print_node`. */
  method PrintNodeTo(node: Node, out: string) returns (out': string)
    ensures out' == out + PrintNode(node)
    decreases node, 2
  {
    hide Escape, PrintAttributes, PrintInside;
    match node
    case Data(text) =>
      out' := CopyAndExpandChars(text, NUL, out);
    case CData(text) =>
      out' := CopyChars(text, out + "<![CDATA[");
      out' := out' + "]]>";
    case Element(name, attributes, value, children) =>
      out' := CopyChars(name, out + "<");
      out' := PrintAttributesTo(attributes, out');
      out' := PrintInsideTo(node, out');
  }

  /** The second half of `print_element_node`. */
  method PrintInsideTo(node: Node, out: string) returns (out': string)
    requires node.Element?
    ensures out' == out + PrintInside(node)
    decreases node, 0
  {
    hide Escape, PrintNode, PrintNodes;
    if node.value == "" && node.children == [] {
      return out + "/>";
    }
    out' := out + ">";
    if node.children == [] {
      out' := CopyAndExpandChars(node.value, NUL, out');
    } else if |node.children| == 1 && node.children[0].Data? {
      SoleData(node.children);
      out' := CopyAndExpandChars(node.children[0].text, NUL, out');
    } else {
      out' := PrintChildrenTo(node.children, out');
    }
    out' := CopyChars(node.name, out' + "</");
    out' := out' + ">";
  }

  lemma SoleData(nodes: seq<Node>)
    requires |nodes| == 1 && nodes[0].Data?
    ensures PrintNodes(nodes) == Escape(nodes[0].text, NUL)
  {
    assert PrintNodes(nodes[1..]) == "";
  }
}
