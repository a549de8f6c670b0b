/** Element trees, the rapidxml parser under `parse<0>` as functions on a text nobody modifies, and the printer
    under `print_no_indenting` as functions to strings. */
module XmlTree {
  import opened Common
  import opened XmlText

  datatype Attribute = Attribute(name: string, value: string)

  datatype Node =
    | Element(name: string, attributes: seq<Attribute>, value: string, children: seq<Node>)
    | Data(text: string)
    | CData(text: string)

  // ----- parser -----

  /** A position looked for, or the terminator met first. */
  datatype Scan = Reached(next: nat) | Missed

  /** First position from `i` on where `word` stands. */
  function Find(t: string, i: nat, word: string): (r: Scan)
    requires Cursor(t, i) && NUL !in word
    ensures r.Reached? ==> i <= r.next && r.next + |word| < |t| && StandsAt(t, r.next, word)
    decreases |t| - i
  {
    if StandsAt(t, i, word) then Reached(i)
    else if t[i] == NUL then Missed
    else Find(t, i + 1, word)
  }

  /** Position behind `word`. */
  function SkipPast(t: string, i: nat, word: string): (r: Scan)
    requires Cursor(t, i) && NUL !in word
    ensures r.Reached? ==> i + |word| <= r.next < |t|
  {
    var r := Find(t, i, word);
    if r.Reached? then Reached(r.next + |word|) else Missed
  }

  /** The bracketed part of a DOCTYPE: behind the bracket that closes `depth` open ones. */
  function SkipBrackets(t: string, i: nat, depth: nat): (r: Scan)
    requires Cursor(t, i)
    ensures r.Reached? ==> i <= r.next < |t|
    decreases |t| - i
  {
    if depth == 0 then Reached(i)
    else if t[i] == NUL then Missed
    else SkipBrackets(t, i + 1, if t[i] == '[' then depth + 1 else if t[i] == ']' then depth - 1 else depth)
  }

  /** DOCTYPE: behind the first '>' outside brackets. */
  function SkipDoctype(t: string, i: nat): (r: Scan)
    requires Cursor(t, i)
    ensures r.Reached? ==> i < r.next < |t|
    decreases |t| - i
  {
    if t[i] == '>' then Reached(i + 1)
    else if t[i] == NUL then Missed
    else if t[i] == '[' then
      var r := SkipBrackets(t, i + 1, 1);
      if r.Reached? then SkipDoctype(t, r.next) else Missed
    else SkipDoctype(t, i + 1)
  }

  /** Markup that makes no node. */
  function Dropped(r: Scan): Parse<Option<Node>> {
    if r.Reached? then Done(None, r.next) else Fail(UnexpectedEnd)
  }

  /** A CDATA node whose text starts at `i`. */
  function ParseCData(t: string, i: nat): (r: Parse<Option<Node>>)
    requires Cursor(t, i)
    ensures r.Done? ==> i < r.next < |t|
  {
    var r := Find(t, i, "]]>");
    if r.Reached? then Done(Some(CData(t[i..r.next])), r.next + 3) else Fail(UnexpectedEnd)
  }

  /** What follows "<!": a comment or DOCTYPE, dropped; a CDATA node; or something unknown, dropped up to '>'.
      `i` is the position of the exclamation mark. */
  function ParseBang(t: string, i: nat): (r: Parse<Option<Node>>)
    requires Cursor(t, i) && t[i] == '!'
    ensures r.Done? ==> i < r.next < |t|
  {
    if StandsAt(t, i + 1, "--") then Dropped(SkipPast(t, i + 3, "-->"))
    else if StandsAt(t, i + 1, "[CDATA[") then ParseCData(t, i + 8)
    else if StandsAt(t, i + 1, "DOCTYPE") && IsSpace(t[i + 8]) then Dropped(SkipDoctype(t, i + 9))
    else Dropped(SkipPast(t, i + 1, ">"))
  }

  /** A quoted attribute value whose opening quote would be at `q`. */
  function ParseQuoted(t: string, q: nat): (r: Parse<string>)
    requires Cursor(t, q)
    ensures r.Done? ==> q < r.next < |t|
  {
    if t[q] != '\'' && t[q] != '\"' then Fail(ExpectedQuote) else
    var r := Decode(t, q + 1, t[q]);
    if r.Fail? then r
    else if t[r.next] != t[q] then Fail(ExpectedQuote)
    else Done(r.value, r.next + 1)
  }

  /** The attribute whose name starts at `i`, and white space behind it. */
  function ParseAttribute(t: string, i: nat): (r: Parse<Attribute>)
    requires Cursor(t, i) && In(t[i], AttributeName)
    ensures r.Done? ==> i < r.next < |t|
  {
    var n := Skip(t, i + 1, AttributeName);
    var e := Skip(t, n, Space);
    if t[e] != '=' then Fail(ExpectedEquals) else
    match ParseQuoted(t, Skip(t, e + 1, Space))
    case Fail(error) => Fail(error)
    case Done(value, v) => Done(Attribute(t[i..n], value), Skip(t, v, Space))
  }

  /** Attributes from `i` on. */
  function ParseAttributes(t: string, i: nat): (r: Parse<seq<Attribute>>)
    requires Cursor(t, i)
    ensures r.Done? ==> i <= r.next < |t|
    decreases |t| - i
  {
    if !In(t[i], AttributeName) then Done([], i)
    else match ParseAttribute(t, i)
      case Fail(e) => Fail(e)
      case Done(a, k) => AddAttribute(a, ParseAttributes(t, k))
  }

  function AddAttribute(a: Attribute, r: Parse<seq<Attribute>>): Parse<seq<Attribute>> {
    match r
    case Fail(e) => r
    case Done(rest, k) => Done([a] + rest, k)
  }

  /** The element value after parsing: a data child replaces a value that is empty or starts with NUL. */
  function ElementValue(children: seq<Node>): string {
    if children == [] then ""
    else
      var value := ElementValue(children[..|children| - 1]);
      var last := children[|children| - 1];
      if last.Data? && (value == "" || value[0] == NUL) then last.text else value
  }

  /** What follows name and attributes of an element: its children, or "/>" for none. */
  function ParseRest(t: string, i: nat): (r: Parse<seq<Node>>)
    requires Cursor(t, i)
    ensures r.Done? ==> i < r.next < |t|
    decreases |t| - i, 0
  {
    if t[i] == '>' then ParseContents(t, i + 1)
    else if t[i] == '/' && t[i + 1] == '>' then Done([], i + 2)
    else Fail(ExpectedGreater)
  }

  /** An element whose name starts at `i`. */
  function ParseElement(t: string, i: nat): (r: Parse<Option<Node>>)
    requires Cursor(t, i)
    ensures r.Done? ==> i < r.next < |t|
    decreases |t| - i, 1
  {
    var n := Skip(t, i, NodeName);
    if n == i then Fail(ExpectedElementName) else
    match ParseAttributes(t, Skip(t, n, Space))
    case Fail(e) => Fail(e)
    case Done(attributes, k) =>
      match ParseRest(t, k)
      case Fail(e) => Fail(e)
      case Done(children, end) => Done(Some(Element(t[i..n], attributes, ElementValue(children), children)), end)
  }

  /** What follows '<', unless it is a closing tag; None for markup that makes no node. A declaration and a
      processing instruction both run to "?>"; the four characters skipped for a declaration cannot begin it. */
  function ParseNode(t: string, i: nat): (r: Parse<Option<Node>>)
    requires Cursor(t, i)
    ensures r.Done? ==> i < r.next < |t|
    decreases |t| - i, 2
  {
    if t[i] == '?' then Dropped(SkipPast(t, i + 1, "?>"))
    else if t[i] == '!' then ParseBang(t, i)
    else ParseElement(t, i)
  }

  function Add(node: Option<Node>, r: Parse<seq<Node>>): Parse<seq<Node>> {
    match r
    case Fail(e) => r
    case Done(rest, k) => Done(if node.Some? then [node.value] + rest else rest, k)
  }

  /** Children from `i` on, up to behind the closing tag. */
  function ParseContents(t: string, i: nat): (r: Parse<seq<Node>>)
    requires Cursor(t, i)
    ensures r.Done? ==> i < r.next < |t|
    decreases |t| - i, 4
  {
    var j := Skip(t, i, Space);
    if t[j] == '<' || t[j] == NUL then ParseMarkup(t, j)
    else match Decode(t, i, '<')
      case Fail(e) => Fail(e)
      case Done(text, k) => Add(Some(Data(text)), ParseMarkup(t, k))
  }

  /** A closing tag, or a child and what follows it; `i` is at '<' or at the terminator. */
  function ParseMarkup(t: string, i: nat): (r: Parse<seq<Node>>)
    requires Cursor(t, i) && (t[i] == '<' || t[i] == NUL)
    ensures r.Done? ==> i < r.next < |t|
    decreases |t| - i, 3
  {
    if t[i] == NUL then Fail(UnexpectedEnd)
    else if t[i + 1] == '/' then
      var j := Skip(t, Skip(t, i + 2, NodeName), Space);
      if t[j] == '>' then Done([], j + 1) else Fail(ExpectedGreater)
    else match ParseNode(t, i + 1)
      case Fail(e) => Fail(e)
      case Done(node, k) => Add(node, ParseContents(t, k))
  }

  /** The nodes of a document from `i` on, up to the terminator. */
  function ParseNodes(t: string, i: nat): (r: Parse<seq<Node>>)
    requires Cursor(t, i)
    decreases |t| - i
  {
    var j := Skip(t, i, Space);
    if t[j] == NUL then Done([], j)
    else if t[j] != '<' then Fail(ExpectedLess)
    else match ParseNode(t, j + 1)
      case Fail(e) => Fail(e)
      case Done(node, k) => Add(node, ParseNodes(t, k))
  }

  const BOM: string := [0xEF as char, 0xBB as char, 0xBF as char]

  /** `xml_document::parse<0>` on a zero-terminated text. */
  function ParseDocument(t: string): Parse<seq<Node>>
    requires Cursor(t, 0)
  {
    ParseNodes(t, if StandsAt(t, 0, BOM) then 3 else 0)
  }

  // ----- printer -----

  function EscapeChar(c: char, noexpand: char): string {
    if c == noexpand then [c]
    else match c
      case '<' => "&lt;"
      case '>' => "&gt;"
      case '\'' => "&apos;"
      case '\"' => "&quot;"
      case '&' => "&amp;"
      case _ => [c]
  }

  /** `copy_and_expand_chars`. */
  function Escape(s: string, noexpand: char): string {
    if s == "" then "" else EscapeChar(s[0], noexpand) + Escape(s[1..], noexpand)
  }

  /** The quote around an attribute value: a value holding a double quote goes into single quotes. */
  function Quote(a: Attribute): char { if '\"' in a.value then '\'' else '\"' }

  /** The other quote is printed as it is. */
  function OtherQuote(a: Attribute): char { if '\"' in a.value then '\"' else '\'' }

  function PrintAttribute(a: Attribute): string {
    " " + (a.name + ("=" + ([Quote(a)] + (Escape(a.value, OtherQuote(a)) + [Quote(a)]))))
  }

  function PrintAttributes(attributes: seq<Attribute>): string {
    if attributes == [] then "" else PrintAttribute(attributes[0]) + PrintAttributes(attributes[1..])
  }

  function PrintNode(node: Node): string
    decreases node, 2
  {
    match node
    case Data(text) => Escape(text, NUL)
    case CData(text) => "<![CDATA[" + (text + "]]>")
    case Element(name, attributes, value, children) =>
      "<" + (name + (PrintAttributes(attributes) + PrintInside(node)))
  }

  /** Everything behind the attributes of an element. */
  function PrintInside(node: Node): string
    requires node.Element?
    decreases node, 0
  {
    if node.value == "" && node.children == [] then "/>"
    else ">" + ((if node.children == [] then Escape(node.value, NUL) else PrintNodes(node.children))
                + ("</" + (node.name + ">")))
  }

  function PrintNodes(nodes: seq<Node>): string
    decreases nodes, 1
  {
    if nodes == [] then "" else PrintNode(nodes[0]) + PrintNodes(nodes[1..])
  }
}
