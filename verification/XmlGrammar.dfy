/** The language the parser accepts, as a grammar of its own: documents with all their white space, comments, quotes and
    references, how each is spelt, and the nodes it stands for. Every character class is written out here. */
module XmlGrammar {
  import opened Common
  import opened XmlText
  import opened XmlTree
  import opened XmlLexical
  import opened XmlNumbers
  import opened XmlRoundTrip
  import opened XmlExact
  import Utf8

  // ----- characters -----

  predicate White(c: char) { c in " \n\r\t" }

  /** White space that may stand between tokens. */
  predicate Layout(s: string) { forall k :: 0 <= k < |s| ==> White(s[k]) }

  predicate NameCharacters(s: string) { forall k :: 0 <= k < |s| ==> s[k] !in " \n\r\t/>?\0" }

  predicate AttributeCharacters(s: string) { forall k :: 0 <= k < |s| ==> s[k] !in " \n\r\t/<>=?!\0" }

  predicate Starts(s: string, word: string) { |word| <= |s| && s[..|word|] == word }

  // ----- text with references -----

  datatype Piece = Plain(c: char) | Name(name: string) | Code(hex: bool, digits: string)

  function SpellPiece(p: Piece): (s: string)
    ensures s != ""
  {
    match p
    case Plain(c) => [c]
    case Name(name) => "&" + (name + ";")
    case Code(hex, digits) => (if hex then "&#x" else "&#") + (digits + ";")
  }

  function Spell(ps: seq<Piece>): string {
    if ps == [] then "" else SpellPiece(ps[0]) + Spell(ps[1..])
  }

  function Base(hex: bool): nat { if hex then 16 else 10 }

  /** A reference that is spelt right and has a meaning; a bare ampersand is one that starts no reference. */
  predicate ValidPiece(p: Piece, rest: string, stop: char) {
    match p
    case Plain(c) =>
      c != stop && c != '\0'
      && (c == '&' ==> !Starts(rest, "#") && !Starts(rest, "amp;") && !Starts(rest, "apos;") && !Starts(rest, "quot;")
                       && !Starts(rest, "gt;") && !Starts(rest, "lt;"))
    case Name(name) => name in {"amp", "apos", "quot", "gt", "lt"}
    case Code(hex, digits) =>
      AllDigits(digits, 0, |digits|) && Written(digits, 0, |digits|, Base(hex)) % TWO_64 < 0x110000
  }

  predicate Valid(ps: seq<Piece>, stop: char) {
    ps != [] ==> ValidPiece(ps[0], Spell(ps[1..]), stop) && Valid(ps[1..], stop)
  }

  function MeanPiece(p: Piece, stop: char): string
    requires ValidPiece(p, "", stop)
  {
    match p
    case Plain(c) => [c]
    case Name(name) =>
      if name == "amp" then "&" else if name == "apos" then "\'" else if name == "quot" then "\""
      else if name == "gt" then ">" else "<"
    case Code(hex, digits) => Utf8.Encode(Written(digits, 0, |digits|, Base(hex)) % TWO_64).value
  }

  function Mean(ps: seq<Piece>, stop: char): string
    requires Valid(ps, stop)
  {
    if ps == [] then "" else MeanPiece(ps[0], stop) + Mean(ps[1..], stop)
  }

  // ----- markup -----

  datatype XAttribute =
    XAttribute(name: string, before: string, after: string, quote: char, value: seq<Piece>, behind: string)

  predicate ValidAttribute(a: XAttribute) {
    a.name != "" && AttributeCharacters(a.name) && a.quote in "\'\"" && Valid(a.value, a.quote)
    && Layout(a.before) && Layout(a.after) && Layout(a.behind)
  }

  predicate ValidAttributes(xs: seq<XAttribute>) { forall k :: 0 <= k < |xs| ==> ValidAttribute(xs[k]) }

  function SpellQuoted(a: XAttribute): string { [a.quote] + (Spell(a.value) + [a.quote]) }

  function SpellAttribute(a: XAttribute): string {
    a.name + (a.before + ("=" + (a.after + (SpellQuoted(a) + a.behind))))
  }

  function SpellAttributes(xs: seq<XAttribute>): string {
    if xs == [] then "" else SpellAttribute(xs[0]) + SpellAttributes(xs[1..])
  }

  function MeanAttributes(xs: seq<XAttribute>): seq<Attribute>
    requires ValidAttributes(xs)
  {
    if xs == [] then []
    else [Attribute(xs[0].name, Mean(xs[0].value, xs[0].quote))] + MeanAttributes(xs[1..])
  }

  /** Markup behind its '<'. */
  datatype XNode =
    | XElement(name: string, gap: string, attributes: seq<XAttribute>, rest: XRest)
    | XCData(text: string)
    | Comment(text: string)
    | Instruction(text: string)
    | Doctype(space: char, text: string)
    | Unknown(text: string)

  /** What follows name and attributes: "/>", or the contents and a closing tag. */
  datatype XRest = Closed | Open(contents: XContents)

  /** Character data and then a closing tag, whatever name that has, or markup and more. */
  datatype XContents =
    | End(run: seq<Piece>, name: string, behind: string)
    | More(run: seq<Piece>, node: XNode, rest: XContents)

  /** `word` does not come before the end of `text`, and neither does the terminator. */
  predicate Ends(text: string, word: string) {
    '\0' !in text && forall k :: 0 <= k < |text| ==> !At(text + word, k, word)
  }

  /** A DOCTYPE text behind `depth` open brackets: no '>' outside brackets, and all brackets closed. */
  predicate Balanced(text: string, depth: nat) {
    if text == "" then depth == 0
    else
      text[0] != '\0' && (depth == 0 ==> text[0] != '>')
      && Balanced(text[1..],
                  if text[0] == '[' then depth + 1 else if text[0] == ']' && depth > 0 then depth - 1 else depth)
  }

  /** Text behind "<!" that is no comment, CDATA section or DOCTYPE. */
  predicate Strange(text: string) {
    !Starts(text, "--") && !Starts(text, "[CDATA[") && !(Starts(text, "DOCTYPE") && |text| > 7 && White(text[7]))
  }

  predicate ValidNode(x: XNode) {
    match x
    case XElement(name, gap, attributes, rest) =>
      name != "" && name[0] != '!' && NameCharacters(name) && Layout(gap) && (attributes != [] ==> gap != "")
      && ValidAttributes(attributes) && ValidRest(rest)
    case XCData(text) => Ends(text, "]]>")
    case Comment(text) => Ends(text, "-->")
    case Instruction(text) => Ends(text, "?>")
    case Doctype(space, text) => White(space) && Balanced(text, 0)
    case Unknown(text) => Ends(text, ">") && Strange(text)
  }

  predicate ValidRest(rest: XRest) { rest.Open? ==> ValidContents(rest.contents) }

  predicate ValidContents(c: XContents) {
    match c
    case End(run, name, behind) => Valid(run, '<') && NameCharacters(name) && Layout(behind)
    case More(run, node, rest) => Valid(run, '<') && ValidNode(node) && ValidContents(rest)
  }

  function SpellNode(x: XNode): string {
    match x
    case XElement(name, gap, attributes, rest) => name + (gap + (SpellAttributes(attributes) + SpellRest(rest)))
    case XCData(text) => "![CDATA[" + (text + "]]>")
    case Comment(text) => "!--" + (text + "-->")
    case Instruction(text) => "?" + (text + "?>")
    case Doctype(space, text) => "!DOCTYPE" + ([space] + (text + ">"))
    case Unknown(text) => "!" + (text + ">")
  }

  function SpellRest(rest: XRest): string {
    match rest
    case Closed => "/>"
    case Open(contents) => ">" + SpellContents(contents)
  }

  function SpellContents(c: XContents): string {
    match c
    case End(run, name, behind) => Spell(run) + ("</" + (name + (behind + ">")))
    case More(run, node, rest) => Spell(run) + ("<" + (SpellNode(node) + SpellContents(rest)))
  }

  /** Character data makes a data node, unless it is white space. */
  function RunNodes(run: seq<Piece>): seq<Node>
    requires Valid(run, '<')
  {
    if Layout(Spell(run)) then [] else [Data(Mean(run, '<'))]
  }

  function MeanNode(x: XNode): Option<Node>
    requires ValidNode(x)
  {
    match x
    case XElement(name, gap, attributes, rest) =>
      var children := MeanRest(rest);
      Some(Element(name, MeanAttributes(attributes), ElementValue(children), children))
    case XCData(text) => Some(CData(text))
    case _ => None
  }

  function MeanRest(rest: XRest): seq<Node>
    requires ValidRest(rest)
  {
    match rest
    case Closed => []
    case Open(contents) => MeanContents(contents)
  }

  function Listed(node: Option<Node>): seq<Node> { if node.Some? then [node.value] else [] }

  function MeanContents(c: XContents): seq<Node>
    requires ValidContents(c)
  {
    match c
    case End(run, name, behind) => RunNodes(run)
    case More(run, node, rest) => RunNodes(run) + (Listed(MeanNode(node)) + MeanContents(rest))
  }

  // ----- documents -----

  datatype XDocument = Stop(layout: string) | Next(layout: string, node: XNode, rest: XDocument)

  predicate ValidDocument(d: XDocument) {
    match d
    case Stop(layout) => Layout(layout)
    case Next(layout, node, rest) => Layout(layout) && ValidNode(node) && ValidDocument(rest)
  }

  function SpellDocument(d: XDocument): string {
    match d
    case Stop(layout) => layout
    case Next(layout, node, rest) => layout + ("<" + (SpellNode(node) + SpellDocument(rest)))
  }

  function MeanDocument(d: XDocument): seq<Node>
    requires ValidDocument(d)
  {
    match d
    case Stop(layout) => []
    case Next(layout, node, rest) => Listed(MeanNode(node)) + MeanDocument(rest)
  }

  // ----- the parser reads what is spelt -----

  /** The parser's tables are the classes written out above. */
  lemma Classes(c: char)
    ensures In(c, Space) <==> c in " \n\r\t"
    ensures In(c, NodeName) <==> c !in " \n\r\t/>?\0"
    ensures In(c, AttributeName) <==> c !in " \n\r\t/<>=?!\0"
  {
  }

  /** One table of digits for both bases. */
  lemma DigitTable(c: char, d: nat)
    requires d < 16
    ensures Digit(c) == Some(d) <==> c == "0123456789abcdef"[d] || c == "0123456789ABCDEF"[d]
  {
  }

  /** A word that holds no character `end` stands in the text exactly if it starts the string that is followed by `end`
      there. */
  lemma StartsThere(t: string, i: nat, s: string, word: string)
    requires Cursor(t, i) && At(t, i, s) && i + |s| < |t| && t[i + |s|] !in word && '\0' !in word
    ensures StandsAt(t, i, word) <==> Starts(s, word)
  {
    if StandsAt(t, i, word) {
      assert forall k :: 0 <= k < |word| ==> word[k] in word && word[k] == t[i + k];
      assert s[..|word|] == t[i..i + |word|];
    }
    if Starts(s, word) {
      assert t[i..i + |word|] == t[i..i + |s|][..|word|];
    }
  }

  /** The number that is spelt does not depend on where it stands. */
  lemma {:induction false} WrittenAnywhere(t: string, i: nat, digits: string, n: nat, base: nat)
    requires At(t, i, digits) && n <= |digits| && AllDigits(digits, 0, |digits|)
    ensures AllDigits(t, i, i + n) && Written(t, i, i + n, base) == Written(digits, 0, n, base)
    decreases n
  {
    hide Digit;
    assert forall k :: 0 <= k < |digits| ==> t[i + k] == t[i..i + |digits|][k] == digits[k];
    if n > 0 {
      WrittenAnywhere(t, i, digits, n - 1, base);
    }
  }

  lemma DigitsStop(t: string, i: nat, base: nat, code: nat)
    requires Cursor(t, i) && t[i] == ';'
    ensures Digits(t, i, base, code) == Number(code, i)
  {
  }

  lemma CodeRead(t: string, i: nat, hex: bool, digits: string, stop: char)
    requires Cursor(t, i) && At(t, i, digits + ";") && ValidPiece(Code(hex, digits), "", stop)
    ensures NumericTurn(t, i, Base(hex)) == Turn(MeanPiece(Code(hex, digits), stop), i + |digits| + 1)
  {
    hide Written, Digit, Digits;
    AtSplit(t, i, digits, ";");
    AtFirst(t, i + |digits|, ";");
    WrittenAnywhere(t, i, digits, |digits|, Base(hex));
    DigitsUpTo(t, i, i + |digits|, Base(hex));
    DigitsStop(t, i + |digits|, Base(hex), Written(digits, 0, |digits|, Base(hex)) % TWO_64);
  }

  /** A digit is not the mark of a hexadecimal reference. */
  lemma NoMark(t: string, i: nat, digits: string)
    requires Cursor(t, i) && At(t, i, digits + ";") && AllDigits(digits, 0, |digits|)
    ensures t[i] != 'x'
  {
    AtFirst(t, i, digits + ";");
    assert digits != "" ==> (digits + ";")[0] == digits[0];
    assert digits == "" ==> digits + ";" == ";";
  }

  lemma NameRead(t: string, i: nat, name: string)
    requires Cursor(t, i) && name in {"amp", "apos", "quot", "gt", "lt"} && At(t, i, name + ";")
    ensures t[i] != '#'
    ensures NamedAt(t, i) == Named(if name == "amp" then '&' else if name == "apos" then '\'' else if name == "quot" then '\"'
                                   else if name == "gt" then '>' else '<', |name| + 1)
  {
    var word := name + ";";
    assert StandsAt(t, i, word);
    assert t[i] == word[0] && t[i + 1] == word[1];
    assert StandsAt(t, i, "amp;") ==> t[i] == 'a' && t[i + 1] == 'm';
    assert StandsAt(t, i, "apos;") ==> t[i] == 'a' && t[i + 1] == 'p';
    assert StandsAt(t, i, "quot;") ==> t[i] == 'q';
    assert StandsAt(t, i, "gt;") ==> t[i] == 'g';
    assert StandsAt(t, i, "lt;") ==> t[i] == 'l';
  }

  lemma MarkThere(t: string, i: nat)
    requires Cursor(t, i)
    ensures StandsAt(t, i, "#") <==> t[i] == '#'
  {
    AtChar(t, i, '#');
  }

  /** An ampersand that starts no reference. */
  lemma BareAmpersand(t: string, i: nat, rest: string, stop: char)
    requires Cursor(t, i) && At(t, i, rest) && i + |rest| < |t| && !Continues(t[i + |rest|], stop) && stop in "<\'\""
    ensures (t[i] != '#' && NamedAt(t, i).length == 0) <==> ValidPiece(Plain('&'), rest, stop)
    ensures NamedAt(t, i).length == 0 ==> NamedAt(t, i).c == '&'
  {
    var end := t[i + |rest|];
    assert end in "<\'\"\0";
    hide At, StandsAt;
    StartsThere(t, i, rest, "amp;");
    StartsThere(t, i, rest, "apos;");
    StartsThere(t, i, rest, "quot;");
    StartsThere(t, i, rest, "gt;");
    StartsThere(t, i, rest, "lt;");
    StartsThere(t, i, rest, "#");
    MarkThere(t, i);
  }

  /** One spelt piece is one turn of the decoder. */
  lemma PieceRead(t: string, i: nat, p: Piece, rest: string, stop: char)
    requires Cursor(t, i) && At(t, i, SpellPiece(p) + rest) && ValidPiece(p, rest, stop) && stop in "<\'\""
    requires i + |SpellPiece(p) + rest| < |t| && !Continues(t[i + |SpellPiece(p) + rest|], stop)
    ensures Continues(t[i], stop) && TurnAt(t, i) == Turn(MeanPiece(p, stop), i + |SpellPiece(p)|)
  {
    hide At, NamedAt, NumericTurn, Starts, Written, Digit;
    AtSplit(t, i, SpellPiece(p), rest);
    AtFirst(t, i, SpellPiece(p));
    match p
    case Plain(c) =>
      if c == '&' {
        BareAmpersand(t, i + 1, rest, stop);
      }
    case Name(name) =>
      AtSplit(t, i, "&", name + ";");
      NameRead(t, i + 1, name);
    case Code(hex, digits) =>
      var mark := if hex then "&#x" else "&#";
      AtSplit(t, i, mark, digits + ";");
      AtIndex(t, i, mark, 1);
      if hex {
        AtIndex(t, i, mark, 2);
      } else {
        NoMark(t, i + 2, digits);
      }
      CodeRead(t, i + |mark|, hex, digits, stop);
  }

  /** Spelt text is read as what it means. */
  lemma {:induction false} TextRead(t: string, i: nat, ps: seq<Piece>, stop: char)
    requires Cursor(t, i) && At(t, i, Spell(ps)) && Valid(ps, stop) && stop in "<\'\""
    requires i + |Spell(ps)| < |t| && !Continues(t[i + |Spell(ps)|], stop)
    ensures Decode(t, i, stop) == Done(Mean(ps, stop), i + |Spell(ps)|)
    decreases |ps|
  {
    hide At, TurnAt, SpellPiece, MeanPiece, ValidPiece;
    if ps != [] {
      var p, rest := ps[0], ps[1..];
      assert Spell(ps) == SpellPiece(p) + Spell(rest);
      PieceRead(t, i, p, Spell(rest), stop);
      AtSplit(t, i, SpellPiece(p), Spell(rest));
      TextRead(t, i + |SpellPiece(p)|, rest, stop);
    }
  }

  // ----- what the parser reads is spelt -----

  lemma AtSlice(t: string, i: nat, j: nat)
    requires i <= j <= |t|
    ensures At(t, i, t[i..j]) && |t[i..j]| == j - i
  {
  }

  lemma AtJoined(t: string, i: nat, a: string, b: string)
    requires At(t, i, a) && At(t, i + |a|, b)
    ensures At(t, i, a + b)
  {
    AtSplit(t, i, a, b);
  }

  lemma CodeSpelt(t: string, i: nat, hex: bool, stop: char) returns (digits: string)
    requires Cursor(t, i) && NumericTurn(t, i, Base(hex)).Turn?
    ensures ValidPiece(Code(hex, digits), "", stop) && At(t, i, digits + ";")
    ensures NumericTurn(t, i, Base(hex)) == Turn(MeanPiece(Code(hex, digits), stop), i + |digits| + 1)
  {
    hide Written, Digit, Digits;
    NumericExactly(t, i, Base(hex));
    var j := Digits(t, i, Base(hex), 0).next;
    digits := t[i..j];
    AtSlice(t, i, j);
    assert AllDigits(digits, 0, |digits|);
    WrittenAnywhere(t, i, digits, |digits|, Base(hex));
    AtChar(t, j, ';');
    AtJoined(t, i, digits, ";");
  }

  lemma NameSpelt(t: string, i: nat) returns (name: string)
    requires Cursor(t, i) && NamedAt(t, i).length > 0
    ensures name in {"amp", "apos", "quot", "gt", "lt"} && At(t, i, name + ";")
    ensures NamedAt(t, i).length == |name| + 1
  {
    name := if StandsAt(t, i, "amp;") then "amp" else if StandsAt(t, i, "apos;") then "apos"
            else if StandsAt(t, i, "quot;") then "quot" else if StandsAt(t, i, "gt;") then "gt" else "lt";
    assert StandsAt(t, i, name + ";");
  }

  /** One turn of the decoder is one piece. */
  lemma PieceSpelt(t: string, i: nat, rest: string, stop: char) returns (p: Piece)
    requires Cursor(t, i) && Continues(t[i], stop) && stop in "<\'\"" && TurnAt(t, i).Turn?
    requires At(t, TurnAt(t, i).next, rest)
    requires TurnAt(t, i).next + |rest| < |t| && !Continues(t[TurnAt(t, i).next + |rest|], stop)
    ensures ValidPiece(p, rest, stop) && At(t, i, SpellPiece(p) + rest)
    ensures TurnAt(t, i) == Turn(MeanPiece(p, stop), i + |SpellPiece(p)|)
  {
    hide At, NamedAt, NumericTurn, Starts, Written, Digit, AllDigits, StandsAt;
    if t[i] != '&' {
      p := Plain(t[i]);
      AtChar(t, i, t[i]);
    } else if t[i + 1] == '#' {
      p := CodePiece(t, i, stop);
    } else if NamedAt(t, i + 1).length > 0 {
      p := NamePiece(t, i, stop);
    } else {
      p := Plain('&');
      AtChar(t, i, '&');
      BareAmpersand(t, i + 1, rest, stop);
    }
    AtJoined(t, i, SpellPiece(p), rest);
  }

  lemma CodePiece(t: string, i: nat, stop: char) returns (p: Piece)
    requires Cursor(t, i) && t[i] == '&' && t[i + 1] == '#' && TurnAt(t, i).Turn?
    ensures p.Code? && ValidPiece(p, "", stop) && At(t, i, SpellPiece(p))
    ensures TurnAt(t, i) == Turn(MeanPiece(p, stop), i + |SpellPiece(p)|)
  {
    hide At, NumericTurn, Written, Digit, AllDigits, NamedAt;
    var hex := t[i + 2] == 'x';
    var mark := if hex then "&#x" else "&#";
    var digits := CodeSpelt(t, i + |mark|, hex, stop);
    p := Code(hex, digits);
    MarkSpelt(t, i, hex);
    AtJoined(t, i, mark, digits + ";");
  }

  lemma MarkSpelt(t: string, i: nat, hex: bool)
    requires Cursor(t, i) && t[i] == '&' && t[i + 1] == '#' && (hex ==> t[i + 2] == 'x')
    ensures At(t, i, if hex then "&#x" else "&#")
  {
  }

  lemma NamePiece(t: string, i: nat, stop: char) returns (p: Piece)
    requires Cursor(t, i) && t[i] == '&' && t[i + 1] != '#' && NamedAt(t, i + 1).length > 0
    ensures p.Name? && ValidPiece(p, "", stop) && At(t, i, SpellPiece(p))
    ensures TurnAt(t, i) == Turn(MeanPiece(p, stop), i + |SpellPiece(p)|)
  {
    hide At, NamedAt, NumericTurn;
    var name := NameSpelt(t, i + 1);
    p := Name(name);
    NameRead(t, i + 1, name);
    AtChar(t, i, '&');
    AtJoined(t, i, "&", name + ";");
  }

  lemma {:induction false} TextSpelt(t: string, i: nat, stop: char) returns (ps: seq<Piece>)
    requires Cursor(t, i) && stop in "<\'\"" && Decode(t, i, stop).Done?
    ensures Valid(ps, stop) && At(t, i, Spell(ps)) && Decode(t, i, stop) == Done(Mean(ps, stop), i + |Spell(ps)|)
    decreases |t| - i
  {
    hide At, TurnAt, SpellPiece, MeanPiece, ValidPiece;
    if Continues(t[i], stop) {
      var next := TurnAt(t, i).next;
      var rest := TextSpelt(t, next, stop);
      var p := PieceSpelt(t, i, Spell(rest), stop);
      ps := [p] + rest;
      assert ps[1..] == rest;
    } else {
      ps := [];
      AtNothing(t, i);
    }
  }

  lemma AtNothing(t: string, i: nat)
    requires i <= |t|
    ensures At(t, i, "")
  {
  }
}
