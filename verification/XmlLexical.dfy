/** What can be written down as XML, and the inverses at the level of characters and attributes: decoding what was
    escaped, and reading back printed attributes. */
module XmlLexical {
  import opened Common
  import opened XmlText
  import opened XmlTree

  // ----- what can be written down -----

  predicate NoNul(s: string) { NUL !in s }

  predicate AllOf(s: string, k: Class) { forall n :: 0 <= n < |s| ==> In(s[n], k) }

  predicate ElementName(s: string) { s != "" && s[0] != '!' && AllOf(s, NodeName) }

  predicate LexicalAttribute(a: Attribute) {
    a.name != "" && AllOf(a.name, AttributeName) && NoNul(a.value)
  }

  /** The closing mark does not stand in the text. */
  predicate NoCDataEnd(s: string) { forall k :: 0 <= k < |s| ==> !At(s, k, "]]>") }

  /** Names are names, no string holds the terminator, and CDATA does not hold its own end. */
  predicate Lexical(node: Node) {
    match node
    case Data(text) => NoNul(text)
    case CData(text) => NoNul(text) && NoCDataEnd(text)
    case Element(name, attributes, value, children) =>
      ElementName(name) && NoNul(value)
      && (forall k :: 0 <= k < |attributes| ==> LexicalAttribute(attributes[k]))
      && (forall k :: 0 <= k < |children| ==> Lexical(children[k]))
  }

  predicate LexicalNodes(nodes: seq<Node>) { forall k :: 0 <= k < |nodes| ==> Lexical(nodes[k]) }

  // ----- escaping and decoding are inverse -----

  lemma {:induction false} EscapeConcat(a: string, b: string, noexpand: char)
    ensures Escape(a + b, noexpand) == Escape(a, noexpand) + Escape(b, noexpand)
  {
    if a == "" {
      assert a + b == b;
    } else {
      assert (a + b)[1..] == a[1..] + b;
      EscapeConcat(a[1..], b, noexpand);
    }
  }

  /** White space is printed as it is. */
  lemma {:induction false} EscapeSpace(s: string, noexpand: char)
    requires AllOf(s, Space)
    ensures Escape(s, noexpand) == s
  {
    if s != "" {
      EscapeSpace(s[1..], noexpand);
      assert s == [s[0]] + s[1..];
    }
  }

  /** One escaped character is one turn of the decoder, and is never the stop character or the terminator. */
  lemma EscapedTurn(t: string, i: nat, c: char, noexpand: char, stop: char)
    requires Cursor(t, i) && c != NUL && At(t, i, EscapeChar(c, noexpand))
    requires (stop == '<' && noexpand == NUL) || (stop == '\'' && noexpand == '\"') || (stop == '\"' && noexpand == '\'')
    ensures Continues(t[i], stop)
    ensures TurnAt(t, i) == Turn([c], i + |EscapeChar(c, noexpand)|)
  {
    var e := EscapeChar(c, noexpand);
    assert t[i..i + |e|][0] == t[i];
    if |e| > 1 {
      assert e == "&" + e[1..];
      AtSplit(t, i, "&", e[1..]);
      NamedEscape(t, i + 1, c);
    }
  }

  /** Each escape is read as the named reference it is. */
  lemma NamedEscape(t: string, i: nat, c: char)
    requires Cursor(t, i) && |EscapeChar(c, NUL)| > 1 && At(t, i, EscapeChar(c, NUL)[1..])
    ensures NamedAt(t, i) == Named(c, |EscapeChar(c, NUL)| - 1) && t[i] != '#'
  {
    var word := EscapeChar(c, NUL)[1..];
    assert StandsAt(t, i, word);
    assert t[i] == word[0] && t[i + 1] == word[1];
    assert StandsAt(t, i, "amp;") ==> t[i] == "amp;"[0] && t[i + 1] == "amp;"[1];
    assert StandsAt(t, i, "apos;") ==> t[i] == "apos;"[0] && t[i + 1] == "apos;"[1];
    assert StandsAt(t, i, "quot;") ==> t[i] == "quot;"[0];
    assert StandsAt(t, i, "gt;") ==> t[i] == "gt;"[0];
  }

  /** Decoding an escaped string gives the string back and stops right behind it, at the stop character or at a
      terminator. */
  lemma {:induction false} DecodeEscaped(t: string, i: nat, s: string, noexpand: char, stop: char)
    requires Cursor(t, i) && NoNul(s) && At(t, i, Escape(s, noexpand))
    requires (stop == '<' && noexpand == NUL) || (stop == '\'' && noexpand == '\"') || (stop == '\"' && noexpand == '\'')
    requires i + |Escape(s, noexpand)| < |t| && !Continues(t[i + |Escape(s, noexpand)|], stop)
    ensures Decode(t, i, stop) == Done(s, i + |Escape(s, noexpand)|)
    decreases |s|
  {
    hide TurnAt, EscapeChar;
    if s != "" {
      var e := EscapeChar(s[0], noexpand);
      AtSplit(t, i, e, Escape(s[1..], noexpand));
      EscapedTurn(t, i, s[0], noexpand, stop);
      DecodeEscaped(t, i + |e|, s[1..], noexpand, stop);
      assert s == [s[0]] + s[1..];
    }
  }

  // ----- attributes -----

  lemma AtChar(t: string, i: nat, c: char)
    ensures At(t, i, [c]) <==> i < |t| && t[i] == c
  {
    if i < |t| {
      assert t[i..i + 1] == [t[i]];
    }
  }

  lemma AttributeParts(t: string, i: nat, a: Attribute, rest: string)
    requires At(t, i, PrintAttribute(a) + rest)
    ensures At(t, i, " ") && At(t, i + 1, a.name)
    ensures var e := i + 1 + |a.name|;
            var body := Escape(a.value, OtherQuote(a));
            At(t, e, "=") && At(t, e + 1, [Quote(a)]) && At(t, e + 2, body)
            && At(t, e + 2 + |body|, [Quote(a)]) && At(t, e + 3 + |body|, rest)
            && |PrintAttribute(a)| == |a.name| + |body| + 4
  {
    hide At, Escape, Quote, OtherQuote;
    var body := Escape(a.value, OtherQuote(a));
    var q := [Quote(a)];
    AtSplit(t, i, PrintAttribute(a), rest);
    AtSplit(t, i, " ", a.name + ("=" + (q + (body + q))));
    AtSplit(t, i + 1, a.name, "=" + (q + (body + q)));
    AtSplit(t, i + 1 + |a.name|, "=", q + (body + q));
    AtSplit(t, i + 2 + |a.name|, q, body + q);
    AtSplit(t, i + 3 + |a.name|, body, q);
  }

  /** The head of a printed attribute, up to its opening quote, is read as name and quote. */
  lemma AttributeHead(t: string, i: nat, a: Attribute)
    requires Cursor(t, i) && a.name != "" && AllOf(a.name, AttributeName)
    requires At(t, i, " ") && At(t, i + 1, a.name) && i + 2 + |a.name| < |t|
    requires t[i + 1 + |a.name|] == '=' && t[i + 2 + |a.name|] == Quote(a)
    ensures Skip(t, i, Space) == i + 1 && In(t[i + 1], AttributeName)
    ensures Skip(t, i + 2, AttributeName) == i + 1 + |a.name|
    ensures Skip(t, i + 1 + |a.name|, Space) == i + 1 + |a.name|
    ensures Skip(t, i + 2 + |a.name|, Space) == i + 2 + |a.name|
    ensures t[i + 1..i + 1 + |a.name|] == a.name
  {
    assert t[i..i + 1][0] == t[i];
    forall n | 0 <= n < |a.name| ensures t[i + 1 + n] == a.name[n] {
      assert t[i + 1..i + 1 + |a.name|][n] == t[i + 1 + n];
    }
    SkipUnique(t, i, Space, i + 1);
    SkipUnique(t, i + 2, AttributeName, i + 1 + |a.name|);
  }

  lemma QuotePair(a: Attribute)
    ensures (Quote(a) == '\'' && OtherQuote(a) == '\"') || (Quote(a) == '\"' && OtherQuote(a) == '\'')
  {
  }

  lemma QuotedRead(t: string, q: nat, value: string, v: nat)
    requires Cursor(t, q) && (t[q] == '\'' || t[q] == '\"') && q + 1 < |t|
    requires Decode(t, q + 1, t[q]) == Done(value, v) && v < |t| && t[v] == t[q]
    ensures ParseQuoted(t, q) == Done(value, v + 1)
  {
    hide Decode;
  }

  /** The reading of one attribute, step by step. */
  lemma AttributeStep(t: string, p: nat, n: nat, e: nat, value: string, v: nat)
    requires Cursor(t, p) && In(t[p], AttributeName) && n == Skip(t, p + 1, AttributeName)
    requires e == Skip(t, n, Space) && t[e] == '=' && ParseQuoted(t, Skip(t, e + 1, Space)) == Done(value, v)
    ensures ParseAttributes(t, p) ==
            AddAttribute(Attribute(t[p..n], value), ParseAttributes(t, Skip(t, v, Space)))
  {
    hide ParseQuoted, Skip, In, AddAttribute;
  }

  /** One printed attribute is read back; the next ones follow behind it. */
  lemma AttributePrinted(t: string, i: nat, a: Attribute, rest: string)
    requires Cursor(t, i) && LexicalAttribute(a) && At(t, i, PrintAttribute(a) + rest)
    ensures i + |PrintAttribute(a)| < |t| && Skip(t, i, Space) == i + 1
    ensures ParseAttributes(t, i + 1) == AddAttribute(a, ParseAttributes(t, Skip(t, i + |PrintAttribute(a)|, Space)))
  {
    hide PrintAttribute, At, Escape, Quote, OtherQuote, Decode, ParseQuoted, ParseAttributes, AddAttribute;
    AttributeParts(t, i, a, rest);
    var q := i + 2 + |a.name|;
    var body := Escape(a.value, OtherQuote(a));
    AtChar(t, q - 1, '=');
    AtChar(t, q, Quote(a));
    AtChar(t, q + 1 + |body|, Quote(a));
    QuotePair(a);
    assert q + 1 + |body| < |t| - 1;
    AttributeHead(t, i, a);
    DecodeEscaped(t, q + 1, a.value, OtherQuote(a), Quote(a));
    QuotedRead(t, q, a.value, q + 1 + |body|);
    AttributeStep(t, i + 1, q - 1, q - 1, a.value, q + 2 + |body|);
  }

  lemma NoAttributes(t: string, i: nat)
    requires Cursor(t, i) && (t[i] == '/' || t[i] == '>')
    ensures ParseAttributes(t, Skip(t, i, Space)) == Done([], i)
  {
  }

  /** Printed attributes are read back. */
  lemma {:induction false} AttributesPrinted(t: string, i: nat, attributes: seq<Attribute>)
    requires Cursor(t, i) && forall k :: 0 <= k < |attributes| ==> LexicalAttribute(attributes[k])
    requires At(t, i, PrintAttributes(attributes)) && i + |PrintAttributes(attributes)| < |t|
    requires t[i + |PrintAttributes(attributes)|] == '/' || t[i + |PrintAttributes(attributes)|] == '>'
    ensures ParseAttributes(t, Skip(t, i, Space)) == Done(attributes, i + |PrintAttributes(attributes)|)
    decreases |attributes|
  {
    hide PrintAttribute, At, ParseAttributes, Skip, LexicalAttribute;
    if attributes == [] {
      NoAttributes(t, i);
    } else {
      var a, rest := attributes[0], attributes[1..];
      AttributePrinted(t, i, a, PrintAttributes(rest));
      AtSplit(t, i, PrintAttribute(a), PrintAttributes(rest));
      AttributesPrinted(t, i + |PrintAttribute(a)|, rest);
      assert attributes == [a] + rest;
    }
  }
}
