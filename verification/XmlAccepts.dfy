/** The parser accepts exactly the documents of the grammar, and gives the nodes they stand for. */
module XmlAccepts {
  import opened Common
  import opened XmlText
  import opened XmlTree
  import opened XmlLexical
  import opened XmlRoundTrip
  import opened XmlExact
  import opened XmlGrammar

  // ----- tokens -----

  lemma ClassesOf(s: string)
    ensures Layout(s) <==> AllOf(s, Space)
    ensures NameCharacters(s) <==> AllOf(s, NodeName)
    ensures AttributeCharacters(s) <==> AllOf(s, AttributeName)
  {
    hide In;
    forall k | 0 <= k < |s|
      ensures In(s[k], Space) <==> s[k] in " \n\r\t"
      ensures In(s[k], NodeName) <==> s[k] !in " \n\r\t/>?\0"
      ensures In(s[k], AttributeName) <==> s[k] !in " \n\r\t/<>=?!\0"
    {
      Classes(s[k]);
    }
  }

  lemma SkipRead(t: string, i: nat, s: string, k: Class)
    requires Cursor(t, i) && At(t, i, s) && AllOf(s, k) && i + |s| < |t| && !In(t[i + |s|], k)
    ensures Skip(t, i, k) == i + |s|
  {
    hide In;
    forall n | i <= n < i + |s| ensures In(t[n], k) {
      AtIndex(t, i, s, n - i);
    }
    SkipUnique(t, i, k, i + |s|);
  }

  lemma SkipSpelt(t: string, i: nat, k: Class) returns (s: string)
    requires Cursor(t, i)
    ensures AllOf(s, k) && At(t, i, s) && Skip(t, i, k) == i + |s|
  {
    hide In;
    var j := Skip(t, i, k);
    s := t[i..j];
  }

  /** White space before something that is none. */
  lemma LayoutRead(t: string, i: nat, w: string)
    requires Cursor(t, i) && Layout(w) && At(t, i, w) && i + |w| < |t| && t[i + |w|] !in " \n\r\t"
    ensures Skip(t, i, Space) == i + |w|
  {
    hide In, AllOf, At;
    ClassesOf(w);
    Classes(t[i + |w|]);
    SkipRead(t, i, w, Space);
  }

  /** A name before something that ends names. */
  lemma NodeNameRead(t: string, i: nat, name: string)
    requires Cursor(t, i) && NameCharacters(name) && At(t, i, name) && i + |name| < |t| && t[i + |name|] in " \n\r\t/>"
    ensures Skip(t, i, NodeName) == i + |name| && t[i..i + |name|] == name
  {
    hide In, AllOf, At;
    ClassesOf(name);
    Classes(t[i + |name|]);
    SkipRead(t, i, name, NodeName);
    AtText(t, i, name);
  }

  // ----- attributes -----

  lemma QuotedValue(t: string, i: nat, a: XAttribute)
    requires Cursor(t, i) && ValidAttribute(a) && At(t, i, SpellQuoted(a))
    ensures t[i] == a.quote
    ensures ParseQuoted(t, i) == Done(Mean(a.value, a.quote), i + |SpellQuoted(a)|)
  {
    hide At, Decode, Valid, Mean, Spell;
    AtSplit(t, i, [a.quote], Spell(a.value) + [a.quote]);
    AtSplit(t, i + 1, Spell(a.value), [a.quote]);
    AtChar(t, i, a.quote);
    AtChar(t, i + 1 + |Spell(a.value)|, a.quote);
    TextRead(t, i + 1, a.value, a.quote);
  }

  /** Where the parts of a spelt attribute stand. */
  lemma AttributeParts(t: string, i: nat, a: XAttribute)
    requires Cursor(t, i) && a.name != "" && At(t, i, SpellAttribute(a))
    ensures var n := i + |a.name|;
            var e := n + |a.before|;
            var q := e + 1 + |a.after|;
            var v := q + |SpellQuoted(a)|;
            At(t, i, a.name) && At(t, n, a.before) && e < |t| && t[e] == '=' && At(t, e + 1, a.after)
            && At(t, q, SpellQuoted(a)) && At(t, v, a.behind) && i + |SpellAttribute(a)| == v + |a.behind|
  {
    hide At, SpellQuoted;
    var n := i + |a.name|;
    var e := n + |a.before|;
    var q := e + 1 + |a.after|;
    var quoted := SpellQuoted(a);
    AtSplit(t, i, a.name, a.before + ("=" + (a.after + (quoted + a.behind))));
    AtSplit(t, n, a.before, "=" + (a.after + (quoted + a.behind)));
    AtSplit(t, e, "=", a.after + (quoted + a.behind));
    AtSplit(t, e + 1, a.after, quoted + a.behind);
    AtSplit(t, q, quoted, a.behind);
    AtChar(t, e, '=');
  }

  lemma AttributeFirst(a: XAttribute)
    requires ValidAttribute(a)
    ensures SpellAttribute(a) != "" && SpellAttribute(a)[0] == a.name[0] && a.name[0] !in " \n\r\t/<>=?!\0"
  {
  }

  lemma AttributeRead(t: string, i: nat, a: XAttribute)
    requires Cursor(t, i) && ValidAttribute(a) && At(t, i, SpellAttribute(a))
    requires i + |SpellAttribute(a)| < |t| && t[i + |SpellAttribute(a)|] !in " \n\r\t"
    ensures In(t[i], AttributeName)
    ensures ParseAttribute(t, i) ==
            Done(Attribute(a.name, Mean(a.value, a.quote)), i + |SpellAttribute(a)|)
  {
    hide At, Valid, Mean, ParseQuoted, SpellQuoted, SpellAttribute, Skip;
    AttributeParts(t, i, a);
    QuotedAt(t, i, a);
    NameEnds(t, i, a);
    var e := i + |a.name| + |a.before|;
    QuotedValue(t, e + 1 + |a.after|, a);
    LayoutRead(t, i + |a.name|, a.before);
    LayoutRead(t, e + 1, a.after);
    LayoutRead(t, e + 1 + |a.after| + |SpellQuoted(a)|, a.behind);
    AtText(t, i, a.name);
  }

  lemma QuotedAt(t: string, i: nat, a: XAttribute)
    requires Cursor(t, i) && ValidAttribute(a) && At(t, i, SpellAttribute(a))
    ensures var q := i + |a.name| + |a.before| + 1 + |a.after|;
            q < |t| && t[q] == a.quote && i + |a.name| < |t| && t[i + |a.name|] in " \n\r\t="
  {
    hide At, Valid, SpellQuoted, SpellAttribute;
    AttributeParts(t, i, a);
    QuotedFirst(a);
    AtFirst(t, i + |a.name| + |a.before| + 1 + |a.after|, SpellQuoted(a));
    if a.before != "" {
      AtFirst(t, i + |a.name|, a.before);
    }
  }

  lemma QuotedFirst(a: XAttribute)
    ensures SpellQuoted(a) != "" && SpellQuoted(a)[0] == a.quote
  {
  }

  /** An attribute name is read up to its end. */
  lemma NameEnds(t: string, i: nat, a: XAttribute)
    requires Cursor(t, i) && ValidAttribute(a) && At(t, i, a.name)
    requires i + |a.name| < |t| && t[i + |a.name|] in " \n\r\t="
    ensures In(t[i], AttributeName) && Skip(t, i + 1, AttributeName) == i + |a.name|
  {
    hide In;
    ClassesOf(a.name);
    Classes(t[i + |a.name|]);
    AtFirst(t, i, a.name);
    SkipRead(t, i, a.name, AttributeName);
  }

  lemma {:induction false} AttributesRead(t: string, i: nat, xs: seq<XAttribute>)
    requires Cursor(t, i) && ValidAttributes(xs) && At(t, i, SpellAttributes(xs))
    requires i + |SpellAttributes(xs)| < |t| && t[i + |SpellAttributes(xs)|] in "/>"
    ensures ParseAttributes(t, i) == Done(MeanAttributes(xs), i + |SpellAttributes(xs)|)
    ensures t[i] !in " \n\r\t"
    decreases |xs|
  {
    hide At, ValidAttribute, SpellAttribute, ParseAttribute, Mean, In;
    if xs == [] {
      Classes(t[i]);
    } else {
      var a, rest := xs[0], xs[1..];
      AtSplit(t, i, SpellAttribute(a), SpellAttributes(rest));
      AttributesRead(t, i + |SpellAttribute(a)|, rest);
      AttributeRead(t, i, a);
      AttributeFirst(a);
      AtFirst(t, i, SpellAttribute(a));
    }
  }

  lemma QuotedSpelt(t: string, i: nat) returns (quote: char, value: seq<Piece>)
    requires Cursor(t, i) && ParseQuoted(t, i).Done?
    ensures quote in "\'\"" && Valid(value, quote)
    ensures At(t, i, [quote] + (Spell(value) + [quote]))
    ensures ParseQuoted(t, i) == Done(Mean(value, quote), i + |Spell(value)| + 2)
  {
    hide At, Decode, Valid, Mean, Spell;
    quote := t[i];
    value := TextSpelt(t, i + 1, quote);
    AtChar(t, i, quote);
    AtChar(t, i + 1 + |Spell(value)|, quote);
    AtJoined(t, i + 1, Spell(value), [quote]);
    AtJoined(t, i, [quote], Spell(value) + [quote]);
  }

  lemma NameTaken(t: string, i: nat) returns (name: string)
    requires Cursor(t, i) && In(t[i], AttributeName)
    ensures name != "" && AttributeCharacters(name) && At(t, i, name) && t[i..i + |name|] == name
    ensures Skip(t, i + 1, AttributeName) == i + |name|
  {
    hide In;
    name := SkipSpelt(t, i, AttributeName);
    ClassesOf(name);
  }

  lemma LayoutSpelt(t: string, i: nat) returns (w: string)
    requires Cursor(t, i)
    ensures Layout(w) && At(t, i, w) && Skip(t, i, Space) == i + |w|
  {
    hide In, At;
    w := SkipSpelt(t, i, Space);
    ClassesOf(w);
  }

  lemma AttributeSpelt(t: string, i: nat) returns (a: XAttribute)
    requires Cursor(t, i) && In(t[i], AttributeName) && ParseAttribute(t, i).Done?
    ensures ValidAttribute(a) && At(t, i, SpellAttribute(a))
    ensures ParseAttribute(t, i) == Done(Attribute(a.name, Mean(a.value, a.quote)), i + |SpellAttribute(a)|)
  {
    hide At, Valid, Mean, Spell, ParseQuoted, Skip, In, AttributeCharacters, Layout, SpellAttribute;
    var name := NameTaken(t, i);
    var before := LayoutSpelt(t, i + |name|);
    var e := i + |name| + |before|;
    var after := LayoutSpelt(t, e + 1);
    var q := e + 1 + |after|;
    var quote, value := QuotedSpelt(t, q);
    var quoted := [quote] + (Spell(value) + [quote]);
    var behind := LayoutSpelt(t, q + |quoted|);
    a := XAttribute(name, before, after, quote, value, behind);
    assert SpellQuoted(a) == quoted;
    hide SpellQuoted;
    AttributeJoined(t, i, a);
  }

  lemma AttributeJoined(t: string, i: nat, a: XAttribute)
    requires Cursor(t, i)
    requires var n := i + |a.name|;
             var e := n + |a.before|;
             var q := e + 1 + |a.after|;
             At(t, i, a.name) && At(t, n, a.before) && e < |t| && t[e] == '=' && At(t, e + 1, a.after)
             && At(t, q, SpellQuoted(a)) && At(t, q + |SpellQuoted(a)|, a.behind)
    ensures At(t, i, SpellAttribute(a))
    ensures |SpellAttribute(a)| == |a.name| + |a.before| + 1 + |a.after| + |SpellQuoted(a)| + |a.behind|
  {
    hide At, SpellQuoted;
    var n := i + |a.name|;
    var e := n + |a.before|;
    var q, quoted := e + 1 + |a.after|, SpellQuoted(a);
    AtJoined(t, q, quoted, a.behind);
    AtJoined(t, e + 1, a.after, quoted + a.behind);
    AtChar(t, e, '=');
    AtJoined(t, e, "=", a.after + (quoted + a.behind));
    AtJoined(t, n, a.before, "=" + (a.after + (quoted + a.behind)));
    AtJoined(t, i, a.name, a.before + ("=" + (a.after + (quoted + a.behind))));
  }

  lemma {:induction false} AttributesSpelt(t: string, i: nat) returns (xs: seq<XAttribute>)
    requires Cursor(t, i) && ParseAttributes(t, i).Done?
    ensures ValidAttributes(xs) && At(t, i, SpellAttributes(xs)) && (xs != [] ==> In(t[i], AttributeName))
    ensures ParseAttributes(t, i) == Done(MeanAttributes(xs), i + |SpellAttributes(xs)|)
    decreases |t| - i
  {
    hide At, ValidAttribute, SpellAttribute, ParseAttribute, Mean, In;
    if In(t[i], AttributeName) {
      var a := AttributeSpelt(t, i);
      var rest := AttributesSpelt(t, i + |SpellAttribute(a)|);
      xs := [a] + rest;
      assert xs[1..] == rest;
      AtJoined(t, i, SpellAttribute(a), SpellAttributes(rest));
    } else {
      xs := [];
      AtNothing(t, i);
    }
  }

  // ----- searching -----

  lemma AtInside(t: string, i: nat, s: string, k: nat, word: string)
    requires At(t, i, s) && k + |word| <= |s|
    ensures At(s, k, word) <==> At(t, i + k, word)
  {
    var a, b := s[k..k + |word|], t[i + k..i + k + |word|];
    forall n | 0 <= n < |word| ensures a[n] == b[n] {
      AtIndex(t, i, s, k + n);
    }
    assert a == b;
  }

  lemma {:induction false} FindRead(t: string, i: nat, text: string, word: string, m: nat)
    requires Cursor(t, i) && word != "" && NUL !in word && Ends(text, word) && At(t, i, text + word) && m <= |text|
    requires i + |text + word| < |t|
    ensures Find(t, i + m, word) == Reached(i + |text|)
    decreases |text| - m
  {
    hide At;
    AtSplit(t, i, text, word);
    if m < |text| {
      AtIndex(t, i, text, m);
      AtInside(t, i, text + word, m, word);
      FindRead(t, i, text, word, m + 1);
    }
  }

  lemma FindSpelt(t: string, i: nat, word: string) returns (text: string)
    requires Cursor(t, i) && word != "" && NUL !in word && Find(t, i, word).Reached?
    ensures Ends(text, word) && At(t, i, text + word) && t[i..i + |text|] == text
    ensures Find(t, i, word) == Reached(i + |text|)
  {
    var j := Find(t, i, word).next;
    FindIsFirst(t, i, word);
    text := t[i..j];
    AtSlice(t, i, j);
    AtJoined(t, i, text, word);
    forall k | 0 <= k < |text| ensures !At(text + word, k, word) && text[k] != '\0' {
      assert !At(t, i + k, word);
      AtInside(t, i, text + word, k, word);
    }
  }

  /** A DOCTYPE text is skipped. */
  lemma {:induction false} DoctypeRead(t: string, i: nat, text: string, depth: nat)
    requires Cursor(t, i) && Balanced(text, depth) && At(t, i, text + ">") && i + |text| + 1 < |t|
    ensures depth == 0 ==> SkipDoctype(t, i) == Reached(i + |text| + 1)
    ensures depth > 0 ==>
              SkipBrackets(t, i, depth).Reached?
              && SkipDoctype(t, SkipBrackets(t, i, depth).next) == Reached(i + |text| + 1)
    decreases |text|
  {
    if text == "" {
      AtFirst(t, i, text + ">");
    } else {
      assert text + ">" == [text[0]] + (text[1..] + ">");
      AtSplit(t, i, [text[0]], text[1..] + ">");
      AtChar(t, i, text[0]);
      hide At;
      DoctypeRead(t, i + 1, text[1..],
                  if text[0] == '[' then depth + 1 else if text[0] == ']' && depth > 0 then depth - 1 else depth);
    }
  }

  lemma {:induction false} DoctypeSpelt(t: string, i: nat) returns (text: string)
    requires Cursor(t, i) && SkipDoctype(t, i).Reached?
    ensures Balanced(text, 0) && At(t, i, text + ">") && SkipDoctype(t, i) == Reached(i + |text| + 1)
    decreases |t| - i, 1
  {
    if t[i] == '>' {
      text := "";
      AtChar(t, i, '>');
      assert "" + ">" == ">";
    } else {
      hide At;
      var rest;
      if t[i] == '[' {
        rest := BracketsSpelt(t, i + 1, 1);
      } else {
        rest := DoctypeSpelt(t, i + 1);
      }
      text := [t[i]] + rest;
      AtChar(t, i, t[i]);
      AtJoined(t, i, [t[i]], rest + ">");
      assert [t[i]] + (rest + ">") == text + ">" && text[1..] == rest;
    }
  }

  lemma {:induction false} BracketsSpelt(t: string, i: nat, depth: nat) returns (text: string)
    requires Cursor(t, i) && SkipBrackets(t, i, depth).Reached?
    requires SkipDoctype(t, SkipBrackets(t, i, depth).next).Reached?
    ensures Balanced(text, depth) && At(t, i, text + ">")
    ensures SkipDoctype(t, SkipBrackets(t, i, depth).next) == Reached(i + |text| + 1)
    decreases |t| - i, 2
  {
    if depth == 0 {
      text := DoctypeSpelt(t, i);
    } else {
      hide At;
      var rest := BracketsSpelt(t, i + 1, if t[i] == '[' then depth + 1 else if t[i] == ']' then depth - 1 else depth);
      text := [t[i]] + rest;
      AtChar(t, i, t[i]);
      AtJoined(t, i, [t[i]], rest + ">");
      assert [t[i]] + (rest + ">") == text + ">" && text[1..] == rest;
    }
  }

  // ----- markup without children -----

  lemma CDataRead(t: string, i: nat, text: string)
    requires Cursor(t, i) && Ends(text, "]]>") && At(t, i, "![CDATA[" + (text + "]]>")) && i + |text| + 11 < |t|
    ensures ParseNode(t, i) == Done(Some(CData(text)), i + |text| + 11)
  {
    hide At, Find, Ends;
    assert "![CDATA[" == "!" + "[CDATA[";
    AtSplit(t, i, "![CDATA[", text + "]]>");
    AtSplit(t, i, "!", "[CDATA[");
    AtSplit(t, i + 8, text, "]]>");
    AtFirst(t, i, "!");
    AtFirst(t, i + 1, "[CDATA[");
    AtFirst(t, i + 1, "--");
    AtText(t, i + 8, text);
    AtText(t, i + 8 + |text|, "]]>");
    FindRead(t, i + 8, text, "]]>", 0);
    assert i + 8 + |text| <= |t| - 3;
    CDataStep(t, i, i + 8 + |text|);
  }

  lemma CommentRead(t: string, i: nat, text: string)
    requires Cursor(t, i) && Ends(text, "-->") && At(t, i, "!--" + (text + "-->")) && i + |text| + 6 < |t|
    ensures ParseNode(t, i) == Done(None, i + |text| + 6)
  {
    hide At, Find, Ends;
    assert "!--" == "!" + "--";
    AtSplit(t, i, "!--", text + "-->");
    AtSplit(t, i, "!", "--");
    AtFirst(t, i, "!");
    FindRead(t, i + 3, text, "-->", 0);
  }

  lemma InstructionRead(t: string, i: nat, text: string)
    requires Cursor(t, i) && Ends(text, "?>") && At(t, i, "?" + (text + "?>")) && i + |text| + 3 < |t|
    ensures ParseNode(t, i) == Done(None, i + |text| + 3)
  {
    hide At, Find, Ends;
    AtSplit(t, i, "?", text + "?>");
    AtFirst(t, i, "?");
    FindRead(t, i + 1, text, "?>", 0);
  }

  lemma DoctypeNodeRead(t: string, i: nat, space: char, text: string)
    requires Cursor(t, i) && White(space) && Balanced(text, 0) && At(t, i, "!DOCTYPE" + ([space] + (text + ">")))
    requires i + |text| + 10 < |t|
    ensures ParseNode(t, i) == Done(None, i + |text| + 10)
  {
    hide At, Balanced, SkipDoctype;
    assert "!DOCTYPE" == "!" + "DOCTYPE";
    AtSplit(t, i, "!DOCTYPE", [space] + (text + ">"));
    AtSplit(t, i, "!", "DOCTYPE");
    AtSplit(t, i + 8, [space], text + ">");
    AtChar(t, i + 8, space);
    AtFirst(t, i, "!");
    AtFirst(t, i + 1, "DOCTYPE");
    AtFirst(t, i + 1, "--");
    AtFirst(t, i + 1, "[CDATA[");
    DoctypeRead(t, i + 9, text, 0);
  }

  lemma StrangeThere(t: string, i: nat, text: string)
    requires Cursor(t, i) && At(t, i, text + ">")
    ensures Strange(text) <==>
              !StandsAt(t, i, "--") && !StandsAt(t, i, "[CDATA[") && !(StandsAt(t, i, "DOCTYPE") && IsSpace(t[i + 7]))
  {
    AtSplit(t, i, text, ">");
    AtFirst(t, i + |text|, ">");
    hide At, StandsAt;
    StartsThere(t, i, text, "--");
    StartsThere(t, i, text, "[CDATA[");
    StartsThere(t, i, text, "DOCTYPE");
    if Starts(text, "DOCTYPE") && |text| > 7 {
      AtIndex(t, i, text, 7);
    }
  }

  lemma UnknownRead(t: string, i: nat, text: string)
    requires Cursor(t, i) && Ends(text, ">") && Strange(text) && At(t, i, "!" + (text + ">")) && i + |text| + 2 < |t|
    ensures ParseNode(t, i) == Done(None, i + |text| + 2)
  {
    hide At, Find, Ends, StandsAt, Strange;
    AtSplit(t, i, "!", text + ">");
    AtFirst(t, i, "!");
    StrangeThere(t, i + 1, text);
    FindRead(t, i + 1, text, ">", 0);
  }

  /** Markup behind "<!" or "<?" is one of the kinds of the grammar. */
  lemma BangSpelt(t: string, i: nat) returns (x: XNode)
    requires Cursor(t, i) && t[i] == '!' && ParseBang(t, i).Done?
    ensures !x.XElement? && ValidNode(x) && At(t, i, SpellNode(x))
    ensures ParseBang(t, i) == Done(MeanNode(x), i + |SpellNode(x)|)
  {
    hide At, Find, Ends, StandsAt, SkipDoctype, Balanced;
    AtChar(t, i, '!');
    if StandsAt(t, i + 1, "--") {
      x := CommentSpelt(t, i);
    } else if StandsAt(t, i + 1, "[CDATA[") {
      x := CDataSpelt(t, i);
    } else if StandsAt(t, i + 1, "DOCTYPE") && IsSpace(t[i + 8]) {
      x := DoctypeNodeSpelt(t, i);
    } else {
      var text := FindSpelt(t, i + 1, ">");
      x := Unknown(text);
      AtJoined(t, i, "!", text + ">");
      StrangeThere(t, i + 1, text);
    }
  }

  lemma CommentSpelt(t: string, i: nat) returns (x: XNode)
    requires Cursor(t, i) && t[i] == '!' && StandsAt(t, i + 1, "--") && Find(t, i + 3, "-->").Reached?
    ensures x.Comment? && ValidNode(x) && At(t, i, SpellNode(x)) && Find(t, i + 3, "-->").next + 3 == i + |SpellNode(x)|
  {
    var text := FindSpelt(t, i + 3, "-->");
    x := Comment(text);
    hide Ends;
    AtChar(t, i, '!');
    assert At(t, i + 1, "--");
    hide At;
    AtJoined(t, i, "!", "--");
    assert "!" + "--" == "!--";
    AtJoined(t, i, "!--", text + "-->");
  }

  lemma CDataSpelt(t: string, i: nat) returns (x: XNode)
    requires Cursor(t, i) && t[i] == '!' && StandsAt(t, i + 1, "[CDATA[") && Find(t, i + 8, "]]>").Reached?
    ensures x.XCData? && ValidNode(x) && At(t, i, SpellNode(x)) && Find(t, i + 8, "]]>").next + 3 == i + |SpellNode(x)|
    ensures x.text == t[i + 8..Find(t, i + 8, "]]>").next]
  {
    var text := FindSpelt(t, i + 8, "]]>");
    x := XCData(text);
    hide Ends;
    AtChar(t, i, '!');
    assert At(t, i + 1, "[CDATA[");
    hide At;
    AtJoined(t, i, "!", "[CDATA[");
    assert "!" + "[CDATA[" == "![CDATA[";
    AtJoined(t, i, "![CDATA[", text + "]]>");
  }

  lemma DoctypeNodeSpelt(t: string, i: nat) returns (x: XNode)
    requires Cursor(t, i) && t[i] == '!' && StandsAt(t, i + 1, "DOCTYPE") && IsSpace(t[i + 8])
    requires SkipDoctype(t, i + 9).Reached?
    ensures x.Doctype? && ValidNode(x) && At(t, i, SpellNode(x)) && SkipDoctype(t, i + 9).next == i + |SpellNode(x)|
  {
    var text := DoctypeSpelt(t, i + 9);
    x := Doctype(t[i + 8], text);
    AtChar(t, i, '!');
    AtChar(t, i + 8, t[i + 8]);
    assert At(t, i + 1, "DOCTYPE");
    hide At;
    AtJoined(t, i, "!", "DOCTYPE");
    assert "!" + "DOCTYPE" == "!DOCTYPE";
    AtJoined(t, i + 8, [t[i + 8]], text + ">");
    AtJoined(t, i, "!DOCTYPE", [t[i + 8]] + (text + ">"));
  }

  // ----- character data between markup -----

  /** No character of spelt text is the stop character or the terminator. */
  lemma {:induction false} SpeltChars(ps: seq<Piece>, stop: char)
    requires Valid(ps, stop) && stop in "<\'\""
    ensures forall k :: 0 <= k < |Spell(ps)| ==> Continues(Spell(ps)[k], stop)
  {
    if ps != [] {
      SpeltChars(ps[1..], stop);
      PieceChars(ps[0], Spell(ps[1..]), stop);
    }
  }

  lemma PieceChars(p: Piece, rest: string, stop: char)
    requires ValidPiece(p, rest, stop) && stop in "<\'\""
    ensures forall k :: 0 <= k < |SpellPiece(p)| ==> Continues(SpellPiece(p)[k], stop)
  {
    if p.Code? {
      var mark, digits := if p.hex then "&#x" else "&#", p.digits;
      assert forall k :: 0 <= k < |digits| ==> Digit(digits[k]).Some? && Continues(digits[k], stop);
      assert forall k :: 0 <= k < |digits + ";"| ==> Continues((digits + ";")[k], stop);
    }
  }

  /** The children a run contributes, ahead of those already read. */
  function Ahead(nodes: seq<Node>, r: Parse<seq<Node>>): Parse<seq<Node>> {
    match r
    case Fail(e) => r
    case Done(rest, k) => Done(nodes + rest, k)
  }

  /** White space ends at the run's end exactly if all of the run is white. */
  lemma RunSkipped(t: string, i: nat, s: string, j: nat)
    requires Cursor(t, i) && At(t, i, s) && i + |s| < |t| && t[i + |s|] == '<' && j == Skip(t, i, Space)
    ensures j <= i + |s| && (j == i + |s| <==> Layout(s)) && (j < i + |s| ==> t[j] == s[j - i])
  {
    hide At, Skip;
    forall n | 0 <= n < |s| ensures t[i + n] == s[n] {
      AtIndex(t, i, s, n);
    }
    assert !In(t[i + |s|], Space);
    ClassesOf(s);
    if j < i + |s| {
      assert !In(s[j - i], Space);
    }
  }

  lemma RunRead(t: string, i: nat, run: seq<Piece>)
    requires Cursor(t, i) && Valid(run, '<') && At(t, i, Spell(run))
    requires i + |Spell(run)| < |t| && t[i + |Spell(run)|] == '<'
    ensures ParseContents(t, i) == Ahead(RunNodes(run), ParseMarkup(t, i + |Spell(run)|))
  {
    hide Valid, Spell, Mean, ParseMarkup, Decode, At, Skip, In, Layout;
    var end := i + |Spell(run)|;
    SpeltChars(run, '<');
    RunSkipped(t, i, Spell(run), Skip(t, i, Space));
    TextRead(t, i, run, '<');
    NothingAhead(ParseMarkup(t, end));
  }

  lemma NothingAhead(r: Parse<seq<Node>>)
    ensures Ahead([], r) == r
  {
    if r.Done? {
      assert [] + r.value == r.value;
    }
  }

  /** White space as text. */
  function Blank(w: string): seq<Piece> { if w == "" then [] else [Plain(w[0])] + Blank(w[1..]) }

  lemma {:induction false} BlankSpelt(w: string)
    requires Layout(w)
    ensures Valid(Blank(w), '<') && Spell(Blank(w)) == w && RunNodes(Blank(w)) == []
  {
    hide Mean;
    if w != "" {
      BlankSpelt(w[1..]);
      var ps := Blank(w);
      assert ps[1..] == Blank(w[1..]);
      assert w == [w[0]] + w[1..];
    }
  }

  /** The run before the next markup. */
  lemma RunSpelt(t: string, i: nat) returns (run: seq<Piece>)
    requires Cursor(t, i) && ParseContents(t, i).Done?
    ensures Valid(run, '<') && At(t, i, Spell(run)) && i + |Spell(run)| < |t| && t[i + |Spell(run)|] == '<'
    ensures ParseContents(t, i) == Ahead(RunNodes(run), ParseMarkup(t, i + |Spell(run)|))
  {
    hide Valid, Spell, Mean, Decode, At;
    var j := Skip(t, i, Space);
    if t[j] == '<' || t[j] == NUL {
      var w := LayoutSpelt(t, i);
      BlankSpelt(w);
      run := Blank(w);
      NothingAhead(ParseMarkup(t, j));
    } else {
      run := TextSpelt(t, i, '<');
      var s, next := Spell(run), i + |Spell(run)|;
      assert j < next;
      AtIndex(t, i, s, j - i);
      ClassesOf(s);
    }
  }

  // ----- elements -----

  lemma ElementParts(t: string, i: nat, x: XNode)
    requires Cursor(t, i) && x.XElement? && At(t, i, SpellNode(x))
    ensures var n := i + |x.name|;
            var a := n + |x.gap|;
            var k := a + |SpellAttributes(x.attributes)|;
            At(t, i, x.name) && At(t, n, x.gap) && At(t, a, SpellAttributes(x.attributes)) && At(t, k, SpellRest(x.rest))
            && i + |SpellNode(x)| == k + |SpellRest(x.rest)|
  {
    hide At, SpellAttributes, SpellRest;
    var n := i + |x.name|;
    var a := n + |x.gap|;
    var attributes, rest := SpellAttributes(x.attributes), SpellRest(x.rest);
    AtSplit(t, i, x.name, x.gap + (attributes + rest));
    AtSplit(t, n, x.gap, attributes + rest);
    AtSplit(t, a, attributes, rest);
  }

  lemma RestFirst(rest: XRest)
    ensures SpellRest(rest) != "" && SpellRest(rest)[0] in "/>"
  {
  }

  /** What ends the name of an element. */
  lemma GapFirst(t: string, i: nat, x: XNode)
    requires Cursor(t, i) && x.XElement? && ValidNode(x) && At(t, i, SpellNode(x))
    ensures var n := i + |x.name|;
            var k := n + |x.gap| + |SpellAttributes(x.attributes)|;
            n < |t| && t[n] in " \n\r\t/>" && k < |t| && t[k] in "/>" && t[i] !in "!?/"
  {
    hide At, SpellNode, SpellAttributes, SpellRest, ValidAttributes, ValidRest;
    ElementParts(t, i, x);
    var n := i + |x.name|;
    RestFirst(x.rest);
    AtFirst(t, n + |x.gap| + |SpellAttributes(x.attributes)|, SpellRest(x.rest));
    NoAttributesSpelt(x.attributes);
    if x.gap != "" {
      AtFirst(t, n, x.gap);
    }
    AtFirst(t, i, x.name);
  }

  lemma ElementHead(t: string, i: nat, x: XNode)
    requires Cursor(t, i) && x.XElement? && ValidNode(x) && At(t, i, SpellNode(x)) && i + |SpellNode(x)| < |t|
    ensures Skip(t, i, NodeName) == i + |x.name| && t[i..i + |x.name|] == x.name && t[i] !in "!?/"
    ensures ParseAttributes(t, Skip(t, i + |x.name|, Space)) ==
            Done(MeanAttributes(x.attributes), i + |x.name| + |x.gap| + |SpellAttributes(x.attributes)|)
  {
    hide At, SpellNode, SpellAttributes, SpellRest, ParseAttributes, MeanAttributes, ValidAttributes, ValidRest, Skip;
    hide NameCharacters, Layout;
    ElementParts(t, i, x);
    GapFirst(t, i, x);
    NodeNameRead(t, i, x.name);
    AttributesRead(t, i + |x.name| + |x.gap|, x.attributes);
    LayoutRead(t, i + |x.name|, x.gap);
  }

  lemma NoAttributesSpelt(xs: seq<XAttribute>)
    ensures xs == [] ==> SpellAttributes(xs) == ""
  {
  }

  lemma {:induction false} NodeRead(t: string, i: nat, x: XNode)
    requires Cursor(t, i) && ValidNode(x) && At(t, i, SpellNode(x)) && i + |SpellNode(x)| < |t|
    ensures t[i] != '/' && ParseNode(t, i) == Done(MeanNode(x), i + |SpellNode(x)|)
    decreases x, 1
  {
    hide At, Ends, Strange, Balanced, ParseNode;
    match x
    case XElement(name, gap, attributes, rest) =>
      ElementRead(t, i, x);
    case XCData(text) =>
      AtFirst(t, i, SpellNode(x));
      CDataRead(t, i, text);
    case Comment(text) =>
      AtFirst(t, i, SpellNode(x));
      CommentRead(t, i, text);
    case Instruction(text) =>
      AtFirst(t, i, SpellNode(x));
      InstructionRead(t, i, text);
    case Doctype(space, text) =>
      AtFirst(t, i, SpellNode(x));
      DoctypeNodeRead(t, i, space, text);
    case Unknown(text) =>
      AtFirst(t, i, SpellNode(x));
      UnknownRead(t, i, text);
  }

  lemma {:induction false} ElementRead(t: string, i: nat, x: XNode)
    requires Cursor(t, i) && x.XElement? && ValidNode(x) && At(t, i, SpellNode(x)) && i + |SpellNode(x)| < |t|
    ensures t[i] != '/' && ParseNode(t, i) == Done(MeanNode(x), i + |SpellNode(x)|)
    decreases x, 0
  {
    hide At, SpellNode, SpellAttributes, SpellRest, ParseAttributes, ParseRest, ParseElement, MeanAttributes, MeanRest;
    hide ValidAttributes, Skip, ElementValue;
    ElementParts(t, i, x);
    ElementHead(t, i, x);
    var k := i + |x.name| + |x.gap| + |SpellAttributes(x.attributes)|;
    RestRead(t, k, x.rest);
    ElementStep(t, i, i + |x.name|, MeanAttributes(x.attributes), k, MeanRest(x.rest), k + |SpellRest(x.rest)|);
  }

  lemma {:induction false} RestRead(t: string, k: nat, rest: XRest)
    requires Cursor(t, k) && ValidRest(rest) && At(t, k, SpellRest(rest)) && k + |SpellRest(rest)| < |t|
    ensures ParseRest(t, k) == Done(MeanRest(rest), k + |SpellRest(rest)|)
    decreases rest
  {
    hide At, ParseContents, SpellContents, MeanContents, ValidContents;
    match rest
    case Closed =>
      AtIndex(t, k, "/>", 0);
      AtIndex(t, k, "/>", 1);
    case Open(contents) =>
      AtSplit(t, k, ">", SpellContents(contents));
      AtFirst(t, k, ">");
      ContentsRead(t, k + 1, contents);
  }

  lemma ClosingRead(t: string, i: nat, name: string, behind: string)
    requires Cursor(t, i) && NameCharacters(name) && Layout(behind) && At(t, i, "</" + (name + (behind + ">")))
    ensures t[i] == '<' && ParseMarkup(t, i) == Done([], i + |name| + |behind| + 3)
  {
    hide At, Skip, NameCharacters;
    var n := i + 2 + |name|;
    AtSplit(t, i, "</", name + (behind + ">"));
    AtSplit(t, i + 2, name, behind + ">");
    AtSplit(t, n, behind, ">");
    AtIndex(t, i, "</", 0);
    AtIndex(t, i, "</", 1);
    AtFirst(t, n + |behind|, ">");
    if behind != "" {
      AtFirst(t, n, behind);
    }
    NodeNameRead(t, i + 2, name);
    LayoutRead(t, n, behind);
  }

  lemma {:induction false} ContentsRead(t: string, i: nat, c: XContents)
    requires Cursor(t, i) && ValidContents(c) && At(t, i, SpellContents(c)) && i + |SpellContents(c)| < |t|
    ensures ParseContents(t, i) == Done(MeanContents(c), i + |SpellContents(c)|)
    decreases c
  {
    hide At, ParseContents, ParseMarkup, ParseNode, Valid, Spell, SpellNode, ValidNode, MeanNode, RunNodes;
    match c
    case End(run, name, behind) =>
      AtSplit(t, i, Spell(run), "</" + (name + (behind + ">")));
      ClosingRead(t, i + |Spell(run)|, name, behind);
      RunRead(t, i, run);
      assert RunNodes(run) + [] == RunNodes(run);
    case More(run, node, rest) =>
      var j := i + |Spell(run)|;
      AtSplit(t, i, Spell(run), "<" + (SpellNode(node) + SpellContents(rest)));
      AtSplit(t, j, "<", SpellNode(node) + SpellContents(rest));
      AtSplit(t, j + 1, SpellNode(node), SpellContents(rest));
      AtFirst(t, j, "<");
      NodeRead(t, j + 1, node);
      ContentsRead(t, j + 1 + |SpellNode(node)|, rest);
      RunRead(t, i, run);
      ChildRead(t, j, MeanNode(node), j + 1 + |SpellNode(node)|);
  }

  lemma ChildRead(t: string, j: nat, node: Option<Node>, k: nat)
    requires Cursor(t, j) && t[j] == '<' && t[j + 1] != '/' && k < |t| && ParseNode(t, j + 1) == Done(node, k)
    ensures ParseMarkup(t, j) == Ahead(Listed(node), ParseContents(t, k))
  {
    hide ParseNode, ParseContents;
    NothingAhead(ParseContents(t, k));
  }

  // ----- every accepted text is spelt -----

  lemma RestJoined(t: string, i: nat, x: XNode)
    requires Cursor(t, i) && x.XElement?
    requires var n := i + |x.name|;
             var a := n + |x.gap|;
             At(t, i, x.name) && At(t, n, x.gap) && At(t, a, SpellAttributes(x.attributes))
             && At(t, a + |SpellAttributes(x.attributes)|, SpellRest(x.rest))
    ensures At(t, i, SpellNode(x))
    ensures |SpellNode(x)| == |x.name| + |x.gap| + |SpellAttributes(x.attributes)| + |SpellRest(x.rest)|
  {
    hide At, SpellAttributes, SpellRest;
    var n := i + |x.name|;
    var a := n + |x.gap|;
    var attributes, rest := SpellAttributes(x.attributes), SpellRest(x.rest);
    AtJoined(t, a, attributes, rest);
    AtJoined(t, n, x.gap, attributes + rest);
    AtJoined(t, i, x.name, x.gap + (attributes + rest));
  }

  /** The name of an element, and the white space that must come before attributes. */
  lemma NameAndGap(t: string, i: nat) returns (name: string, gap: string)
    requires Cursor(t, i) && t[i] != '!' && i < Skip(t, i, NodeName)
    ensures name != "" && name[0] != '!' && NameCharacters(name) && At(t, i, name) && t[i..i + |name|] == name
    ensures Skip(t, i, NodeName) == i + |name|
    ensures Layout(gap) && At(t, i + |name|, gap) && Skip(t, i + |name|, Space) == i + |name| + |gap|
    ensures In(t[i + |name| + |gap|], AttributeName) ==> gap != ""
  {
    name := SkipSpelt(t, i, NodeName);
    hide Skip, AllOf, At, In;
    ClassesOf(name);
    AtFirst(t, i, name);
    AtText(t, i, name);
    gap := LayoutSpelt(t, i + |name|);
    Classes(t[i + |name|]);
  }

  lemma {:induction false} ElementSpelt(t: string, i: nat) returns (x: XNode)
    requires Cursor(t, i) && t[i] != '!' && ParseElement(t, i).Done?
    ensures ValidNode(x) && At(t, i, SpellNode(x)) && ParseElement(t, i) == Done(MeanNode(x), i + |SpellNode(x)|)
    decreases |t| - i, 1
  {
    hide At, SpellAttributes, SpellRest, ParseAttributes, ParseRest, MeanAttributes, MeanRest, ValidAttributes, ValidRest;
    hide Skip, In, ElementValue, NameCharacters, Layout;
    var name, gap := NameAndGap(t, i);
    var a := i + |name| + |gap|;
    var attributes := AttributesSpelt(t, a);
    var k := a + |SpellAttributes(attributes)|;
    var rest := RestSpelt(t, k);
    x := XElement(name, gap, attributes, rest);
    hide SpellNode;
    RestJoined(t, i, x);
  }

  lemma {:induction false} RestSpelt(t: string, k: nat) returns (rest: XRest)
    requires Cursor(t, k) && ParseRest(t, k).Done?
    ensures ValidRest(rest) && At(t, k, SpellRest(rest)) && ParseRest(t, k) == Done(MeanRest(rest), k + |SpellRest(rest)|)
    decreases |t| - k, 0
  {
    hide At, ParseContents, SpellContents, MeanContents, ValidContents;
    AtChar(t, k, t[k]);
    if t[k] == '>' {
      var contents := ContentsSpelt(t, k + 1);
      rest := Open(contents);
      AtJoined(t, k, ">", SpellContents(contents));
    } else {
      rest := Closed;
      AtChar(t, k + 1, '>');
      AtJoined(t, k, "/", ">");
      assert "/" + ">" == "/>";
    }
  }

  lemma {:induction false} NodeSpelt(t: string, i: nat) returns (x: XNode)
    requires Cursor(t, i) && ParseNode(t, i).Done?
    ensures ValidNode(x) && At(t, i, SpellNode(x)) && ParseNode(t, i) == Done(MeanNode(x), i + |SpellNode(x)|)
    decreases |t| - i, 2
  {
    hide At, Find, Ends, ParseBang, ParseElement;
    if t[i] == '?' {
      var text := FindSpelt(t, i + 1, "?>");
      x := Instruction(text);
      AtChar(t, i, '?');
      AtJoined(t, i, "?", text + "?>");
    } else if t[i] == '!' {
      x := BangSpelt(t, i);
    } else {
      x := ElementSpelt(t, i);
    }
  }

  lemma ClosingSpelt(t: string, i: nat) returns (name: string, behind: string)
    requires Cursor(t, i) && t[i] == '<' && t[i + 1] == '/' && ParseMarkup(t, i).Done?
    ensures NameCharacters(name) && Layout(behind) && At(t, i, "</" + (name + (behind + ">")))
    ensures ParseMarkup(t, i) == Done([], i + |name| + |behind| + 3)
  {
    hide At, Skip, In, AllOf, NameCharacters, Layout;
    name := SkipSpelt(t, i + 2, NodeName);
    ClassesOf(name);
    var n := i + 2 + |name|;
    behind := LayoutSpelt(t, n);
    AtChar(t, n + |behind|, '>');
    AtJoined(t, n, behind, ">");
    AtJoined(t, i + 2, name, behind + ">");
    AtChar(t, i, '<');
    AtChar(t, i + 1, '/');
    AtJoined(t, i, "<", "/");
    assert "<" + "/" == "</";
    AtJoined(t, i, "</", name + (behind + ">"));
  }

  lemma {:induction false} ContentsSpelt(t: string, i: nat) returns (c: XContents)
    requires Cursor(t, i) && ParseContents(t, i).Done?
    ensures ValidContents(c) && At(t, i, SpellContents(c))
    ensures ParseContents(t, i) == Done(MeanContents(c), i + |SpellContents(c)|)
    decreases |t| - i, 3
  {
    hide At, ParseContents, ParseMarkup, ParseNode, Valid, Spell, SpellNode, ValidNode, MeanNode, RunNodes;
    var run := RunSpelt(t, i);
    var j := i + |Spell(run)|;
    if t[j + 1] == '/' {
      var name, behind := ClosingSpelt(t, j);
      c := End(run, name, behind);
      AtJoined(t, i, Spell(run), "</" + (name + (behind + ">")));
      assert RunNodes(run) + [] == RunNodes(run);
    } else {
      ChildDone(t, j);
      var node := NodeSpelt(t, j + 1);
      var k := j + 1 + |SpellNode(node)|;
      ChildRead(t, j, MeanNode(node), k);
      var rest := ContentsSpelt(t, k);
      c := More(run, node, rest);
      AtJoined(t, j + 1, SpellNode(node), SpellContents(rest));
      AtChar(t, j, '<');
      AtJoined(t, j, "<", SpellNode(node) + SpellContents(rest));
      AtJoined(t, i, Spell(run), "<" + (SpellNode(node) + SpellContents(rest)));
    }
  }

  lemma ChildDone(t: string, j: nat)
    requires Cursor(t, j) && t[j] == '<' && t[j + 1] != '/' && ParseMarkup(t, j).Done?
    ensures ParseNode(t, j + 1).Done?
  {
  }

  // ----- documents -----

  lemma {:induction false} NodesRead(t: string, i: nat, d: XDocument)
    requires Cursor(t, i) && ValidDocument(d) && At(t, i, SpellDocument(d))
    requires i + |SpellDocument(d)| < |t| && t[i + |SpellDocument(d)|] == NUL
    ensures ParseNodes(t, i) == Done(MeanDocument(d), i + |SpellDocument(d)|)
    decreases d
  {
    hide At, ParseNode, SpellNode, ValidNode, MeanNode, Layout, Skip;
    match d
    case Stop(layout) =>
      LayoutRead(t, i, layout);
    case Next(layout, node, rest) =>
      var j := i + |layout|;
      AtSplit(t, i, layout, "<" + (SpellNode(node) + SpellDocument(rest)));
      AtSplit(t, j, "<", SpellNode(node) + SpellDocument(rest));
      AtSplit(t, j + 1, SpellNode(node), SpellDocument(rest));
      AtFirst(t, j, "<");
      LayoutRead(t, i, layout);
      NodeRead(t, j + 1, node);
      NodesRead(t, j + 1 + |SpellNode(node)|, rest);
      assert [] + MeanDocument(rest) == MeanDocument(rest);
  }

  lemma {:induction false} NodesSpelt(t: string, i: nat) returns (d: XDocument)
    requires Cursor(t, i) && ParseNodes(t, i).Done?
    ensures ValidDocument(d) && At(t, i, SpellDocument(d))
    ensures i + |SpellDocument(d)| < |t| && t[i + |SpellDocument(d)|] == NUL
    ensures ParseNodes(t, i) == Done(MeanDocument(d), i + |SpellDocument(d)|)
    decreases |t| - i
  {
    hide At, ParseNode, SpellNode, ValidNode, MeanNode, Layout, Skip;
    var layout := LayoutSpelt(t, i);
    var j := i + |layout|;
    if t[j] == NUL {
      d := Stop(layout);
    } else {
      var node := NodeSpelt(t, j + 1);
      var rest := NodesSpelt(t, j + 1 + |SpellNode(node)|);
      d := Next(layout, node, rest);
      assert [] + MeanDocument(rest) == MeanDocument(rest);
      AtJoined(t, j + 1, SpellNode(node), SpellDocument(rest));
      AtChar(t, j, '<');
      AtJoined(t, j, "<", SpellNode(node) + SpellDocument(rest));
      AtJoined(t, i, layout, "<" + (SpellNode(node) + SpellDocument(rest)));
    }
  }

  const MARK: string := [0xEF as char, 0xBB as char, 0xBF as char]

  /** The text is the spelling of a document, with or without a byte order mark in front, up to a terminator at
      `end`. */
  ghost predicate Spells(t: string, mark: bool, d: XDocument, end: nat) {
    ValidDocument(d) && end < |t| && t[end] == '\0' && t[..end] == (if mark then MARK else "") + SpellDocument(d)
  }

  lemma SpellsAt(t: string, mark: bool, d: XDocument, end: nat)
    requires Cursor(t, 0)
    ensures Spells(t, mark, d, end) <==>
              var i := if mark then 3 else 0;
              ValidDocument(d) && (mark ==> At(t, 0, MARK)) && At(t, i, SpellDocument(d)) && end == i + |SpellDocument(d)|
              && end < |t| && t[end] == '\0'
  {
    hide ValidDocument, SpellDocument;
    var m, s := if mark then MARK else "", SpellDocument(d);
    AtSplit(t, 0, m, s);
    AtNothing(t, 0);
    if end < |t| {
      assert t[0..end] == t[..end];
    }
  }

  /** No spelling starts with the mark. */
  lemma NotTheMark(t: string, d: XDocument)
    requires Cursor(t, 0) && ValidDocument(d) && At(t, 0, SpellDocument(d))
    requires |SpellDocument(d)| < |t| && t[|SpellDocument(d)|] == '\0'
    ensures !At(t, 0, MARK)
  {
    hide At, ValidNode, SpellNode;
    AtFirst(t, 0, MARK);
    if SpellDocument(d) != "" {
      AtFirst(t, 0, SpellDocument(d));
      DocumentFirst(d);
    }
  }

  lemma DocumentFirst(d: XDocument)
    requires ValidDocument(d) && SpellDocument(d) != ""
    ensures SpellDocument(d)[0] in " \n\r\t<"
  {
    hide ValidNode, SpellNode;
  }

  /** The parser accepts a text exactly if it is the spelling of a document, up to the first terminator, and
      gives the nodes that document stands for. */
  lemma AcceptedExactly(t: string, nodes: seq<Node>, end: nat)
    requires Cursor(t, 0)
    ensures ParseDocument(t) == Done(nodes, end) <==>
              exists mark: bool, d: XDocument :: Spells(t, mark, d, end) && MeanDocument(d) == nodes
  {
    hide At, ParseNodes, SpellDocument, ValidDocument, MeanDocument;
    var start := if StandsAt(t, 0, BOM) then 3 else 0;
    if ParseDocument(t) == Done(nodes, end) {
      var d := NodesSpelt(t, start);
      SpellsAt(t, start == 3, d, end);
      assert Spells(t, start == 3, d, end) && MeanDocument(d) == nodes;
    }
    if mark: bool, d: XDocument :| Spells(t, mark, d, end) && MeanDocument(d) == nodes {
      SpellingParsed(t, mark, d, end);
    }
  }

  lemma SpellingParsed(t: string, mark: bool, d: XDocument, end: nat)
    requires Cursor(t, 0) && Spells(t, mark, d, end)
    ensures ValidDocument(d) && ParseDocument(t) == Done(MeanDocument(d), end)
  {
    hide At, ParseNodes, SpellDocument, ValidDocument, MeanDocument, Spells;
    SpellsAt(t, mark, d, end);
    NodesRead(t, if mark then 3 else 0, d);
    if !mark {
      NotTheMark(t, d);
    }
  }

  // ----- layout -----

  /** A text without its layout, if it is nothing else. */
  function BareRun(run: seq<Piece>): seq<Piece> { if Layout(Spell(run)) then [] else run }

  function BareAttributes(xs: seq<XAttribute>): (r: seq<XAttribute>)
    ensures |r| == |xs| && forall k :: 0 <= k < |xs| ==> r[k] == xs[k].(before := "", after := "", behind := "")
  {
    seq(|xs|, k requires 0 <= k < |xs| => xs[k].(before := "", after := "", behind := ""))
  }

  /** Markup with as little white space as possible. */
  function BareNode(x: XNode): XNode {
    match x
    case XElement(name, gap, attributes, rest) =>
      XElement(name, if attributes == [] then "" else " ", BareAttributes(attributes), BareRest(rest))
    case _ => x
  }

  function BareRest(rest: XRest): XRest {
    match rest
    case Closed => Closed
    case Open(contents) => Open(BareContents(contents))
  }

  function BareContents(c: XContents): XContents {
    match c
    case End(run, name, behind) => End(BareRun(run), name, "")
    case More(run, node, rest) => More(BareRun(run), BareNode(node), BareContents(rest))
  }

  function BareDocument(d: XDocument): XDocument {
    match d
    case Stop(layout) => Stop("")
    case Next(layout, node, rest) => Next("", BareNode(node), BareDocument(rest))
  }

  lemma {:induction false} BareAttributesMean(xs: seq<XAttribute>)
    requires ValidAttributes(xs)
    ensures ValidAttributes(BareAttributes(xs)) && MeanAttributes(BareAttributes(xs)) == MeanAttributes(xs)
  {
    hide Mean, Valid;
    if xs != [] {
      BareAttributesMean(xs[1..]);
      assert BareAttributes(xs)[1..] == BareAttributes(xs[1..]);
    }
  }

  lemma {:induction false} BareNodeMeans(x: XNode)
    requires ValidNode(x)
    ensures ValidNode(BareNode(x)) && MeanNode(BareNode(x)) == MeanNode(x)
    decreases x
  {
    hide ValidAttributes, MeanAttributes, ElementValue, Ends, Strange, Balanced;
    if x.XElement? {
      BareAttributesMean(x.attributes);
      if x.rest.Open? {
        BareContentsMean(x.rest.contents);
      }
    }
  }

  lemma {:induction false} BareContentsMean(c: XContents)
    requires ValidContents(c)
    ensures ValidContents(BareContents(c)) && MeanContents(BareContents(c)) == MeanContents(c)
    decreases c
  {
    hide Mean, ValidNode, MeanNode;
    assert Spell([]) == "";
    if c.More? {
      BareNodeMeans(c.node);
      BareContentsMean(c.rest);
    }
  }

  lemma {:induction false} BareDocumentMeans(d: XDocument)
    requires ValidDocument(d)
    ensures ValidDocument(BareDocument(d)) && MeanDocument(BareDocument(d)) == MeanDocument(d)
  {
    hide ValidNode, MeanNode;
    if d.Next? {
      BareNodeMeans(d.node);
      BareDocumentMeans(d.rest);
    }
  }

  /** White space does not matter: two spellings that differ only in the spaces, line feeds, carriage returns and tabs
      before, between and behind markup, around '=' and before '>' and "/>" are parsed to the same nodes. */
  lemma LayoutLaw(t: string, mark: bool, d: XDocument, end: nat, t': string, mark': bool, d': XDocument, end': nat)
    requires Cursor(t, 0) && Spells(t, mark, d, end) && Cursor(t', 0) && Spells(t', mark', d', end')
    requires BareDocument(d) == BareDocument(d')
    ensures ParseDocument(t).Done? && ParseDocument(t').Done? && ParseDocument(t).value == ParseDocument(t').value
  {
    hide ParseDocument, BareDocument, MeanDocument, Spells;
    SpellingParsed(t, mark, d, end);
    SpellingParsed(t', mark', d', end');
    BareDocumentMeans(d);
    BareDocumentMeans(d');
  }
}
