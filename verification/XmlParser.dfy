/** The rapidxml parser as it is: one text buffer that it reads and rewrites at the same time. Nodes refer to their
    strings by position in the buffer. The methods are proved against the functions of XmlTree applied to the
    original text, so rewriting the buffer is never noticed, and every string is still there in the final buffer. */
module XmlParser {
  import opened Common
  import opened XmlText
  import opened XmlTree

  // ----- nodes whose strings live in the buffer -----

  datatype Span = Span(start: nat, len: nat)

  datatype RawAttribute = RawAttribute(name: Span, value: Span)

  datatype RawNode =
    | RawElement(name: Span, attributes: seq<RawAttribute>, value: Option<Span>, children: seq<RawNode>)
    | RawData(text: Span)
    | RawCData(text: Span)

  /** The buffer holds the string at the span, zero-terminated, inside [lo, hi). */
  ghost predicate Stored(b: string, span: Span, s: string, lo: nat, hi: nat) {
    lo <= span.start && span.start + span.len < hi <= |b|
    && b[span.start..span.start + span.len] == s && b[span.start + span.len] == NUL
  }

  /** A missing value is the empty string. */
  ghost predicate StoredValue(b: string, span: Option<Span>, s: string, lo: nat, hi: nat) {
    match span
    case None => s == ""
    case Some(p) => s != "" && Stored(b, p, s, lo, hi)
  }

  ghost predicate HoldsAttributes(b: string, raws: seq<RawAttribute>, attributes: seq<Attribute>, lo: nat, hi: nat) {
    |raws| == |attributes| && forall k :: 0 <= k < |raws| ==>
      Stored(b, raws[k].name, attributes[k].name, lo, hi) && Stored(b, raws[k].value, attributes[k].value, lo, hi)
  }

  /** The buffer holds all strings of a node inside [lo, hi). */
  ghost predicate Holds(b: string, raw: RawNode, node: Node, lo: nat, hi: nat) {
    match raw
    case RawData(text) => node.Data? && Stored(b, text, node.text, lo, hi)
    case RawCData(text) => node.CData? && Stored(b, text, node.text, lo, hi)
    case RawElement(name, attributes, value, children) =>
      node.Element? && Stored(b, name, node.name, lo, hi) && HoldsAttributes(b, attributes, node.attributes, lo, hi)
      && StoredValue(b, value, node.value, lo, hi)
      && |children| == |node.children|
      && forall k :: 0 <= k < |children| ==> Holds(b, children[k], node.children[k], lo, hi)
  }

  ghost predicate HoldsAll(b: string, raws: seq<RawNode>, nodes: seq<Node>, lo: nat, hi: nat) {
    |raws| == |nodes| && forall k :: 0 <= k < |raws| ==> Holds(b, raws[k], nodes[k], lo, hi)
  }

  /** Two buffers agree on [lo, hi). */
  ghost predicate Same(b: string, c: string, lo: nat, hi: nat) {
    |b| == |c| && forall k :: lo <= k < hi && k < |b| ==> b[k] == c[k]
  }

  lemma StoredFrame(b: string, c: string, span: Span, s: string, lo: nat, hi: nat, lo': nat, hi': nat)
    requires Stored(b, span, s, lo, hi) && Same(b, c, lo, hi) && lo' <= lo && hi <= hi' <= |c|
    ensures Stored(c, span, s, lo', hi')
  {
    assert b[span.start..span.start + span.len] == c[span.start..span.start + span.len];
  }

  lemma AttributesFrame(b: string, c: string, raws: seq<RawAttribute>, attributes: seq<Attribute>,
                        lo: nat, hi: nat, lo': nat, hi': nat)
    requires HoldsAttributes(b, raws, attributes, lo, hi) && Same(b, c, lo, hi) && lo' <= lo && hi <= hi' <= |c|
    ensures HoldsAttributes(c, raws, attributes, lo', hi')
  {
    forall k | 0 <= k < |raws|
      ensures Stored(c, raws[k].name, attributes[k].name, lo', hi')
      ensures Stored(c, raws[k].value, attributes[k].value, lo', hi')
    {
      StoredFrame(b, c, raws[k].name, attributes[k].name, lo, hi, lo', hi');
      StoredFrame(b, c, raws[k].value, attributes[k].value, lo, hi, lo', hi');
    }
  }

  /** Writing outside its region does not touch a node. */
  lemma {:induction false} HoldsFrame(b: string, c: string, raw: RawNode, node: Node, lo: nat, hi: nat, lo': nat, hi': nat)
    requires Holds(b, raw, node, lo, hi) && Same(b, c, lo, hi) && lo' <= lo && hi <= hi' <= |c|
    ensures Holds(c, raw, node, lo', hi')
    decreases raw
  {
    hide Stored, Same;
    match raw
    case RawData(text) => StoredFrame(b, c, text, node.text, lo, hi, lo', hi');
    case RawCData(text) => StoredFrame(b, c, text, node.text, lo, hi, lo', hi');
    case RawElement(name, attributes, value, children) =>
      StoredFrame(b, c, name, node.name, lo, hi, lo', hi');
      AttributesFrame(b, c, attributes, node.attributes, lo, hi, lo', hi');
      ValueFrame(b, c, value, node.value, lo, hi, lo', hi');
      forall k | 0 <= k < |children| ensures Holds(c, children[k], node.children[k], lo', hi') {
        HoldsFrame(b, c, children[k], node.children[k], lo, hi, lo', hi');
      }
  }

  lemma ValueFrame(b: string, c: string, value: Option<Span>, s: string, lo: nat, hi: nat, lo': nat, hi': nat)
    requires StoredValue(b, value, s, lo, hi) && Same(b, c, lo, hi) && lo' <= lo && hi <= hi' <= |c|
    ensures StoredValue(c, value, s, lo', hi')
  {
    if value.Some? {
      StoredFrame(b, c, value.value, s, lo, hi, lo', hi');
    }
  }

  lemma AllFrame(b: string, c: string, raws: seq<RawNode>, nodes: seq<Node>, lo: nat, hi: nat, lo': nat, hi': nat)
    requires HoldsAll(b, raws, nodes, lo, hi) && Same(b, c, lo, hi) && lo' <= lo && hi <= hi' <= |c|
    ensures HoldsAll(c, raws, nodes, lo', hi')
  {
    forall k | 0 <= k < |raws| ensures Holds(c, raws[k], nodes[k], lo', hi') {
      HoldsFrame(b, c, raws[k], nodes[k], lo, hi, lo', hi');
    }
  }

  // ----- cursor loops -----

  method SkipClass(text: array<char>, i: nat, k: Class, ghost t: string) returns (j: nat)
    requires Cursor(t, i) && Unread(text, t, i)
    ensures j == Skip(t, i, k)
  {
    j := i;
    while In(text[j], k)
      invariant i <= j < |t| && Skip(t, i, k) == Skip(t, j, k)
      decreases |t| - j
    {
      j := j + 1;
    }
  }

  method FindWord(text: array<char>, i: nat, word: string, ghost t: string) returns (r: Scan)
    requires Cursor(t, i) && Unread(text, t, i) && NUL !in word
    ensures r == Find(t, i, word)
  {
    var j := i;
    var here := LooksAhead(text, j, word, t);
    while !here
      invariant i <= j < |t| && Find(t, i, word) == Find(t, j, word) && here == StandsAt(t, j, word)
      decreases |t| - j, !here
    {
      if text[j] == NUL {
        return Missed;
      }
      j := j + 1;
      here := LooksAhead(text, j, word, t);
    }
    return Reached(j);
  }

  method FindDoctypeEnd(text: array<char>, i: nat, ghost t: string) returns (r: Scan)
    requires Cursor(t, i) && Unread(text, t, i)
    ensures r == SkipDoctype(t, i)
  {
    var j := i;
    while text[j] != '>'
      invariant i <= j < |t| && SkipDoctype(t, i) == SkipDoctype(t, j)
      decreases |t| - j
    {
      if text[j] == NUL {
        return Missed;
      } else if text[j] == '[' {
        var b, depth := j + 1, 1;
        while depth > 0
          invariant j < b < |t| && depth >= 0 && SkipBrackets(t, j + 1, 1) == SkipBrackets(t, b, depth)
          decreases |t| - b, depth
        {
          if text[b] == NUL {
            return Missed;
          }
          depth := if text[b] == '[' then depth + 1 else if text[b] == ']' then depth - 1 else depth;
          b := b + 1;
        }
        j := b;
      } else {
        j := j + 1;
      }
    }
    return Reached(j + 1);
  }

  // ----- attributes -----

  /** A parsing step over [i, cur): everything before is as it was, everything from `cur` on is still the original
      text. */
  ghost predicate Advanced(before: string, after: string, t: string, i: nat, cur: nat) {
    i <= cur < |t| && |before| == |after| == |t| && Same(before, after, 0, i) && Same(after, t, cur, |t|)
  }

  /** Two steps in a row; the cursor may move on over characters that are not rewritten. */
  lemma AdvancedTwice(b0: string, b1: string, b2: string, t: string, i: nat, m: nat, n: nat, cur: nat, end: nat)
    requires Advanced(b0, b1, t, i, m) && m <= n && Advanced(b1, b2, t, n, cur) && cur <= end < |t|
    ensures Advanced(b0, b2, t, i, end)
  {
  }

  /** Where the rest of the text is unread, it still is further on. */
  lemma AdvancedUnread(before: string, text: array<char>, t: string, i: nat, cur: nat)
    requires Advanced(before, text[..], t, i, cur)
    ensures Unread(text, t, cur)
  {
  }

  /** Reads a quoted value and ends it with a terminator at or before its closing quote. */
  method ReadQuoted(text: array<char>, q: nat, ghost t: string)
    returns (error: Option<ParseError>, value: Span, cur: nat)
    requires Cursor(t, q) && Unread(text, t, q)
    modifies text
    ensures match ParseQuoted(t, q)
            case Fail(e) => error == Some(e)
            case Done(s, j) =>
              error == None && cur == j && Advanced(old(text[..]), text[..], t, q, j)
              && Stored(text[..], value, s, q, j)
  {
    value, cur := Span(0, 0), q;
    var quote := text[q];
    if quote != '\'' && quote != '\"' {
      return Some(ExpectedQuote), value, q;
    }
    var end;
    hide Decode;
    error, end, cur := SkipAndExpand(text, q + 1, quote, t);
    if error == None {
      if text[cur] != quote {
        return Some(ExpectedQuote), value, cur;
      }
      ghost var b, s := text[..], Decode(t, q + 1, quote).value;
      assert b[..end] == old(text[..q + 1]) + s;
      assert b[q + 1..end] == b[..end][q + 1..] == s;
      text[end] := NUL;
      value, cur := Span(q + 1, end - (q + 1)), cur + 1;
      ghost var c := text[..];
      assert c == b[end := NUL];
      assert c[q + 1..end] == b[q + 1..end];
    }
  }

  /** Reads `name =` and white space; the terminator of the name goes behind it, at the latest onto the equals sign. */
  method ReadName(text: array<char>, i: nat, ghost t: string)
    returns (error: Option<ParseError>, name: Span, q: nat)
    requires Cursor(t, i) && In(t[i], AttributeName) && Unread(text, t, i)
    modifies text
    ensures var n := Skip(t, i + 1, AttributeName);
            var e := Skip(t, n, Space);
            if t[e] != '=' then error == Some(ExpectedEquals)
            else error == None && q == Skip(t, e + 1, Space) && Advanced(old(text[..]), text[..], t, i, q)
                 && n < q && Stored(text[..], name, t[i..n], i, q)
  {
    assert t[i] != NUL;
    hide Stored, In;
    name := Span(0, 0);
    var n := SkipClass(text, i + 1, AttributeName, t);
    q := SkipClass(text, n, Space, t);
    if text[q] != '=' {
      return Some(ExpectedEquals), name, q;
    }
    ghost var b := text[..];
    text[n] := NUL;
    error, name := None, Span(i, n - i);
    q := SkipClass(text, q + 1, Space, t);
    NameStored(b, text[..], t, i, n, q);
  }

  /** A terminator written at `n`, behind the text [i, n). */
  lemma NameStored(b: string, c: string, t: string, i: nat, n: nat, end: nat)
    requires i <= n < end < |b| == |t| && Same(b, t, i, |t|) && c == b[n := NUL]
    ensures Stored(c, Span(i, n - i), t[i..n], i, end) && Advanced(b, c, t, i, end)
  {
    assert c[i..n] == t[i..n];
  }

  /** Reads a quoted value and white space. */
  method ReadValue(text: array<char>, q: nat, ghost t: string)
    returns (error: Option<ParseError>, value: Span, cur: nat)
    requires Cursor(t, q) && Unread(text, t, q)
    modifies text
    ensures match ParseQuoted(t, q)
            case Fail(e) => error == Some(e)
            case Done(v, k) =>
              error == None && cur == Skip(t, k, Space) && Advanced(old(text[..]), text[..], t, q, k)
              && Stored(text[..], value, v, q, k)
  {
    hide ParseQuoted, Stored, In, Same, Advanced;
    ghost var b := text[..];
    error, value, cur := ReadQuoted(text, q, t);
    if error == None {
      AdvancedUnread(b, text, t, q, cur);
      cur := SkipClass(text, cur, Space, t);
    }
  }

  /** Reads one attribute. */
  method ReadAttribute(text: array<char>, i: nat, ghost t: string)
    returns (error: Option<ParseError>, raw: RawAttribute, cur: nat)
    requires Cursor(t, i) && In(t[i], AttributeName) && Unread(text, t, i)
    modifies text
    ensures match ParseAttribute(t, i)
            case Fail(e) => error == Some(e)
            case Done(a, j) =>
              error == None && cur == j && Advanced(old(text[..]), text[..], t, i, j)
              && Stored(text[..], raw.name, a.name, i, j) && Stored(text[..], raw.value, a.value, i, j)
  {
    assert t[i] != NUL;
    hide ParseAttribute, ParseQuoted, Stored, In, Same, Advanced;
    var name, value, q := Span(0, 0), Span(0, 0), i;
    ghost var n, b0 := Skip(t, i + 1, AttributeName), text[..];
    OneAttribute(t, i, n, Skip(t, n, Space));
    error, name, q := ReadName(text, i, t);
    cur := q;
    if error == None {
      ghost var b1 := text[..];
      AdvancedUnread(b0, text, t, i, q);
      error, value, cur := ReadValue(text, q, t);
      if error == None {
        ghost var r := ParseQuoted(t, q);
        AdvancedTwice(b0, b1, text[..], t, i, q, q, r.next, cur);
        AttributeStored(b1, text[..], t, name, t[i..n], value, r.value, i, q, r.next, cur);
      }
    }
    raw := RawAttribute(name, value);
  }

  lemma AttributeStored(b: string, c: string, t: string, name: Span, n: string, value: Span, v: string,
                        i: nat, q: nat, k: nat, end: nat)
    requires Stored(b, name, n, i, q) && Advanced(b, c, t, q, k) && Stored(c, value, v, q, k)
    requires i <= q <= k <= end < |t|
    ensures Stored(c, name, n, i, end) && Stored(c, value, v, i, end)
  {
    StoredFrame(b, c, name, n, i, q, i, end);
    StoredFrame(c, c, value, v, q, k, i, end);
  }

  lemma OneAttribute(t: string, i: nat, n: nat, e: nat)
    requires Cursor(t, i) && In(t[i], AttributeName) && n == Skip(t, i + 1, AttributeName) && e == Skip(t, n, Space)
    ensures t[e] != '=' ==> ParseAttribute(t, i) == Fail(ExpectedEquals)
    ensures t[e] == '=' ==>
              var r := ParseQuoted(t, Skip(t, e + 1, Space));
              ParseAttribute(t, i) ==
              if r.Fail? then Fail(r.error) else Done(Attribute(t[i..n], r.value), Skip(t, r.next, Space))
  {
    hide ParseQuoted, Skip;
  }

  /** Reads all attributes. */
  method ReadAttributes(text: array<char>, i: nat, ghost t: string)
    returns (error: Option<ParseError>, raws: seq<RawAttribute>, cur: nat)
    requires Cursor(t, i) && Unread(text, t, i)
    modifies text
    ensures match ParseAttributes(t, i)
            case Fail(e) => error == Some(e)
            case Done(v, j) =>
              error == None && cur == j && Advanced(old(text[..]), text[..], t, i, j)
              && HoldsAttributes(text[..], raws, v, i, j)
  {
    hide ParseAttribute, Stored, HoldsAttributes, In;
    error, raws, cur := None, [], i;
    NoAttributesHeld(text[..], i);
    assert AddAttributes([], ParseAttributes(t, i)) == ParseAttributes(t, i) by {
      var r := ParseAttributes(t, i);
      assert r.Done? ==> [] + r.value == r.value;
    }
    ghost var done: seq<Attribute> := [];
    while In(text[cur], AttributeName)
      invariant error == None && Advanced(old(text[..]), text[..], t, i, cur)
      invariant HoldsAttributes(text[..], raws, done, i, cur)
      invariant ParseAttributes(t, i) == AddAttributes(done, ParseAttributes(t, cur))
      decreases |t| - cur
    {
      var raw;
      ghost var b, was := text[..], cur;
      error, raw, cur := ReadAttribute(text, cur, t);
      if error != None {
        return;
      }
      ghost var a := ParseAttribute(t, was).value;
      OneMoreAttribute(b, text[..], t, raws, done, raw, a, i, was, cur);
      AttributesStep(done, t, was);
      raws, done := raws + [raw], done + [a];
    }
    assert done + [] == done;
  }

  lemma NoAttributesHeld(b: string, i: nat)
    ensures HoldsAttributes(b, [], [], i, i)
  {
  }

  ghost function AddAttributes(done: seq<Attribute>, r: Parse<seq<Attribute>>): Parse<seq<Attribute>> {
    match r
    case Fail(e) => r
    case Done(rest, k) => Done(done + rest, k)
  }

  lemma AttributesStep(done: seq<Attribute>, t: string, i: nat)
    requires Cursor(t, i) && In(t[i], AttributeName) && ParseAttribute(t, i).Done?
    ensures var r := ParseAttribute(t, i);
            AddAttributes(done, ParseAttributes(t, i)) == AddAttributes(done + [r.value], ParseAttributes(t, r.next))
  {
    hide ParseAttribute, In;
    var r := ParseAttribute(t, i);
    var rest := ParseAttributes(t, r.next);
    if rest.Done? {
      assert done + ([r.value] + rest.value) == done + [r.value] + rest.value;
    }
  }

  lemma OneMoreAttribute(b: string, c: string, t: string, raws: seq<RawAttribute>, done: seq<Attribute>,
                         raw: RawAttribute, a: Attribute, lo: nat, mid: nat, hi: nat)
    requires HoldsAttributes(b, raws, done, lo, mid) && Advanced(b, c, t, mid, hi) && lo <= mid
    requires Stored(c, raw.name, a.name, mid, hi) && Stored(c, raw.value, a.value, mid, hi)
    ensures HoldsAttributes(c, raws + [raw], done + [a], lo, hi)
  {
    AttributesFrame(b, c, raws, done, lo, mid, lo, hi);
    StoredFrame(c, c, raw.name, a.name, mid, hi, lo, hi);
    StoredFrame(c, c, raw.value, a.value, mid, hi, lo, hi);
  }

  // ----- nodes -----

  ghost predicate HoldsOption(b: string, raw: Option<RawNode>, node: Option<Node>, lo: nat, hi: nat) {
    (raw.Some? <==> node.Some?) && (raw.Some? ==> Holds(b, raw.value, node.value, lo, hi))
  }

  /** Moving on to what a scan found. */
  method DropTo(r: Scan) returns (error: Option<ParseError>, node: Option<RawNode>, cur: nat)
    ensures node == None && (if r.Reached? then error == None && cur == r.next else error == Some(UnexpectedEnd))
  {
    node := None;
    if r.Reached? {
      error, cur := None, r.next;
    } else {
      error, cur := Some(UnexpectedEnd), 0;
    }
  }

  /** Position behind a word. */
  method FindPast(text: array<char>, i: nat, word: string, ghost t: string) returns (r: Scan)
    requires Cursor(t, i) && Unread(text, t, i) && NUL !in word
    ensures r == SkipPast(t, i, word)
  {
    r := FindWord(text, i, word, t);
    if r.Reached? {
      r := Reached(r.next + |word|);
    }
  }

  /** A CDATA section: its text stays where it is, its terminator goes onto the end mark. */
  method ReadCData(text: array<char>, i: nat, ghost t: string)
    returns (error: Option<ParseError>, node: Option<RawNode>, cur: nat)
    requires Cursor(t, i) && Unread(text, t, i)
    modifies text
    ensures match ParseCData(t, i)
            case Fail(e) => error == Some(e)
            case Done(v, j) =>
              error == None && cur == j && Advanced(old(text[..]), text[..], t, i, j)
              && HoldsOption(text[..], node, v, i, j)
  {
    var r := FindWord(text, i, "]]>", t);
    error, node, cur := DropTo(r);
    if r.Reached? {
      assert text[i..cur] == t[i..cur];
      text[cur] := NUL;
      assert text[..][i..cur] == t[i..cur];
      node, cur := Some(RawCData(Span(i, cur - i))), cur + 3;
    }
  }

  /** What follows "<!". */
  method ReadBang(text: array<char>, i: nat, ghost t: string)
    returns (error: Option<ParseError>, node: Option<RawNode>, cur: nat)
    requires Cursor(t, i) && t[i] == '!' && Unread(text, t, i)
    modifies text
    ensures match ParseBang(t, i)
            case Fail(e) => error == Some(e)
            case Done(v, j) =>
              error == None && cur == j && Advanced(old(text[..]), text[..], t, i, j)
              && HoldsOption(text[..], node, v, i, j)
  {
    hide ParseCData, StandsAt, SkipPast, SkipDoctype, Holds;
    var r: Scan;
    var here := LooksAhead(text, i + 1, "--", t);
    if here {
      r := FindPast(text, i + 3, "-->", t);
    } else {
      here := LooksAhead(text, i + 1, "[CDATA[", t);
      if here {
        error, node, cur := ReadCData(text, i + 8, t);
        if error == None {
          OptionFrame(text[..], node, ParseCData(t, i + 8).value, i + 8, cur, i, cur);
        }
        return;
      }
      here := LooksAhead(text, i + 1, "DOCTYPE", t);
      if here && IsSpace(text[i + 8]) {
        r := FindDoctypeEnd(text, i + 9, t);
      } else {
        r := FindPast(text, i + 1, ">", t);
      }
    }
    error, node, cur := DropTo(r);
  }

  lemma OptionFrame(b: string, raw: Option<RawNode>, node: Option<Node>, lo: nat, hi: nat, lo': nat, hi': nat)
    requires HoldsOption(b, raw, node, lo, hi) && lo' <= lo && hi <= hi' <= |b|
    ensures HoldsOption(b, raw, node, lo', hi')
  {
    if raw.Some? {
      HoldsFrame(b, b, raw.value, node.value, lo, hi, lo', hi');
    }
  }

  // ----- elements and their contents -----

  ghost function AddAll(done: seq<Node>, r: Parse<seq<Node>>): Parse<seq<Node>> {
    match r
    case Fail(e) => r
    case Done(rest, k) => Done(done + rest, k)
  }

  ghost function Nodes(node: Option<Node>): seq<Node> { if node.Some? then [node.value] else [] }

  lemma AddAllNone(r: Parse<seq<Node>>)
    ensures AddAll([], r) == r
  {
    if r.Done? {
      assert [] + r.value == r.value;
    }
  }

  lemma AddAllOne(done: seq<Node>, node: Option<Node>, r: Parse<seq<Node>>)
    ensures AddAll(done, Add(node, r)) == AddAll(done + Nodes(node), r)
  {
    if r.Done? {
      assert done + ([if node.Some? then node.value else Data("")] + r.value) ==
             done + [if node.Some? then node.value else Data("")] + r.value;
      assert node.None? ==> done + Nodes(node) == done;
    }
  }

  lemma AllHeldSnoc(b: string, raws: seq<RawNode>, done: seq<Node>, raw: RawNode, node: Node, lo: nat, hi: nat)
    requires HoldsAll(b, raws, done, lo, hi) && Holds(b, raw, node, lo, hi)
    ensures HoldsAll(b, raws + [raw], done + [node], lo, hi)
  {
    hide Holds;
  }

  /** A new data node takes over the value if the value so far is empty or starts with the terminator. */
  lemma ValueSnoc(done: seq<Node>, text: string)
    ensures ElementValue(done + [Data(text)]) ==
            if ElementValue(done) == "" || ElementValue(done)[0] == NUL then text else ElementValue(done)
  {
    assert (done + [Data(text)])[..|done|] == done;
  }

  lemma ValueSnocOther(done: seq<Node>, node: Option<Node>)
    requires node.Some? ==> !node.value.Data?
    ensures ElementValue(done + Nodes(node)) == ElementValue(done)
  {
    if node.Some? {
      assert (done + Nodes(node))[..|done|] == done;
    } else {
      assert done + Nodes(node) == done;
    }
  }

  /** Children and value read so far, on [lo, hi). */
  ghost predicate HoldsSoFar(b: string, raws: seq<RawNode>, value: Option<Span>, done: seq<Node>, lo: nat, hi: nat) {
    HoldsAll(b, raws, done, lo, hi) && StoredValue(b, value, ElementValue(done), lo, hi)
  }

  lemma SoFarFrame(b: string, c: string, raws: seq<RawNode>, value: Option<Span>, done: seq<Node>,
                   lo: nat, hi: nat, hi': nat)
    requires HoldsSoFar(b, raws, value, done, lo, hi) && |b| == |c| && Same(b, c, 0, hi) && hi <= hi' <= |c|
    ensures HoldsSoFar(c, raws, value, done, lo, hi')
  {
    AllFrame(b, c, raws, done, lo, hi, lo, hi');
    ValueFrame(b, c, value, ElementValue(done), lo, hi, lo, hi');
  }

  lemma FirstOfValue(b0: string, b1: string, raws: seq<RawNode>, value: Option<Span>, done: seq<Node>, lo: nat, start: nat)
    requires HoldsSoFar(b0, raws, value, done, lo, start) && |b0| == |b1| && Same(b0, b1, 0, start)
    ensures value.None? <==> ElementValue(done) == ""
    ensures value.Some? ==> value.value.start < |b1| && b1[value.value.start] == ElementValue(done)[0]
  {
    hide HoldsAll, ElementValue;
    if value.Some? {
      var p, v := value.value, ElementValue(done);
      assert b0[p.start..p.start + p.len][0] == v[0];
    }
  }

  /** After `end` was terminated: the new data node and the possibly new value are held, the old ones still are. */
  lemma DataHeld(b0: string, b1: string, b2: string, t: string, raws: seq<RawNode>, value: Option<Span>, done: seq<Node>,
                 lo: nat, start: nat, end: nat, cur: nat, s: string)
    requires HoldsSoFar(b0, raws, value, done, lo, start) && lo <= start
    requires |b0| == |b1| == |t| && end == start + |s| <= cur && cur + 1 < |t| && s != ""
    requires b1[..end] == b0[..start] + s && Same(b1, t, end, |t|) && b2 == b1[end := NUL]
    ensures Advanced(b0, b2, t, start, cur + 1)
    ensures var v := ElementValue(done);
            var span := Span(start, end - start);
            HoldsSoFar(b2, raws + [RawData(span)], if v == "" || v[0] == NUL then Some(span) else value,
                       done + [Data(s)], lo, cur + 1)
  {
    hide ElementValue, Holds;
    var span := Span(start, end - start);
    assert forall k :: 0 <= k < start ==> b1[k] == b1[..end][k] == b0[k];
    assert b2[start..end] == b1[..end][start..] == s;
    assert Stored(b2, span, s, lo, cur + 1);
    hide Stored;
    SoFarFrame(b0, b2, raws, value, done, lo, start, cur + 1);
    DataHolds(b2, span, s, lo, cur + 1);
    AllHeldSnoc(b2, raws, done, RawData(span), Data(s), lo, cur + 1);
    ValueSnoc(done, s);
  }

  lemma DataHolds(b: string, span: Span, s: string, lo: nat, hi: nat)
    requires Stored(b, span, s, lo, hi)
    ensures Holds(b, RawData(span), Data(s), lo, hi)
  {
  }

  /** `parse_and_append_data`: reads a data node from `start` on, ends it with a terminator, which may go onto the
      character that ended it, and hands that character back. */
  method AppendData(text: array<char>, start: nat, raws: seq<RawNode>, value: Option<Span>,
                    ghost t: string, ghost done: seq<Node>, ghost lo: nat)
    returns (error: Option<ParseError>, raws': seq<RawNode>, value': Option<Span>, cur: nat, next: char)
    requires Cursor(t, start) && Unread(text, t, start) && Continues(t[start], '<')
    requires HoldsSoFar(text[..], raws, value, done, lo, start) && lo <= start
    modifies text
    ensures match Decode(t, start, '<')
            case Fail(e) => error == Some(e)
            case Done(s, k) =>
              error == None && cur == k && next == t[k]
              && (next == '<' ==> Advanced(old(text[..]), text[..], t, start, k + 1)
                                  && HoldsSoFar(text[..], raws', value', done + [Data(s)], lo, k + 1))
  {
    hide Decode, HoldsSoFar, Holds, ElementValue;
    raws', value', next := raws, value, '<';
    ghost var b0 := text[..];
    var end;
    error, end, cur := SkipAndExpand(text, start, '<', t);
    if error == None {
      ghost var b1, s := text[..], Decode(t, start, '<').value;
      var data := Span(start, end - start);
      FirstOfValue(b0, b1, raws, value, done, lo, start);
      if value == None || text[value.value.start] == NUL {
        value' := Some(data);
      }
      raws', next := raws + [RawData(data)], text[cur];
      text[end] := NUL;
      if next == '<' {
        DataHeld(b0, b1, text[..], t, raws, value, done, lo, start, end, cur, s);
      }
    }
  }

  lemma NothingHeld(b: string, t: string, i: nat)
    requires Cursor(t, i) && |b| == |t| && Same(b, t, i, |t|)
    ensures Advanced(b, b, t, i, i) && HoldsSoFar(b, [], None, [], i, i)
  {
  }

  lemma AddAllFail(done: seq<Node>, e: ParseError)
    ensures AddAll(done, Fail(e)) == Fail(e)
  {
  }

  /** The parser's view of what comes next: nothing more, a data node first, or markup at once. */
  lemma LeadStep(done: seq<Node>, t: string, i: nat, j: nat)
    requires Cursor(t, i) && j == Skip(t, i, Space)
    ensures Continues(t[j], '<') ==> Continues(t[i], '<')
    ensures Continues(t[j], '<') && Decode(t, i, '<').Fail? ==> ParseContents(t, i) == Fail(Decode(t, i, '<').error)
    ensures Continues(t[j], '<') && Decode(t, i, '<').Done? ==>
              var d := Decode(t, i, '<');
              if t[d.next] == '<'
              then AddAll(done, ParseContents(t, i)) == AddAll(done + [Data(d.value)], ParseMarkup(t, d.next))
              else ParseContents(t, i) == Fail(UnexpectedEnd)
    ensures t[j] == '<' ==> ParseContents(t, i) == ParseMarkup(t, j)
    ensures t[j] == NUL ==> ParseContents(t, i) == Fail(UnexpectedEnd)
  {
    hide Decode, AddAll;
    if Continues(t[j], '<') && Decode(t, i, '<').Done? {
      var d := Decode(t, i, '<');
      AddAllOne(done, Some(Data(d.value)), ParseMarkup(t, d.next));
    }
  }

  /** White space, or a data node, ahead of the next tag. On success `cur` is at the '<' of the original text. */
  method ReadLead(text: array<char>, start: nat, raws: seq<RawNode>, value: Option<Span>,
                  ghost t: string, ghost done: seq<Node>, ghost lo: nat, ghost b0: string)
    returns (error: Option<ParseError>, raws': seq<RawNode>, value': Option<Span>, ghost done': seq<Node>, cur: nat)
    requires Cursor(t, start) && Advanced(b0, text[..], t, lo, start) && HoldsSoFar(text[..], raws, value, done, lo, start)
    modifies text
    ensures error.Some? ==> ParseContents(t, start) == Fail(error.value)
    ensures error == None ==>
              start <= cur && cur + 1 < |t| && t[cur] == '<'
              && Advanced(b0, text[..], t, lo, cur + 1) && HoldsSoFar(text[..], raws', value', done', lo, cur + 1)
              && AddAll(done, ParseContents(t, start)) == AddAll(done', ParseMarkup(t, cur))
  {
    hide ParseContents, ParseMarkup, HoldsSoFar, Decode, AddAll, Advanced;
    AdvancedUnread(b0, text, t, lo, start);
    AdvancedBounds(b0, text[..], t, lo, start);
    ghost var b1 := text[..];
    error, raws', value', done' := None, raws, value, done;
    cur := SkipClass(text, start, Space, t);
    LeadStep(done, t, start, cur);
    var next := text[cur];
    if next != '<' && next != NUL {
      error, raws', value', cur, next := AppendData(text, start, raws, value, t, done, lo);
      if error == None && next == '<' {
        done' := done + [Data(Decode(t, start, '<').value)];
        AdvancedTwice(b0, b1, text[..], t, lo, start, start, cur + 1, cur + 1);
      }
    } else if next == '<' {
      AdvancedFurther(b0, b1, t, lo, start, cur + 1);
      SoFarFrame(b1, b1, raws, value, done, lo, start, cur + 1);
    }
    if error == None && next == NUL {
      error := Some(UnexpectedEnd);
    }
  }

  lemma AdvancedBounds(b: string, c: string, t: string, i: nat, cur: nat)
    requires Advanced(b, c, t, i, cur)
    ensures i <= cur < |t| && |b| == |c| == |t| && Same(c, c, 0, |c|)
  {
  }

  lemma AdvancedFurther(b: string, c: string, t: string, i: nat, cur: nat, end: nat)
    requires Advanced(b, c, t, i, cur) && cur <= end < |t|
    ensures Advanced(b, c, t, i, end) && |b| == |c|
  {
  }

  /** A closing tag at text[from], which may have been overwritten. */
  method ReadClosing(text: array<char>, from: nat, ghost t: string) returns (error: Option<ParseError>, cur: nat)
    requires Cursor(t, from) && t[from] == '<' && t[from + 1] == '/' && Unread(text, t, from + 1)
    ensures match ParseMarkup(t, from)
            case Fail(e) => error == Some(e)
            case Done(v, j) => error == None && cur == j && v == [] && from < cur
  {
    var n := SkipClass(text, from + 2, NodeName, t);
    cur := SkipClass(text, n, Space, t);
    if text[cur] == '>' {
      error, cur := None, cur + 1;
    } else {
      error := Some(ExpectedGreater);
    }
  }

  lemma ChildStep(done: seq<Node>, t: string, from: nat)
    requires Cursor(t, from) && t[from] == '<' && t[from + 1] != '/'
    ensures var r := ParseNode(t, from + 1);
            if r.Fail? then ParseMarkup(t, from) == Fail(r.error)
            else AddAll(done, ParseMarkup(t, from)) == AddAll(done + Nodes(r.value), ParseContents(t, r.next))
                 && (r.value.Some? ==> !r.value.value.Data?)
  {
    hide AddAll, ParseContents;
    var r := ParseNode(t, from + 1);
    if r.Done? {
      AddAllOne(done, r.value, ParseContents(t, r.next));
      NotData(t, from + 1);
    }
  }

  lemma NotData(t: string, i: nat)
    requires Cursor(t, i) && ParseNode(t, i).Done?
    ensures ParseNode(t, i).value.Some? ==> !ParseNode(t, i).value.value.Data?
  {
  }

  ghost function Raws(node: Option<RawNode>): seq<RawNode> { if node.Some? then [node.value] else [] }

  lemma ChildHeld(b0: string, b1: string, b2: string, t: string, raws: seq<RawNode>, value: Option<Span>,
                  done: seq<Node>, node: Option<RawNode>, child: Option<Node>, lo: nat, mid: nat, cur: nat)
    requires Advanced(b0, b1, t, lo, mid) && HoldsSoFar(b1, raws, value, done, lo, mid)
    requires Advanced(b1, b2, t, mid, cur) && HoldsOption(b2, node, child, mid, cur)
    requires child.Some? ==> !child.value.Data?
    ensures Advanced(b0, b2, t, lo, cur)
    ensures HoldsSoFar(b2, raws + Raws(node), value, done + Nodes(child), lo, cur)
  {
    hide Holds, ElementValue;
    AdvancedTwice(b0, b1, b2, t, lo, mid, mid, cur, cur);
    SoFarFrame(b1, b2, raws, value, done, lo, mid, cur);
    OptionFrame(b2, node, child, mid, cur, lo, cur);
    ValueSnocOther(done, child);
    if node.Some? {
      AllHeldSnoc(b2, raws, done, node.value, child.value, lo, cur);
    } else {
      assert raws + Raws(node) == raws && done + Nodes(child) == done;
    }
  }

  /** `parse_node_contents`: children up to behind the closing tag. */
  method ReadContents(text: array<char>, i: nat, ghost t: string)
    returns (error: Option<ParseError>, raws: seq<RawNode>, value: Option<Span>, cur: nat)
    requires Cursor(t, i) && Unread(text, t, i)
    modifies text
    ensures match ParseContents(t, i)
            case Fail(e) => error == Some(e)
            case Done(v, j) =>
              error == None && cur == j && Advanced(old(text[..]), text[..], t, i, j)
              && HoldsSoFar(text[..], raws, value, v, i, j)
    decreases text.Length - i, 4
  {
    hide ParseContents, ParseMarkup, HoldsSoFar, HoldsOption, Decode, Advanced;
    error, raws, value, cur := None, [], None, i;
    ghost var b0, done: seq<Node> := text[..], [];
    NothingHeld(b0, t, i);
    AddAllNone(ParseContents(t, i));
    while true
      invariant error == None && i <= cur < |t| && Advanced(b0, text[..], t, i, cur)
      invariant HoldsSoFar(text[..], raws, value, done, i, cur)
      invariant ParseContents(t, i) == AddAll(done, ParseContents(t, cur))
      decreases |t| - cur
    {
      error, raws, value, done, cur := ReadLead(text, cur, raws, value, t, done, i, b0);
      if error != None {
        return;
      }
      AdvancedUnread(b0, text, t, i, cur + 1);
      ghost var b1, from := text[..], cur;
      if text[cur + 1] == '/' {
        error, cur := ReadClosing(text, cur, t);
        if error == None {
          assert done + [] == done;
          AdvancedFurther(b0, b1, t, i, from + 1, cur);
          SoFarFrame(b1, b1, raws, value, done, i, from + 1, cur);
        }
        return;
      }
      var node;
      ChildStep(done, t, from);
      error, node, cur := ReadNode(text, cur + 1, t);
      if error != None {
        return;
      }
      ghost var child := ParseNode(t, from + 1).value;
      ChildHeld(b0, b1, text[..], t, raws, value, done, node, child, i, from + 1, cur);
      raws, done := raws + (if node.Some? then [node.value] else []), done + Nodes(child);
    }
  }

  /** What stands behind the attributes. */
  method ReadRest(text: array<char>, i: nat, ghost t: string)
    returns (error: Option<ParseError>, raws: seq<RawNode>, value: Option<Span>, cur: nat)
    requires Cursor(t, i) && Unread(text, t, i)
    modifies text
    ensures match ParseRest(t, i)
            case Fail(e) => error == Some(e)
            case Done(v, j) =>
              error == None && cur == j && Advanced(old(text[..]), text[..], t, i, j)
              && HoldsSoFar(text[..], raws, value, v, i + 1, j)
    decreases text.Length - i, 0
  {
    hide ParseContents, HoldsSoFar;
    error, raws, value, cur := None, [], None, i;
    ghost var b0 := text[..];
    if text[i] == '>' {
      error, raws, value, cur := ReadContents(text, i + 1, t);
    } else if text[i] == '/' && text[i + 1] == '>' {
      cur := i + 2;
      NothingHeld(b0, t, i + 1);
      SoFarFrame(b0, b0, [], None, [], i + 1, i + 1, cur);
    } else {
      error := Some(ExpectedGreater);
    }
  }

  /** `parse_element`. */
  method ReadElement(text: array<char>, i: nat, ghost t: string)
    returns (error: Option<ParseError>, node: Option<RawNode>, cur: nat)
    requires Cursor(t, i) && Unread(text, t, i)
    modifies text
    ensures match ParseElement(t, i)
            case Fail(e) => error == Some(e)
            case Done(v, j) =>
              error == None && cur == j && Advanced(old(text[..]), text[..], t, i, j)
              && HoldsOption(text[..], node, v, i, j)
    decreases text.Length - i, 1
  {
    hide ParseAttributes, ParseRest, HoldsSoFar, HoldsAttributes, HoldsOption, Advanced;
    node := None;
    ghost var b0 := text[..];
    var n := SkipClass(text, i, NodeName, t);
    if n == i {
      return Some(ExpectedElementName), node, i;
    }
    ghost var a := Skip(t, n, Space);
    var attributes, children, value;
    cur := SkipClass(text, n, Space, t);
    error, attributes, cur := ReadAttributes(text, cur, t);
    if error != None {
      return;
    }
    ghost var b1, k := text[..], cur;
    AdvancedUnread(b0, text, t, a, k);
    error, children, value, cur := ReadRest(text, cur, t);
    if error != None {
      return;
    }
    ghost var b2 := text[..];
    text[n] := NUL;
    node := Some(RawElement(Span(i, n - i), attributes, value, children));
    AttributesBehindName(t, i, n, a);
    ElementHeld(b0, b1, b2, text[..], t, i, n, a, k, cur, attributes, value, children,
                ParseAttributes(t, a).value, ParseRest(t, k).value);
    AsOption(text[..], node.value, ParseElement(t, i).value.value, i, cur);
  }

  lemma AsOption(b: string, raw: RawNode, node: Node, lo: nat, hi: nat)
    requires Holds(b, raw, node, lo, hi)
    ensures HoldsOption(b, Some(raw), Some(node), lo, hi)
  {
  }

  /** The name's terminator is written last and touches neither attributes nor children. */
  lemma ElementHeld(b0: string, b1: string, b2: string, b3: string, t: string, i: nat, n: nat, a: nat, k: nat, end: nat,
                    attributes: seq<RawAttribute>, value: Option<Span>, children: seq<RawNode>,
                    shown: seq<Attribute>, nodes: seq<Node>)
    requires |b0| == |t| && Same(b0, t, i, |t|) && i <= n <= a <= k && (shown != [] ==> n < a)
    requires Advanced(b0, b1, t, a, k) && HoldsAttributes(b1, attributes, shown, a, k)
    requires Advanced(b1, b2, t, k, end) && HoldsSoFar(b2, children, value, nodes, k + 1, end)
    requires k < end && b3 == b2[n := NUL]
    ensures Advanced(b0, b3, t, i, end)
    ensures Holds(b3, RawElement(Span(i, n - i), attributes, value, children),
                  Element(t[i..n], shown, ElementValue(nodes), nodes), i, end)
  {
    ElementFrames(b0, b1, b2, b3, t, i, n, a, k, end);
    hide ElementValue, Holds, Stored, HoldsAttributes, Same, Advanced;
    if shown != [] {
      AttributesFrame(b1, b3, attributes, shown, a, k, i, end);
    } else {
      NoneHeld(b1, b3, attributes, a, k, i, end);
    }
    AllFrame(b2, b3, children, nodes, k + 1, end, i, end);
    ValueFrame(b2, b3, value, ElementValue(nodes), k + 1, end, i, end);
    NameHeld(b3, t, i, n, end);
    ElementHolds(b3, Span(i, n - i), attributes, value, children, Element(t[i..n], shown, ElementValue(nodes), nodes), i, end);
  }

  lemma ElementFrames(b0: string, b1: string, b2: string, b3: string, t: string, i: nat, n: nat, a: nat, k: nat, end: nat)
    requires |b0| == |t| && Same(b0, t, i, |t|) && i <= n <= a <= k < end
    requires Advanced(b0, b1, t, a, k) && Advanced(b1, b2, t, k, end) && b3 == b2[n := NUL]
    ensures Advanced(b0, b3, t, i, end) && Same(b2, b3, k + 1, end) && |b3| == |t| && b3[n] == NUL
    ensures n < a ==> Same(b1, b3, a, k)
    ensures forall m :: i <= m < n ==> b3[m] == t[m]
  {
  }

  lemma ElementHolds(b: string, name: Span, attributes: seq<RawAttribute>, value: Option<Span>, children: seq<RawNode>,
                     node: Node, lo: nat, hi: nat)
    requires node.Element? && Stored(b, name, node.name, lo, hi) && HoldsAttributes(b, attributes, node.attributes, lo, hi)
    requires StoredValue(b, value, node.value, lo, hi) && HoldsAll(b, children, node.children, lo, hi)
    ensures Holds(b, RawElement(name, attributes, value, children), node, lo, hi)
  {
  }

  lemma NameHeld(b: string, t: string, i: nat, n: nat, end: nat)
    requires i <= n < end <= |b| == |t| && b[n] == NUL && forall k :: i <= k < n ==> b[k] == t[k]
    ensures Stored(b, Span(i, n - i), t[i..n], i, end)
  {
  }

  /** Attributes start behind the terminator of the element name. */
  lemma AttributesBehindName(t: string, i: nat, n: nat, a: nat)
    requires Cursor(t, i) && n == Skip(t, i, NodeName) && a == Skip(t, n, Space) && ParseAttributes(t, a).Done?
    ensures ParseAttributes(t, a).value != [] ==> n < a
  {
    hide Skip, ParseAttribute;
  }

  lemma NoneHeld(b: string, c: string, raws: seq<RawAttribute>, lo: nat, hi: nat, lo': nat, hi': nat)
    requires HoldsAttributes(b, raws, [], lo, hi)
    ensures HoldsAttributes(c, raws, [], lo', hi')
  {
  }

  /** `parse_node`. */
  method ReadNode(text: array<char>, i: nat, ghost t: string)
    returns (error: Option<ParseError>, node: Option<RawNode>, cur: nat)
    requires Cursor(t, i) && Unread(text, t, i)
    modifies text
    ensures match ParseNode(t, i)
            case Fail(e) => error == Some(e)
            case Done(v, j) =>
              error == None && cur == j && Advanced(old(text[..]), text[..], t, i, j)
              && HoldsOption(text[..], node, v, i, j)
    decreases text.Length - i, 2
  {
    hide ParseElement, ParseBang, SkipPast;
    if text[i] == '?' {
      var r := FindPast(text, i + 1, "?>", t);
      error, node, cur := DropTo(r);
    } else if text[i] == '!' {
      error, node, cur := ReadBang(text, i, t);
    } else {
      error, node, cur := ReadElement(text, i, t);
    }
  }

  // ----- documents -----

  /** The parser's view of the next top-level node. */
  lemma DocumentStep(done: seq<Node>, t: string, i: nat, j: nat)
    requires Cursor(t, i) && j == Skip(t, i, Space)
    ensures t[j] == NUL ==> ParseNodes(t, i) == Done([], j)
    ensures t[j] != NUL && t[j] != '<' ==> ParseNodes(t, i) == Fail(ExpectedLess)
    ensures t[j] == '<' ==>
              var r := ParseNode(t, j + 1);
              if r.Fail? then ParseNodes(t, i) == Fail(r.error)
              else AddAll(done, ParseNodes(t, i)) == AddAll(done + Nodes(r.value), ParseNodes(t, r.next))
  {
    hide AddAll, ParseNode;
    if t[j] == '<' && ParseNode(t, j + 1).Done? {
      var r := ParseNode(t, j + 1);
      AddAllOne(done, r.value, ParseNodes(t, r.next));
    }
  }

  lemma RootHeld(b1: string, b2: string, t: string, raws: seq<RawNode>, done: seq<Node>,
                 node: Option<RawNode>, child: Option<Node>, mid: nat, cur: nat)
    requires HoldsAll(b1, raws, done, 0, mid) && Advanced(b1, b2, t, mid, cur) && HoldsOption(b2, node, child, mid, cur)
    ensures HoldsAll(b2, raws + Raws(node), done + Nodes(child), 0, cur)
  {
    hide Holds;
    AllFrame(b1, b2, raws, done, 0, mid, 0, cur);
    OptionFrame(b2, node, child, mid, cur, 0, cur);
    if node.Some? {
      AllHeldSnoc(b2, raws, done, node.value, child.value, 0, cur);
    } else {
      assert raws + Raws(node) == raws && done + Nodes(child) == done;
    }
  }

  /** `xml_document::parse<0>` on a zero-terminated buffer: decides and builds exactly what the parser functions say
      about the text as it was before the call, and leaves every name and value zero-terminated in the buffer. */
  method Parse(text: array<char>) returns (error: Option<ParseError>, raws: seq<RawNode>)
    requires text.Length > 0 && text[text.Length - 1] == NUL
    modifies text
    ensures match ParseDocument(old(text[..]))
            case Fail(e) => error == Some(e)
            case Done(v, _) => error == None && HoldsAll(text[..], raws, v, 0, text.Length)
  {
    hide ParseNodes, HoldsAll, HoldsOption, AddAll, Advanced, ParseNode, In;
    ghost var t := text[..];
    error, raws := None, [];
    var bom := LooksAhead(text, 0, BOM, t);
    var cur := if bom then 3 else 0;
    ghost var start, done: seq<Node> := cur, [];
    AddAllNone(ParseNodes(t, cur));
    NoRoots(t, cur);
    while true
      invariant error == None && cur < |t| && Unread(text, t, cur)
      invariant HoldsAll(text[..], raws, done, 0, cur)
      invariant ParseNodes(t, start) == AddAll(done, ParseNodes(t, cur))
      decreases |t| - cur
    {
      ghost var from := cur;
      cur := SkipClass(text, cur, Space, t);
      DocumentStep(done, t, from, cur);
      if text[cur] == NUL {
        AddAllEnd(done, cur);
        AllFrame(text[..], text[..], raws, done, 0, from, 0, text.Length);
        return;
      } else if text[cur] != '<' {
        AddAllFail(done, ExpectedLess);
        error := Some(ExpectedLess);
        return;
      }
      ghost var b1, mid := text[..], cur + 1;
      AllFrame(b1, b1, raws, done, 0, from, 0, mid);
      var node;
      error, node, cur := ReadNode(text, cur + 1, t);
      if error != None {
        AddAllFail(done, error.value);
        return;
      }
      ghost var child := ParseNode(t, mid).value;
      RootHeld(b1, text[..], t, raws, done, node, child, mid, cur);
      AdvancedUnread(b1, text, t, mid, cur);
      raws, done := raws + (if node.Some? then [node.value] else []), done + Nodes(child);
    }
  }

  lemma NoRoots(b: string, i: nat)
    ensures HoldsAll(b, [], [], 0, i)
  {
  }

  lemma AddAllEnd(done: seq<Node>, k: nat)
    ensures AddAll(done, Done([], k)) == Done(done, k)
  {
    assert done + [] == done;
  }
}
