/** Character classes, cursor movement and character references of the rapidxml parser under `parse<0>`.
    Texts are zero-terminated and one `char` stands for one byte. The functions read a text that nobody
    modifies; the methods work in place on an array, as the source does. */
module XmlText {
  import opened Bits
  import opened Common
  import Utf8

  const NUL: char := '\0'

  datatype ParseError =
    | InvalidNumericEntity | ExpectedSemicolon | UnexpectedEnd | ExpectedElementName
    | ExpectedEquals | ExpectedQuote | ExpectedGreater | ExpectedLess

  // ----- lookup tables -----

  datatype Class = Space | NodeName | AttributeName

  predicate IsSpace(c: char) { c == ' ' || c == '\n' || c == '\r' || c == '\t' }

  /** The terminator is in no class. */
  predicate In(c: char, k: Class) {
    match k
    case Space => IsSpace(c)
    case NodeName => !IsSpace(c) && c != '/' && c != '>' && c != '?' && c != NUL
    case AttributeName =>
      !IsSpace(c) && c != '/' && c != '<' && c != '>' && c != '=' && c != '?' && c != '!' && c != NUL
  }

  /** text_pred and attribute_value_pred: everything but the stop character and the terminator. */
  predicate Continues(c: char, stop: char) { c != stop && c != NUL }

  /** The `pure` variants: additionally no reference starts here. */
  predicate Plain(c: char, stop: char) { Continues(c, stop) && c != '&' }

  /** lookup_digits: one table for decimal and hexadecimal references; None stands for 0xFF. */
  function Digit(c: char): (d: Option<nat>)
    ensures d.Some? ==> d.value < 16 && c != NUL
  {
    if '0' <= c <= '9' then Some(c as int - '0' as int)
    else if 'A' <= c <= 'F' then Some(c as int - 'A' as int + 10)
    else if 'a' <= c <= 'f' then Some(c as int - 'a' as int + 10)
    else None
  }

  // ----- cursor movement -----

  /** A zero-terminated text and a cursor inside it. */
  predicate Cursor(t: string, i: nat) { i < |t| && t[|t| - 1] == NUL }

  /** The first position from `i` on whose character is not in the class. */
  function Skip(t: string, i: nat, k: Class): (j: nat)
    requires Cursor(t, i)
    ensures i <= j < |t| && !In(t[j], k)
    ensures forall n :: i <= n < j ==> In(t[n], k)
    decreases |t| - i
  {
    if In(t[i], k) then Skip(t, i + 1, k) else i
  }

  lemma {:induction false} SkipUnique(t: string, i: nat, k: Class, j: nat)
    requires Cursor(t, i)
    requires i <= j < |t| && !In(t[j], k) && forall n :: i <= n < j ==> In(t[n], k)
    ensures Skip(t, i, k) == j
    decreases j - i
  {
    if i < j {
      SkipUnique(t, i + 1, k, j);
    }
  }

  /** `s` stands in the text at position `i`. */
  predicate At(t: string, i: nat, s: string) { i + |s| <= |t| && t[i..i + |s|] == s }

  lemma AtSplit(t: string, i: nat, a: string, b: string)
    ensures At(t, i, a + b) <==> At(t, i, a) && At(t, i + |a|, b)
  {
    if i + |a + b| <= |t| {
      assert t[i..i + |a + b|] == t[i..i + |a|] + t[i + |a|..i + |a| + |b|];
      assert t[i..i + |a + b|][..|a|] == t[i..i + |a|];
    }
  }

  // ----- character references -----

  datatype Number = Number(code: nat, next: nat)

  /** Value of the digits from `i` on in the 64-bit `unsigned long`, which wraps, and the position behind them. */
  function Digits(t: string, i: nat, base: nat, code: nat): (r: Number)
    requires Cursor(t, i)
    ensures i <= r.next < |t|
    ensures code < TWO_64 ==> r.code < TWO_64
    ensures r.next == i ==> r.code == code
    ensures r.next == i + 1 ==> r.code <= code * base + 15
    decreases |t| - i
  {
    match Digit(t[i])
    case None => Number(code, i)
    case Some(d) =>
      var next := (code * base + d) % TWO_64;
      assert next <= code * base + d;
      Digits(t, i + 1, base, next)
  }

  /** One turn of the translation loop: characters produced and the position reached. */
  datatype Turn = Turn(out: string, next: nat) | Bad(error: ParseError)

  /** A numeric reference whose digits start at `i`. */
  function NumericTurn(t: string, i: nat, base: nat): (r: Turn)
    requires Cursor(t, i)
    ensures r.Turn? ==> i < r.next < |t| && 1 <= |r.out| <= 4
    ensures r.Turn? ==> |r.out| == 1 || i + 3 <= r.next
  {
    var Number(code, j) := Digits(t, i, base, 0);
    match Utf8.Encode(code)
    case None => Bad(InvalidNumericEntity)
    case Some(bytes) => if t[j] == ';' then Turn(bytes, j + 1) else Bad(ExpectedSemicolon)
  }

  /** The character named by a reference and the length of the reference, or 0 if `i` is not behind the
      ampersand of one of the five named references. */
  datatype Named = Named(c: char, length: nat)

  function NamedAt(t: string, i: nat): (r: Named)
    requires Cursor(t, i)
    ensures i + r.length < |t|
  {
    if StandsAt(t, i, "amp;") then Named('&', 4)
    else if StandsAt(t, i, "apos;") then Named('\'', 5)
    else if StandsAt(t, i, "quot;") then Named('\"', 5)
    else if StandsAt(t, i, "gt;") then Named('>', 3)
    else if StandsAt(t, i, "lt;") then Named('<', 3)
    else Named('&', 0)
  }

  /** The turn taken at a character that is not the terminator. */
  function TurnAt(t: string, i: nat): (r: Turn)
    requires Cursor(t, i) && t[i] != NUL
    ensures r.Turn? ==> i + |r.out| <= r.next < |t| && 1 <= |r.out|
  {
    if t[i] != '&' then Turn([t[i]], i + 1)
    else if t[i + 1] == '#' then
      if t[i + 2] == 'x' then NumericTurn(t, i + 3, 16) else NumericTurn(t, i + 2, 10)
    else
      var named := NamedAt(t, i + 1);
      Turn([named.c], i + 1 + named.length)
  }

  /** A word without terminator ahead of the cursor. */
  predicate StandsAt(t: string, i: nat, word: string)
    requires Cursor(t, i) && NUL !in word
    ensures StandsAt(t, i, word) ==> i + |word| < |t| && forall k :: 0 <= k < |word| ==> t[i + k] == word[k]
  {
    assert i + |word| == |t| && |word| > 0 ==> t[i..i + |word|][|word| - 1] == NUL;
    At(t, i, word)
  }

  /** What a parsing function produces and the position it reaches. */
  datatype Parse<+T> = Done(value: T, next: nat) | Fail(error: ParseError)

  /** Text from `i` up to the stop character or the terminator, references expanded. */
  function Decode(t: string, i: nat, stop: char): (r: Parse<string>)
    requires Cursor(t, i)
    ensures r.Done? ==> i + |r.value| <= r.next < |t| && !Continues(t[r.next], stop)
    ensures r.Done? && Continues(t[i], stop) ==> |r.value| > 0
    decreases |t| - i
  {
    if !Continues(t[i], stop) then Done("", i)
    else match TurnAt(t, i)
      case Bad(e) => Fail(e)
      case Turn(out, next) => Prepend(out, Decode(t, next, stop))
  }

  function Prepend(s: string, r: Parse<string>): Parse<string> {
    match r
    case Fail(e) => r
    case Done(u, j) => Done(s + u, j)
  }

  lemma PrependTwice(a: string, b: string, r: Parse<string>)
    ensures Prepend(a, Prepend(b, r)) == Prepend(a + b, r)
  {
    if r.Done? {
      assert a + (b + r.value) == a + b + r.value;
    }
  }

  lemma PrependNothing(r: Parse<string>)
    ensures Prepend("", r) == r
  {
    if r.Done? {
      assert "" + r.value == r.value;
    }
  }

  /** Plain characters decode to themselves. */
  lemma {:induction false} DecodePlain(t: string, i: nat, j: nat, stop: char)
    requires Cursor(t, i) && i <= j < |t|
    requires forall k :: i <= k < j ==> Plain(t[k], stop)
    ensures Decode(t, i, stop) == Prepend(t[i..j], Decode(t, j, stop))
    decreases j - i
  {
    if i < j {
      DecodePlain(t, i + 1, j, stop);
      PrependTwice([t[i]], t[i + 1..j], Decode(t, j, stop));
      assert t[i..j] == [t[i]] + t[i + 1..j];
    } else {
      PrependNothing(Decode(t, j, stop));
      assert t[i..j] == "";
    }
  }

  // ----- the same work in place -----

  /** The array still holds the original text from the cursor on; what lies behind may have been rewritten. */
  ghost predicate Unread(text: array<char>, t: string, i: nat)
    reads text
  {
    |t| == text.Length && i <= |t| && forall k :: i <= k < |t| ==> text[k] == t[k]
  }

  method ReadDigits(text: array<char>, i: nat, base: nat, ghost t: string) returns (code: nat, src: nat)
    requires Cursor(t, i) && Unread(text, t, i)
    ensures Number(code, src) == Digits(t, i, base, 0)
  {
    code, src := 0, i;
    while Digit(text[src]).Some?
      invariant i <= src < |t|
      invariant Digits(t, i, base, 0) == Digits(t, src, base, code)
      decreases |t| - src
    {
      code := (code * base + Digit(text[src]).value) % TWO_64;
      src := src + 1;
    }
  }

  /** `insert_coded_character`: writes the UTF-8 bytes of a code at `dest`. */
  method InsertCodedCharacter(text: array<char>, dest: nat, code: nat) returns (error: Option<ParseError>, next: nat)
    requires Utf8.Encode(code).Some? ==> dest + |Utf8.Encode(code).value| <= text.Length
    modifies text
    ensures match Utf8.Encode(code)
            case None => error == Some(InvalidNumericEntity) && text[..] == old(text[..])
            case Some(bytes) =>
              error == None && next == dest + |bytes|
              && text[..] == old(text[..dest]) + bytes + old(text[next..])
  {
    hide And, Or;
    error, next := None, dest;
    var rest := code;
    Utf8.MasksAreSums(code);
    if code < 0x80 {
      text[dest] := code as char;
      next := dest + 1;
    } else if code < 0x800 {
      text[dest + 1] := And(Or(rest, 0x80), 0xBF) as char;
      rest := rest / 64;
      text[dest] := Or(rest, 0xC0) as char;
      next := dest + 2;
    } else if code < 0x10000 {
      Utf8.MasksAreSums(code / 64);
      text[dest + 2] := And(Or(rest, 0x80), 0xBF) as char;
      rest := rest / 64;
      text[dest + 1] := And(Or(rest, 0x80), 0xBF) as char;
      rest := rest / 64;
      text[dest] := Or(rest, 0xE0) as char;
      next := dest + 3;
    } else if code < Utf8.CODE_LIMIT {
      Utf8.MasksAreSums(code / 64);
      Utf8.MasksAreSums(code / 64 / 64);
      text[dest + 3] := And(Or(rest, 0x80), 0xBF) as char;
      rest := rest / 64;
      text[dest + 2] := And(Or(rest, 0x80), 0xBF) as char;
      rest := rest / 64;
      text[dest + 1] := And(Or(rest, 0x80), 0xBF) as char;
      rest := rest / 64;
      text[dest] := Or(rest, 0xF0) as char;
      next := dest + 4;
    } else {
      error := Some(InvalidNumericEntity);
    }
  }

  /** The chained comparisons of the source: each character is looked at only if all before it matched. */
  method LooksAhead(text: array<char>, i: nat, word: string, ghost t: string) returns (b: bool)
    requires Cursor(t, i) && Unread(text, t, i) && NUL !in word
    ensures b == StandsAt(t, i, word)
  {
    var k := 0;
    while k < |word|
      invariant k <= |word| && i + k < |t| && t[i..i + k] == word[..k]
    {
      if text[i + k] != word[k] {
        assert i + |word| <= |t| ==> t[i..i + |word|][k] != word[k];
        return false;
      }
      k := k + 1;
    }
    assert word[..k] == word;
    return true;
  }

  /** The named reference whose name would start at text[i]. */
  method FindNamed(text: array<char>, i: nat, ghost t: string) returns (r: Named)
    requires Cursor(t, i) && Unread(text, t, i)
    ensures r == NamedAt(t, i)
  {
    hide StandsAt;
    var found := LooksAhead(text, i, "amp;", t);
    if found {
      return Named('&', 4);
    }
    found := LooksAhead(text, i, "apos;", t);
    if found {
      return Named('\'', 5);
    }
    found := LooksAhead(text, i, "quot;", t);
    if found {
      return Named('\"', 5);
    }
    found := LooksAhead(text, i, "gt;", t);
    if found {
      return Named('>', 3);
    }
    found := LooksAhead(text, i, "lt;", t);
    r := if found then Named('<', 3) else Named('&', 0);
  }

  /** A numeric reference in place; its digits start at text[src]. */
  method TranslateNumeric(text: array<char>, src: nat, base: nat, dest: nat, ghost t: string)
    returns (error: Option<ParseError>, src': nat, dest': nat)
    requires Cursor(t, src) && dest + 2 <= src && Unread(text, t, dest)
    modifies text
    ensures match NumericTurn(t, src, base)
            case Bad(e) => error == Some(e)
            case Turn(out, next) =>
              error == None && src' == next && dest' == dest + |out| && dest' < src'
              && text[..dest'] == old(text[..dest]) + out && Unread(text, t, dest')
  {
    var code;
    code, src' := ReadDigits(text, src, base, t);
    ghost var before := text[..];
    error, dest' := InsertCodedCharacter(text, dest, code);
    if error == None {
      assert forall k :: dest' <= k < |t| ==> text[k] == text[..][k] == before[k];
      assert text[..dest'] == text[..][..dest'];
      if text[src'] == ';' {
        src' := src' + 1;
      } else {
        error := Some(ExpectedSemicolon);
      }
    }
  }

  /** One turn of the translation loop at text[src], which is not the terminator; output goes to `dest`. */
  method TranslateTurn(text: array<char>, src: nat, dest: nat, ghost t: string)
    returns (error: Option<ParseError>, src': nat, dest': nat)
    requires Cursor(t, src) && t[src] != NUL && dest <= src && Unread(text, t, dest)
    modifies text
    ensures match TurnAt(t, src)
            case Bad(e) => error == Some(e)
            case Turn(out, next) =>
              error == None && src' == next && dest' == dest + |out| && dest' <= src'
              && text[..dest'] == old(text[..dest]) + out && Unread(text, t, dest')
  {
    hide NumericTurn, NamedAt;
    if text[src] != '&' {
      text[dest] := text[src];
      src', dest' := src + 1, dest + 1;
    } else if text[src + 1] == '#' {
      if text[src + 2] == 'x' {
        error, src', dest' := TranslateNumeric(text, src + 3, 16, dest, t);
      } else {
        error, src', dest' := TranslateNumeric(text, src + 2, 10, dest, t);
      }
      return;
    } else {
      var named := FindNamed(text, src + 1, t);
      text[dest] := named.c;
      src', dest' := src + 1 + named.length, dest + 1;
    }
    error := None;
    assert text[..dest'] == text[..dest] + [text[dest]];
  }

  /** The translation loop: output goes behind text[..cur], and the decoded rest of the text stands at text[cur..end]. */
  method Translate(text: array<char>, start: nat, stop: char, ghost t: string)
    returns (error: Option<ParseError>, end: nat, cur: nat)
    requires Cursor(t, start) && Unread(text, t, start)
    modifies text
    ensures match Decode(t, start, stop)
            case Fail(e) => error == Some(e)
            case Done(s, j) =>
              error == None && cur == j && end == start + |s| && end <= cur
              && text[..end] == old(text[..start]) + s && Unread(text, t, end)
  {
    hide TurnAt;
    error, end, cur := None, start, start;
    ghost var done := "";
    PrependNothing(Decode(t, start, stop));
    while Continues(text[cur], stop)
      invariant start <= end <= cur < |t|
      invariant error == None && Unread(text, t, end)
      invariant text[..end] == old(text[..start]) + done && end == start + |done|
      invariant Decode(t, start, stop) == Prepend(done, Decode(t, cur, stop))
      decreases |t| - cur
    {
      var next, dest;
      error, next, dest := TranslateTurn(text, cur, end, t);
      if error != None {
        return;
      }
      ghost var out := TurnAt(t, cur).out;
      assert text[..dest] == old(text[..start]) + (done + out);
      PrependTwice(done, out, Decode(t, next, stop));
      done := done + out;
      cur, end := next, dest;
    }
    assert done + "" == done;
  }

  /** `skip_and_expand_character_refs`: expands references in place. On success the expanded string occupies
      text[start..end], the cursor is at `cur`, and nothing outside [start, end) has been written. */
  method SkipAndExpand(text: array<char>, start: nat, stop: char, ghost t: string)
    returns (error: Option<ParseError>, end: nat, cur: nat)
    requires Cursor(t, start) && Unread(text, t, start)
    modifies text
    ensures match Decode(t, start, stop)
            case Fail(e) => error == Some(e)
            case Done(s, j) =>
              error == None && cur == j && end == start + |s| && end <= cur
              && text[..end] == old(text[..start]) + s && Unread(text, t, end)
  {
    // plain skip until the first character that needs work
    var first := start;
    while Plain(text[first], stop)
      invariant start <= first < |t|
      invariant forall k :: start <= k < first ==> Plain(t[k], stop)
      decreases |t| - first
    {
      first := first + 1;
    }
    ghost var before := text[..first];
    assert before[..start] == text[..start] && before[start..] == t[start..first];
    DecodePlain(t, start, first, stop);
    error, end, cur := Translate(text, first, stop, t);
    if error == None {
      assert text[..end] == old(text[..start]) + (t[start..first] + text[first..end]);
    }
  }
}
