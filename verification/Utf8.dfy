/** `insert_coded_character` without parse_no_utf8, and the reference decoder of section 3 of RFC 3629.
    One `char` stands for one byte of the C++ text. */
module Utf8 {
  import opened Bits
  import opened Common

  const CODE_LIMIT: nat := 0x110000

  /** Low six bits of a code behind the continuation mark. */
  function Continuation(code: nat): (c: char)
    ensures 0x80 <= c as int < 0xC0
  {
    (0x80 + code % 64) as char
  }

  /** The bytes written for a code point, or None for codes outside Unicode. */
  function Encode(code: nat): (r: Option<seq<char>>)
    ensures r.Some? <==> code < CODE_LIMIT
    ensures r.Some? ==> 1 <= |r.value| <= 4
  {
    if code < 0x80 then Some([code as char])
    else if code < 0x800 then Some([(0xC0 + code / 64) as char, Continuation(code)])
    else if code < 0x10000 then
      Some([(0xE0 + code / 64 / 64) as char, Continuation(code / 64), Continuation(code)])
    else if code < CODE_LIMIT then
      Some([(0xF0 + code / 64 / 64 / 64) as char, Continuation(code / 64 / 64), Continuation(code / 64), Continuation(code)])
    else None
  }

  /** The masks and marks of the source: `(code | 0x80) & 0xBF` is the continuation, and `|` adds the lead mark to what
      the shifts leave of a code. */
  lemma MasksAreSums(code: nat)
    ensures And(Or(code, 0x80), 0xBF) == Continuation(code) as int
    ensures code < 0x800 ==> Or(code / 64, 0xC0) == 0xC0 + code / 64
    ensures code < 0x10000 ==> Or(code / 64 / 64, 0xE0) == 0xE0 + code / 64 / 64
    ensures code < 0x200000 ==> Or(code / 64 / 64 / 64, 0xF0) == 0xF0 + code / 64 / 64 / 64
  {
    hide And, Or;
    ContinuationMask(code);
    LeadMarks(code / 64);
    LeadMarks(code / 64 / 64);
    LeadMarks(code / 64 / 64 / 64);
  }

  predicate IsContinuation(c: char) { 0x80 <= c as int < 0xC0 }

  /** Payload bits of a code unit sequence under the bit layout of RFC 3629, ignoring the shortest-form rule. */
  function Payload(s: seq<char>): (r: Option<nat>) {
    if |s| == 1 && s[0] as int < 0x80 then Some(s[0] as int)
    else if |s| == 2 && 0xC0 <= s[0] as int < 0xE0 && IsContinuation(s[1]) then
      Some((s[0] as int - 0xC0) * 64 + (s[1] as int - 0x80))
    else if |s| == 3 && 0xE0 <= s[0] as int < 0xF0 && IsContinuation(s[1]) && IsContinuation(s[2]) then
      Some(((s[0] as int - 0xE0) * 64 + (s[1] as int - 0x80)) * 64 + (s[2] as int - 0x80))
    else if |s| == 4 && 0xF0 <= s[0] as int < 0xF8 && IsContinuation(s[1]) && IsContinuation(s[2]) && IsContinuation(s[3]) then
      Some((((s[0] as int - 0xF0) * 64 + (s[1] as int - 0x80)) * 64 + (s[2] as int - 0x80)) * 64 + (s[3] as int - 0x80))
    else None
  }

  /** Number of bytes announced by a lead byte. */
  function SequenceLength(lead: char): nat {
    if lead as int < 0x80 then 1
    else if 0xC0 <= lead as int < 0xE0 then 2
    else if 0xE0 <= lead as int < 0xF0 then 3
    else if 0xF0 <= lead as int < 0xF8 then 4
    else 0
  }

  /** Reads one character from the front of a text: its code and the number of bytes used. */
  function DecodeFirst(s: seq<char>): (r: Option<(nat, nat)>) {
    if s == [] then None else
    var n := SequenceLength(s[0]);
    if n == 0 || n > |s| then None
    else match Payload(s[..n])
      case None => None
      case Some(code) => Some((code, n))
  }

  /** Every code of the Unicode range is recovered, whatever text follows it. */
  lemma EncodeRoundTrip(code: nat, rest: seq<char>)
    requires code < CODE_LIMIT
    ensures DecodeFirst(Encode(code).value + rest) == Some((code, |Encode(code).value|))
  {
    var e := Encode(code).value;
    assert (e + rest)[..|e|] == e;
    assert (e + rest)[0] == e[0];
    assert SequenceLength(e[0]) == |e|;
  }

  /** No other sequence of the layout carries the same code in fewer bytes. */
  lemma EncodeShortest(code: nat, s: seq<char>)
    requires code < CODE_LIMIT && Payload(s) == Some(code)
    ensures |Encode(code).value| <= |s|
  {
    assert 1 <= |s| <= 4;
  }
}
