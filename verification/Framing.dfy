/** Packets on a byte stream: a 4-byte length, then the payload. The length is stored as the machine stores a
    `uint32_t`; both ends are taken to be little-endian. */
module Framing {
  import opened Common
  import opened StreamBuf

  const PACKET_HEADER_LENGTH: nat := 4

  /** A number cast to `uint32_t` and stored. */
  function Word(n: nat): (w: seq<byte>)
    ensures |w| == PACKET_HEADER_LENGTH
  {
    [(n % 256) as byte, (n / 256 % 256) as byte, (n / 256 / 256 % 256) as byte, (n / 256 / 256 / 256 % 256) as byte]
  }

  /** The number a stored `uint32_t` stands for. */
  function WordAt(w: seq<byte>): (n: nat)
    requires |w| == PACKET_HEADER_LENGTH
    ensures n < TWO_32
  {
    w[0] as nat + 256 * w[1] as nat + 0x1_0000 * w[2] as nat + 0x100_0000 * w[3] as nat
  }

  lemma Remainder(n: nat, d: nat, v: nat)
    requires n == v + TWO_32 * d && v < TWO_32
    ensures n % TWO_32 == v
  {
  }

  /** Storing and loading is reduction modulo 2^32. */
  lemma WordRoundTrip(n: nat)
    ensures WordAt(Word(n)) == n % TWO_32
  {
    var a := n / 256;
    var b := a / 256;
    var c := b / 256;
    var d := c / 256;
    assert n == n % 256 + 256 * a;
    assert a == a % 256 + 256 * b;
    assert b == b % 256 + 256 * c;
    assert c == c % 256 + 256 * d;
    Remainder(n, d, WordAt(Word(n)));
  }

  lemma LoadedWord(w: seq<byte>)
    requires |w| == PACKET_HEADER_LENGTH
    ensures Word(WordAt(w)) == w
  {
    var n := WordAt(w);
    var a := w[1] as nat + 256 * w[2] as nat + 0x1_0000 * w[3] as nat;
    var b := w[2] as nat + 256 * w[3] as nat;
    assert n / 256 == a && n % 256 == w[0] as nat;
    assert a / 256 == b && a % 256 == w[1] as nat;
    assert b / 256 == w[3] as nat && b % 256 == w[2] as nat;
  }

  function Frame(payload: seq<byte>): (f: seq<byte>)
    ensures |f| == PACKET_HEADER_LENGTH + |payload|
  {
    Word(|payload|) + payload
  }

  function FrameAll(payloads: seq<seq<byte>>): seq<byte> {
    if payloads == [] then [] else Frame(payloads[0]) + FrameAll(payloads[1..])
  }

  /** The reader's `max_packet_length_` test; 0 means no limit. */
  predicate TooLong(max: nat, n: nat) { max > 0 && n > max }

  /** The bodies in a stream, up to the last complete frame or the first header that is too long. */
  function Deframe(max: nat, s: seq<byte>): (ps: seq<seq<byte>>)
    decreases |s|
  {
    if |s| < PACKET_HEADER_LENGTH then []
    else
      var n := WordAt(s[..PACKET_HEADER_LENGTH]);
      if TooLong(max, n) || |s| < PACKET_HEADER_LENGTH + n then []
      else [s[PACKET_HEADER_LENGTH..PACKET_HEADER_LENGTH + n]] + Deframe(max, s[PACKET_HEADER_LENGTH + n..])
  }

  /** A payload whose frame is cut out of the stream as it was put in: the 32-bit length can express it and the reader
      accepts it. */
  predicate Readable(max: nat, payload: seq<byte>) { |payload| < 0x1_0000_0000 && (max == 0 || |payload| <= max) }

  predicate AllReadable(max: nat, payloads: seq<seq<byte>>) {
    forall k :: 0 <= k < |payloads| ==> Readable(max, payloads[k])
  }

  /** A payload that also survives the `commit` of the buffer it is read into. */
  predicate Sendable(max: nat, payload: seq<byte>) { |payload| < 0x8000_0000 && (max == 0 || |payload| <= max) }

  predicate AllSendable(max: nat, payloads: seq<seq<byte>>) {
    forall k :: 0 <= k < |payloads| ==> Sendable(max, payloads[k])
  }

  /** What the application gets to see of bodies read into empty buffers; None is a buffer that shows other memory. */
  function Shown(bodies: seq<seq<byte>>): (r: seq<Option<seq<byte>>>)
    ensures |r| == |bodies| && forall k :: 0 <= k < |r| ==> r[k] == Committed([], bodies[k])
  {
    seq(|bodies|, k requires 0 <= k < |bodies| => Committed([], bodies[k]))
  }

  /** Payloads that have come through. */
  function Whole(payloads: seq<seq<byte>>): (r: seq<Option<seq<byte>>>)
    ensures |r| == |payloads| && forall k :: 0 <= k < |r| ==> r[k] == Some(payloads[k])
  {
    seq(|payloads|, k requires 0 <= k < |payloads| => Some(payloads[k]))
  }

  /** What the reader of a stream delivers. */
  function Delivered(max: nat, s: seq<byte>): seq<Option<seq<byte>>> { Shown(Deframe(max, s)) }

  lemma ShownShort(bodies: seq<seq<byte>>)
    ensures Shown(bodies) == Whole(bodies) <==> forall k :: 0 <= k < |bodies| ==> |bodies[k]| < TWO_31
  {
    forall k | 0 <= k < |bodies| ensures Shown(bodies)[k] == Whole(bodies)[k] <==> |bodies[k]| < TWO_31 {
      assert [] + bodies[k] == bodies[k];
    }
  }

  lemma {:induction false} FrameAllConcat(a: seq<seq<byte>>, b: seq<seq<byte>>)
    ensures FrameAll(a + b) == FrameAll(a) + FrameAll(b)
  {
    if a == [] {
      assert a + b == b;
    } else {
      assert (a + b)[1..] == a[1..] + b;
      FrameAllConcat(a[1..], b);
    }
  }

  lemma FrameAllSnoc(a: seq<seq<byte>>, p: seq<byte>)
    ensures FrameAll(a + [p]) == FrameAll(a) + Frame(p)
  {
    FrameAllConcat(a, [p]);
    assert FrameAll([p]) == Frame(p) + FrameAll([]);
  }

  /** What the reader makes of a header and what follows. */
  lemma DeframeHeader(max: nat, w: seq<byte>, s: seq<byte>)
    requires |w| == PACKET_HEADER_LENGTH && WordAt(w) <= |s|
    ensures var n := WordAt(w);
            Deframe(max, w + s) == if TooLong(max, n) then [] else [s[..n]] + Deframe(max, s[n..])
  {
    var t, n := w + s, WordAt(w);
    assert t[..PACKET_HEADER_LENGTH] == w;
    assert t[PACKET_HEADER_LENGTH..PACKET_HEADER_LENGTH + n] == s[..n];
    assert t[PACKET_HEADER_LENGTH + n..] == s[n..];
  }

  /** What the reader makes of one written frame followed by anything. */
  lemma DeframeFrame(max: nat, p: seq<byte>, rest: seq<byte>)
    ensures var n := |p| % TWO_32; var s := p + rest;
            n <= |s| && Deframe(max, Frame(p) + rest) == if TooLong(max, n) then [] else [s[..n]] + Deframe(max, s[n..])
  {
    hide Word, WordAt, Deframe;
    assert Frame(p) + rest == Word(|p|) + (p + rest);
    WordRoundTrip(|p|);
    DeframeHeader(max, Word(|p|), p + rest);
  }

  /** A readable frame comes back as it was; what follows is read from its start. */
  lemma ReadableFrame(max: nat, p: seq<byte>, rest: seq<byte>)
    requires Readable(max, p)
    ensures Deframe(max, Frame(p) + rest) == [p] + Deframe(max, rest)
  {
    hide Deframe;
    DeframeFrame(max, p, rest);
    var s := p + rest;
    assert s[..|p|] == p && s[|p|..] == rest;
  }

  /** An unreadable frame does not come back, whatever follows. */
  lemma UnreadableFrame(max: nat, p: seq<byte>, rest: seq<byte>)
    requires !Readable(max, p)
    ensures var ps := Deframe(max, Frame(p) + rest); ps == [] || ps[0] != p
  {
    DeframeFrame(max, p, rest);
  }

  /** The writer's stream is cut into the payloads exactly when every one is shorter than 2^32 bytes and within the
      limit: the cast of the length loses longer ones. */
  lemma {:induction false} CutExactly(max: nat, payloads: seq<seq<byte>>)
    ensures Deframe(max, FrameAll(payloads)) == payloads <==> AllReadable(max, payloads)
  {
    if payloads != [] {
      var p, rest := payloads[0], payloads[1..];
      CutExactly(max, rest);
      assert payloads == [p] + rest;
      if Readable(max, p) {
        ReadableFrame(max, p, FrameAll(rest));
        var ps := Deframe(max, FrameAll(payloads));
        assert ps[1..] == Deframe(max, FrameAll(rest));
        assert AllReadable(max, rest) ==> forall k :: 0 < k < |payloads| ==> payloads[k] == rest[k - 1];
        assert AllReadable(max, payloads) ==> forall k :: 0 <= k < |rest| ==> rest[k] == payloads[k + 1];
      } else {
        UnreadableFrame(max, p, FrameAll(rest));
      }
    }
  }

  /** The writer's stream is read back exactly when every payload is shorter than 2^31 bytes and within the limit. From
      there on `commit` loses the body, and from 2^32 on the cast of the length does. */
  lemma DeframeExactly(max: nat, payloads: seq<seq<byte>>)
    ensures Delivered(max, FrameAll(payloads)) == Whole(payloads) <==> AllSendable(max, payloads)
  {
    hide Deframe, FrameAll, Committed;
    var bodies := Deframe(max, FrameAll(payloads));
    CutExactly(max, payloads);
    ShownShort(payloads);
    BodiesFit(max, FrameAll(payloads));
    if Shown(bodies) == Whole(payloads) {
      forall k | 0 <= k < |bodies| ensures bodies[k] == payloads[k] {
        assert Shown(bodies)[k] == Some(payloads[k]);
        CameThrough(bodies[k], payloads[k]);
      }
      assert bodies == payloads;
    }
  }

  lemma {:induction false} BodiesFit(max: nat, s: seq<byte>)
    ensures forall k :: 0 <= k < |Deframe(max, s)| ==> |Deframe(max, s)[k]| < TWO_32
    decreases |s|
  {
    hide WordAt;
    if |s| >= PACKET_HEADER_LENGTH {
      var n := WordAt(s[..PACKET_HEADER_LENGTH]);
      if !TooLong(max, n) && |s| >= PACKET_HEADER_LENGTH + n {
        BodiesFit(max, s[PACKET_HEADER_LENGTH + n..]);
      }
    }
  }

  /** A buffer that shows a payload was filled with that payload, or with 2^32 bytes and more. */
  lemma CameThrough(body: seq<byte>, payload: seq<byte>)
    requires Committed([], body) == Some(payload) && |body| < TWO_32
    ensures body == payload
  {
    assert [] + body == body;
  }

  /** The shortest payload that is lost: one of 2^31 bytes, in a connection without a limit. */
  lemma LostPayload(payload: seq<byte>)
    requires |payload| == TWO_31
    ensures Deframe(0, Frame(payload)) == [payload] && Delivered(0, Frame(payload)) == [None]
  {
    hide Deframe, Frame;
    ReadableFrame(0, payload, []);
    NothingArrived(0);
    assert Frame(payload) + [] == Frame(payload);
    assert [payload] + [] == [payload];
  }

  /** A payload over the limit ends the stream there: what came before it is read, and nothing behind it. */
  lemma {:induction false} EndsAtTooLong(max: nat, payloads: seq<seq<byte>>, long: seq<byte>, rest: seq<byte>)
    requires AllReadable(max, payloads) && 0 < max < |long| < 0x1_0000_0000
    ensures Deframe(max, FrameAll(payloads) + (Frame(long) + rest)) == payloads
  {
    hide Deframe, Frame;
    if payloads == [] {
      DeframeFrame(max, long, rest);
      assert [] + (Frame(long) + rest) == Frame(long) + rest;
    } else {
      var p, more := payloads[0], payloads[1..];
      var tail := FrameAll(more) + (Frame(long) + rest);
      EndsAtTooLong(max, more, long, rest);
      ReadableFrame(max, p, tail);
      assert FrameAll(payloads) + (Frame(long) + rest) == Frame(p) + tail;
      assert payloads == [p] + more;
    }
  }

  /** `k` of the payloads are complete in the first `n` bytes of their stream, and the next one is not. */
  predicate CompleteIn(payloads: seq<seq<byte>>, k: nat, n: nat) {
    k <= |payloads| && |FrameAll(payloads[..k])| <= n
    && (k < |payloads| ==> n < |FrameAll(payloads[..k + 1])|)
  }

  /** Less than one frame is no frame. */
  lemma Incomplete(max: nat, p: seq<byte>, rest: seq<byte>, arrived: seq<byte>)
    requires Readable(max, p) && arrived <= Frame(p) + rest && |arrived| < |Frame(p)|
    ensures Deframe(max, arrived) == []
  {
    hide Word, WordAt;
    if |arrived| >= PACKET_HEADER_LENGTH {
      assert arrived[..PACKET_HEADER_LENGTH] == (Frame(p) + rest)[..PACKET_HEADER_LENGTH] == Word(|p|);
      WordRoundTrip(|p|);
    }
  }

  lemma NothingArrived(max: nat)
    ensures Deframe(max, []) == []
  {
  }

  lemma CompleteNow(payloads: seq<seq<byte>>, k: nat, n: nat)
    requires payloads != [] && CompleteIn(payloads[1..], k, n)
    ensures CompleteIn(payloads, k + 1, |Frame(payloads[0])| + n)
  {
    hide Frame;
    var rest := payloads[1..];
    assert payloads[..k + 1][1..] == rest[..k];
    if k < |rest| {
      assert payloads[..k + 2][1..] == rest[..k + 1];
    }
  }

  /** However the stream is cut, the reader of a prefix has exactly the payloads complete in it. */
  lemma {:induction false} DeframePrefix(max: nat, payloads: seq<seq<byte>>, arrived: seq<byte>) returns (k: nat)
    requires AllReadable(max, payloads) && arrived <= FrameAll(payloads)
    ensures CompleteIn(payloads, k, |arrived|) && Deframe(max, arrived) == payloads[..k]
    decreases |payloads|
  {
    hide Deframe, Frame;
    if payloads == [] {
      k := 0;
      NothingArrived(max);
      return;
    }
    var p, rest := payloads[0], payloads[1..];
    if |arrived| < |Frame(p)| {
      k := 0;
      assert FrameAll(payloads[..1]) == Frame(p) + FrameAll([]);
      Incomplete(max, p, FrameAll(rest), arrived);
    } else {
      var more := arrived[|Frame(p)|..];
      assert arrived == Frame(p) + more;
      var k' := DeframePrefix(max, rest, more);
      ReadableFrame(max, p, more);
      k := k' + 1;
      assert payloads[..k] == [p] + rest[..k'];
      CompleteNow(payloads, k', |more|);
    }
  }

  /** And what it delivers of them is those payloads. */
  lemma DeliveredPrefix(max: nat, payloads: seq<seq<byte>>, arrived: seq<byte>) returns (k: nat)
    requires AllSendable(max, payloads) && arrived <= FrameAll(payloads)
    ensures CompleteIn(payloads, k, |arrived|) && Delivered(max, arrived) == Whole(payloads[..k])
  {
    hide CompleteIn, FrameAll, Deframe, Committed;
    SendableReadable(max, payloads);
    k := DeframePrefix(max, payloads, arrived);
    CompleteBound(payloads, k, |arrived|);
    ShownShort(payloads[..k]);
  }

  lemma CompleteBound(payloads: seq<seq<byte>>, k: nat, n: nat)
    requires CompleteIn(payloads, k, n)
    ensures k <= |payloads|
  {
  }

  lemma SendableReadable(max: nat, payloads: seq<seq<byte>>)
    requires AllSendable(max, payloads)
    ensures AllReadable(max, payloads)
  {
  }
}
