/** The packed messages between the relay and the agent. */
module Protocol {
  import opened Common
  import opened Framing

  type Port = x: nat | x < TWO_16
  type Id = x: nat | x < TWO_32

  /** A user of the relay: the service port and the sequence number of the connection there. */
  datatype User = User(port: Port, id: Id)

  // Agent to relay.
  const A2R_BIND: byte := 0
  const A2R_UNBIND: byte := 1
  const A2R_DATA: byte := 2
  const A2R_DISCONNECT: byte := 3
  const A2R_SESSION: byte := 4

  // Relay to agent.
  const R2A_BIND: byte := 0
  const R2A_UNBIND: byte := 1
  const R2A_DATA: byte := 2
  const R2A_CONNECT: byte := 3
  const R2A_DISCONNECT: byte := 4

  /** Sizes of the records: `data`, `disconnect` and `session` are alike. */
  const BIND_SIZE: nat := 3
  const DATA_SIZE: nat := 7
  const CONNECT_SIZE: nat := 13

  function Half(n: Port): (h: seq<byte>)
    ensures |h| == 2
  {
    [(n % 256) as byte, (n / 256) as byte]
  }

  function HalfAt(h: seq<byte>): Port
    requires |h| == 2
  {
    h[0] as nat + 256 * h[1] as nat
  }

  /** The record that starts a message about a user. */
  function Header(cmd: byte, u: User): (h: seq<byte>)
    ensures |h| == DATA_SIZE
  {
    [cmd] + Half(u.port) + Word(u.id)
  }

  /** The port and the id in such a record. */
  function UserAt(p: seq<byte>): User
    requires |p| >= DATA_SIZE
  {
    User(HalfAt(p[1..3]), WordAt(p[3..7]))
  }

  function PortAt(p: seq<byte>): Port
    requires |p| >= BIND_SIZE
  {
    HalfAt(p[1..3])
  }

  lemma HalfRoundTrip(n: Port)
    ensures HalfAt(Half(n)) == n
  {
  }

  /** A message is taken apart into what it was made of. */
  lemma HeaderRoundTrip(cmd: byte, u: User, rest: seq<byte>)
    ensures var p := Header(cmd, u) + rest;
            |p| >= DATA_SIZE && p[0] == cmd && UserAt(p) == u && p[DATA_SIZE..] == rest
  {
    hide Half, HalfAt, Word, WordAt;
    var p := Header(cmd, u) + rest;
    HalfRoundTrip(u.port);
    WordRoundTrip(u.id);
    assert p[1..3] == Half(u.port);
    assert p[3..7] == Word(u.id);
    assert p[DATA_SIZE..] == rest;
  }

  /** The message that asks the relay to listen at a port. */
  function Bind(port: Port): seq<byte> { [A2R_BIND] + Half(port) }

  /** It is three bytes long, and as long as the relay wants it. */
  lemma BindRoundTrip(port: Port)
    ensures var m := Bind(port);
            |m| == 3 && m[0] == 0 && Asks(m, A2R_BIND, BIND_SIZE) && PortAt(m) == port
  {
    hide Half, HalfAt;
    HalfRoundTrip(port);
    assert Bind(port)[1..3] == Half(port);
  }

  /** The acknowledgement of BIND or UNBIND. */
  function Ack(cmd: byte, port: Port, error: nat): seq<byte> { [cmd] + Half(port) + Word(error) }

  /** The message that announces a user, with the address it came from. */
  function Connect(user: User, ip: Id, port: Port): (m: seq<byte>)
    ensures |m| == CONNECT_SIZE
  {
    Header(R2A_CONNECT, user) + Word(ip) + Half(port)
  }

  /** An announcement is taken apart into the user and the address. */
  lemma ConnectRoundTrip(user: User, ip: Id, port: Port)
    ensures var m := Connect(user, ip, port);
            |m| == 13 && m[0] == 3 && UserAt(m) == user && WordAt(m[7..11]) == ip && HalfAt(m[11..13]) == port
  {
    var m := Connect(user, ip, port);
    HeaderRoundTrip(R2A_CONNECT, user, Word(ip) + Half(port));
    hide Half, HalfAt, Word, WordAt, Header, UserAt;
    assert m == Header(R2A_CONNECT, user) + (Word(ip) + Half(port));
    WordRoundTrip(ip);
    HalfRoundTrip(port);
    assert m[7..11] == Word(ip) && m[11..13] == Half(port);
  }

  /** An acknowledgement is taken apart into the port and the error code, which is a `uint32_t`. */
  lemma AckRoundTrip(cmd: byte, port: Port, error: nat)
    ensures var m := Ack(cmd, port, error);
            |m| == 7 && m[0] == cmd && PortAt(m) == port && WordAt(m[3..7]) == error % 0x1_0000_0000
  {
    hide Half, HalfAt, Word, WordAt;
    var m := Ack(cmd, port, error);
    WordRoundTrip(error);
    HalfRoundTrip(port);
    assert m[1..3] == Half(port) && m[3..7] == Word(error);
  }

  /** Byte for byte: a command, the port and the id of the user, low bytes first. */
  lemma WireFormat(u: User, data: seq<byte>, k: nat)
    ensures (Header(A2R_DATA, u) + data)[..7] == [2] + UserBytes(u)
    ensures (Header(R2A_DATA, u) + data)[..7] == [2] + UserBytes(u)
    ensures Header(A2R_DISCONNECT, u) == [3] + UserBytes(u) && Header(A2R_SESSION, u) == [4] + UserBytes(u)
    ensures Header(R2A_CONNECT, u) == [3] + UserBytes(u) && Header(R2A_DISCONNECT, u) == [4] + UserBytes(u)
    ensures Ack(R2A_BIND, u.port, k)[..3] == [0] + UserBytes(u)[..2]
    ensures Ack(R2A_UNBIND, u.port, k)[..3] == [1] + UserBytes(u)[..2]
    ensures A2R_BIND == 0 && A2R_UNBIND == 1
  {
  }

  /** The bytes of a packed port and id. */
  function UserBytes(u: User): seq<byte> {
    [(u.port % 256) as byte, (u.port / 256) as byte, (u.id % 256) as byte, (u.id / 256 % 256) as byte,
     (u.id / 256 / 256 % 256) as byte, (u.id / 256 / 256 / 256 % 256) as byte]
  }

  // ----- the demultiplexer -----

  /** A message of the given kind that is long enough. */
  predicate Asks(data: seq<byte>, cmd: byte, size: nat) { |data| >= size > 0 && data[0] == cmd }

  /** A DATA message that is long enough. */
  predicate IsData(p: seq<byte>) { |p| >= DATA_SIZE && p[0] == R2A_DATA }

  /** The bytes a packet carries for user `u`. */
  function Carried(u: User, p: seq<byte>): seq<byte> {
    if IsData(p) && UserAt(p) == u then p[DATA_SIZE..] else []
  }

  /** The bytes a list of packets carries for user `u`. */
  function Demux(u: User, packets: seq<seq<byte>>): seq<byte> {
    if packets == [] then [] else Carried(u, packets[0]) + Demux(u, packets[1..])
  }

  lemma {:induction false} DemuxConcat(u: User, a: seq<seq<byte>>, b: seq<seq<byte>>)
    ensures Demux(u, a + b) == Demux(u, a) + Demux(u, b)
  {
    hide Carried;
    if a == [] {
      assert a + b == b;
    } else {
      assert (a + b)[1..] == a[1..] + b;
      DemuxConcat(u, a[1..], b);
    }
  }

  lemma DemuxSnoc(u: User, a: seq<seq<byte>>, p: seq<byte>)
    ensures Demux(u, a + [p]) == Demux(u, a) + Carried(u, p)
  {
    hide Carried;
    DemuxConcat(u, a, [p]);
    assert Demux(u, [p]) == Carried(u, p) + Demux(u, []);
  }

  // ----- packets from several connections -----

  /** Of packets handled one after the other, those that came from `o`. */
  ghost function Share<O>(o: O, origins: seq<O>, packets: seq<seq<byte>>): (r: seq<seq<byte>>)
    requires |origins| == |packets|
    ensures |r| <= |packets|
  {
    if packets == [] then []
    else (if origins[0] == o then [packets[0]] else []) + Share(o, origins[1..], packets[1..])
  }

  lemma {:induction false} ShareSplit<O>(o: O, origins: seq<O>, packets: seq<seq<byte>>, i: nat)
    requires |origins| == |packets| && i <= |packets|
    ensures Share(o, origins, packets) == Share(o, origins[..i], packets[..i]) + Share(o, origins[i..], packets[i..])
    decreases i
  {
    if i > 0 {
      ShareSplit(o, origins[1..], packets[1..], i - 1);
      assert origins[1..][..i - 1] == origins[..i][1..] && packets[1..][..i - 1] == packets[..i][1..];
      assert origins[1..][i - 1..] == origins[i..] && packets[1..][i - 1..] == packets[i..];
    } else {
      assert origins[..0] == [] && origins[0..] == origins && packets[0..] == packets;
    }
  }

  /** If only `o` sends for user `u`, its share carries all there is for that user. */
  lemma {:induction false} DemuxShare<O>(u: User, o: O, origins: seq<O>, packets: seq<seq<byte>>)
    requires |origins| == |packets|
    requires forall k :: 0 <= k < |packets| && origins[k] != o ==> Carried(u, packets[k]) == []
    ensures Demux(u, packets) == Demux(u, Share(o, origins, packets))
  {
    hide Carried;
    if packets != [] {
      DemuxShare(u, o, origins[1..], packets[1..]);
      var rest := Share(o, origins[1..], packets[1..]);
      if origins[0] == o {
        assert ([packets[0]] + rest)[1..] == rest;
      } else {
        assert [] + rest == rest;
      }
    }
  }

  /** What the relay sends over a tunnel: bytes of one of its users, or any other message. */
  datatype Sent = Chunk(user: User, bytes: seq<byte>) | Other(message: seq<byte>)

  /** The packet of a chunk is the header and the data, as `__OnUserRecv` puts them together. */
  function Packet(s: Sent): seq<byte> {
    match s
    case Chunk(u, bytes) => Header(R2A_DATA, u) + bytes
    case Other(message) => message
  }

  function Packets(sent: seq<Sent>): (ps: seq<seq<byte>>)
    ensures |ps| == |sent| && forall k :: 0 <= k < |sent| ==> ps[k] == Packet(sent[k])
  {
    seq(|sent|, k requires 0 <= k < |sent| => Packet(sent[k]))
  }

  predicate NotData(sent: seq<Sent>) { forall k :: 0 <= k < |sent| && sent[k].Other? ==> !IsData(sent[k].message) }

  /** The bytes the relay has sent for user `u`. */
  function SentBy(u: User, sent: seq<Sent>): seq<byte> {
    if sent == [] then []
    else (if sent[0].Chunk? && sent[0].user == u then sent[0].bytes else []) + SentBy(u, sent[1..])
  }

  /** Demultiplexing what was multiplexed: each user gets its own bytes, all of them, in order, and nobody else's,
      whatever the interleaving. */
  lemma {:induction false} DemuxSent(u: User, sent: seq<Sent>)
    requires NotData(sent)
    ensures Demux(u, Packets(sent)) == SentBy(u, sent)
  {
    hide Header, UserAt;
    if sent != [] {
      var s := sent[0];
      assert Packets(sent)[1..] == Packets(sent[1..]);
      DemuxSent(u, sent[1..]);
      if s.Chunk? {
        HeaderRoundTrip(R2A_DATA, s.user, s.bytes);
      }
    }
  }

  lemma {:induction false} SentByConcat(u: User, a: seq<Sent>, b: seq<Sent>)
    ensures SentBy(u, a + b) == SentBy(u, a) + SentBy(u, b)
  {
    if a == [] {
      assert a + b == b;
    } else {
      assert (a + b)[1..] == a[1..] + b;
      SentByConcat(u, a[1..], b);
    }
  }

  lemma SentBySnoc(u: User, a: seq<Sent>, s: Sent)
    ensures SentBy(u, a + [s]) == SentBy(u, a) + if s.Chunk? && s.user == u then s.bytes else []
  {
    SentByConcat(u, a, [s]);
    assert SentBy(u, [s]) == (if s.Chunk? && s.user == u then s.bytes else []) + SentBy(u, []);
  }

  lemma {:induction false} SentByPrefix(u: User, sent: seq<Sent>, k: nat)
    requires k <= |sent|
    ensures SentBy(u, sent[..k]) <= SentBy(u, sent)
    decreases k
  {
    if k > 0 {
      SentByPrefix(u, sent[1..], k - 1);
      assert sent[..k][1..] == sent[1..][..k - 1];
    }
  }
}
