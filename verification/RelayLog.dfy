/** What the relay has taken from its users and what it has offered to its connections. */
module RelayLog {
  import opened Common
  import opened Framing
  import opened Protocol
  import opened TcpConnection

  /** Bytes taken from a user, and the connection that served the user then, if it was alive. */
  datatype Taken = Taken(user: User, via: Option<TcpConnection>, bytes: seq<byte>)

  /** The bytes taken from user `u` while connection `line` served it, in order. */
  ghost function TakenVia(u: User, line: TcpConnection, taken: seq<Taken>): seq<byte> {
    if taken == [] then []
    else
      var last := taken[|taken| - 1];
      TakenVia(u, line, taken[..|taken| - 1]) + if last.user == u && last.via == Some(line) then last.bytes else []
  }

  lemma TakenSnoc(u: User, line: TcpConnection, taken: seq<Taken>, t: Taken)
    ensures TakenVia(u, line, taken + [t]) ==
            TakenVia(u, line, taken) + if t.user == u && t.via == Some(line) then t.bytes else []
  {
    assert (taken + [t])[..|taken|] == taken;
  }

  /** The relay's `SendV` of a header and a buffer is the packet of a chunk. */
  lemma ChunkMessage(u: User, bytes: seq<byte>, pfn: Option<nat>)
    ensures Payload(Many([Header(R2A_DATA, u), bytes], pfn)) == Packet(Chunk(u, bytes))
  {
    hide Header;
    var h := Header(R2A_DATA, u);
    assert [h, bytes][1..] == [bytes];
    assert Flatten([h, bytes]) == h + Flatten([bytes]);
  }

  /** Connection `line` has been offered the packets of `sent`; the chunks in it are what was taken from the users it
      served, and nothing else in it is a DATA message. */
  ghost predicate Recorded(line: TcpConnection, offered: seq<Message>, sent: seq<Sent>, taken: seq<Taken>) {
    Payloads(offered) == Packets(sent) && NotData(sent)
    && forall u :: SentBy(u, sent) == TakenVia(u, line, taken)
  }

  lemma PacketsSnoc(sent: seq<Sent>, s: Sent)
    requires NotData(sent) && (s.Other? ==> !IsData(s.message))
    ensures Packets(sent + [s]) == Packets(sent) + [Packet(s)] && NotData(sent + [s])
  {
    hide Packet, IsData;
    var all := sent + [s];
    assert forall k :: 0 <= k < |sent| ==> all[k] == sent[k];
    assert all[|sent|] == s;
  }

  lemma RecordOther(line: TcpConnection, offered: seq<Message>, sent: seq<Sent>, taken: seq<Taken>,
                    message: seq<byte>, pfn: Option<nat>)
    requires Recorded(line, offered, sent, taken) && !IsData(message)
    ensures Recorded(line, offered + [One(message, pfn)], sent + [Other(message)], taken)
  {
    hide IsData, SentBy, TakenVia, Gather, Packets, NotData;
    GatherSnoc(MessagePayload, offered, One(message, pfn));
    PacketsSnoc(sent, Other(message));
    forall u ensures SentBy(u, sent + [Other(message)]) == TakenVia(u, line, taken) {
      SentBySnoc(u, sent, Other(message));
    }
  }

  lemma RecordChunk(line: TcpConnection, offered: seq<Message>, sent: seq<Sent>, taken: seq<Taken>,
                    u: User, bytes: seq<byte>, pfn: Option<nat>)
    requires Recorded(line, offered, sent, taken)
    ensures Recorded(line, offered + [Many([Header(R2A_DATA, u), bytes], pfn)], sent + [Chunk(u, bytes)],
                     taken + [Taken(u, Some(line), bytes)])
  {
    hide Header, SentBy, TakenVia, Gather, Packets, NotData, Flatten;
    GatherSnoc(MessagePayload, offered, Many([Header(R2A_DATA, u), bytes], pfn));
    ChunkMessage(u, bytes, pfn);
    PacketsSnoc(sent, Chunk(u, bytes));
    forall v ensures SentBy(v, sent + [Chunk(u, bytes)]) == TakenVia(v, line, taken + [Taken(u, Some(line), bytes)]) {
      SentBySnoc(v, sent, Chunk(u, bytes));
      TakenSnoc(v, line, taken, Taken(u, Some(line), bytes));
    }
  }

  /** What another connection carries, or none, is not this one's. */
  lemma RecordElsewhere(line: TcpConnection, offered: seq<Message>, sent: seq<Sent>, taken: seq<Taken>, t: Taken)
    requires Recorded(line, offered, sent, taken) && t.via != Some(line)
    ensures Recorded(line, offered, sent, taken + [t])
  {
    hide SentBy, TakenVia, Payloads, Packets, NotData;
    forall u ensures SentBy(u, sent) == TakenVia(u, line, taken + [t]) {
      TakenSnoc(u, line, taken, t);
    }
  }

  lemma {:induction false} NothingTaken(u: User, line: TcpConnection, taken: seq<Taken>)
    requires forall k :: 0 <= k < |taken| ==> taken[k].via != Some(line)
    ensures TakenVia(u, line, taken) == []
    decreases |taken|
  {
    if taken != [] {
      NothingTaken(u, line, taken[..|taken| - 1]);
    }
  }

  /** A new connection starts with nothing. */
  lemma RecordNew(line: TcpConnection, taken: seq<Taken>)
    requires forall k :: 0 <= k < |taken| ==> taken[k].via != Some(line)
    ensures Recorded(line, [], [], taken)
  {
    hide TakenVia;
    forall u ensures SentBy(u, []) == TakenVia(u, line, taken) {
      NothingTaken(u, line, taken);
    }
    assert Payloads([]) == Packets([]);
  }
}
