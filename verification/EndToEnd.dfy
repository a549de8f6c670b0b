/** Two connections joined by a network: what one end accepts the other delivers. */
module EndToEnd {
  import opened Common
  import opened Framing
  import opened Protocol
  import opened TcpConnection
  import opened StreamBuf
  import opened RelayLog
  import Agent
  import Relay
  import TcpServer

  // ----- the two queueing modes -----

  /** A completion that `__SendV` drops: an empty list leaves no entry to hang it on unless the packet is whole. */
  predicate Dropped(m: Message) { m.Many? && m.datas == [] && m.pfn.Some? }

  lemma {:induction false} SplitShorter(ms: seq<Message>)
    ensures |Completions(false, ms)| <= |Completions(true, ms)|
    ensures |Completions(false, ms)| == |Completions(true, ms)| <==> forall k :: 0 <= k < |ms| ==> !Dropped(ms[k])
  {
    if ms != [] {
      var m, rest := ms[0], ms[1..];
      SplitShorter(rest);
      assert |SplitCompletion(m)| <= |WholeCompletion(m)|;
      assert |SplitCompletion(m)| == |WholeCompletion(m)| <==> !Dropped(m);
      assert forall k :: 0 < k < |ms| ==> ms[k] == rest[k - 1];
      assert forall k :: 0 <= k < |rest| ==> rest[k] == ms[k + 1];
    }
  }

  lemma {:induction false} SplitSame(ms: seq<Message>)
    requires forall k :: 0 <= k < |ms| ==> !Dropped(ms[k])
    ensures Completions(false, ms) == Completions(true, ms)
  {
    if ms != [] {
      assert forall k :: 0 <= k < |ms[1..]| ==> ms[1..][k] == ms[k + 1];
      SplitSame(ms[1..]);
      assert !Dropped(ms[0]);
    }
  }

  /** The same completions in the same order, exactly when no empty list carries one. */
  lemma ModesAgree(ms: seq<Message>)
    ensures Completions(false, ms) == Completions(true, ms) <==> forall k :: 0 <= k < |ms| ==> !Dropped(ms[k])
  {
    SplitShorter(ms);
    if forall k :: 0 <= k < |ms| ==> !Dropped(ms[k]) {
      SplitSame(ms);
    }
  }

  /** Everything accepted has been handed to the socket and every completion has run. */
  ghost predicate Drained(c: TcpConnection)
    reads c
  {
    c.outgoingQueue == [] && Gather(TaskFire, c.posted) == []
  }

  /** A drained connection has done all it was asked to. */
  lemma DrainedDone(c: TcpConnection)
    requires c.Valid() && Drained(c)
    ensures c.wire == Flatten(c.images) && c.fired == Completions(c.defragment, c.accepted)
  {
    hide Completions, Flatten;
    assert c.wire == c.wire + Gather(EntryBytes, []);
    assert c.fired == c.fired + [] + Gather(EntryCompletion, []);
  }

  predicate AllFit(defragment: bool, ms: seq<Message>) { forall k :: 0 <= k < |ms| ==> Fits(defragment, ms[k]) }

  /** Images that are all frames are the stream. */
  lemma {:induction false} ImagesAreFrames(ms: seq<Message>, images: seq<seq<byte>>)
    requires |images| == |ms| && forall k :: 0 <= k < |ms| ==> images[k] == Frame(Payload(ms[k]))
    ensures Flatten(images) == FrameAll(Payloads(ms))
  {
    hide Frame, Payload;
    if ms != [] {
      ImagesAreFrames(ms[1..], images[1..]);
      GatherFirst(MessagePayload, ms);
      var ps := Payloads(ms);
      assert ps[1..] == Payloads(ms[1..]) && ps[0] == Payload(ms[0]);
    }
  }

  /** While the pool is sound, what is or will be written for messages that fit is their stream. */
  lemma WrittenIsStream(c: TcpConnection)
    requires c.Valid() && !c.poolDamaged && AllFit(c.defragment, c.accepted)
    ensures Flatten(c.images) == FrameAll(Payloads(c.accepted)) && c.wire <= FrameAll(Payloads(c.accepted))
  {
    hide Flatten, Frame, Payloads, FrameAll, Fits;
    ImagesAreFrames(c.accepted, c.images);
  }

  /** Two connections in different modes that accepted the same messages and drained their queues wrote the same bytes,
      if the messages fit the whole packets of one of them; and they ran the same completions exactly when no empty list
      carried one. */
  lemma SameRun(a: TcpConnection, b: TcpConnection)
    requires a.Valid() && b.Valid() && !a.defragment && b.defragment && a.accepted == b.accepted
    requires Drained(a) && Drained(b)
    ensures !a.poolDamaged && !b.poolDamaged && AllFit(true, a.accepted) ==>
              a.wire == b.wire == FrameAll(Payloads(a.accepted))
    ensures a.fired == b.fired <==> forall k :: 0 <= k < |a.accepted| ==> !Dropped(a.accepted[k])
  {
    hide Completions, Drained, FrameAll, Payloads;
    DrainedDone(a);
    DrainedDone(b);
    ModesAgree(a.accepted);
    if !a.poolDamaged && !b.poolDamaged && AllFit(true, a.accepted) {
      WrittenIsStream(a);
      WrittenIsStream(b);
    }
  }

  // ----- from one end to the other -----

  lemma {:induction false} DeframeAfter(max: nat, ps: seq<seq<byte>>, tail: seq<byte>)
    requires AllReadable(max, ps)
    ensures Deframe(max, FrameAll(ps) + tail) == ps + Deframe(max, tail)
  {
    hide Deframe, Frame;
    if ps == [] {
      assert FrameAll(ps) + tail == tail;
    } else {
      DeframeAfter(max, ps[1..], tail);
      ReadableFrame(max, ps[0], FrameAll(ps[1..]) + tail);
      assert FrameAll(ps) + tail == Frame(ps[0]) + (FrameAll(ps[1..]) + tail);
      assert ps == [ps[0]] + ps[1..];
    }
  }

  /** Frames read out of a prefix of the stream are the first payloads. */
  lemma ReadIsPrefix(max: nat, payloads: seq<seq<byte>>, bodies: seq<seq<byte>>)
    requires AllReadable(max, payloads) && AllReadable(max, bodies) && FrameAll(bodies) <= FrameAll(payloads)
    ensures bodies <= payloads
  {
    hide Deframe, FrameAll, AllReadable;
    var k := DeframePrefix(max, payloads, FrameAll(bodies));
    CutExactly(max, bodies);
  }

  /** The receiver waits for bytes that have not come yet. */
  ghost predicate Waiting(c: TcpConnection)
    reads c
  {
    match c.reading
    case NoRead => false
    case HeaderRead => |c.unread| < PACKET_HEADER_LENGTH
    case BodyRead(length) => |c.unread| < length
  }

  /** What arrives at the receiver is, cut anywhere, what the sender has handed to its socket; every message is within
      the limits; and the buffers on both sides come from a sound pool. */
  ghost predicate Joined(sender: TcpConnection, receiver: TcpConnection)
    reads sender, receiver
  {
    sender.Valid() && receiver.Valid() && receiver.arrived <= sender.wire
    && AllSendable(receiver.maxPacketLength, Payloads(sender.accepted))
    && !sender.poolDamaged && !receiver.poolDamaged
  }

  /** Messages within the limits fit. */
  lemma SendableFit(defragment: bool, max: nat, ms: seq<Message>)
    requires AllSendable(max, Payloads(ms))
    ensures AllFit(defragment, ms)
  {
    hide Payload, Fits;
    forall k | 0 <= k < |ms| ensures Fits(defragment, ms[k]) {
      PayloadsAt(ms, k);
      ShortFits(defragment, ms[k]);
    }
  }

  lemma {:induction false} PayloadsAt(ms: seq<Message>, k: nat)
    requires k < |ms|
    ensures |Payloads(ms)| == |ms| && Payloads(ms)[k] == Payload(ms[k])
  {
    hide Payload;
    if k > 0 {
      PayloadsAt(ms[1..], k - 1);
    } else {
      PayloadsLength(ms);
    }
  }

  lemma {:induction false} PayloadsLength(ms: seq<Message>)
    ensures |Payloads(ms)| == |ms|
  {
    if ms != [] {
      PayloadsLength(ms[1..]);
    }
  }

  lemma WireInStream(sender: TcpConnection, receiver: TcpConnection)
    requires Joined(sender, receiver)
    ensures sender.wire <= FrameAll(Payloads(sender.accepted))
    ensures AllReadable(receiver.maxPacketLength, Payloads(sender.accepted))
  {
    hide FrameAll, Payloads, Fits;
    SendableFit(sender.defragment, receiver.maxPacketLength, sender.accepted);
    SendableReadable(receiver.maxPacketLength, Payloads(sender.accepted));
    WrittenIsStream(sender);
  }

  /** In every state of the two ends, the receiver has delivered a prefix of the payloads the sender accepted. */
  lemma Preserved(sender: TcpConnection, receiver: TcpConnection)
    requires Joined(sender, receiver)
    ensures receiver.bodies <= Payloads(sender.accepted) && receiver.delivered == Whole(receiver.bodies)
  {
    hide AllReadable, FrameAll, Payloads;
    WireInStream(sender, receiver);
    ReadIsPrefix(receiver.maxPacketLength, Payloads(sender.accepted), receiver.bodies);
    ShownShort(receiver.bodies);
  }

  /** And while the receiver waits for more, it has delivered every payload that is complete in what has arrived. */
  lemma UpToTheLastFrame(sender: TcpConnection, receiver: TcpConnection) returns (k: nat)
    requires Joined(sender, receiver) && Waiting(receiver)
    ensures CompleteIn(Payloads(sender.accepted), k, |receiver.arrived|) && k <= |Payloads(sender.accepted)|
    ensures receiver.delivered == Whole(Payloads(sender.accepted)[..k])
  {
    hide AllReadable, FrameAll, Payloads, CompleteIn;
    WireInStream(sender, receiver);
    var max := receiver.maxPacketLength;
    k := DeframePrefix(max, Payloads(sender.accepted), receiver.arrived);
    CompleteBound(Payloads(sender.accepted), k, |receiver.arrived|);
    WaitingForMore(receiver);
    Preserved(sender, receiver);
  }

  lemma WaitingForMore(c: TcpConnection)
    requires c.Valid() && Waiting(c)
    ensures Deframe(c.maxPacketLength, c.arrived) == c.bodies
  {
    hide AllReadable, FrameAll;
    var tail := (if c.reading.BodyRead? then c.packetHeader else []) + c.unread;
    assert c.arrived == FrameAll(c.bodies) + tail;
    DeframeAfter(c.maxPacketLength, c.bodies, tail);
    if c.reading.BodyRead? {
      assert tail[..PACKET_HEADER_LENGTH] == c.packetHeader;
    }
    assert Deframe(c.maxPacketLength, tail) == [];
  }

  /** A sender within the receiver's limits is never cut off by the length test. */
  lemma NeverTooLong(sender: TcpConnection, receiver: TcpConnection)
    requires Joined(sender, receiver) && receiver.reading == HeaderRead && |receiver.unread| >= PACKET_HEADER_LENGTH
    ensures receiver.maxPacketLength == 0
            || WordAt(receiver.unread[..PACKET_HEADER_LENGTH]) <= receiver.maxPacketLength
  {
    hide FrameAll, Payloads, Deframe, WordAt, Word;
    var ps, max := Payloads(sender.accepted), receiver.maxPacketLength;
    var n := |receiver.bodies|;
    Preserved(sender, receiver);
    WireInStream(sender, receiver);
    assert ps == ps[..n] + ps[n..];
    FrameAllConcat(ps[..n], ps[n..]);
    assert receiver.bodies == ps[..n];
    RestOfPrefix(FrameAll(ps[..n]), receiver.unread, FrameAll(ps[n..]));
    HeaderNext(ps[n..], receiver.unread);
  }

  lemma RestOfPrefix(a: seq<byte>, u: seq<byte>, b: seq<byte>)
    requires a + [] + u <= a + b
    ensures u <= b
  {
    assert forall k :: 0 <= k < |u| ==> u[k] == (a + [] + u)[|a| + k] == (a + b)[|a| + k] == b[k];
  }

  lemma HeaderNext(payloads: seq<seq<byte>>, unread: seq<byte>)
    requires unread <= FrameAll(payloads) && |unread| >= PACKET_HEADER_LENGTH
    ensures payloads != [] && unread[..PACKET_HEADER_LENGTH] == Word(|payloads[0]|)
    ensures WordAt(unread[..PACKET_HEADER_LENGTH]) == |payloads[0]| % TWO_32
  {
    hide Word, WordAt;
    assert unread[..PACKET_HEADER_LENGTH] == FrameAll(payloads)[..PACKET_HEADER_LENGTH];
    WordRoundTrip(|payloads[0]|);
  }

  // ----- from the relay's users to the agent's targets -----

  /** A connection of the relay, and the receiver at its other end. */
  ghost predicate Connected(relay: Relay.Relay, sender: TcpConnection, receiver: TcpConnection)
    reads relay, relay.server, relay.server.lines, sender, receiver
  {
    relay.Wired() && sender in relay.server.lines && Joined(sender, receiver)
  }

  /** What the receiver has delivered is the beginning of what the relay has recorded for the connection. */
  lemma DeliveredIsRecorded(relay: Relay.Relay, sender: TcpConnection, receiver: TcpConnection)
    requires Connected(relay, sender, receiver)
    ensures var sent, k := relay.log[sender], |receiver.delivered|;
            k <= |sent| && receiver.bodies == Packets(sent[..k]) && receiver.delivered == Whole(Packets(sent[..k]))
            && NotData(sent) && forall u :: SentBy(u, sent) == TakenVia(u, sender, relay.taken)
  {
    hide AllSendable, FrameAll, NotData, Gather, SentBy, TakenVia, TcpServer.TcpServer.Valid;
    var sent, k := relay.log[sender], |receiver.delivered|;
    Preserved(sender, receiver);
    assert Recorded(sender, sender.offered, sent, relay.taken);
    AcceptedFirst(sender);
    assert receiver.bodies == Packets(sent)[..k] == Packets(sent[..k]);
  }

  lemma AcceptedFirst(c: TcpConnection)
    requires c.Valid()
    ensures Payloads(c.accepted) <= Payloads(c.offered)
  {
    var rest := Gather(TaskMessage, c.posted);
    assert c.offered == c.accepted + rest;
    GatherConcat(MessagePayload, c.accepted, rest);
  }

  /** Many users over one connection: in every state of the relay, the connection and the receiver, the receiver has of
      each user a prefix of the bytes the relay took from that user while the connection served it, and nothing of any
      other user. While it waits for more bytes that is all up to the last complete frame. */
  lemma Multiplexed(relay: Relay.Relay, sender: TcpConnection, receiver: TcpConnection, u: User)
    requires Connected(relay, sender, receiver)
    ensures var sent, k := relay.log[sender], |receiver.delivered|;
            k <= |sent| && receiver.delivered == Whole(receiver.bodies)
            && Demux(u, receiver.bodies) == SentBy(u, sent[..k]) <= TakenVia(u, sender, relay.taken)
            && (Waiting(receiver) ==> CompleteIn(Payloads(sender.accepted), k, |receiver.arrived|))
  {
    hide AllSendable, FrameAll, Payloads, CompleteIn, Demux, SentBy, NotData, Waiting, TakenVia, Packets, Joined;
    hide Recorded, TcpServer.TcpServer.Valid;
    var sent, k := relay.log[sender], |receiver.delivered|;
    DeliveredIsRecorded(relay, sender, receiver);
    PartIsOther(sent, 0, k);
    assert sent[0..k] == sent[..k];
    DemuxSent(u, sent[..k]);
    SentByPrefix(u, sent, k);
    if Waiting(receiver) {
      var k' := UpToTheLastFrame(sender, receiver);
    }
  }

  /** The agent has handled, in order, some or all of what one of its connections has delivered. */
  ghost predicate Handles(agent: Agent.Agent, o: Agent.Origin, receiver: TcpConnection)
    reads agent, agent.created, receiver
  {
    agent.Valid() && Whole(agent.From(o)) <= receiver.delivered
  }

  /** What connection `o` has brought since user `u` was registered. */
  ghost function Since(agent: Agent.Agent, o: Agent.Origin, u: User): seq<seq<byte>>
    requires agent.Valid() && u in agent.users && agent.users[u].since <= |agent.received|
    reads agent, agent.created
  {
    var since := agent.users[u].since;
    Share(o, agent.origins[since..], agent.received[since..])
  }

  /** No other connection has brought data for user `u` since it was registered. */
  ghost predicate OnlyFrom(agent: Agent.Agent, o: Agent.Origin, u: User)
    requires agent.Valid() && u in agent.users
    reads agent, agent.created
  {
    forall k :: agent.users[u].since <= k < |agent.received| && agent.origins[k] != o ==>
      Carried(u, agent.received[k]) == []
  }

  /** To the target programs: the target of every registered user has been sent what the agent's connections brought for
      that user since its registration, in the order it was handled. The share of each connection is the bytes the
      relay at the other end recorded as taken from that user, between two points of the connection's record; if all
      data for the user came over one connection, that share is all. */
  lemma ToEachTarget(relay: Relay.Relay, sender: TcpConnection, receiver: TcpConnection,
                     agent: Agent.Agent, o: Agent.Origin, u: User) returns (i: nat, k: nat)
    requires Connected(relay, sender, receiver) && Handles(agent, o, receiver) && u in agent.users
    ensures agent.users[u].since <= |agent.received|
    ensures agent.users[u].toUser == Demux(u, agent.received[agent.users[u].since..])
    ensures i <= k == |agent.From(o)| <= |relay.log[sender]|
    ensures Demux(u, Since(agent, o, u)) == SentBy(u, relay.log[sender][i..k])
    ensures OnlyFrom(agent, o, u) ==> agent.users[u].toUser == SentBy(u, relay.log[sender][i..k])
  {
    hide Joined, Demux, SentBy, NotData, TakenVia, Packets, Carried, Recorded, TcpServer.TcpServer.Valid;
    hide Agent.Agent.Flowing, Agent.Agent.Distinct, Agent.Agent.Tidy, Agent.Agent.NoneGone;
    var sent, session := relay.log[sender], agent.users[u];
    assert agent.InUse(session);
    var since := session.since;
    DeliveredIsRecorded(relay, sender, receiver);
    ShareSplit(o, agent.origins, agent.received, since);
    i := |Share(o, agent.origins[..since], agent.received[..since])|;
    k := |agent.From(o)|;
    HandledRecorded(agent.From(o), receiver.delivered, receiver.bodies, sent);
    assert Since(agent, o, u) == agent.From(o)[i..] == Packets(sent[..k])[i..] by {
      assert agent.From(o)[i..] == Since(agent, o, u);
    }
    PartOfPackets(sent, i, k);
    PartIsOther(sent, i, k);
    DemuxSent(u, sent[i..k]);
    if OnlyFrom(agent, o, u) {
      DemuxShare(u, o, agent.origins[since..], agent.received[since..]);
    }
  }

  lemma HandledRecorded(handled: seq<seq<byte>>, delivered: seq<Option<seq<byte>>>, bodies: seq<seq<byte>>, sent: seq<Sent>)
    requires Whole(handled) <= delivered && |delivered| <= |sent|
    requires bodies == Packets(sent[..|delivered|]) && delivered == Whole(bodies)
    ensures |handled| <= |sent| && handled == Packets(sent[..|handled|])
  {
    hide Packet;
    forall n | 0 <= n < |handled| ensures handled[n] == Packets(sent[..|handled|])[n] {
      assert Whole(handled)[n] == delivered[n] == Some(bodies[n]);
    }
  }

  lemma PartOfPackets(sent: seq<Sent>, i: nat, k: nat)
    requires i <= k <= |sent|
    ensures Packets(sent[..k])[i..] == Packets(sent[i..k])
  {
    hide Packet;
  }

  lemma PartIsOther(sent: seq<Sent>, i: nat, k: nat)
    requires NotData(sent) && i <= k <= |sent|
    ensures NotData(sent[i..k])
  {
  }

  // ----- one program's message in the other's hands -----

  /** The agent connects: each port it announces is listed with it at the relay, if its server listens or the port is
      listed already. */
  method Offer(agent: Agent.Agent, ports: seq<Port>, k: nat, relay: Relay.Relay, who: Id, start: Relay.Start)
    requires agent.Valid() && k < |ports| && relay.Registry() && relay.Wired() && who in relay.agents
    requires start == Relay.Listening || ports[k] in relay.services
    modifies agent`tunnelOut
    modifies relay, relay.started, relay.known, relay.server.lines, relay.Touched(who, Bind(ports[k]))
    ensures ports[k] in relay.services && who in relay.services[ports[k]].agents
  {
    hide Relay.Relay.RegistryBut, Relay.Relay.Wired, Agent.Agent.Valid, Bind;
    var before := |agent.tunnelOut|;
    BindRoundTrip(ports[k]);
    agent.OnServerConnect(ports);
    relay.OnAgentRecv(who, agent.tunnelOut[before + k], start);
  }

  /** A user comes: what the relay sends the agent it has chosen makes that agent register the user, if it does not know
      it yet and has an endpoint for the service. */
  method Introduce(relay: Relay.Relay, service: Relay.ServiceInfo, user: Id, ip: Id, userPort: Port, hash: nat,
                   agent: Agent.Agent, agentHash: nat) returns (ghost chosen: Id)
    requires relay.Registry() && relay.Wired() && service in relay.started && service.agents != {} && agent.Valid()
    modifies relay`replies, relay`log, service`sessions, service`closedUsers, relay.known`sessions,
             relay.server.lines`posted, relay.server.lines`offered
    modifies agent, agent.users.Values
    ensures agent.Valid()
    ensures chosen in service.agents && user in service.sessions && service.sessions[user].agentId == chosen
    ensures var u := User(service.port, user);
            (u in agent.users <==> u in old(agent.users) || agent.Choose(u, agentHash).Some?)
            && (u in agent.users && u !in old(agent.users) ==>
                  Some(agent.users[u].target) == agent.Choose(u, agentHash))
            && agent.users - {u} == old(agent.users) - {u}
  {
    hide Relay.Relay.RegistryBut, Relay.Relay.Wired, Agent.Agent.Valid, Connect, UserAt, Relay.IsNth;
    ConnectRoundTrip(User(service.port, user), ip, userPort);
    chosen := relay.OnUserConnect(service, user, ip, userPort, hash);
    Chosen(chosen, service.agents);
    agent.OnServerRecv(relay.replies[|relay.replies| - 1].message, agentHash);
  }

  lemma Chosen(e: Id, s: set<Id>)
    ensures forall n :: Relay.IsNth(e, n, s) ==> e in s
  {
  }

  /** A user goes: what the relay sends the agent closes the relay's side of that user's session there. */
  method Dismiss(relay: Relay.Relay, service: Relay.ServiceInfo, user: Id, agent: Agent.Agent, hash: nat)
    requires relay.Registry() && relay.Wired() && service in relay.started && agent.Valid()
    requires user in service.sessions && !service.sessions[user].tunnelHardDisconnected
    modifies relay`replies, relay`log, service`sessions, service`closedUsers, relay.known`sessions,
             {service.sessions[user]}`userDisconnected, relay.server.lines`posted, relay.server.lines`offered
    modifies agent, agent.users.Values
    ensures agent.Valid()
    ensures var u := User(service.port, user);
            if u !in old(agent.users) then agent.users == old(agent.users)
            else
              var session := old(agent.users)[u];
              session.tunnelDisconnected && session.sessionConnClosed
              && agent.users == old(agent.users) - if session.userDisconnected then {u} else {}
  {
    hide Relay.Relay.RegistryBut, Relay.Relay.Wired, Agent.Agent.Valid, Header, UserAt;
    var u := User(service.port, user);
    HeaderRoundTrip(R2A_DISCONNECT, u, []);
    assert Header(R2A_DISCONNECT, u) + [] == Header(R2A_DISCONNECT, u);
    relay.OnUserDisconnect(service, user);
    agent.OnServerRecv(relay.replies[|relay.replies| - 1].message, hash);
  }

  /** What a session has last sent to the relay. */
  function LastSent(agent: Agent.Agent, session: Agent.Session): seq<byte>
    requires (if session.sessionConnReady then session.sessionOut else agent.tunnelOut) != []
    reads agent, session
  {
    var out := if session.sessionConnReady then session.sessionOut else agent.tunnelOut;
    out[|out| - 1]
  }

  /** The target answers: what the agent sends makes the relay hand those bytes to that user, and to nobody else. */
  method Answer(agent: Agent.Agent, session: Agent.Session, data: seq<byte>,
                relay: Relay.Relay, who: Id, start: Relay.Start)
    requires agent.Valid() && session in agent.created && relay.Registry() && relay.Wired()
    modifies agent`tunnelOut, session
    modifies relay, relay.started, relay.known, relay.server.lines,
             relay.Touched(who, Header(A2R_DATA, session.usr) + data)
    ensures forall s :: s in old(relay.started) ==>
              s.userOut == old(s.userOut) +
                           if who in old(relay.agents) && session.usr.port in old(relay.services)
                              && old(relay.services)[session.usr.port] == s && session.usr.id in old(s.sessions)
                           then [(session.usr.id, data)] else []
  {
    hide Relay.Relay.RegistryBut, Relay.Relay.Wired, Agent.Agent.Valid, Header, UserAt;
    HeaderRoundTrip(A2R_DATA, session.usr, data);
    PortOfUser(Header(A2R_DATA, session.usr) + data);
    agent.OnUserRecv(session, data);
    relay.OnAgentRecv(who, LastSent(agent, session), start);
  }

  lemma PortOfUser(p: seq<byte>)
    requires |p| >= DATA_SIZE
    ensures PortAt(p) == UserAt(p).port
  {
  }

  /** The target goes: what the agent sends marks the tunnel side of that user's session at the relay as gone, and ends
      the session if the user is gone too. */
  method Depart(agent: Agent.Agent, session: Agent.Session, relay: Relay.Relay, who: Id, start: Relay.Start)
    requires agent.Valid() && session in agent.created && relay.Registry() && relay.Wired()
    modifies agent, session
    modifies relay, relay.started, relay.known, relay.server.lines,
             relay.Touched(who, Header(A2R_DISCONNECT, session.usr))
    ensures var port, id := session.usr.port, session.usr.id;
            port in old(relay.services) && id in old(relay.services[port].sessions) ==>
              var service, ended := old(relay.services)[port], old(relay.services[port].sessions)[id];
              ended.tunnelDisconnected
              && service.sessions == old(service.sessions) - if old(ended.userDisconnected) then {ended.user} else {}
  {
    hide Relay.Relay.RegistryBut, Relay.Relay.Wired, Relay.Relay.Leaves, Relay.Relay.Touched, Agent.Agent.Valid;
    hide Header, UserAt;
    var header := Header(A2R_DISCONNECT, session.usr);
    HeaderRoundTrip(A2R_DISCONNECT, session.usr, []);
    assert header + [] == header;
    Ending(relay, who, header);
    agent.OnUserDisconnect(session);
    relay.OnAgentRecv(who, LastSent(agent, session), start);
  }

  /** What a DISCONNECT touches and ends. */
  lemma Ending(relay: Relay.Relay, who: Id, p: seq<byte>)
    requires relay.Registry() && Asks(p, A2R_DISCONNECT, DATA_SIZE)
    ensures var User(port, id) := UserAt(p);
            port in relay.services && id in relay.services[port].sessions ==>
              var service, ended := relay.services[port], relay.services[port].sessions[id];
              service in relay.started && ended in relay.Touched(who, p)
              && relay.Leaves(service, p) == if ended.userDisconnected then {ended.user} else {}
  {
    PortOfUser(p);
  }
}
