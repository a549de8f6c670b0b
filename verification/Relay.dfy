/** The relay: which agents offer which ports, and what it sends them for its users. Every handler is one step. */
module Relay {
  import opened Common
  import opened Framing
  import opened Protocol
  import opened RelayLog
  import opened TcpConnection
  import opened TcpServer

  class Session {
    const user: Id
    var agentId: Id
    var usingSessionConn: bool
    var userDisconnected: bool
    var tunnelDisconnected: bool
    var tunnelHardDisconnected: bool

    constructor (id: Id, agent: Id, own: bool)
      ensures user == id && agentId == agent && usingSessionConn == own
      ensures !userDisconnected && !tunnelDisconnected && !tunnelHardDisconnected
    {
      user, agentId, usingSessionConn := id, agent, own;
      userDisconnected, tunnelDisconnected, tunnelHardDisconnected := false, false, false;
    }
  }

  class ServiceInfo {
    const port: Port
    var open: bool
    var agents: set<Id>
    var sessions: map<Id, Session>
    // What the server of this port has been asked to do with its users: bytes sent, connections closed.
    var userOut: seq<(Id, seq<byte>)>
    var closedUsers: set<Id>

    constructor (p: Port, first: Id, started: bool)
      ensures port == p && open == started && agents == {first} && sessions == map[] && closedUsers == {}
    {
      port, open, agents, sessions, userOut, closedUsers := p, started, {first}, map[], [], {};
    }
  }

  class AgentInfo {
    const number: Id
    var ports: set<Port>
    var sessions: map<Id, Session>

    constructor (n: Id)
      ensures number == n && ports == {} && sessions == map[]
    {
      number, ports, sessions := n, {}, map[];
    }
  }

  /** A message to an agent. */
  datatype Reply = Reply(to: Id, message: seq<byte>)

  /** How `RawTcpServer::Start` ends: with its returned value, or with an exception from `open`, `bind` or `listen`. */
  datatype Start = Listening | Refused | Threw

  /** -1 as a `uint32_t`. */
  const FAILED: nat := TWO_32 - 1

  /** Byte for byte, the reply that says a port could not be opened. */
  lemma FailureReply(port: Port)
    ensures Ack(R2A_BIND, port, FAILED) == [0, (port % 256) as byte, (port / 256) as byte, 0xFF, 0xFF, 0xFF, 0xFF]
  {
  }

  // ----- the n-th agent -----

  /** `e` is what `std::advance(begin, n)` reaches in an ordered set: `n` elements are smaller. */
  ghost predicate IsNth(e: Id, n: nat, s: set<Id>) {
    e in s && |set x | x in s && x < e| == n
  }

  lemma {:induction false} LeastExists(s: set<Id>) returns (m: Id)
    requires s != {}
    ensures m in s && forall x :: x in s ==> m <= x
    decreases |s|
  {
    var y :| y in s;
    if s == {y} {
      m := y;
    } else {
      var m' := LeastExists(s - {y});
      m := if y < m' then y else m';
      assert forall x :: x in s ==> x == y || x in s - {y};
    }
  }

  method Least(s: set<Id>) returns (m: Id)
    requires s != {}
    ensures m in s && forall x :: x in s ==> m <= x
  {
    ghost var w := LeastExists(s);
    m :| m in s && forall x :: x in s ==> m <= x;
  }

  method Nth(s: set<Id>, n: nat) returns (e: Id)
    requires n < |s|
    ensures IsNth(e, n, s)
  {
    var rest := s;
    for i := 0 to n
      invariant rest <= s && |rest| == |s| - i
      invariant forall x, y :: x in s - rest && y in rest ==> x < y
    {
      var m := Least(rest);
      assert forall x :: x in s - (rest - {m}) ==> x in s - rest || x == m;
      rest := rest - {m};
    }
    e := Least(rest);
    assert (set x | x in s && x < e) == s - rest;
  }

  /** Of the ports that are not left in `ports`, one was listed. */
  ghost predicate Met(had: set<Port>, ports: set<Port>, listed: set<Port>) {
    exists p :: p in had && p !in ports && p in listed
  }

  lemma MetStep(had: set<Port>, ports: set<Port>, listed: set<Port>, port: Port)
    requires port in ports && ports <= had
    ensures Met(had, ports - {port}, listed) <==> Met(had, ports, listed) || port in listed
  {
    if port in listed {
      assert port in had && port !in ports - {port} && port in listed;
    }
  }

  lemma MetAll(had: set<Port>, listed: set<Port>)
    ensures !Met(had, had, listed) && (Met(had, {}, listed) <==> had * listed != {})
  {
    if p :| p in had * listed {
      assert p in had && p !in {} && p in listed;
    }
  }

  class Relay {
    const byAddress: bool
    const server: TcpServer
    var agents: map<Id, AgentInfo>
    var services: map<Port, ServiceInfo>
    var replies: seq<Reply>
    ghost var started: set<ServiceInfo>
    ghost var known: set<AgentInfo>
    ghost var log: map<TcpConnection, seq<Sent>>
    ghost var taken: seq<Taken>

    /** Of every connection there has been to an agent: it has been offered the packets of its log; the chunks in it are
        what was taken from users while it served them, and nothing else in it is DATA. */
    ghost predicate Logged()
      reads `log, `taken, server`lines, server.lines`offered
    {
      log.Keys == server.lines
      && (forall k :: 0 <= k < |taken| && taken[k].via.Some? ==> taken[k].via.value in server.lines)
      && forall l :: l in server.lines ==> Recorded(l, l.offered, log[l], taken)
    }

    ghost predicate Wired()
      reads `log, `taken, server, server.lines
    {
      server.Valid() && Logged()
    }

    /** Every listed service has agents, and every one of them is live and holds the port, except that services at the
        ports `pending` may still mention agent `going`. A service that is not listed has no agents. */
    ghost predicate RegistryBut(going: Id, pending: set<Port>)
      reads `agents, `services, `started, `known, started`agents, known`ports
    {
      (forall a :: a in agents ==> agents[a] in known && agents[a].number == a)
      && (forall p :: p in services ==> services[p] in started && services[p].port == p && services[p].agents != {})
      && (forall p, a :: p in services && a in services[p].agents ==>
            (a in agents && p in agents[a].ports) || (a == going && p in pending))
      && (forall s :: s in started && s.agents != {} ==> s.port in services && services[s.port] == s)
    }

    ghost predicate Registry()
      reads `agents, `services, `started, `known, started`agents, known`ports
    {
      RegistryBut(0, {})
    }

    constructor (policy: bool, agentServer: TcpServer)
      requires agentServer.Valid() && agentServer.lines == {}
      ensures Registry() && Wired() && agents == map[] && services == map[] && replies == [] && taken == []
      ensures server == agentServer
    {
      byAddress, server, agents, services, replies := policy, agentServer, map[], map[], [];
      started, known, log, taken := {}, {}, map[], [];
    }

    // ----- connections to agents -----

    /** The server has new connections, to which nothing has been offered yet. */
    ghost method Adopt(before: set<TcpConnection>)
      requires log.Keys == before && before <= server.lines
      requires forall k :: 0 <= k < |taken| && taken[k].via.Some? ==> taken[k].via.value in before
      requires forall l :: l in before ==> Recorded(l, l.offered, log[l], taken)
      requires forall l :: l in server.lines && l !in before ==> l.offered == []
      modifies this`log
      ensures Logged() && forall l :: l in before ==> log[l] == old(log)[l]
    {
      hide Recorded;
      log := map l | l in server.lines :: if l in log then log[l] else [];
      forall l | l in server.lines && l !in before ensures Recorded(l, l.offered, log[l], taken) {
        RecordNew(l, taken);
      }
    }

    /** The server of the agents starts to accept. */
    method Listen(endpoints: nat)
      requires Wired() && !server.inited && !server.cancelled && server.acceptors == 0 && server.waiting == {}
      requires |server.conns.Keys| + endpoints <= TWO_32
      modifies this`log, server`inited, server`nextSeq, server`conns, server`lines, server`waiting, server`acceptors
      ensures Wired() && server.inited == (endpoints > 0) && |server.waiting| == endpoints
      ensures forall s :: s in old(server.conns) ==> s in server.conns && server.conns[s] == old(server.conns)[s]
    {
      hide TcpServer.Valid, Recorded;
      ghost var before := server.lines;
      var ok := server.Start(endpoints);
      Adopt(before);
    }

    /** The server's part of an accept: the application is told of the connection, and exactly one new one waits. */
    method AcceptLine(number: Id, conn: TcpConnection, error: bool, aborted: bool)
      returns (accepted: Option<Id>, ghost next: Id)
      requires Wired() && |server.conns.Keys| < TWO_32 && conn in server.waiting
      modifies this`log, server`nextSeq, server`conns, server`lines, server`waiting, server`cancelled, conn`posted
      ensures Wired() && accepted == if !aborted && server.inited && !error then Some(number) else None
      ensures if !aborted && server.inited
              then next !in old(server.conns) && next in server.conns && fresh(server.conns[next])
                   && server.conns == old(server.conns)[next := server.conns[next]]
                   && server.waiting == old(server.waiting) - {conn} + {server.conns[next]}
              else server.conns == old(server.conns) && server.waiting == old(server.waiting) - {conn}
    {
      hide TcpServer.Distinct, TcpServer.Sound, Recorded;
      ghost var before := server.lines;
      accepted, next := server.OnAccept(number, conn, error, aborted);
      Adopt(before);
    }

    /** An accepted connection is announced as an agent, and the next one is awaited. */
    method OnAccept(number: Id, conn: TcpConnection, error: bool, aborted: bool) returns (ghost next: Id)
      requires Wired() && Registry() && |server.conns.Keys| < TWO_32 && conn in server.waiting && number !in agents
      modifies this`log, this`agents, this`known, server`nextSeq, server`conns, server`lines, server`waiting,
               server`cancelled, conn`posted
      ensures Wired() && Registry()
      ensures if !aborted && server.inited && !error
              then agents.Keys == old(agents).Keys + {number} && fresh(agents[number]) && agents[number].ports == {}
              else agents == old(agents)
      ensures if !aborted && server.inited
              then next !in old(server.conns) && next in server.conns && fresh(server.conns[next])
                   && server.conns == old(server.conns)[next := server.conns[next]]
                   && server.waiting == old(server.waiting) - {conn} + {server.conns[next]}
              else server.conns == old(server.conns) && server.waiting == old(server.waiting) - {conn}
    {
      hide Wired, RegistryBut;
      var accepted;
      accepted, next := AcceptLine(number, conn, error, aborted);
      if accepted.Some? {
        NotMentioned(number);
        OnAgentConnect(number);
      }
    }

    /** Whatever happens on a connection leaves what is recorded of it true. */
    method OnLine(l: TcpConnection, event: Event)
      requires Wired() && l in server.lines
      modifies l
      ensures Wired() && l.offered == old(l.offered) && old(l.accepted) <= l.accepted && old(l.wire) <= l.wire
      ensures event.TaskRuns? && old(l.posted) != [] ==> l.accepted == old(l.accepted) + TaskMessage(old(l.posted)[0])
      ensures event.BytesCame? ==> l.arrived == old(l.arrived) + event.bytes
    {
      hide Recorded, TcpConnection.Valid;
      Happens(l, event);
    }

    // ----- agents come and go -----

    /** `__OnAgentConnect`. A sequence number that is still listed somewhere, and only that, breaks the registry. */
    method OnAgentConnect(who: Id)
      requires Registry()
      modifies this`agents, this`known
      ensures who in agents && fresh(agents[who]) && agents == old(agents)[who := agents[who]] && agents[who].ports == {}
      ensures Registry() <==> forall p :: p in services ==> who !in services[p].agents
    {
      var agent := new AgentInfo(who);
      known := known + {agent};
      agents := agents[who := agent];
    }

    /** An agent leaves a listed service, which is shut down when it was the last. */
    method TakeOut(who: Id, service: ServiceInfo, ghost pending: set<Port>)
      requires RegistryBut(who, pending + {service.port}) && service.port in services && services[service.port] == service
      requires who in agents ==> service.port !in agents[who].ports
      modifies this`services, service`agents, service`open
      ensures RegistryBut(who, pending - {service.port})
      ensures service.agents == old(service.agents) - {who}
      ensures if service.agents == {} then services == old(services) - {service.port} && !service.open
              else services == old(services) && service.open == old(service.open)
    {
      service.agents := service.agents - {who};
      if |service.agents| == 0 {
        service.open := false;
        services := services - {service.port};
      }
    }

    /** `__CleanSession`. */
    method CleanSession(service: ServiceInfo, session: Session)
      modifies service`sessions, service`closedUsers,
               (if session.agentId in agents then {agents[session.agentId]} else {})`sessions
      ensures old(service.closedUsers) <= service.closedUsers
      ensures session.userDisconnected && session.tunnelDisconnected ==>
                service.sessions == old(service.sessions) - {session.user}
                && service.closedUsers == old(service.closedUsers) + {session.user}
                && (session.agentId in agents ==>
                      agents[session.agentId].sessions == old(agents[session.agentId].sessions) - {session.user})
      ensures !(session.userDisconnected && session.tunnelDisconnected) ==>
                service.sessions == old(service.sessions) && service.closedUsers == old(service.closedUsers)
    {
      if session.userDisconnected && session.tunnelDisconnected {
        service.sessions := service.sessions - {session.user};
        service.closedUsers := service.closedUsers + {session.user};
        if session.agentId in agents {
          agents[session.agentId].sessions := agents[session.agentId].sessions - {session.user};
        }
      }
    }

    /** The body of the inner loop of `__OnAgentDisconnect`. */
    method TellSession(service: ServiceInfo, session: Session)
      modifies service`sessions, service`closedUsers, agents.Values`sessions,
               session`tunnelDisconnected, session`tunnelHardDisconnected
      ensures session.tunnelDisconnected && session.tunnelHardDisconnected
      ensures old(service.closedUsers) <= service.closedUsers
      ensures session.userDisconnected ==> session.user in service.closedUsers
    {
      session.tunnelDisconnected := true;
      session.tunnelHardDisconnected := true;
      CleanSession(service, session);
    }

    /** The inner loop of `__OnAgentDisconnect`: every session of the agent is told that its tunnel is gone, and those
        that no user is waiting for are closed. */
    method TellSessions(agent: AgentInfo, service: ServiceInfo)
      requires agent !in agents.Values
      modifies service`sessions, service`closedUsers, agents.Values`sessions,
               agent.sessions.Values`tunnelDisconnected, agent.sessions.Values`tunnelHardDisconnected
      ensures forall k :: k in agent.sessions ==> Told(agent.sessions[k], service.closedUsers)
    {
      var sessions := agent.sessions;
      var keys := sessions.Keys;
      while keys != {}
        invariant keys <= sessions.Keys && old(service.closedUsers) <= service.closedUsers
        invariant forall k :: k in sessions && k !in keys ==> Told(sessions[k], service.closedUsers)
        decreases |keys|
      {
        var k :| k in keys;
        assert sessions[k] in sessions.Values;
        TellSession(service, sessions[k]);
        keys := keys - {k};
      }
    }

    predicate Told(session: Session, closed: set<Id>)
      reads session
    {
      session.tunnelDisconnected && session.tunnelHardDisconnected
      && (session.userDisconnected ==> session.user in closed)
    }

    /** The agent is not live any more; the services at its ports still mention it. */
    method Depart(who: Id) returns (agent: AgentInfo)
      requires Registry() && who in agents
      modifies this`agents
      ensures agent == old(agents)[who] && agents == old(agents) - {who} && agent !in agents.Values && agent in known
      ensures forall a :: a in agents ==> agents[a] in known
      ensures RegistryBut(who, agent.ports)
    {
      agent := agents[who];
      agents := agents - {who};
    }

    /** The end of `__OnAgentDisconnect`: no service mentions the agent. */
    method Forget(who: Id, agent: AgentInfo)
      requires RegistryBut(who, {}) && who !in agents && agent !in agents.Values
      modifies agent`ports, agent`sessions
      ensures Registry() && forall p :: p in services ==> who !in services[p].agents
      ensures forall s :: s in started ==> who !in s.agents
      ensures agent.ports == {} && agent.sessions == map[]
    {
      agent.ports := {};
      agent.sessions := map[];
    }

    lemma NothingThere(who: Id, pending: set<Port>, port: Port)
      requires RegistryBut(who, pending) && port !in services
      ensures RegistryBut(who, pending - {port})
    {
    }

    lemma Settled(who: Id)
      requires RegistryBut(who, {})
      ensures Registry()
    {
    }

    lemma IsLive(who: Id)
      requires Registry() && who in agents
      ensures agents[who] in known && forall a :: a in agents && a != who ==> agents[a] != agents[who]
    {
    }

    lemma IsListed(who: Id, pending: set<Port>, port: Port)
      requires RegistryBut(who, pending) && port in services
      ensures services[port] in started && services[port].port == port
    {
    }

    /** Sessions have been told that the tunnel is gone if `told`, and otherwise have the flags they had. */
    ghost predicate Marked(sessions: set<Session>, was: map<Session, (bool, bool)>, told: bool)
      reads sessions
    {
      forall s :: s in sessions ==>
        s in was && (s.tunnelDisconnected, s.tunnelHardDisconnected) == if told then (true, true) else was[s]
    }

    /** Services have lost no agent but `who`, and got none. */
    ghost predicate OnlyLost(who: Id, services: set<ServiceInfo>, had: map<ServiceInfo, set<Id>>)
      reads services`agents
    {
      forall s :: s in services ==> s in had && (s.agents == had[s] || s.agents == had[s] - {who})
    }

    /** The body of the outer loop of `__OnAgentDisconnect`. */
    method LeavePort(who: Id, agent: AgentInfo, port: Port, ghost ports: set<Port>,
                     ghost had: map<ServiceInfo, set<Id>>, ghost was: map<Session, (bool, bool)>, ghost told: bool)
      requires RegistryBut(who, ports) && port in ports && who !in agents && agent !in agents.Values
      requires forall a :: a in agents ==> agents[a] in known
      requires OnlyLost(who, started, had) && Marked(agent.sessions.Values, was, told)
      modifies this`services, started, known`sessions, agent.sessions.Values
      ensures RegistryBut(who, ports - {port}) && forall p :: p != port ==> (p in services <==> p in old(services))
      ensures agent.sessions == old(agent.sessions)
      ensures OnlyLost(who, started, had) && Marked(agent.sessions.Values, was, told || port in old(services))
    {
      hide RegistryBut;
      if port in services {
        var service := services[port];
        IsListed(who, ports, port);
        TellSessions(agent, service);
        assert ports + {port} == ports;
        TakeOut(who, service, ports);
      } else {
        NothingThere(who, ports, port);
      }
    }

    /** The outer loop of `__OnAgentDisconnect`. */
    method LeavePorts(who: Id, agent: AgentInfo,
                      ghost had: map<ServiceInfo, set<Id>>, ghost was: map<Session, (bool, bool)>)
      requires RegistryBut(who, agent.ports) && who !in agents && agent !in agents.Values
      requires forall a :: a in agents ==> agents[a] in known
      requires OnlyLost(who, started, had) && Marked(agent.sessions.Values, was, false)
      modifies this`services, started, known`sessions, agent.sessions.Values
      ensures RegistryBut(who, {}) && agent.sessions == old(agent.sessions)
      ensures OnlyLost(who, started, had)
      ensures Marked(agent.sessions.Values, was, agent.ports * old(services.Keys) != {})
    {
      hide RegistryBut, Met, OnlyLost, Marked;
      var ports := agent.ports;
      ghost var listed := services.Keys;
      MetAll(agent.ports, listed);
      while ports != {}
        invariant RegistryBut(who, ports) && agent.sessions == old(agent.sessions)
        invariant forall p :: p in ports ==> (p in services <==> p in listed)
        invariant ports <= agent.ports
        invariant OnlyLost(who, started, had)
        invariant Marked(agent.sessions.Values, was, Met(agent.ports, ports, listed))
        decreases |ports|
      {
        var port :| port in ports;
        MetStep(agent.ports, ports, listed, port);
        LeavePort(who, agent, port, ports, had, was, Met(agent.ports, ports, listed));
        ports := ports - {port};
      }
    }

    /** The connection of an agent is gone: the server reports it and forgets the connection. */
    method OnConnectionLost(who: Id)
      requires Registry() && Wired()
      modifies this`agents, this`services, started, known, server`conns,
               if who in agents then agents[who].sessions.Values else {}
      ensures Registry() && Wired() && agents == old(agents) - {who} && server.conns == old(server.conns) - {who}
      ensures forall p :: p in services ==> who !in services[p].agents
    {
      hide RegistryBut, Recorded, TcpServer.Sound;
      OnAgentDisconnect(who);
      server.OnDisconnect(who);
    }

    /** `__OnAgentDisconnect`: afterwards no service mentions the agent, and a service is listed exactly when it still
        has agents. The agent's sessions are told exactly if it holds a port that is listed. */
    method OnAgentDisconnect(who: Id)
      requires Registry()
      modifies this`agents, this`services, started, known, if who in agents then agents[who].sessions.Values else {}
      ensures Registry() && agents == old(agents) - {who}
      ensures forall p :: p in services ==> who !in services[p].agents
      ensures forall s :: s in started ==> s.agents == old(s.agents) - {who}
      ensures who in old(agents) ==> old(agents[who]).ports == {} && old(agents[who]).sessions == map[]
      ensures who in old(agents) ==>
                forall s :: s in old(agents[who].sessions.Values) ==>
                  if old(agents[who].ports * services.Keys) != {} then s.tunnelDisconnected && s.tunnelHardDisconnected
                  else s.tunnelDisconnected == old(s.tunnelDisconnected)
                       && s.tunnelHardDisconnected == old(s.tunnelHardDisconnected)
    {
      hide RegistryBut;
      if who !in agents {
        NotMentioned(who);
        return;
      }
      var agent := Depart(who);
      ghost var had := map s | s in started :: s.agents;
      ghost var was := map s | s in agent.sessions.Values :: (s.tunnelDisconnected, s.tunnelHardDisconnected);
      LeavePorts(who, agent, had, was);
      Forget(who, agent);
    }

    /** A number that is not that of a live agent, as `__GetNextSeq` gives, is listed nowhere. */
    lemma NotMentioned(who: Id)
      requires Registry() && who !in agents
      ensures (forall p :: p in services ==> who !in services[p].agents) && forall s :: s in started ==> who !in s.agents
    {
    }

    // ----- messages from an agent -----

    /** A message that is not DATA. */
    method Send(to: Id, message: seq<byte>)
      requires Wired() && !IsData(message)
      modifies this`replies, this`log, server.lines`posted, server.lines`offered
      ensures Wired() && replies == old(replies) + [Reply(to, message)]
    {
      hide TcpServer.Distinct, TcpServer.Sound, Recorded, IsData;
      replies := replies + [Reply(to, message)];
      ghost var offered := map l | l in server.lines :: l.offered;
      ghost var before := log;
      server.Send(to, message, None);
      log := map l | l in server.lines :: before[l] + if server.Is(to, l) then [Other(message)] else [];
      forall l | l in server.lines ensures Recorded(l, l.offered, log[l], taken) {
        if server.Is(to, l) {
          RecordOther(l, offered[l], before[l], taken, message, None);
        } else {
          assert l.offered == offered[l] && log[l] == before[l];
        }
      }
    }

    /** Bytes of a user, as DATA. */
    method SendData(to: Id, u: User, bytes: seq<byte>, pfn: Option<nat>)
      requires Wired()
      modifies this`replies, this`log, this`taken, server.lines`posted, server.lines`offered
      ensures Wired() && replies == old(replies) + [Reply(to, Header(R2A_DATA, u) + bytes)]
      ensures taken == old(taken) + [Taken(u, if to in server.conns then Some(server.conns[to]) else None, bytes)]
    {
      hide TcpServer.Sound, Recorded, Header;
      ghost var offered := map l | l in server.lines :: l.offered;
      server.SendV(to, [Header(R2A_DATA, u), bytes], pfn);
      replies := replies + [Reply(to, Header(R2A_DATA, u) + bytes)];
      RecordTaken(to, u, bytes, pfn, offered);
    }

    ghost method RecordTaken(to: Id, u: User, bytes: seq<byte>, pfn: Option<nat>, offered: map<TcpConnection, seq<Message>>)
      requires log.Keys == server.lines == offered.Keys
      requires to in server.conns ==> server.conns[to] in server.lines
      requires forall k :: 0 <= k < |taken| && taken[k].via.Some? ==> taken[k].via.value in server.lines
      requires forall l :: l in server.lines ==> Recorded(l, offered[l], log[l], taken)
      requires forall l :: l in server.lines ==>
                 l.offered == offered[l] + if server.Is(to, l) then [Many([Header(R2A_DATA, u), bytes], pfn)] else []
      modifies this`log, this`taken
      ensures Logged()
      ensures taken == old(taken) + [Taken(u, if to in server.conns then Some(server.conns[to]) else None, bytes)]
    {
      hide Recorded, Header;
      ghost var before, was := log, taken;
      log := map l | l in server.lines :: before[l] + if server.Is(to, l) then [Chunk(u, bytes)] else [];
      ghost var t := Taken(u, if to in server.conns then Some(server.conns[to]) else None, bytes);
      taken := taken + [t];
      forall l | l in server.lines ensures Recorded(l, l.offered, log[l], taken) {
        if server.Is(to, l) {
          RecordChunk(l, offered[l], before[l], was, u, bytes, pfn);
        } else {
          assert l.offered == offered[l] && log[l] == before[l];
          RecordElsewhere(l, offered[l], before[l], was, t);
        }
      }
    }

    /** A service that has started is listed, with its first agent. */
    method List(who: Id, agent: AgentInfo, service: ServiceInfo)
      requires Registry() && who in agents && agents[who] == agent
      requires service !in started && service.port !in services && service.agents == {who}
      modifies this`services, this`started, agent`ports
      ensures Registry() && services == old(services)[service.port := service] && started == old(started) + {service}
      ensures agent.ports == old(agent.ports) + {service.port}
    {
      services := services[service.port := service];
      started := started + {service};
      agent.ports := agent.ports + {service.port};
    }

    /** An agent joins a listed service. */
    method Join(who: Id, agent: AgentInfo, service: ServiceInfo)
      requires Registry() && who in agents && agents[who] == agent
      requires service.port in services && services[service.port] == service
      modifies service`agents, agent`ports
      ensures Registry() && service.agents == old(service.agents) + {who}
      ensures agent.ports == old(agent.ports) + {service.port}
    {
      service.agents := service.agents + {who};
      agent.ports := agent.ports + {service.port};
    }

    /** The BIND branch. `start` says how starting the new server ends; a server that does not listen is not kept. An
        exception leaves the handler before it has stored or answered anything. */
    method OnBind(who: Id, data: seq<byte>, start: Start)
      requires Registry() && Wired() && |data| >= BIND_SIZE && data[0] == A2R_BIND
      modifies this`services, this`started, this`replies, this`log, started`agents, known`ports,
               server.lines`posted, server.lines`offered
      ensures Registry() && Wired() && old(started) <= started && fresh(started - old(started))
      ensures who !in agents ==> services == old(services) && started == old(started) && replies == old(replies)
      ensures var port := PortAt(data);
              who in agents ==>
                if port in old(services)
                then services == old(services) && services[port].agents == old(services[port].agents) + {who}
                     && agents[who].ports == old(agents[who].ports) + {port}
                     && replies == old(replies) + [Reply(who, Ack(R2A_BIND, port, 0))]
                else if start == Listening
                then port in services && services - {port} == old(services) && services[port].agents == {who}
                     && services[port].open && agents[who].ports == old(agents[who].ports) + {port}
                     && replies == old(replies) + [Reply(who, Ack(R2A_BIND, port, 0))]
                else services == old(services) && agents[who].ports == old(agents[who].ports)
                     && replies == old(replies) + if start == Refused then [Reply(who, Ack(R2A_BIND, port, FAILED))] else []
      ensures forall s :: s in old(started) && (who !in agents || s.port != PortAt(data)) ==> s.agents == old(s.agents)
      ensures forall a :: a in agents && a != who ==> agents[a].ports == old(agents[a].ports)
    {
      hide Ack, HalfAt, RegistryBut, Wired, IsData;
      var port := PortAt(data);
      if who !in agents {
        return;
      }
      IsLive(who);
      var agent := agents[who];
      if port !in services {
        var service := new ServiceInfo(port, who, start == Listening);
        match start
        case Listening =>
          List(who, agent, service);
          AckIsNotData(R2A_BIND, port, 0);
          Send(who, Ack(R2A_BIND, port, 0));
        case Refused =>
          AckIsNotData(R2A_BIND, port, FAILED);
          Send(who, Ack(R2A_BIND, port, FAILED));
        case Threw =>
      } else {
        IsListed(0, {}, port);
        Join(who, agent, services[port]);
        AckIsNotData(R2A_BIND, port, 0);
        Send(who, Ack(R2A_BIND, port, 0));
      }
    }

    lemma AckIsNotData(cmd: byte, port: Port, error: nat)
      requires cmd != R2A_DATA
      ensures !IsData(Ack(cmd, port, error))
    {
    }

    method LetGo(who: Id, agent: AgentInfo, port: Port)
      requires Registry() && who in agents && agents[who] == agent
      modifies agent`ports
      ensures agent.ports == old(agent.ports) - {port}
      ensures RegistryBut(who, {port}) && (port !in services ==> Registry())
    {
      agent.ports := agent.ports - {port};
    }

    /** The UNBIND branch. It is always acknowledged. */
    method OnUnbind(who: Id, data: seq<byte>)
      requires Registry() && Wired() && |data| >= BIND_SIZE && data[0] == A2R_UNBIND
      modifies this`services, this`replies, this`log, started`agents, started`open, known`ports,
               server.lines`posted, server.lines`offered
      ensures Registry() && Wired()
      ensures who !in agents ==> services == old(services) && replies == old(replies)
      ensures var port := PortAt(data);
              who in agents ==>
                agents[who].ports == old(agents[who].ports) - {port}
                && (port in services ==> who !in services[port].agents)
                && services - {port} == old(services) - {port} && (port in services ==> services == old(services))
                && replies == old(replies) + [Reply(who, Ack(R2A_UNBIND, port, 0))]
      ensures forall p :: p in old(services) && who in agents ==>
                var service := old(services)[p];
                service.agents == old(service.agents) - if p == PortAt(data) then {who} else {}
      ensures forall a :: a in agents && a != who ==> agents[a].ports == old(agents[a].ports)
    {
      hide Ack, HalfAt, RegistryBut, Wired, IsData;
      var port := PortAt(data);
      if who !in agents {
        return;
      }
      IsLive(who);
      LetGo(who, agents[who], port);
      if port in services {
        IsListed(who, {port}, port);
        AreListed(who, {port});
        TakeOut(who, services[port], {});
        assert {} - {port} == {};
        Settled(who);
      }
      AckIsNotData(R2A_UNBIND, port, 0);
      Send(who, Ack(R2A_UNBIND, port, 0));
    }

    lemma AreListed(who: Id, pending: set<Port>)
      requires RegistryBut(who, pending)
      ensures forall p :: p in services ==> services[p] in started && services[p].port == p
    {
    }

    /** The SESSION branch. The session connection becomes an agent of its own for one user. The session is looked up
        under the connection's own number rather than the user's id. */
    method OnSession(who: Id, data: seq<byte>)
      requires Registry() && |data| >= DATA_SIZE && data[0] == A2R_SESSION
      modifies known`ports, known`sessions, started`sessions, Touched(who, data)
      ensures Registry()
      ensures who in agents ==> agents[who].ports == old(agents[who].ports) + {PortAt(data)}
      ensures who in agents && PortAt(data) in services ==>
                var service := services[PortAt(data)];
                var id := UserAt(data).id;
                id in agents[who].sessions && agents[who].sessions[id].agentId == who
                && agents[who].sessions[id].usingSessionConn
                && agents[who].sessions == old(agents[who].sessions)[id := agents[who].sessions[id]]
                && (who !in old(service.sessions) ==>
                      fresh(agents[who].sessions[id]) && agents[who].sessions[id].user == 0
                      && service.sessions == old(service.sessions)[id := agents[who].sessions[id]])
                && (who in old(service.sessions) ==>
                      service.sessions == old(service.sessions) && agents[who].sessions[id] == service.sessions[who]
                      && var before := old(service.sessions[who].agentId);
                         before in agents && before != who ==>
                           agents[before].sessions == old(agents[before].sessions) - {id})
    {
      hide HalfAt, WordAt, RegistryBut;
      if who !in agents {
        return;
      }
      var port, id := PortAt(data), UserAt(data).id;
      IsLive(who);
      var agent := agents[who];
      AddPort(who, agent, port);
      if port !in services {
        return;
      }
      IsListed(0, {}, port);
      var service := services[port];
      if who !in service.sessions {
        var session := new Session(0, who, true);
        service.sessions := service.sessions[id := session];
        agent.sessions := agent.sessions[id := session];
      } else {
        var session := service.sessions[who];
        if session.agentId in agents {
          IsLive(session.agentId);
          var oldAgent := agents[session.agentId];
          oldAgent.sessions := oldAgent.sessions - {id};
        }
        session.agentId := who;
        session.usingSessionConn := true;
        agent.sessions := agent.sessions[id := session];
      }
    }

    /** What a DATA message adds to the output of a service. */
    function Handed(s: ServiceInfo, who: Id, data: seq<byte>): seq<(Id, seq<byte>)>
      requires |data| >= DATA_SIZE
      reads this, s
    {
      if who in agents && PortAt(data) in services && services[PortAt(data)] == s && UserAt(data).id in s.sessions
      then [(UserAt(data).id, data[DATA_SIZE..])] else []
    }

    /** The DATA branch: the bytes go to the user's connection if the user has a session. */
    method OnData(who: Id, data: seq<byte>)
      requires Registry() && |data| >= DATA_SIZE && data[0] == A2R_DATA
      modifies started`userOut
      ensures forall s :: s in started ==> s.userOut == old(s.userOut) + old(Handed(s, who, data))
    {
      hide RegistryBut, HalfAt, WordAt;
      if who !in agents || PortAt(data) !in services {
        return;
      }
      IsListed(0, {}, PortAt(data));
      var service, id := services[PortAt(data)], UserAt(data).id;
      if id !in service.sessions {
        return;
      }
      service.userOut := service.userOut + [(id, data[DATA_SIZE..])];
    }

    /** The session a DISCONNECT is about, or the one a SESSION finds under the connection's own number. */
    function Touched(who: Id, data: seq<byte>): set<Session>
      reads this, services.Values
    {
      if |data| >= DATA_SIZE && PortAt(data) in services then
        var key := if data[0] == A2R_SESSION then who else UserAt(data).id;
        if key in services[PortAt(data)].sessions then {services[PortAt(data)].sessions[key]} else {}
      else {}
    }

    /** The users that leave a service with a DISCONNECT: the one in the message, once it is gone itself. */
    function Leaves(s: ServiceInfo, data: seq<byte>): set<Id>
      requires |data| >= DATA_SIZE
      reads this, s, s.sessions.Values
    {
      if PortAt(data) in services && services[PortAt(data)] == s && UserAt(data).id in s.sessions
         && s.sessions[UserAt(data).id].userDisconnected
      then {s.sessions[UserAt(data).id].user} else {}
    }

    /** The DISCONNECT branch: the session's tunnel side is gone. It is cleaned up exactly if its user is gone too. */
    method OnDisconnect(who: Id, data: seq<byte>)
      requires Registry() && |data| >= DATA_SIZE && data[0] == A2R_DISCONNECT
      modifies started`sessions, started`closedUsers, known`sessions, Touched(who, data)`tunnelDisconnected
      ensures forall s :: s in old(Touched(who, data)) ==> s.tunnelDisconnected
      ensures forall s :: s in started ==>
                s.sessions == old(s.sessions) - old(Leaves(s, data))
                && s.closedUsers == old(s.closedUsers) + old(Leaves(s, data))
    {
      hide RegistryBut, HalfAt, WordAt;
      var port, id := PortAt(data), UserAt(data).id;
      if port !in services {
        return;
      }
      IsListed(0, {}, port);
      var service := services[port];
      if id in service.sessions {
        var session := service.sessions[id];
        session.tunnelDisconnected := true;
        AllLive();
        CleanSession(service, session);
      }
    }

    lemma AllLive()
      requires Registry()
      ensures forall a :: a in agents ==> agents[a] in known
    {
    }

    /** `__OnAgentRecv`: what is short or unknown is dropped. Only BIND and UNBIND change services or send replies, and
        no message from an agent is sent on to an agent. */
    method OnAgentRecv(who: Id, data: seq<byte>, start: Start)
      requires Registry() && Wired()
      modifies this`services, this`started, this`replies, this`log, started`agents, started`open, known`ports,
               known`sessions, started`sessions, started`closedUsers, started`userOut, server.lines`posted,
               server.lines`offered, Touched(who, data)
      ensures Registry() && Wired() && old(started) <= started && fresh(started - old(started))
      ensures who !in agents ==> services == old(services) && replies == old(replies)
      ensures !Asks(data, A2R_BIND, BIND_SIZE) && !Asks(data, A2R_UNBIND, BIND_SIZE) ==>
                services == old(services) && replies == old(replies) && started == old(started)
                && forall s :: s in started ==> s.agents == old(s.agents) && s.open == old(s.open)
      ensures Asks(data, A2R_BIND, BIND_SIZE) && who in agents && (PortAt(data) in old(services) || start == Listening) ==>
                var port := PortAt(data);
                port in services && who in services[port].agents && port in agents[who].ports
                && replies == old(replies) + [Reply(who, Ack(R2A_BIND, port, 0))]
      ensures Asks(data, A2R_UNBIND, BIND_SIZE) && who in agents ==>
                var port := PortAt(data);
                (port in services ==> who !in services[port].agents) && port !in agents[who].ports
                && replies == old(replies) + [Reply(who, Ack(R2A_UNBIND, port, 0))]
      ensures forall s :: s in old(started) ==>
                s.userOut == old(s.userOut) + if Asks(data, A2R_DATA, DATA_SIZE) then old(Handed(s, who, data)) else []
      ensures Asks(data, A2R_DISCONNECT, DATA_SIZE) ==>
                (forall s :: s in old(Touched(who, data)) ==> s.tunnelDisconnected)
                && forall s :: s in started ==>
                     s.sessions == old(s.sessions) - old(Leaves(s, data))
                     && s.closedUsers == old(s.closedUsers) + old(Leaves(s, data))
      ensures Asks(data, A2R_SESSION, DATA_SIZE) && who in agents ==>
                agents[who].ports == old(agents[who].ports) + {PortAt(data)}
                && (PortAt(data) in services ==>
                      UserAt(data).id in agents[who].sessions
                      && agents[who].sessions[UserAt(data).id].agentId == who)
      ensures !Asks(data, A2R_DISCONNECT, DATA_SIZE) && !Asks(data, A2R_SESSION, DATA_SIZE) ==>
                forall s :: s in old(started) ==> s.sessions == old(s.sessions) && s.closedUsers == old(s.closedUsers)
    {
      hide RegistryBut, Wired, HalfAt, WordAt, Ack, Handed, Leaves;
      if |data| < 1 {
        return;
      }
      if data[0] == A2R_BIND && |data| >= BIND_SIZE {
        OnBind(who, data, start);
      } else if data[0] == A2R_UNBIND && |data| >= BIND_SIZE {
        OnUnbind(who, data);
      } else {
        OnUserMessage(who, data);
      }
    }

    /** The branches of `__OnAgentRecv` for messages about users. */
    method OnUserMessage(who: Id, data: seq<byte>)
      requires Registry() && |data| > 0
      modifies known`ports, known`sessions, started`sessions, started`closedUsers, started`userOut, Touched(who, data)
      ensures Registry()
      ensures forall s :: s in old(started) ==>
                s.userOut == old(s.userOut) + if Asks(data, A2R_DATA, DATA_SIZE) then old(Handed(s, who, data)) else []
      ensures Asks(data, A2R_DISCONNECT, DATA_SIZE) ==>
                (forall s :: s in old(Touched(who, data)) ==> s.tunnelDisconnected)
                && forall s :: s in started ==>
                     s.sessions == old(s.sessions) - old(Leaves(s, data))
                     && s.closedUsers == old(s.closedUsers) + old(Leaves(s, data))
      ensures Asks(data, A2R_SESSION, DATA_SIZE) && who in agents ==>
                agents[who].ports == old(agents[who].ports) + {PortAt(data)}
                && (PortAt(data) in services ==>
                      UserAt(data).id in agents[who].sessions
                      && agents[who].sessions[UserAt(data).id].agentId == who)
      ensures !Asks(data, A2R_DISCONNECT, DATA_SIZE) && !Asks(data, A2R_SESSION, DATA_SIZE) ==>
                forall s :: s in old(started) ==> s.sessions == old(s.sessions) && s.closedUsers == old(s.closedUsers)
    {
      hide RegistryBut, HalfAt, WordAt, Handed, Leaves;
      if data[0] == A2R_DATA && |data| >= DATA_SIZE {
        OnData(who, data);
      } else if data[0] == A2R_DISCONNECT && |data| >= DATA_SIZE {
        OnDisconnect(who, data);
      } else if data[0] == A2R_SESSION && |data| >= DATA_SIZE {
        OnSession(who, data);
      }
    }

    method AddPort(who: Id, agent: AgentInfo, port: Port)
      requires Registry() && who in agents && agents[who] == agent
      modifies agent`ports
      ensures Registry() && agent.ports == old(agent.ports) + {port}
    {
      agent.ports := agent.ports + {port};
    }

    // ----- users -----

    /** `__OnUserConnect`: the agent is the one at the position given by the user's number, or the hash of its address,
        in the ordered set. That agent is always found: the return for a missing agent is never taken. */
    method OnUserConnect(service: ServiceInfo, user: Id, ip: Id, userPort: Port, hash: nat) returns (ghost chosen: Id)
      requires Registry() && Wired() && service in started
      modifies this`replies, this`log, service`sessions, service`closedUsers, known`sessions,
               server.lines`posted, server.lines`offered
      ensures Registry() && Wired()
      ensures service.agents == {} ==>
                user in service.closedUsers && replies == old(replies) && service.sessions == old(service.sessions)
      ensures service.agents != {} ==>
                IsNth(chosen, (if byAddress then hash else user) % |service.agents|, service.agents)
                && chosen in agents && service.closedUsers == old(service.closedUsers)
                && user in service.sessions && service.sessions[user].agentId == chosen
                && service.sessions[user].user == user && !service.sessions[user].usingSessionConn
                && !service.sessions[user].userDisconnected && !service.sessions[user].tunnelDisconnected
                && agents[chosen].sessions == old(agents[chosen].sessions)[user := service.sessions[user]]
                && service.sessions == old(service.sessions)[user := service.sessions[user]]
                && replies == old(replies) + [Reply(chosen, Connect(User(service.port, user), ip, userPort))]
    {
      hide Connect, IsNth, RegistryBut, Wired, IsData;
      chosen := 0;
      if |service.agents| == 0 {
        service.closedUsers := service.closedUsers + {user};
        return;
      }
      var index := if byAddress then hash else user;
      var agentSeq := Nth(service.agents, index % |service.agents|);
      chosen := agentSeq;
      AgentsAreLive(service, agentSeq, index % |service.agents|);
      IsLive(agentSeq);
      var agent := agents[agentSeq];
      var session := new Session(user, agentSeq, false);
      service.sessions := service.sessions[user := session];
      agent.sessions := agent.sessions[user := session];
      ConnectIsNotData(User(service.port, user), ip, userPort);
      Send(agentSeq, Connect(User(service.port, user), ip, userPort));
    }

    lemma ConnectIsNotData(user: User, ip: Id, port: Port)
      ensures !IsData(Connect(user, ip, port))
    {
    }

    /** `__OnUserRecv`: the bytes of a user with a session are taken and sent as DATA to the agent that serves it. */
    method OnUserRecv(service: ServiceInfo, user: Id, buf: seq<byte>, pfn: Option<nat>)
      requires Wired()
      modifies this`replies, this`log, this`taken, server.lines`posted, server.lines`offered
      ensures Wired()
      ensures user !in service.sessions ==> taken == old(taken) && replies == old(replies)
      ensures user in service.sessions ==>
                var to, u := service.sessions[user].agentId, User(service.port, user);
                taken == old(taken) + [Taken(u, if to in server.conns then Some(server.conns[to]) else None, buf)]
                && replies == old(replies) + [Reply(to, Header(R2A_DATA, u) + buf)]
    {
      hide Wired, Header;
      if user !in service.sessions {
        return;
      }
      SendData(service.sessions[user].agentId, User(service.port, user), buf, pfn);
    }

    /** `__OnUserDisconnect`: the agent is told, unless its side is gone for good. */
    method OnUserDisconnect(service: ServiceInfo, user: Id)
      requires Registry() && Wired() && service in started
      modifies this`replies, this`log, service`sessions, service`closedUsers, known`sessions,
               (if user in service.sessions then {service.sessions[user]} else {})`userDisconnected,
               server.lines`posted, server.lines`offered
      ensures Registry() && Wired()
      ensures user !in old(service.sessions) ==> replies == old(replies) && service.sessions == old(service.sessions)
      ensures user in old(service.sessions) ==>
                var session := old(service.sessions)[user];
                session.userDisconnected
                && replies == old(replies) + (if session.tunnelHardDisconnected then []
                     else [Reply(session.agentId, Header(R2A_DISCONNECT, User(service.port, user)))])
                && (if session.tunnelDisconnected
                    then service.sessions == old(service.sessions) - {session.user} && session.user in service.closedUsers
                    else service.sessions == old(service.sessions))
    {
      hide RegistryBut, Wired, Header, IsData;
      if user !in service.sessions {
        return;
      }
      var session := service.sessions[user];
      session.userDisconnected := true;
      if !session.tunnelHardDisconnected {
        HeaderIsNotData(R2A_DISCONNECT, User(service.port, user));
        Send(session.agentId, Header(R2A_DISCONNECT, User(service.port, user)));
      }
      AllLive();
      CleanSession(service, session);
    }

    lemma HeaderIsNotData(cmd: byte, user: User)
      requires cmd != R2A_DATA
      ensures !IsData(Header(cmd, user))
    {
    }

    lemma AgentsAreLive(service: ServiceInfo, e: Id, n: nat)
      requires Registry() && service in started && IsNth(e, n, service.agents)
      ensures e in agents
    {
    }
  }
}
