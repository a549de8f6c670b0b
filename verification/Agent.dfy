/** The agent's side of one relay: the sessions of the relay's users, their flow control and their life. Every handler
    and every completion function is one step. */
module Agent {
  import opened Common
  import opened Framing
  import opened Protocol
  import Bits

  type Word32 = x: nat | x < TWO_32

  // `++` and `--` of a `uint32_t`.
  function Increment(n: Word32): Word32 { (n + 1) % TWO_32 }
  function Decrement(n: Word32): Word32 { (n + TWO_32 - 1) % TWO_32 }

  /** Flow control in one direction. The counter is the number of outstanding sends modulo 2^32, and the connection the
      bytes come from is paused exactly while corked. As long as there were never 2^32 sends outstanding: corked means
      more than half the limit is outstanding, so that a completion is still to come; not corked means the limit is
      kept. */
  predicate Controlled(limit: nat, traffic: nat, corked: bool, blocked: bool, pending: nat, wrapped: bool) {
    traffic == pending % TWO_32 && blocked == corked && (limit == 0 ==> !corked)
    && (!wrapped ==>
          pending < TWO_32 && (corked ==> pending > limit / 2) && (limit != 0 && !corked ==> pending <= limit))
  }

  lemma Congruent(n: nat, d: int)
    requires d == 1 || (d == -1 && n > 0)
    ensures (n % TWO_32 + d + TWO_32) % TWO_32 == (n + d) % TWO_32
  {
    var q := n / TWO_32;
    assert n == TWO_32 * q + n % TWO_32;
    if n % TWO_32 + d == TWO_32 {
      assert n + d == TWO_32 * (q + 1);
    } else if n % TWO_32 + d == -1 {
      assert n + d == TWO_32 * (q - 1) + (TWO_32 - 1);
    } else {
      assert n + d == TWO_32 * q + (n % TWO_32 + d);
    }
  }

  /** One more outstanding: cork above the limit. */
  lemma CorkStep(limit: Word32, traffic: Word32, corked: bool, pending: nat, wrapped: bool)
    requires Controlled(limit, traffic, corked, corked, pending, wrapped)
    ensures var traffic' := Increment(traffic);
            var corked' := corked || (limit != 0 && traffic' > limit);
            Controlled(limit, traffic', corked', corked', pending + 1, wrapped || pending + 1 == TWO_32)
  {
    Congruent(pending, 1);
  }

  /** One less outstanding: uncork at half the limit. */
  lemma UncorkStep(limit: Word32, traffic: Word32, corked: bool, pending: nat, wrapped: bool)
    requires Controlled(limit, traffic, corked, corked, pending, wrapped) && pending > 0
    ensures var traffic' := Decrement(traffic);
            var corked' := corked && !(limit != 0 && traffic' <= limit / 2);
            Controlled(limit, traffic', corked', corked', pending - 1, wrapped)
  {
    Congruent(pending, -1);
  }

  lemma BlockedIsCorked(limit: Word32, traffic: Word32, corked: bool, blocked: bool, pending: nat, wrapped: bool)
    requires Controlled(limit, traffic, corked, blocked, pending, wrapped)
    ensures blocked == corked
  {
  }

  /** With nothing outstanding nothing is paused: a paused connection has a completion that, when it runs, counts down
      towards resuming it. */
  lemma PausedMeansOutstanding(limit: nat, traffic: nat, corked: bool, blocked: bool, pending: nat)
    requires Controlled(limit, traffic, corked, blocked, pending, false)
    ensures blocked ==> limit != 0 && traffic == pending > limit / 2 && pending > 0
    ensures !blocked && limit != 0 ==> traffic == pending <= limit
  {
  }

  /** The uncork test looks at the counter: it is the test of what is outstanding exactly when that has not wrapped
      around to a small number. */
  lemma UncorkTest(limit: Word32, pending: nat)
    ensures (pending % TWO_32 <= limit / 2 <==> pending <= limit / 2) <==> pending < TWO_32 || pending % TWO_32 > limit / 2
  {
  }

  /** Position `i` of `n`, counted around. */
  function Around(i: nat, n: nat): (p: nat)
    requires n > 0
    ensures p < n
  {
    i % n
  }

  lemma AroundAgain(i: nat, n: nat)
    requires n > 0
    ensures Around(i + n, n) == Around(i, n) && (i < n ==> Around(i, n) == i)
  {
    var q, r := i / n, i % n;
    Bits.Split(i, n);
    Bits.Distribute(n, q, 1);
    Bits.Unique(i + n, n, q + 1, r);
    if i < n {
      Bits.Unique(i, n, 0, i);
    }
  }

  class Session {
    const usr: User
    const target: nat
    var sessionConnReady: bool
    var userTraffic: Word32
    var tunnelTraffic: Word32
    var userCorked: bool
    var tunnelCorked: bool
    var userDisconnected: bool
    var tunnelDisconnected: bool
    var tunnelHardDisconnected: bool

    // The connection to the target program and the session's own connection to the relay.
    var userConnClosed: bool
    var userConnBlocked: bool
    var toUser: seq<byte>
    var sessionConnClosed: bool
    var sessionConnBlocked: bool
    var sessionOut: seq<seq<byte>>

    // Sends whose completion function has not run yet.
    ghost var userPending: nat
    ghost var tunnelPending: nat
    ghost var userWrapped: bool
    ghost var tunnelWrapped: bool
    ghost const since: nat

    ghost predicate Valid(limit: nat)
      reads `userTraffic, `userCorked, `userConnBlocked, `userPending, `userWrapped
      reads `tunnelTraffic, `tunnelCorked, `sessionConnBlocked, `tunnelPending, `tunnelWrapped
      reads `userDisconnected, `userConnClosed, `tunnelDisconnected, `sessionConnClosed, `tunnelHardDisconnected
    {
      Controlled(limit, userTraffic, userCorked, userConnBlocked, userPending, userWrapped)
      && Controlled(limit, tunnelTraffic, tunnelCorked, sessionConnBlocked, tunnelPending, tunnelWrapped)
      && (userDisconnected ==> userConnClosed)
      && (tunnelDisconnected ==> sessionConnClosed)
      && (tunnelHardDisconnected ==> tunnelDisconnected)
    }

    predicate Gone()
      reads `userDisconnected, `tunnelDisconnected
    {
      userDisconnected && tunnelDisconnected
    }

    predicate Closed()
      reads `userConnClosed, `sessionConnClosed
    {
      userConnClosed && sessionConnClosed
    }

    constructor (user: User, endpoint: nat, ghost at: nat, ghost limit: nat)
      ensures Valid(limit) && usr == user && target == endpoint && since == at && toUser == [] && !sessionConnReady
      ensures !userDisconnected && !tunnelDisconnected && !userConnClosed && !sessionConnClosed
    {
      usr, target, since := user, endpoint, at;
      sessionConnReady, userTraffic, tunnelTraffic, userCorked, tunnelCorked := false, 0, 0, false, false;
      userDisconnected, tunnelDisconnected, tunnelHardDisconnected := false, false, false;
      userConnClosed, userConnBlocked, toUser := false, false, [];
      sessionConnClosed, sessionConnBlocked, sessionOut := false, false, [];
      userPending, tunnelPending, userWrapped, tunnelWrapped := 0, 0, false, false;
    }

    /** Bytes from the relay are counted and sent to the target. */
    method Deliver(bytes: seq<byte>, limit: Word32)
      requires Valid(limit)
      modifies this`tunnelTraffic, this`tunnelCorked, this`sessionConnBlocked, this`toUser, this`tunnelPending,
               this`tunnelWrapped
      ensures Valid(limit) && toUser == old(toUser) + bytes && tunnelPending == old(tunnelPending) + 1
      ensures tunnelWrapped == (old(tunnelWrapped) || tunnelPending == TWO_32)
      ensures tunnelCorked == (old(tunnelCorked) || (limit != 0 && tunnelTraffic > limit))
    {
      hide Controlled, Increment;
      BlockedIsCorked(limit, tunnelTraffic, tunnelCorked, sessionConnBlocked, tunnelPending, tunnelWrapped);
      CorkStep(limit, tunnelTraffic, tunnelCorked, tunnelPending, tunnelWrapped);
      tunnelTraffic := Increment(tunnelTraffic);
      if limit != 0 && !tunnelCorked && tunnelTraffic > limit {
        tunnelCorked := true;
        sessionConnBlocked := true;
      }
      toUser := toUser + bytes;
      tunnelPending := tunnelPending + 1;
      tunnelWrapped := tunnelWrapped || tunnelPending == TWO_32;
    }

    /** The counting half of the completion of such a send. */
    method Delivered(limit: Word32)
      requires Valid(limit) && tunnelPending > 0
      modifies this`tunnelTraffic, this`tunnelCorked, this`sessionConnBlocked, this`tunnelPending
      ensures Valid(limit) && tunnelPending == old(tunnelPending) - 1
      ensures tunnelCorked == (old(tunnelCorked) && !(limit != 0 && tunnelTraffic <= limit / 2))
    {
      hide Controlled, Decrement;
      BlockedIsCorked(limit, tunnelTraffic, tunnelCorked, sessionConnBlocked, tunnelPending, tunnelWrapped);
      UncorkStep(limit, tunnelTraffic, tunnelCorked, tunnelPending, tunnelWrapped);
      tunnelTraffic := Decrement(tunnelTraffic);
      if limit != 0 && tunnelCorked && tunnelTraffic <= limit / 2 {
        tunnelCorked := false;
        sessionConnBlocked := false;
      }
      tunnelPending := tunnelPending - 1;
    }

    /** Bytes from the target are counted before they are sent to the relay. */
    method Take(limit: Word32)
      requires Valid(limit)
      modifies this`userTraffic, this`userCorked, this`userConnBlocked, this`userPending, this`userWrapped
      ensures Valid(limit) && userPending == old(userPending) + 1
      ensures userWrapped == (old(userWrapped) || userPending == TWO_32)
      ensures userCorked == (old(userCorked) || (limit != 0 && userTraffic > limit))
    {
      hide Controlled, Increment;
      BlockedIsCorked(limit, userTraffic, userCorked, userConnBlocked, userPending, userWrapped);
      CorkStep(limit, userTraffic, userCorked, userPending, userWrapped);
      userTraffic := Increment(userTraffic);
      if limit != 0 && !userCorked && userTraffic > limit {
        userCorked := true;
        userConnBlocked := true;
      }
      userPending := userPending + 1;
      userWrapped := userWrapped || userPending == TWO_32;
    }

    method Taken(limit: Word32)
      requires Valid(limit) && userPending > 0
      modifies this`userTraffic, this`userCorked, this`userConnBlocked, this`userPending
      ensures Valid(limit) && userPending == old(userPending) - 1
      ensures userCorked == (old(userCorked) && !(limit != 0 && userTraffic <= limit / 2))
    {
      hide Controlled, Decrement;
      BlockedIsCorked(limit, userTraffic, userCorked, userConnBlocked, userPending, userWrapped);
      UncorkStep(limit, userTraffic, userCorked, userPending, userWrapped);
      userTraffic := Decrement(userTraffic);
      if limit != 0 && userCorked && userTraffic <= limit / 2 {
        userCorked := false;
        userConnBlocked := false;
      }
      userPending := userPending - 1;
    }
  }

  /** Where a packet came from: a tunnel connection, which is replaced when it is lost, or a session's own. */
  datatype Origin = Tunnel(generation: nat) | Own(session: Session)

  class Agent {
    const queueLimit: Word32
    const services: map<Port, seq<nat>>
    const byAddress: bool
    var users: map<User, Session>
    var tunnelOut: seq<seq<byte>>

    ghost var created: set<Session>
    ghost var used: set<User>
    ghost var reused: bool
    ghost var received: seq<seq<byte>>
    ghost var origins: seq<Origin>
    ghost var tunnels: nat

    ghost predicate InUse(s: Session)
      reads `users
    {
      s.usr in users && users[s.usr] == s
    }

    ghost predicate Keyed()
      reads `users, `created
    {
      forall u :: u in users ==> users[u] in created && users[u].usr == u
    }

    /** Flow control is right, and a flag of a side means that side's connection is closed. */
    ghost predicate Flowing()
      reads `created, created`userTraffic, created`userCorked, created`userConnBlocked, created`userPending
      reads created`userWrapped, created`tunnelTraffic, created`tunnelCorked, created`sessionConnBlocked
      reads created`tunnelPending, created`tunnelWrapped, created`userDisconnected, created`userConnClosed
      reads created`tunnelDisconnected, created`sessionConnClosed, created`tunnelHardDisconnected
    {
      forall s :: s in created ==> s.Valid(queueLimit)
    }

    /** No registered session, `but` those being worked on, has lost both sides. */
    ghost predicate NoneGone(but: set<Session>)
      reads `users, `created, created`userDisconnected, created`tunnelDisconnected
    {
      forall s :: s in created && s !in but && InUse(s) ==> !s.Gone()
    }

    /** Every registered session has been handed the bytes addressed to its user since it was registered, from
        whichever connection, and no others. */
    ghost predicate Fed()
      reads `users, `created, `received, created`toUser
    {
      forall s :: s in created && InUse(s) ==> s.since <= |received| && s.toUser == Demux(s.usr, received[s.since..])
    }

    /** The same with `packet` logged and its bytes not yet handed on. */
    ghost predicate FedBut(packet: seq<byte>)
      reads `users, `created, `received, created`toUser
    {
      forall s :: s in created && InUse(s) ==>
        s.since <= |received| && s.toUser + Carried(s.usr, packet) == Demux(s.usr, received[s.since..])
    }

    /** Unless a user id has come back, a session is known by its user. */
    ghost predicate Distinct()
      reads `created, `used, `reused
    {
      !reused ==> (forall s :: s in created ==> s.usr in used)
                  && forall s, t :: s in created && t in created && s.usr == t.usr ==> s == t
    }

    /** Sessions that are not registered have no open connection. */
    ghost predicate Tidy()
      reads `users, `created, created`userConnClosed, created`sessionConnClosed
    {
      forall s :: s in created && !InUse(s) ==> s.Closed()
    }

    ghost predicate Valid()
      reads this, created
    {
      Keyed() && Flowing() && NoneGone({}) && Fed() && Distinct() && (!reused ==> Tidy()) && |origins| == |received|
    }

    /** The packets handled so far that came from one connection. */
    ghost function From(o: Origin): seq<seq<byte>>
      requires |origins| == |received|
      reads `origins, `received
    {
      Share(o, origins, received)
    }

    constructor (limit: Word32, endpoints: map<Port, seq<nat>>, policy: bool)
      ensures Valid() && users == map[] && fresh(created) && !reused && used == {}
      ensures queueLimit == limit && services == endpoints && byAddress == policy
    {
      queueLimit, services, byAddress := limit, endpoints, policy;
      users, tunnelOut, created, used, reused, received, origins, tunnels := map[], [], {}, {}, false, [], [], 0;
    }

    // ----- cleaning up -----

    /** Closes both connections of a session. */
    method CloseBoth(session: Session)
      requires session in created && Flowing()
      modifies session`userConnClosed, session`sessionConnClosed
      ensures Flowing() && session.Closed() && (old(Tidy()) ==> Tidy())
    {
      hide Controlled;
      session.userConnClosed := true;
      session.sessionConnClosed := true;
    }

    /** Closes the connection to the target and remembers that the target is gone. */
    method CloseUser(session: Session)
      requires session in created && Flowing() && NoneGone({})
      modifies session`userConnClosed, session`userDisconnected
      ensures Flowing() && NoneGone({session}) && session.userConnClosed && session.userDisconnected
      ensures old(Tidy()) ==> Tidy()
    {
      hide Controlled;
      session.userConnClosed := true;
      session.userDisconnected := true;
    }

    /** Closes the session's own connection and remembers that the user is gone. */
    method CloseTunnel(session: Session, hard: bool)
      requires session in created && Flowing() && NoneGone({})
      modifies session`sessionConnClosed, session`tunnelDisconnected, session`tunnelHardDisconnected
      ensures Flowing() && NoneGone({session}) && session.sessionConnClosed && session.tunnelDisconnected
      ensures session.tunnelHardDisconnected == (old(session.tunnelHardDisconnected) || hard)
      ensures old(Tidy()) ==> Tidy()
    {
      hide Controlled;
      session.sessionConnClosed := true;
      session.tunnelDisconnected := true;
      session.tunnelHardDisconnected := session.tunnelHardDisconnected || hard;
    }

    /** The user's key is erased without a look at the session it leads to: exactly when that is another session with
        an open connection, one is left behind. */
    method Unregister(session: Session)
      requires session in created && Keyed() && NoneGone({session}) && session.Closed()
      modifies this`users
      ensures users == old(users) - {session.usr}
      ensures Keyed() && NoneGone({}) && (old(Fed()) ==> Fed())
      ensures old(Tidy()) ==>
                (Tidy() <==> !(session.usr in old(users) && old(users)[session.usr] != session
                               && !old(users)[session.usr].Closed()))
    {
      hide Demux;
      ghost var other := if session.usr in users then users[session.usr] else session;
      users := users - {session.usr};
      assert forall s :: s in created && InUse(s) ==> old(InUse(s)) && s != session;
      assert forall s :: s in created && old(InUse(s)) && s != other ==> InUse(s);
      assert !InUse(other);
    }

    /** A session both of whose sides are gone is closed and unregistered. */
    method CleanSession(session: Session)
      requires session in created && Keyed() && Flowing() && NoneGone({session}) && Distinct() && (!reused ==> Tidy())
      modifies this`users, session`userConnClosed, session`sessionConnClosed
      ensures Keyed() && Flowing() && NoneGone({}) && (!reused ==> Tidy()) && (old(Fed()) ==> Fed())
      ensures if session.Gone() then users == old(users) - {session.usr} && session.Closed()
              else users == old(users) && session.userConnClosed == old(session.userConnClosed)
                   && session.sessionConnClosed == old(session.sessionConnClosed)
      ensures old(Tidy()) ==>
                (Tidy() <==> !(session.Gone() && session.usr in old(users) && old(users)[session.usr] != session
                               && !old(users)[session.usr].Closed()))
    {
      hide Controlled, Demux, Fed, Flowing, Tidy;
      if session.userDisconnected && session.tunnelDisconnected {
        CloseBoth(session);
        Unregister(session);
      }
    }

    /** `__OnServerConnect`: the relay is asked to listen at every configured port. */
    method OnServerConnect(ports: seq<Port>)
      requires Valid()
      modifies this`tunnelOut
      ensures Valid() && |tunnelOut| == |old(tunnelOut)| + |ports| && old(tunnelOut) <= tunnelOut
      ensures forall k :: 0 <= k < |ports| ==> tunnelOut[|old(tunnelOut)| + k] == Bind(ports[k])
    {
      hide Keyed, Flowing, NoneGone, Fed, Distinct, Tidy;
      for i := 0 to |ports|
        invariant Valid() && |tunnelOut| == |old(tunnelOut)| + i && old(tunnelOut) <= tunnelOut
        invariant forall k :: 0 <= k < i ==> tunnelOut[|old(tunnelOut)| + k] == Bind(ports[k])
      {
        tunnelOut := tunnelOut + [Bind(ports[i])];
      }
    }

    // ----- messages from the relay -----

    ghost method Log(packet: seq<byte>, origin: Origin)
      requires Fed()
      modifies this`received, this`origins, this`origins
      ensures received == old(received) + [packet] && origins == old(origins) + [origin] && FedBut(packet)
      ensures !IsData(packet) || UserAt(packet) !in users ==> Fed()
    {
      hide UserAt, Demux;
      ghost var before := received;
      received := received + [packet];
      origins := origins + [origin];
      forall s | s in created && InUse(s)
        ensures s.toUser + Carried(s.usr, packet) == Demux(s.usr, received[s.since..])
        ensures !IsData(packet) || UserAt(packet) !in users ==> s.toUser == Demux(s.usr, received[s.since..])
      {
        assert received[s.since..] == before[s.since..] + [packet];
        DemuxSnoc(s.usr, before[s.since..], packet);
      }
    }

    /** The session a message about a user is for. */
    function Target(data: seq<byte>): (t: set<Session>)
      reads this
    {
      if |data| >= DATA_SIZE && UserAt(data) in users then {users[UserAt(data)]} else {}
    }

    /** The DATA branch, alike in `__OnServerRecv` and `__OnSessionRecv`. */
    method OnData(data: seq<byte>, ghost origin: Origin)
      requires Valid() && IsData(data)
      modifies this`received, this`origins, Target(data)
      ensures Valid() && received == old(received) + [data] && origins == old(origins) + [origin]
      ensures forall s :: s in Target(data) ==>
                s.toUser == old(s.toUser) + data[DATA_SIZE..] && s.tunnelPending == old(s.tunnelPending) + 1
                && s.tunnelCorked == (old(s.tunnelCorked) || (queueLimit != 0 && s.tunnelTraffic > queueLimit))
    {
      hide UserAt, Demux, Controlled, NoneGone, Distinct, Tidy;
      Log(data, origin);
      if UserAt(data) !in users {
        return;
      }
      var session := users[UserAt(data)];
      assert session.usr == UserAt(data);
      session.Deliver(data[DATA_SIZE..], queueLimit);
    }

    /** The DISCONNECT branch, alike in both. */
    method OnDisconnect(data: seq<byte>, ghost origin: Origin)
      requires Valid() && |data| >= DATA_SIZE && data[0] == R2A_DISCONNECT
      modifies this`received, this`origins, this`users, Target(data)`userConnClosed, Target(data)`sessionConnClosed,
               Target(data)`tunnelDisconnected, Target(data)`tunnelHardDisconnected
      ensures Valid() && received == old(received) + [data] && origins == old(origins) + [origin]
      ensures UserAt(data) !in old(users) ==> users == old(users)
      ensures UserAt(data) in old(users) ==>
                var session := old(users)[UserAt(data)];
                session.tunnelDisconnected && session.sessionConnClosed
                && session.tunnelHardDisconnected == old(session.tunnelHardDisconnected)
                && users == old(users) - if session.userDisconnected then {UserAt(data)} else {}
    {
      hide UserAt, Flowing, NoneGone, Fed, FedBut, Distinct, Tidy, IsData;
      Log(data, origin);
      OtherIsNotData(data);
      if UserAt(data) !in users {
        return;
      }
      var session := users[UserAt(data)];
      CloseTunnel(session, false);
      CleanSession(session);
    }

    lemma OtherIsNotData(data: seq<byte>)
      ensures |data| > 0 && data[0] != R2A_DATA ==> !IsData(data)
    {
    }

    /** The address a new user's connection goes to. */
    function Choose(usr: User, hash: nat): (ep: Option<nat>)
      ensures ep.Some? <==> usr.port in services && services[usr.port] != []
      ensures ep.Some? ==> ep.value in services[usr.port]
    {
      if usr.port !in services || |services[usr.port]| == 0 then None
      else Some(services[usr.port][Around(if byAddress then hash else usr.id, |services[usr.port]|)])
    }

    /** By address, users of one port go where the hash of their address leads, whatever their ids: to the endpoint at
        that position, counted around the ordered endpoints. */
    lemma ByAddress(port: Port, i: Id, j: Id, hash: nat)
      requires byAddress && port in services && services[port] != []
      ensures Choose(User(port, i), hash) == Choose(User(port, j), hash)
      ensures hash < |services[port]| ==> Choose(User(port, i), hash) == Some(services[port][hash])
      ensures Choose(User(port, i), hash + |services[port]|) == Choose(User(port, i), hash)
    {
      hide Around;
      AroundAgain(hash, |services[port]|);
    }

    /** By sequence number, the address never matters: the first users go to the first endpoints in turn, and users as
        far apart as there are endpoints meet. */
    lemma BySequence(port: Port, i: Id, hash: nat, hash': nat)
      requires !byAddress && port in services && services[port] != []
      ensures Choose(User(port, i), hash) == Choose(User(port, i), hash')
      ensures i < |services[port]| ==> Choose(User(port, i), hash) == Some(services[port][i])
      ensures i + |services[port]| < TWO_32 ==>
                Choose(User(port, i + |services[port]|), hash) == Choose(User(port, i), hash)
    {
      hide Around;
      AroundAgain(i, |services[port]|);
    }

    /** The CONNECT branch. `hash` stands for the hash of the user's address. */
    method OnConnect(data: seq<byte>, hash: nat, ghost origin: Origin)
      requires Valid() && |data| >= CONNECT_SIZE && data[0] == R2A_CONNECT
      modifies this`received, this`origins, this`users, this`created, this`used, this`reused
      ensures Valid() && received == old(received) + [data] && origins == old(origins) + [origin]
      ensures old(created) <= created && fresh(created - old(created))
      ensures var usr := UserAt(data);
              if usr in old(users) || Choose(usr, hash) == None
              then users == old(users) && created == old(created) && used == old(used) && reused == old(reused)
              else usr in users && fresh(users[usr]) && users == old(users)[usr := users[usr]]
                   && created == old(created) + {users[usr]} && Some(users[usr].target) == Choose(usr, hash)
                   && users[usr].usr == usr && !users[usr].userDisconnected && !users[usr].tunnelDisconnected
                   && !users[usr].userConnClosed && !users[usr].sessionConnClosed
                   && used == old(used) + {usr} && reused == (old(reused) || usr in old(used))
    {
      hide UserAt, Keyed, Flowing, NoneGone, Fed, FedBut, Distinct, Tidy, IsData;
      Log(data, origin);
      OtherIsNotData(data);
      var usr := UserAt(data);
      if usr in users || Choose(usr, hash) == None {
        return;
      }
      var session := new Session(usr, Choose(usr, hash).value, |received|, queueLimit);
      Register(session);
    }

    /** A new session is stored under its user. */
    method Register(session: Session)
      requires Valid() && session !in created && session.usr !in users && session.Valid(queueLimit)
      requires session.toUser == [] && session.since == |received| && !session.Gone()
      modifies this`users, this`created, this`used, this`reused
      ensures Valid() && users == old(users)[session.usr := session]
      ensures created == old(created) + {session} && used == old(used) + {session.usr}
      ensures reused == (old(reused) || session.usr in old(used))
    {
      hide Demux, Session.Valid, Session.Gone, Session.Closed;
      NothingYet(session.usr);
      reused := reused || session.usr in used;
      used := used + {session.usr};
      created := created + {session};
      users := users[session.usr := session];
    }

    lemma NothingYet(u: User)
      ensures Demux(u, received[|received|..]) == []
    {
    }

    /** `__OnServerRecv`. */
    method OnServerRecv(data: seq<byte>, hash: nat)
      requires Valid()
      modifies this`received, this`origins, this`users, this`created, this`used, this`reused, Target(data)
      ensures Valid() && received == old(received) + [data] && origins == old(origins) + [Tunnel(tunnels)]
      ensures fresh(created - old(created))
      ensures !Asks(data, R2A_CONNECT, CONNECT_SIZE) ==> created == old(created)
      ensures !Asks(data, R2A_CONNECT, CONNECT_SIZE) && !Asks(data, R2A_DISCONNECT, DATA_SIZE) ==> users == old(users)
      ensures Asks(data, R2A_CONNECT, CONNECT_SIZE) ==>
                var usr := UserAt(data);
                (usr in users <==> usr in old(users) || Choose(usr, hash).Some?)
                && (usr in users && usr !in old(users) ==> Some(users[usr].target) == Choose(usr, hash))
                && users - {usr} == old(users) - {usr} && (usr in old(users) ==> users == old(users))
      ensures Asks(data, R2A_DISCONNECT, DATA_SIZE) && UserAt(data) in old(users) ==>
                var session := old(users)[UserAt(data)];
                session.tunnelDisconnected && session.sessionConnClosed
                && users == old(users) - if session.userDisconnected then {UserAt(data)} else {}
      ensures Asks(data, R2A_DISCONNECT, DATA_SIZE) && UserAt(data) !in old(users) ==> users == old(users)
    {
      hide Keyed, Flowing, NoneGone, Fed, FedBut, Distinct, Tidy, UserAt;
      if |data| < 1 {
        Log(data, Tunnel(tunnels));
      } else if data[0] == R2A_DATA && |data| >= DATA_SIZE {
        OnData(data, Tunnel(tunnels));
      } else if data[0] == R2A_CONNECT && |data| >= CONNECT_SIZE {
        OnConnect(data, hash, Tunnel(tunnels));
      } else if data[0] == R2A_DISCONNECT && |data| >= DATA_SIZE {
        OnDisconnect(data, Tunnel(tunnels));
      } else {
        // BIND and UNBIND are only reported; what is short or unknown is dropped
        Log(data, Tunnel(tunnels));
      }
    }

    /** `__OnSessionRecv`. It looks for the user in the message, not at the session the connection belongs to. */
    method OnSessionRecv(session: Session, data: seq<byte>)
      requires Valid() && session in created
      modifies this`received, this`origins, this`users, Target(data)
      ensures Valid() && received == old(received) + [data] && origins == old(origins) + [Own(session)]
      ensures !Asks(data, R2A_DISCONNECT, DATA_SIZE) ==> users == old(users)
      ensures !IsData(data) && !Asks(data, R2A_DISCONNECT, DATA_SIZE) ==>
                forall s :: s in old(Target(data)) ==>
                  s.toUser == old(s.toUser) && s.tunnelPending == old(s.tunnelPending)
                  && s.tunnelDisconnected == old(s.tunnelDisconnected) && s.sessionConnClosed == old(s.sessionConnClosed)
      ensures IsData(data) ==>
                forall s :: s in old(Target(data)) ==>
                  s.toUser == old(s.toUser) + data[DATA_SIZE..] && s.tunnelPending == old(s.tunnelPending) + 1
                  && s.tunnelCorked == (old(s.tunnelCorked) || (queueLimit != 0 && s.tunnelTraffic > queueLimit))
      ensures Asks(data, R2A_DISCONNECT, DATA_SIZE) && UserAt(data) in old(users) ==>
                var gone := old(users)[UserAt(data)];
                gone.tunnelDisconnected && gone.sessionConnClosed
                && users == old(users) - if gone.userDisconnected then {UserAt(data)} else {}
      ensures Asks(data, R2A_DISCONNECT, DATA_SIZE) && UserAt(data) !in old(users) ==> users == old(users)
    {
      hide Keyed, Flowing, NoneGone, Fed, FedBut, Distinct, Tidy, UserAt;
      if |data| < 1 {
        Log(data, Own(session));
      } else if data[0] == R2A_DATA && |data| >= DATA_SIZE {
        OnData(data, Own(session));
      } else if data[0] == R2A_DISCONNECT && |data| >= DATA_SIZE {
        OnDisconnect(data, Own(session));
      } else {
        Log(data, Own(session));
      }
    }

    method ForgetAll()
      requires !reused ==> Tidy()
      requires forall u :: u in users ==> users[u].Closed()
      modifies this`users
      ensures users == map[] && Keyed() && NoneGone({}) && Fed() && (!reused ==> Tidy())
    {
      users := map[];
    }

    /** `__OnServerDisconnect`: every session is closed and forgotten, and the tunnel connection will be another. */
    method OnServerDisconnect()
      requires Valid()
      modifies this`users, this`tunnels, users.Values`userConnClosed, users.Values`sessionConnClosed
      ensures Valid() && users == map[] && tunnels == old(tunnels) + 1
      ensures forall u :: u in old(users) ==> old(users)[u].Closed()
    {
      hide Flowing, NoneGone, Fed, Distinct, Tidy;
      var keys := users.Keys;
      while keys != {}
        invariant keys <= users.Keys && users == old(users) && tunnels == old(tunnels) && Flowing() && (!reused ==> Tidy())
        invariant forall u :: u in users && u !in keys ==> users[u].Closed()
        decreases |keys|
      {
        var u :| u in keys;
        CloseBoth(users[u]);
        keys := keys - {u};
      }
      ForgetAll();
      tunnels := tunnels + 1;
    }

    // ----- the target program -----

    /** `__OnUserRecv`: over the session's own connection once that is ready, else over the main tunnel. */
    method OnUserRecv(session: Session, data: seq<byte>)
      requires Valid() && session in created
      modifies this`tunnelOut, session`userTraffic, session`userCorked, session`userConnBlocked, session`userPending,
               session`userWrapped, session`sessionOut
      ensures Valid() && session.userPending == old(session.userPending) + 1
      ensures session.userCorked == (old(session.userCorked) || (queueLimit != 0 && session.userTraffic > queueLimit))
      ensures var message := Header(A2R_DATA, session.usr) + data;
              if session.sessionConnReady
              then session.sessionOut == old(session.sessionOut) + [message] && tunnelOut == old(tunnelOut)
              else tunnelOut == old(tunnelOut) + [message] && session.sessionOut == old(session.sessionOut)
    {
      hide Keyed, NoneGone, Fed, Distinct, Tidy, Controlled, Header;
      session.Take(queueLimit);
      Reply(session, Header(A2R_DATA, session.usr) + data);
    }

    method Reply(session: Session, message: seq<byte>)
      modifies this`tunnelOut, session`sessionOut
      ensures if session.sessionConnReady
              then session.sessionOut == old(session.sessionOut) + [message] && tunnelOut == old(tunnelOut)
              else tunnelOut == old(tunnelOut) + [message] && session.sessionOut == old(session.sessionOut)
    {
      if session.sessionConnReady {
        session.sessionOut := session.sessionOut + [message];
      } else {
        tunnelOut := tunnelOut + [message];
      }
    }

    /** `__OnUserDisconnect`. */
    method OnUserDisconnect(session: Session)
      requires Valid() && session in created
      modifies this`users, this`tunnelOut, session`userConnClosed, session`userDisconnected, session`sessionOut,
               session`sessionConnClosed
      ensures Valid() && session.userDisconnected && session.userConnClosed
      ensures users == old(users) - if session.tunnelDisconnected then {session.usr} else {}
      ensures var message := Header(A2R_DISCONNECT, session.usr);
              if session.sessionConnReady
              then session.sessionOut == old(session.sessionOut) + [message] && tunnelOut == old(tunnelOut)
              else tunnelOut == old(tunnelOut) + [message] && session.sessionOut == old(session.sessionOut)
    {
      hide Keyed, Flowing, NoneGone, Fed, Distinct, Tidy, Header;
      CloseUser(session);
      Reply(session, Header(A2R_DISCONNECT, session.usr));
      CleanSession(session);
    }

    // ----- the session's own connection -----

    /** `__OnSessionConnect`. */
    method OnSessionConnect(session: Session)
      requires Valid() && session in created
      modifies session`sessionOut, session`sessionConnReady
      ensures Valid() && session.sessionConnReady
      ensures session.sessionOut == old(session.sessionOut) + [Header(A2R_SESSION, session.usr)]
    {
      hide Keyed, Flowing, NoneGone, Fed, Distinct, Tidy, Header;
      session.sessionOut := session.sessionOut + [Header(A2R_SESSION, session.usr)];
      session.sessionConnReady := true;
    }

    /** `__OnSessionDisconnect`. */
    method OnSessionDisconnect(session: Session)
      requires Valid() && session in created
      modifies this`users, session`userConnClosed, session`sessionConnClosed, session`tunnelDisconnected,
               session`tunnelHardDisconnected
      ensures Valid() && session.tunnelDisconnected && session.tunnelHardDisconnected && session.sessionConnClosed
      ensures users == old(users) - if session.userDisconnected then {session.usr} else {}
    {
      hide Keyed, Flowing, NoneGone, Fed, Distinct, Tidy;
      CloseTunnel(session, true);
      CleanSession(session);
    }

    // ----- completions -----

    /** The completion of a send to the target. */
    method OnDelivered(session: Session)
      requires Valid() && session in created && session.tunnelPending > 0
      modifies this`users, session`tunnelTraffic, session`tunnelCorked, session`sessionConnBlocked,
               session`tunnelPending, session`userConnClosed, session`sessionConnClosed
      ensures Valid() && session.tunnelPending == old(session.tunnelPending) - 1
      ensures session.tunnelCorked ==
              (old(session.tunnelCorked) && !(queueLimit != 0 && session.tunnelTraffic <= queueLimit / 2))
      ensures users == old(users) - if session.Gone() then {session.usr} else {}
    {
      hide Keyed, Fed, Distinct, Tidy, Controlled;
      session.Delivered(queueLimit);
      CleanSession(session);
    }

    /** The completion of a send to the relay. */
    method OnTaken(session: Session)
      requires Valid() && session in created && session.userPending > 0
      modifies this`users, session`userTraffic, session`userCorked, session`userConnBlocked, session`userPending,
               session`userConnClosed, session`sessionConnClosed
      ensures Valid() && session.userPending == old(session.userPending) - 1
      ensures session.userCorked ==
              (old(session.userCorked) && !(queueLimit != 0 && session.userTraffic <= queueLimit / 2))
      ensures users == old(users) - if session.Gone() then {session.usr} else {}
    {
      hide Keyed, Fed, Distinct, Tidy, Controlled;
      session.Taken(queueLimit);
      CleanSession(session);
    }
  }

  /** What holds of every session in every state: a flag of a side means that side is closed, and a registered session
      still has one of its sides. As long as no user id has come back, a session that is not registered has both its
      connections closed. */
  lemma LifeOfASession(agent: Agent, s: Session)
    requires agent.Valid() && s in agent.created
    ensures (s.userDisconnected ==> s.userConnClosed) && (s.tunnelDisconnected ==> s.sessionConnClosed)
    ensures agent.InUse(s) ==> !(s.userDisconnected && s.tunnelDisconnected)
    ensures !agent.reused && !agent.InUse(s) ==> s.userConnClosed && s.sessionConnClosed
  {
  }

  /** And of its flow control, in both directions: the counters are the outstanding sends, a connection is paused
      exactly while corked and then more than half the limit is outstanding; else the limit is kept. */
  lemma FlowOfASession(agent: Agent, s: Session)
    requires agent.Valid() && s in agent.created
    ensures s.userTraffic == s.userPending % TWO_32 && s.userConnBlocked == s.userCorked
    ensures s.tunnelTraffic == s.tunnelPending % TWO_32 && s.sessionConnBlocked == s.tunnelCorked
    ensures !s.userWrapped && s.userCorked ==> s.userTraffic > agent.queueLimit / 2 && s.userPending > 0
    ensures !s.userWrapped && !s.userCorked && agent.queueLimit != 0 ==> s.userTraffic <= agent.queueLimit
    ensures !s.tunnelWrapped && s.tunnelCorked ==> s.tunnelTraffic > agent.queueLimit / 2 && s.tunnelPending > 0
    ensures !s.tunnelWrapped && !s.tunnelCorked && agent.queueLimit != 0 ==> s.tunnelTraffic <= agent.queueLimit
  {
  }

  const U: User := User(80, 5)

  function ConnectU(): seq<byte> { Header(R2A_CONNECT, U) + [127, 0, 0, 1, 0, 0] }

  /** A user comes, the target sends a byte and goes, the user goes: the session is cleaned up on both sides while the
      completion of that byte is still to run. */
  method CleanedUp() returns (agent: Agent, first: Session)
    ensures agent.Valid() && first in agent.created && first.Gone() && first.userPending > 0 && first.usr == U
    ensures fresh(agent) && fresh(first)
    ensures agent.users == map[] && agent.used == {U} && !agent.byAddress && agent.services == map[80 := [1]]
  {
    hide Agent.Keyed, Agent.Flowing, Agent.NoneGone, Agent.Fed, Agent.Distinct, Agent.Tidy, Header, UserAt;
    agent := new Agent(0, map[80 := [1]], false);
    HeaderRoundTrip(R2A_CONNECT, U, [127, 0, 0, 1, 0, 0]);
    HeaderRoundTrip(R2A_DISCONNECT, U, []);
    assert Header(R2A_DISCONNECT, U) + [] == Header(R2A_DISCONNECT, U);
    agent.OnConnect(ConnectU(), 0, Tunnel(agent.tunnels));
    first := agent.users[U];
    agent.OnUserRecv(first, [42]);
    agent.OnUserDisconnect(first);
    assert agent.users == map[U := first];
    agent.OnDisconnect(Header(R2A_DISCONNECT, U), Tunnel(agent.tunnels));
  }

  /** Why user ids must not come back. Completions of sends over the tunnel are run by the tunnel's connection and so can
      come after their session has been cleaned up on both sides. Such a completion cleans up again, by the user's key,
      and unregisters the session that has taken the key since, leaving its connections open. */
  method WrongSessionErased() returns (agent: Agent, left: Session)
    ensures agent.Valid() && agent.reused
    ensures left in agent.created && left.usr !in agent.users && !left.userConnClosed && !left.sessionConnClosed
  {
    hide Agent.Keyed, Agent.Flowing, Agent.NoneGone, Agent.Fed, Agent.Distinct, Agent.Tidy, Header, UserAt;
    var first;
    agent, first := CleanedUp();
    HeaderRoundTrip(R2A_CONNECT, U, [127, 0, 0, 1, 0, 0]);
    agent.OnConnect(ConnectU(), 0, Tunnel(agent.tunnels));
    left := agent.users[U];
    agent.OnTaken(first);
  }
}
