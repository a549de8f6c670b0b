/** `TcpServer`: its connections and the sequence numbers they are known by. */
module TcpServer {
  import opened Common
  import opened Protocol
  import opened TcpConnection

  function Next(n: Id): Id { (n + 1) % TWO_32 }

  /** The number `d` steps after `from` on the circle of 32-bit numbers. */
  function After(from: Id, d: nat): Id { (from + d) % TWO_32 }

  /** Steps from one number to another around the circle. */
  function Distance(from: Id, to: Id): (d: nat)
    ensures d < TWO_32 && After(from, d) == to
  {
    if to >= from then to - from else to + TWO_32 - from
  }

  lemma DistanceShrinks(from: Id, to: Id)
    requires from != to
    ensures Distance(Next(from), to) == Distance(from, to) - 1
  {
  }

  /** All numbers below `n`, in a set of their own. */
  function Below(n: nat): (r: set<Id>)
    requires n <= TWO_32
    ensures |r| == n && forall x: Id :: x in r <==> x < n
  {
    if n == 0 then {} else Below(n - 1) + {n - 1}
  }

  /** A number is free exactly when fewer than 2^32 are taken. */
  lemma FreeExactly(taken: set<Id>)
    ensures (exists s: Id :: s !in taken) <==> |taken| < TWO_32
  {
    hide Below;
    var all := Below(TWO_32);
    if s: Id :| s !in taken {
      Smaller(taken + {s}, all);
    } else {
      Smaller(all, taken);
    }
  }

  lemma {:induction false} Smaller(a: set<Id>, b: set<Id>)
    requires forall x :: x in a ==> x in b
    ensures |a| <= |b|
    decreases |a|
  {
    if x :| x in a {
      Smaller(a - {x}, b - {x});
    }
  }

  class TcpServer {
    const defragment: bool
    const maxPacketLength: nat
    var inited: bool
    var nextSeq: Id
    var conns: map<Id, TcpConnection>
    // Connections on which `Close` has been called.
    var closed: set<TcpConnection>
    // Connections that wait for an accept to complete.
    var waiting: set<TcpConnection>
    ghost var acceptors: nat
    // An accept has ended as cancelled.
    ghost var cancelled: bool
    // Every connection there has been.
    ghost var lines: set<TcpConnection>

    ghost predicate Valid()
      reads this, lines
    {
      Distinct() && Sound() && Accepting()
    }

    /** Every acceptor of a running server waits, with a connection of its own. */
    ghost predicate Accepting()
      reads `inited, `waiting, `acceptors, `cancelled, `lines
    {
      waiting <= lines && (inited && !cancelled ==> |waiting| == acceptors)
    }

    /** A connection is stored under one number. */
    ghost predicate Distinct()
      reads `conns, `lines
    {
      (forall s :: s in conns ==> conns[s] in lines)
      && forall s, t :: s in conns && t in conns && s != t ==> conns[s] != conns[t]
    }

    ghost predicate Sound()
      reads `lines, lines
    {
      forall l :: l in lines ==> l.Valid()
    }

    constructor (mode: bool, max: nat)
      ensures Valid() && conns == map[] && lines == {} && waiting == {} && nextSeq == 0 && !inited && acceptors == 0
      ensures defragment == mode && maxPacketLength == max && closed == {} && !cancelled
    {
      defragment, maxPacketLength := mode, max;
      inited, nextSeq, conns, closed, lines := false, 0, map[], {}, {};
      waiting, acceptors, cancelled := {}, 0, false;
    }

    /** `Start`, on that many endpoints. */
    method Start(endpoints: nat) returns (ok: bool)
      requires Valid() && !inited && !cancelled && acceptors == 0 && waiting == {} && |conns.Keys| + endpoints <= TWO_32
      modifies this`inited, this`nextSeq, this`conns, this`lines, this`waiting, this`acceptors
      ensures Valid() && ok == inited == (endpoints > 0) && acceptors == |waiting| == endpoints
      ensures old(conns.Keys) <= conns.Keys && |conns.Keys| == |old(conns.Keys)| + endpoints
      ensures forall s :: s in old(conns) ==> conns[s] == old(conns)[s]
      ensures old(lines) <= lines && forall l :: l in lines && l !in old(lines) ==> fresh(l) && l.offered == []
    {
      hide Distinct, Sound, Accepting;
      SetInited(endpoints > 0);
      for i := 0 to endpoints
        invariant Valid() && acceptors == i && |waiting| == i && |conns.Keys| == |old(conns.Keys)| + i
        invariant inited == (endpoints > 0) && !cancelled
        invariant old(conns.Keys) <= conns.Keys && forall s :: s in old(conns) ==> conns[s] == old(conns)[s]
        invariant old(lines) <= lines && forall l :: l in lines && l !in old(lines) ==> fresh(l) && l.offered == []
      {
        AddAcceptor();
      }
      ok := inited;
    }

    method SetInited(b: bool)
      requires Valid() && |waiting| == acceptors
      modifies this`inited
      ensures Valid() && inited == b
    {
      hide Distinct, Sound;
      inited := b;
    }

    /** One more acceptor, with its first connection. */
    method AddAcceptor()
      requires Valid() && |waiting| == acceptors && |conns.Keys| < TWO_32
      modifies this`nextSeq, this`conns, this`lines, this`waiting, this`acceptors
      ensures Valid() && acceptors == old(acceptors) + 1 == |waiting| && |conns.Keys| == |old(conns.Keys)| + 1
      ensures old(conns.Keys) <= conns.Keys && forall s :: s in old(conns) ==> conns[s] == old(conns)[s]
      ensures old(lines) <= lines && forall l :: l in lines && l !in old(lines) ==> fresh(l) && l.offered == []
    {
      hide Distinct, Sound;
      var number := StartNextConnection();
      acceptors := acceptors + 1;
      assert conns.Keys == old(conns.Keys) + {number};
    }

    /** `__GetNextSeq`: the first free number after the last one given out, around the circle. With all numbers taken
        the source would search for ever. */
    method GetNextSeq() returns (number: Id)
      requires |conns.Keys| < TWO_32
      modifies this`nextSeq
      ensures number !in conns && nextSeq == number
      ensures exists d: nat :: 0 < d <= TWO_32 && After(old(nextSeq), d) == number
                               && forall k: nat :: 0 < k < d ==> After(old(nextSeq), k) in conns
    {
      FreeExactly(conns.Keys);
      ghost var free: Id :| free !in conns.Keys;
      ghost var first, d := nextSeq, 1;
      nextSeq := Next(nextSeq);
      number := nextSeq;
      while number in conns
        invariant number == nextSeq == After(first, d) && d + Distance(number, free) <= TWO_32
        invariant forall k: nat :: 0 < k < d ==> After(first, k) in conns
        decreases Distance(number, free)
      {
        DistanceShrinks(number, free);
        AfterStep(first, d);
        nextSeq := Next(nextSeq);
        number := nextSeq;
        d := d + 1;
      }
    }

    /** `__StartNextConnection`: no live connection is overwritten, and the new one waits for an accept. */
    method StartNextConnection() returns (number: Id)
      requires Distinct() && Sound() && waiting <= lines && |conns.Keys| < TWO_32
      modifies this`nextSeq, this`conns, this`lines, this`waiting
      ensures Distinct() && Sound() && waiting <= lines && number !in old(conns) && number in conns
      ensures fresh(conns[number]) && conns[number].offered == []
      ensures conns == old(conns)[number := conns[number]] && conns - {number} == old(conns)
      ensures lines == old(lines) + {conns[number]} && waiting == old(waiting) + {conns[number]}
      ensures conns[number].defragment == defragment && conns[number].maxPacketLength == maxPacketLength
      ensures nextSeq == number
    {
      hide TcpConnection.Valid;
      number := GetNextSeq();
      var conn := new TcpConnection.Accepted(defragment, maxPacketLength);
      lines := lines + {conn};
      conns := conns[number := conn];
      // async_accept
      waiting := waiting + {conn};
    }

    /** `__OnAccept`: an accept has completed. `accepted` is the number the application is told of; that connection is
        started. Unless the accept was cancelled or the server is closed, exactly one new connection, `next`, takes over
        the waiting, also after an error. */
    method OnAccept(number: Id, conn: TcpConnection, error: bool, aborted: bool)
      returns (accepted: Option<Id>, ghost next: Id)
      requires Valid() && |conns.Keys| < TWO_32 && conn in waiting
      modifies this`nextSeq, this`conns, this`lines, this`waiting, this`cancelled, conn`posted
      ensures Valid() && accepted == if !aborted && inited && !error then Some(number) else None
      ensures conn.posted == old(conn.posted) + if accepted == None then [] else [StartTask]
      ensures cancelled == (old(cancelled) || aborted)
      ensures !aborted && inited ==>
                next !in old(conns) && next in conns && conns == old(conns)[next := conns[next]] && fresh(conns[next])
                && waiting == old(waiting) - {conn} + {conns[next]} && lines == old(lines) + {conns[next]}
                && conns[next].offered == []
      ensures aborted || !inited ==>
                conns == old(conns) && nextSeq == old(nextSeq) && lines == old(lines) && waiting == old(waiting) - {conn}
    {
      hide TcpConnection.Valid, Distinct;
      accepted := None;
      waiting := waiting - {conn};
      if aborted {
        cancelled := true;
        next := 0;
        return;
      }
      if !inited {
        next := 0;
        return;
      }
      if !error {
        accepted := Some(number);
        conn.Start();
      }
      next := StartNextConnection();
    }

    /** A connection is gone: its number may be given out again. */
    method OnDisconnect(number: Id)
      requires Distinct()
      modifies this`conns
      ensures Distinct() && conns == old(conns) - {number}
    {
      conns := conns - {number};
    }

    /** `__Send`: to a live connection, or to nobody. */
    method Send(number: Id, data: seq<byte>, pfn: Option<nat>)
      requires Valid()
      modifies lines`posted, lines`offered
      ensures Valid()
      ensures forall l :: l in lines ==>
                l.offered == old(l.offered) + if Is(number, l) then [One(data, pfn)] else []
    {
      hide TcpConnection.Valid;
      if number in conns {
        conns[number].Send(data, pfn);
      }
    }

    /** `__SendV`. */
    method SendV(number: Id, datas: seq<seq<byte>>, pfn: Option<nat>)
      requires Valid()
      modifies lines`posted, lines`offered
      ensures Valid()
      ensures forall l :: l in lines ==>
                l.offered == old(l.offered) + if Is(number, l) then [Many(datas, pfn)] else []
    {
      hide TcpConnection.Valid;
      if number in conns {
        conns[number].SendV(datas, pfn);
      }
    }

    /** The live connection of a number. */
    predicate Is(number: Id, l: TcpConnection)
      reads `conns
    {
      number in conns && conns[number] == l
    }

    /** `__BlockRecv`. */
    method BlockRecv(number: Id, b: bool)
      requires Valid()
      modifies lines`blockingRecv, lines`posted
      ensures Valid()
      ensures forall l :: l in lines ==> l.blockingRecv == if Is(number, l) then b else old(l.blockingRecv)
    {
      hide TcpConnection.Valid;
      if number in conns {
        conns[number].BlockRecv(b);
      }
    }

    /** `__Close`. */
    method CloseOne(number: Id)
      modifies this`closed
      ensures closed == old(closed) + if number in conns then {conns[number]} else {}
    {
      if number in conns {
        closed := closed + {conns[number]};
      }
    }

    /** `Close`. */
    method Close()
      requires Valid()
      modifies this`inited, this`conns, this`closed
      ensures Valid() && !inited && conns == map[] && closed == old(closed) + old(conns).Values
    {
      hide Sound;
      inited := false;
      var numbers := conns.Keys;
      while numbers != {}
        invariant numbers <= conns.Keys && conns == old(conns) && !inited
        invariant closed == old(closed) + set s | s in conns && s !in numbers :: conns[s]
        decreases |numbers|
      {
        var s :| s in numbers;
        closed := closed + {conns[s]};
        numbers := numbers - {s};
      }
      conns := map[];
    }
  }

  /** In every state a running server has a connection waiting to be accepted, unless an accept has been cancelled. */
  lemma AlwaysAccepting(server: TcpServer)
    requires server.Valid() && server.inited && !server.cancelled && server.acceptors > 0
    ensures server.waiting != {} && server.waiting <= server.lines
  {
  }

  lemma AfterStep(first: Id, d: nat)
    ensures After(first, d + 1) == Next(After(first, d))
  {
    var n := first + d;
    var q, r := n / TWO_32, n % TWO_32;
    assert n == TWO_32 * q + r;
    if r + 1 == TWO_32 {
      assert n + 1 == TWO_32 * (q + 1);
    } else {
      assert n + 1 == TWO_32 * q + (r + 1);
    }
  }
}
