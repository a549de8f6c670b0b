/** One framed connection: `TCPConnection` with the connect gate of `ClientTCPConnection` and the start of
    `ServerTCPConnection`. Every method is one step: a call by the application, a task run by the io_service, a
    completion, or bytes coming in from the network. */
module TcpConnection {
  import opened Common
  import opened Framing
  import opened StreamBuf

  /** A call of `Send` or `SendV`. A completion function is known by a number. */
  datatype Message =
    | One(data: seq<byte>, pfn: Option<nat>)
    | Many(datas: seq<seq<byte>>, pfn: Option<nat>)

  datatype Entry = Entry(bytes: seq<byte>, pfn: Option<nat>)

  /** What the connection posts to its io_service. */
  datatype Task = SendTask(message: Message) | RecvTask | StartTask | Fire(pfn: nat)

  /** The read operation in flight. */
  datatype Reading = NoRead | HeaderRead | BodyRead(length: nat)

  function Payload(m: Message): seq<byte> { if m.One? then m.data else Flatten(m.datas) }

  /** Nobody but other users and buffers of 2^31 bytes or more damage the pool, and there are none of the latter in the
      queue or in flight if the messages accepted need none. */
  predicate OnlyLongDamage(damaged: bool, byOthers: bool, reusable: bool, short: bool, q: seq<Entry>,
                           sending: Option<seq<byte>>) {
    (!byOthers && reusable && short ==> !damaged)
    && (!damaged && reusable ==> ShortEntries(q) && (sending.Some? ==> |sending.value| < TWO_31))
  }

  lemma OneSent(damaged: bool, byOthers: bool, reusable: bool, short: bool, q: seq<Entry>, sending: Option<seq<byte>>)
    requires OnlyLongDamage(damaged, byOthers, reusable, short, q, sending) && q != []
    ensures OnlyLongDamage(damaged, byOthers, reusable, short, q[1..], Some(q[0].bytes))
  {
  }

  lemma NoneSent(damaged: bool, byOthers: bool, reusable: bool, short: bool, q: seq<Entry>, sending: Option<seq<byte>>)
    requires OnlyLongDamage(damaged, byOthers, reusable, short, q, sending)
    ensures OnlyLongDamage(damaged, byOthers, reusable, short, q, None)
  {
  }

  predicate ShortEntries(q: seq<Entry>) { forall k :: 0 <= k < |q| ==> |q[k].bytes| < TWO_31 }

  function Listed(pfn: Option<nat>): seq<nat> { if pfn == None then [] else [pfn.value] }

  // What each element of a queue or a list of messages contributes.
  function EntryBytes(e: Entry): seq<byte> { e.bytes }
  function EntryCompletion(e: Entry): seq<nat> { Listed(e.pfn) }
  function TaskMessage(t: Task): seq<Message> { if t.SendTask? then [t.message] else [] }
  function TaskFire(t: Task): seq<nat> { if t.Fire? then [t.pfn] else [] }
  function MessagePayload(m: Message): seq<seq<byte>> { [Payload(m)] }
  function WholeCompletion(m: Message): seq<nat> { Listed(m.pfn) }
  function SplitCompletion(m: Message): seq<nat> { if m.Many? && m.datas == [] then [] else Listed(m.pfn) }

  function Payloads(ms: seq<Message>): seq<seq<byte>> { Gather(MessagePayload, ms) }

  /** The completion functions a list of messages is owed in each queueing mode. */
  function Completions(defragment: bool, ms: seq<Message>): seq<nat> {
    if defragment then Gather(WholeCompletion, ms) else Gather(SplitCompletion, ms)
  }

  lemma CompletionsSnoc(defragment: bool, ms: seq<Message>, m: Message)
    ensures Completions(defragment, ms + [m]) ==
            Completions(defragment, ms) + if defragment then WholeCompletion(m) else SplitCompletion(m)
  {
    if defragment {
      GatherSnoc(WholeCompletion, ms, m);
    } else {
      GatherSnoc(SplitCompletion, ms, m);
    }
  }

  function Buffers(m: Message): seq<seq<byte>> { if m.One? then [m.data] else m.datas }

  predicate AllShort(buffers: seq<seq<byte>>) { forall k :: 0 <= k < |buffers| ==> |buffers[k]| < TWO_31 }

  /** A message that is queued as its frame. In defragment mode its buffers are copied and committed one by one. */
  predicate Fits(defragment: bool, m: Message) { defragment ==> AllShort(Buffers(m)) }

  /** A message whose entries all go back to the pool empty once they are written. */
  predicate Reusable(defragment: bool, m: Message) {
    if defragment then PACKET_HEADER_LENGTH + |Payload(m)| < TWO_31 else AllShort(Buffers(m))
  }

  predicate AllReusable(defragment: bool, ms: seq<Message>) {
    forall k :: 0 <= k < |ms| ==> Reusable(defragment, ms[k])
  }

  lemma {:induction false} PartsShorter(datas: seq<seq<byte>>, k: nat)
    requires k < |datas|
    ensures |datas[k]| <= |Flatten(datas)|
  {
    if k > 0 {
      PartsShorter(datas[1..], k - 1);
    }
  }

  /** Every message of fewer than 2^31 bytes is queued as its frame. */
  lemma ShortFits(defragment: bool, m: Message)
    requires |Payload(m)| < TWO_31
    ensures Fits(defragment, m)
  {
    if m.Many? {
      forall k | 0 <= k < |m.datas| ensures |m.datas[k]| < TWO_31 {
        PartsShorter(m.datas, k);
      }
    }
  }

  // What the steps below do to the equations between the queues and the histories.

  lemma Dequeued(wire: seq<byte>, fired: seq<nat>, q: seq<Entry>)
    requires q != []
    ensures wire + Gather(EntryBytes, q) == wire + q[0].bytes + Gather(EntryBytes, q[1..])
    ensures fired + Gather(EntryCompletion, q) == fired + Listed(q[0].pfn) + Gather(EntryCompletion, q[1..])
  {
    hide Gather, Listed;
    GatherFirst(EntryBytes, q);
    GatherFirst(EntryCompletion, q);
    assert wire + (q[0].bytes + Gather(EntryBytes, q[1..])) == wire + q[0].bytes + Gather(EntryBytes, q[1..]);
    assert fired + (Listed(q[0].pfn) + Gather(EntryCompletion, q[1..])) ==
           fired + Listed(q[0].pfn) + Gather(EntryCompletion, q[1..]);
  }

  lemma TaskTaken(accepted: seq<Message>, fired: seq<nat>, posted: seq<Task>)
    requires posted != []
    ensures accepted + Gather(TaskMessage, posted) == accepted + TaskMessage(posted[0]) + Gather(TaskMessage, posted[1..])
    ensures fired + Gather(TaskFire, posted) == fired + TaskFire(posted[0]) + Gather(TaskFire, posted[1..])
  {
  }

  lemma Appended<T>(a: seq<T>, b: seq<T>, c: seq<T>, x: seq<T>, s: seq<T>)
    requires a + b + c == s
    ensures a + b + (c + x) == s + x
  {
  }

  class TcpConnection {
    const defragment: bool
    const maxPacketLength: nat

    var outgoingQueue: seq<Entry>
    var sendingPkt: Option<seq<byte>>
    var recvingPkt: Option<seq<byte>>
    var packetHeader: seq<byte>
    var blockingRecv: bool
    var onDisconnect: bool

    // The io_service and the socket.
    var posted: seq<Task>
    var reading: Reading
    var writesInFlight: nat
    var readsInFlight: nat
    var unread: seq<byte>
    // The pool behind `on_allocbuf` has taken back a buffer that is not empty.
    var poolDamaged: bool

    // What has happened so far.
    ghost var connecting: bool
    ghost var connected: bool
    ghost var started: bool
    ghost var writeFailed: bool
    ghost var readFailed: bool
    ghost var offered: seq<Message>
    ghost var accepted: seq<Message>
    ghost var images: seq<seq<byte>>
    ghost var wire: seq<byte>
    ghost var fired: seq<nat>
    ghost var arrived: seq<byte>
    ghost var bodies: seq<seq<byte>>
    ghost var delivered: seq<Option<seq<byte>>>
    ghost var disconnects: nat
    ghost var damagedByOthers: bool

    /** `sending_pkt_` gates the socket: one write in flight at most, none before the connection is up and none after
        an error. */
    ghost predicate Gate()
      reads `writesInFlight, `sendingPkt, `connected, `connecting, `writeFailed, `wire
    {
      writesInFlight == (if sendingPkt.Some? && connected && !writeFailed then 1 else 0)
      && (connecting ==> !connected)
      && (!connected ==> sendingPkt.Some? && wire == [] && !writeFailed)
      && (writeFailed ==> sendingPkt.Some?)
    }

    /** What was offered is what has been accepted, what is being accepted, and what is still posted, in order. */
    ghost predicate Offered(running: seq<Message>)
      reads `offered, `accepted, `posted
    {
      offered == accepted + running + Gather(TaskMessage, posted)
    }

    /** Bytes handed to the socket and then bytes queued are the images of what was accepted, in order. */
    ghost predicate Written()
      reads `wire, `outgoingQueue, `accepted, `images
    {
      wire + Gather(EntryBytes, outgoingQueue) == Flatten(images) && |images| == |accepted|
    }

    /** While the pool is sound, the image of a message that fits is its frame. */
    ghost predicate Faithful()
      reads `accepted, `images, `poolDamaged
    {
      !poolDamaged ==>
        forall k :: 0 <= k < |accepted| && k < |images| && Fits(defragment, accepted[k]) ==>
          images[k] == Frame(Payload(accepted[k]))
    }

    /** While the pool is sound, what the application saw is what was read, as far as `commit` keeps it. */
    ghost predicate Showing()
      reads `delivered, `bodies, `poolDamaged
    {
      |delivered| == |bodies| && (!poolDamaged ==> delivered == Shown(bodies))
    }

    ghost predicate Pooled()
      reads `poolDamaged, `damagedByOthers, `accepted, `bodies, `outgoingQueue, `sendingPkt
    {
      PooledWith(outgoingQueue)
    }

    ghost predicate PooledWith(queue: seq<Entry>)
      reads `poolDamaged, `damagedByOthers, `accepted, `bodies, `sendingPkt
    {
      OnlyLongDamage(poolDamaged, damagedByOthers, AllReusable(defragment, accepted), AllShort(bodies), queue, sendingPkt)
    }

    /** Completions run, posted and queued are those owed, in order. */
    ghost predicate Completed()
      reads `fired, `posted, `outgoingQueue, `accepted
    {
      fired + Gather(TaskFire, posted) + Gather(EntryCompletion, outgoingQueue) == Completions(defragment, accepted)
    }

    /** One read in flight at most; what has been read is the frames of the bodies and perhaps one more header. */
    ghost predicate Receiving()
      reads `readsInFlight, `reading, `packetHeader, `recvingPkt, `readFailed, `bodies, `arrived, `unread
    {
      readsInFlight == (if reading == NoRead then 0 else 1)
      && |packetHeader| == PACKET_HEADER_LENGTH
      && (reading != NoRead <==> recvingPkt.Some? && !readFailed)
      && (readFailed ==> recvingPkt.Some?)
      && AllReadable(maxPacketLength, bodies)
      && FrameAll(bodies) <= arrived
      && (!readFailed ==> arrived == FrameAll(bodies) + (if reading.BodyRead? then packetHeader else []) + unread)
      && (reading.BodyRead? ==> reading.length == WordAt(packetHeader) && !TooLong(maxPacketLength, reading.length))
    }

    /** No wake-up is lost: what is queued is behind a packet being sent... */
    ghost predicate SendAwake()
      reads `outgoingQueue, `sendingPkt
    {
      outgoingQueue != [] ==> sendingPkt.Some?
    }

    /** ...and once started, unless blocked, a read is in flight, has failed, or will be started by a posted task. */
    ghost predicate RecvAwake()
      reads `started, `blockingRecv, `recvingPkt, `posted
    {
      started && !blockingRecv ==> recvingPkt.Some? || RecvTask in posted
    }

    ghost predicate DisconnectedOnce()
      reads `disconnects, `onDisconnect
    {
      disconnects == if onDisconnect then 0 else 1
    }

    ghost predicate Valid()
      reads this
    {
      Gate() && Offered([]) && Written() && Completed() && Receiving() && SendAwake() && RecvAwake() && DisconnectedOnce()
      && Faithful() && Showing() && Pooled()
    }

    /** `ClientTCPConnection` after `Start`: the gate is closed and a connect is under way. */
    constructor Client(mode: bool, max: nat)
      ensures Valid() && connecting && !connected && posted == [] && offered == [] && arrived == [] && !poolDamaged
      ensures defragment == mode && maxPacketLength == max && !blockingRecv && !started && reading == NoRead
      ensures outgoingQueue == [] && wire == [] && unread == [] && delivered == [] && !damagedByOthers
    {
      defragment, maxPacketLength := mode, max;
      outgoingQueue, recvingPkt, packetHeader, blockingRecv, onDisconnect := [], None, [0, 0, 0, 0], false, true;
      sendingPkt := Some([]);
      posted, reading, writesInFlight, readsInFlight, unread := [], NoRead, 0, 0, [];
      connecting, connected, started, writeFailed, readFailed := true, false, false, false, false;
      offered, accepted, images, wire, fired, arrived, disconnects := [], [], [], [], [], [], 0;
      bodies, delivered, poolDamaged, damagedByOthers := [], [], false, false;
    }

    /** `ServerTCPConnection`. Its gate is open from the start: the server tells nobody of it before its socket has been
        accepted. */
    constructor Accepted(mode: bool, max: nat)
      ensures Valid() && connected && posted == [] && offered == [] && arrived == [] && !poolDamaged
      ensures defragment == mode && maxPacketLength == max && !blockingRecv && !started && reading == NoRead
      ensures outgoingQueue == [] && wire == [] && unread == [] && delivered == [] && !damagedByOthers
    {
      defragment, maxPacketLength := mode, max;
      outgoingQueue, recvingPkt, packetHeader, blockingRecv, onDisconnect := [], None, [0, 0, 0, 0], false, true;
      sendingPkt := None;
      posted, reading, writesInFlight, readsInFlight, unread := [], NoRead, 0, 0, [];
      connecting, connected, started, writeFailed, readFailed := false, true, false, false, false;
      offered, accepted, images, wire, fired, arrived, disconnects := [], [], [], [], [], [], 0;
      bodies, delivered, poolDamaged, damagedByOthers := [], [], false, false;
    }

    // ----- calls by the application -----

    method Post(t: Task)
      modifies this`posted
      ensures posted == old(posted) + [t]
      ensures Gather(TaskMessage, posted) == old(Gather(TaskMessage, posted)) + TaskMessage(t)
      ensures Gather(TaskFire, posted) == old(Gather(TaskFire, posted)) + TaskFire(t)
    {
      GatherSnoc(TaskMessage, posted, t);
      GatherSnoc(TaskFire, posted, t);
      posted := posted + [t];
    }

    method Send(data: seq<byte>, pfn: Option<nat>)
      requires Valid()
      modifies this`posted, this`offered
      ensures Valid() && offered == old(offered) + [One(data, pfn)] && posted == old(posted) + [SendTask(One(data, pfn))]
    {
      hide Completions, Payload, Gate, Written, Receiving, SendAwake, DisconnectedOnce, Faithful, Showing, Pooled;
      offered := offered + [One(data, pfn)];
      Post(SendTask(One(data, pfn)));
    }

    method SendV(datas: seq<seq<byte>>, pfn: Option<nat>)
      requires Valid()
      modifies this`posted, this`offered
      ensures Valid() && offered == old(offered) + [Many(datas, pfn)] && posted == old(posted) + [SendTask(Many(datas, pfn))]
    {
      hide Completions, Payload, Gate, Written, Receiving, SendAwake, DisconnectedOnce, Faithful, Showing, Pooled;
      offered := offered + [Many(datas, pfn)];
      Post(SendTask(Many(datas, pfn)));
    }

    method BlockRecv(b: bool)
      requires Valid()
      modifies this`blockingRecv, this`posted
      ensures Valid() && blockingRecv == b && posted == old(posted) + if b then [] else [RecvTask]
    {
      hide Completions, Gate, Written, Receiving, SendAwake, DisconnectedOnce, Faithful, Showing, Pooled;
      blockingRecv := b;
      if !b {
        Post(RecvTask);
      }
    }

    /** `ServerTCPConnection::Start`. */
    method Start()
      requires Valid()
      modifies this`posted
      ensures Valid() && posted == old(posted) + [StartTask]
    {
      hide Completions, Gate, Written, Receiving, SendAwake, DisconnectedOnce, Faithful, Showing, Pooled;
      Post(StartTask);
    }

    // ----- tasks -----

    /** The oldest task leaves the io_service; if it is a completion function, it is run. */
    method TakeTask() returns (t: Task)
      requires Valid() && posted != []
      modifies this`posted, this`fired
      ensures Offered(TaskMessage(t)) && Completed() && (t.RecvTask? || RecvAwake())
      ensures t == old(posted[0]) && posted == old(posted[1..]) && fired == old(fired) + TaskFire(t)
    {
      hide Completions, Gate, Written, Receiving, SendAwake, DisconnectedOnce;
      hide Faithful, Showing, Pooled, Gather;
      TaskTaken(accepted, fired, posted);
      t := posted[0];
      posted := posted[1..];
      fired := fired + TaskFire(t);
    }

    /** The io_service runs the oldest task. */
    method RunPosted()
      requires Valid() && posted != []
      modifies this`outgoingQueue, this`sendingPkt, this`recvingPkt, this`posted, this`reading, this`writesInFlight,
               this`readsInFlight, this`started, this`accepted, this`images, this`wire, this`fired
      ensures Valid()
      ensures accepted == old(accepted) + TaskMessage(old(posted[0])) && fired == old(fired) + TaskFire(old(posted[0]))
      ensures old(posted[1..]) <= posted && old(wire) <= wire
      ensures started == old(started || posted[0].StartTask?)
      ensures old(sendingPkt).Some? ==> wire == old(wire)
    {
      hide Gate, Offered, Written, Completed, Receiving, SendAwake, RecvAwake, DisconnectedOnce;
      hide Faithful, Showing, Pooled, Gather;
      var t := TakeTask();
      match t
      case SendTask(One(data, pfn)) =>
        SendNow(data, pfn);
      case SendTask(Many(datas, pfn)) =>
        SendVNow(datas, pfn);
      case RecvTask =>
        DoRecv();
      case StartTask =>
        started := true;
        DoRecv();
        DoSend();
      case Fire(pfn) =>
    }

    method Push(e: Entry)
      modifies this`outgoingQueue
      ensures outgoingQueue == old(outgoingQueue) + [e]
      ensures Gather(EntryBytes, outgoingQueue) == old(Gather(EntryBytes, outgoingQueue)) + e.bytes
      ensures Gather(EntryCompletion, outgoingQueue) == old(Gather(EntryCompletion, outgoingQueue)) + Listed(e.pfn)
    {
      hide Gather;
      GatherSnoc(EntryBytes, outgoingQueue, e);
      GatherSnoc(EntryCompletion, outgoingQueue, e);
      outgoingQueue := outgoingQueue + [e];
    }

    /** The entries of a message have been pushed: the equations hold again, with the message accepted. */
    ghost method Accept(m: Message, queue: seq<Entry>, image: seq<byte>)
      requires Offered([m]) && |images| == |accepted| && Faithful() && PooledWith(queue)
      requires wire + Gather(EntryBytes, queue) == Flatten(images)
      requires fired + Gather(TaskFire, posted) + Gather(EntryCompletion, queue) == Completions(defragment, accepted)
      requires Gather(EntryBytes, outgoingQueue) == Gather(EntryBytes, queue) + image
      requires !poolDamaged && Fits(defragment, m) ==> image == Frame(Payload(m))
      requires !poolDamaged && Reusable(defragment, m) && ShortEntries(queue) ==> ShortEntries(outgoingQueue)
      requires Gather(EntryCompletion, outgoingQueue) ==
               Gather(EntryCompletion, queue) + if defragment then WholeCompletion(m) else SplitCompletion(m)
      modifies this`accepted, this`images
      ensures accepted == old(accepted) + [m] && images == old(images) + [image]
      ensures Offered([]) && Written() && Completed() && Faithful() && Pooled()
    {
      hide Completions, Gather, Frame, Payload, WholeCompletion, SplitCompletion, Fits, Reusable, Flatten, ShortEntries;
      CompletionsSnoc(defragment, accepted, m);
      FlattenSnoc(images, image);
      LastReusable(defragment, accepted, m);
      accepted := accepted + [m];
      images := images + [image];
      Appended(wire, [], Gather(EntryBytes, queue), image, Flatten(old(images)));
      Appended(fired, Gather(TaskFire, posted), Gather(EntryCompletion, queue),
               if defragment then WholeCompletion(m) else SplitCompletion(m), Completions(defragment, old(accepted)));
    }

    /** A new buffer with the length in it. From a damaged pool it may hold anything before that. */
    method Header(n: nat) returns (h: seq<byte>)
      ensures !poolDamaged ==> h == Word(n)
    {
      h := Word(n);
      if poolDamaged {
        h := *;
      }
    }

    /** The entries of a message, header first. */
    method QueueOne(data: seq<byte>, pfn: Option<nat>) returns (ghost image: seq<byte>)
      modifies this`outgoingQueue
      ensures Gather(EntryBytes, outgoingQueue) == old(Gather(EntryBytes, outgoingQueue)) + image
      ensures !poolDamaged && Fits(defragment, One(data, pfn)) ==> image == Frame(data)
      ensures !poolDamaged && Reusable(defragment, One(data, pfn)) && old(ShortEntries(outgoingQueue)) ==>
                ShortEntries(outgoingQueue)
      ensures Gather(EntryCompletion, outgoingQueue) == old(Gather(EntryCompletion, outgoingQueue)) +
              if defragment then WholeCompletion(One(data, pfn)) else SplitCompletion(One(data, pfn))
    {
      hide Gather, Word, Flatten;
      var header := Header(|data|);
      if !defragment {
        Push(Entry(header, None));
        Push(Entry(data, pfn));
        assert AllShort([data]) ==> |[data][0]| < TWO_31;
        image := header + data;
      } else {
        var newBuf := Assemble(header, [data]);
        FlattenOne(data);
        ShortParts([data]);
        Push(Entry(newBuf, pfn));
        image := newBuf;
      }
    }

    /** `__Send`. */
    method SendNow(data: seq<byte>, pfn: Option<nat>)
      requires Gate() && Offered([One(data, pfn)]) && Written() && Completed() && Faithful() && Pooled()
      modifies this`outgoingQueue, this`sendingPkt, this`posted, this`writesInFlight, this`accepted, this`images, this`wire
      ensures Gate() && Offered([]) && Written() && Completed() && SendAwake() && Faithful() && Pooled()
      ensures accepted == old(accepted) + [One(data, pfn)]
      ensures !poolDamaged && Fits(defragment, One(data, pfn)) ==> images == old(images) + [Frame(data)]
      ensures old(RecvAwake()) ==> RecvAwake()
      ensures old(posted) <= posted && old(wire) <= wire && (old(sendingPkt).Some? ==> wire == old(wire))
    {
      hide Completions, Gate, Offered, SendAwake, Gather, Word, Faithful, Flatten, AllReusable, OnlyLongDamage;
      ghost var queue := outgoingQueue;
      ghost var image := QueueOne(data, pfn);
      Accept(One(data, pfn), queue, image);
      DoSend();
    }

    /** The two loops of `__SendV` that fill the queue. */
    method PushPieces(datas: seq<seq<byte>>, pfn: Option<nat>)
      modifies this`outgoingQueue
      ensures Gather(EntryBytes, outgoingQueue) == old(Gather(EntryBytes, outgoingQueue)) + Flatten(datas)
      ensures Gather(EntryCompletion, outgoingQueue) ==
              old(Gather(EntryCompletion, outgoingQueue)) + SplitCompletion(Many(datas, pfn))
      ensures old(ShortEntries(outgoingQueue)) && AllShort(datas) ==> ShortEntries(outgoingQueue)
    {
      hide Gather, Flatten;
      NothingFlat(datas);
      ghost var bytes, completions := Gather(EntryBytes, outgoingQueue), Gather(EntryCompletion, outgoingQueue);
      for i := 0 to |datas|
        invariant Gather(EntryBytes, outgoingQueue) == bytes + Flatten(datas[..i])
        invariant Gather(EntryCompletion, outgoingQueue) == completions + if 0 < i == |datas| then Listed(pfn) else []
        invariant old(ShortEntries(outgoingQueue)) && AllShort(datas) ==> ShortEntries(outgoingQueue)
      {
        FlattenTo(datas, i);
        if i + 1 == |datas| {
          Push(Entry(datas[i], pfn));
        } else {
          Push(Entry(datas[i], None));
        }
      }
      assert datas[..|datas|] == datas;
    }

    /** The entries of a message, header first. */
    method QueueMany(datas: seq<seq<byte>>, pfn: Option<nat>) returns (ghost image: seq<byte>)
      modifies this`outgoingQueue
      ensures Gather(EntryBytes, outgoingQueue) == old(Gather(EntryBytes, outgoingQueue)) + image
      ensures !poolDamaged && Fits(defragment, Many(datas, pfn)) ==> image == Frame(Flatten(datas))
      ensures !poolDamaged && Reusable(defragment, Many(datas, pfn)) && old(ShortEntries(outgoingQueue)) ==>
                ShortEntries(outgoingQueue)
      ensures Gather(EntryCompletion, outgoingQueue) == old(Gather(EntryCompletion, outgoingQueue)) +
              if defragment then WholeCompletion(Many(datas, pfn)) else SplitCompletion(Many(datas, pfn))
    {
      hide Gather, Word, Flatten;
      var l := TotalSize(datas);
      var header := Header(l);
      if !defragment {
        Push(Entry(header, None));
        PushPieces(datas, pfn);
        image := header + Flatten(datas);
      } else {
        var newBuf := Assemble(header, datas);
        Push(Entry(newBuf, pfn));
        image := newBuf;
        ShortParts(datas);
      }
    }

    /** `__SendV`. */
    method SendVNow(datas: seq<seq<byte>>, pfn: Option<nat>)
      requires Gate() && Offered([Many(datas, pfn)]) && Written() && Completed() && Faithful() && Pooled()
      modifies this`outgoingQueue, this`sendingPkt, this`posted, this`writesInFlight, this`accepted, this`images, this`wire
      ensures Gate() && Offered([]) && Written() && Completed() && SendAwake() && Faithful() && Pooled()
      ensures accepted == old(accepted) + [Many(datas, pfn)]
      ensures !poolDamaged && Fits(defragment, Many(datas, pfn)) ==> images == old(images) + [Frame(Flatten(datas))]
      ensures old(RecvAwake()) ==> RecvAwake()
      ensures old(posted) <= posted && old(wire) <= wire && (old(sendingPkt).Some? ==> wire == old(wire))
    {
      hide Completions, Gate, Offered, SendAwake, Gather, Word, Faithful, Flatten, AllReusable, OnlyLongDamage;
      ghost var queue := outgoingQueue;
      ghost var image := QueueMany(datas, pfn);
      Accept(Many(datas, pfn), queue, image);
      DoSend();
    }

    /** The oldest entry is taken and its write started. */
    method StartWrite() returns (pfn: Option<nat>)
      requires sendingPkt == None && outgoingQueue != [] && Gate() && Written() && Pooled()
      modifies this`outgoingQueue, this`sendingPkt, this`writesInFlight, this`wire
      ensures Gate() && Written() && Pooled() && sendingPkt.Some? && old(wire) <= wire
      ensures pfn == old(outgoingQueue)[0].pfn && outgoingQueue == old(outgoingQueue)[1..]
    {
      hide Gather, Flatten, AllReusable, AllShort, OnlyLongDamage;
      Dequeued(wire, fired, outgoingQueue);
      OneSent(poolDamaged, damagedByOthers, AllReusable(defragment, accepted), AllShort(bodies), outgoingQueue, sendingPkt);
      var pkg := outgoingQueue[0];
      outgoingQueue := outgoingQueue[1..];
      sendingPkt := Some(pkg.bytes);
      // async_write
      writesInFlight := writesInFlight + 1;
      wire := wire + pkg.bytes;
      pfn := pkg.pfn;
    }

    /** `__DoSend`. */
    method DoSend()
      requires Gate() && Offered([]) && Written() && Completed() && Pooled()
      modifies this`outgoingQueue, this`sendingPkt, this`posted, this`writesInFlight, this`wire
      ensures Gate() && Offered([]) && Written() && Completed() && SendAwake() && Pooled()
      ensures old(RecvAwake()) ==> RecvAwake()
      ensures old(posted) <= posted && old(wire) <= wire && (old(sendingPkt).Some? ==> wire == old(wire))
    {
      hide Completions, Gather, Gate, Written, Pooled;
      if sendingPkt.Some? || outgoingQueue == [] {
        return;
      }
      Dequeued(wire, fired + Gather(TaskFire, posted), outgoingQueue);
      var pfn := StartWrite();
      if pfn.Some? {
        Post(Fire(pfn.value));
      }
    }

    /** `__DoRecv`. */
    method DoRecv()
      requires Receiving()
      modifies this`recvingPkt, this`reading, this`readsInFlight
      ensures Receiving() && RecvAwake()
      ensures old(recvingPkt).Some? || blockingRecv ==> recvingPkt == old(recvingPkt) && reading == old(reading)
      ensures old(recvingPkt).None? && !blockingRecv ==> reading == HeaderRead
    {
      hide FrameAll, AllReadable;
      if recvingPkt.Some? || blockingRecv {
        return;
      }
      recvingPkt := Some([]);
      // async_read of the header
      reading := HeaderRead;
      readsInFlight := readsInFlight + 1;
    }

    // ----- completions -----

    /** `__OnSendCallback`. */
    method OnSendCallback(error: bool)
      requires Valid() && writesInFlight == 1
      modifies this`outgoingQueue, this`sendingPkt, this`posted, this`writesInFlight, this`wire, this`writeFailed,
               this`onDisconnect, this`disconnects, this`poolDamaged
      ensures poolDamaged == (old(poolDamaged) || (!error && |old(sendingPkt).value| >= TWO_31))
      ensures Valid() && old(posted) <= posted && old(wire) <= wire && writeFailed == error
      ensures error ==> wire == old(wire) && disconnects == 1
      ensures !error ==> disconnects == old(disconnects)
    {
      hide Completions, Gather, Offered, Written, Completed, Receiving, Faithful, Showing, Pooled;
      writesInFlight := writesInFlight - 1;
      if error {
        writeFailed := true;
        Shutdown();
        // The source notifies here again, if the notification is still there to be made.
        assert !onDisconnect;
        return;
      }
      LetGo();
      DoSend();
    }

    /** The packet that has been written is consumed and goes back to the pool: empty exactly below 2^31 bytes. */
    method LetGo()
      requires sendingPkt.Some? && Faithful() && Showing() && Pooled()
      modifies this`sendingPkt, this`poolDamaged
      ensures sendingPkt == None && Faithful() && Showing() && Pooled()
      ensures poolDamaged == (old(poolDamaged) || |old(sendingPkt).value| >= TWO_31)
    {
      hide Shown, Fits, AllReusable, AllShort, ShortEntries;
      if |sendingPkt.value| >= TWO_31 {
        poolDamaged := true;
      }
      sendingPkt := None;
    }

    /** Some other user of the pool damages it. */
    method OthersDamage()
      requires Valid()
      modifies this`poolDamaged, this`damagedByOthers
      ensures Valid() && poolDamaged
    {
      hide Gate, Offered, Written, Completed, Receiving, SendAwake, RecvAwake, DisconnectedOnce;
      poolDamaged, damagedByOthers := true, true;
    }

    /** `__Shutdown`. */
    method Shutdown()
      requires DisconnectedOnce()
      modifies this`onDisconnect, this`disconnects
      ensures DisconnectedOnce() && !onDisconnect
    {
      if onDisconnect {
        onDisconnect := false;
        disconnects := disconnects + 1;
      }
    }

    /** Bytes from the peer. */
    method Arrive(bytes: seq<byte>)
      requires Valid()
      modifies this`unread, this`arrived
      ensures Valid() && arrived == old(arrived) + bytes
    {
      hide FrameAll, AllReadable, Gate, Offered, Written, Completed, SendAwake, RecvAwake, Faithful, Showing, Pooled;
      unread := unread + bytes;
      arrived := arrived + bytes;
    }

    /** A read ends in an error. The packet being received is not let go, so no further read is started. */
    method ReadError()
      requires Receiving() && DisconnectedOnce() && reading != NoRead
      modifies this`reading, this`readsInFlight, this`readFailed, this`onDisconnect, this`disconnects
      ensures Receiving() && DisconnectedOnce() && readFailed && reading == NoRead && disconnects == 1
    {
      hide FrameAll, AllReadable, WordAt, TooLong;
      readsInFlight := readsInFlight - 1;
      reading := NoRead;
      readFailed := true;
      Shutdown();
    }

    /** `__OnHeadRecvCallback`: the read of the header has completed, without error only when four bytes are there. */
    method OnHeadRecvCallback(error: bool)
      requires Valid() && reading == HeaderRead && (!error ==> |unread| >= PACKET_HEADER_LENGTH)
      modifies this`packetHeader, this`unread, this`reading, this`readsInFlight, this`readFailed, this`onDisconnect,
               this`disconnects
      ensures Valid()
      ensures !readFailed <==>
                !error && (maxPacketLength == 0 || WordAt(old(unread)[..PACKET_HEADER_LENGTH]) <= maxPacketLength)
      ensures readFailed ==> disconnects == 1
      ensures readFailed ==> unread == old(unread)[if error then 0 else PACKET_HEADER_LENGTH..]
      ensures !readFailed ==> disconnects == old(disconnects) && unread == old(unread)[PACKET_HEADER_LENGTH..]
                              && reading == BodyRead(WordAt(old(unread)[..PACKET_HEADER_LENGTH]))
    {
      hide FrameAll, AllReadable, Gate, Offered, Written, Completed, SendAwake, WordAt, Faithful, Showing, Pooled;
      if error {
        ReadError();
        return;
      }
      packetHeader := unread[..PACKET_HEADER_LENGTH];
      var packetLength := WordAt(packetHeader);
      if TooLong(maxPacketLength, packetLength) {
        ReadError();
        unread := unread[PACKET_HEADER_LENGTH..];
        return;
      }
      assert unread == packetHeader + unread[PACKET_HEADER_LENGTH..];
      unread := unread[PACKET_HEADER_LENGTH..];
      // async_read of the body: one read ends, another starts
      reading := BodyRead(packetLength);
    }

    /** `__OnRecvCallback`: the read of the body has completed, without error only when all of it is there. The
        application's `on_recv` may call `BlockRecv` before it returns. */
    method OnRecvCallback(error: bool, reaction: Option<bool>)
      requires Valid() && reading.BodyRead? && (!error ==> |unread| >= reading.length)
      modifies this`recvingPkt, this`unread, this`reading, this`readsInFlight, this`readFailed, this`onDisconnect,
               this`disconnects, this`blockingRecv, this`posted, this`bodies, this`delivered, this`poolDamaged
      ensures Valid() && readFailed == error
      ensures error ==> delivered == old(delivered) && bodies == old(bodies) && disconnects == 1
      ensures var reacts := !error && reaction.Some?;
              blockingRecv == (if reacts then reaction.value else old(blockingRecv))
              && posted == old(posted) + if reacts && !reaction.value then [RecvTask] else []
      ensures !error ==> |delivered| == |old(delivered)| + 1 && old(delivered) <= delivered
      ensures !error && !old(poolDamaged) ==>
                delivered[|old(delivered)|] == Committed([], old(unread)[..old(reading).length])
      ensures poolDamaged == (old(poolDamaged) || (!error && old(reading).length >= TWO_31))
      ensures !error ==> bodies == old(bodies) + [old(unread)[..old(reading).length]]
                         && unread == old(unread)[old(reading).length..] && disconnects == old(disconnects)
                         && reading == if blockingRecv then NoRead else HeaderRead
    {
      hide Gate, Offered, Written, Completed, Receiving, SendAwake, RecvAwake, Gather, Faithful, Showing, Pooled;
      ReadingNotFailed();
      if error {
        ReadError();
        return;
      }
      if reaction.Some? {
        BlockRecv(reaction.value);
      }
      TakeBody();
      DoRecv();
    }

    lemma ReadingNotFailed()
      requires Receiving() && reading != NoRead
      ensures !readFailed && recvingPkt.Some?
    {
    }

    /** The body that has been read is committed and delivered, and no packet is being received any more. The buffer
        goes back to the pool when the application lets go of it. */
    method TakeBody()
      requires Receiving() && reading.BodyRead? && |unread| >= reading.length && Faithful() && Showing() && Pooled()
      modifies this`recvingPkt, this`unread, this`reading, this`readsInFlight, this`bodies, this`delivered, this`poolDamaged
      ensures Receiving() && recvingPkt == None && reading == NoRead && Faithful() && Showing() && Pooled()
      ensures bodies == old(bodies) + [old(unread)[..old(reading).length]]
      ensures |delivered| == |old(delivered)| + 1 && old(delivered) <= delivered
      ensures !old(poolDamaged) ==> delivered[|old(delivered)|] == Committed([], old(unread)[..old(reading).length])
      ensures unread == old(unread)[old(reading).length..]
      ensures poolDamaged == (old(poolDamaged) || old(reading).length >= TWO_31)
    {
      hide FrameAll, AllReadable, WordAt, TooLong, Faithful, Showing, Pooled;
      BodyTaken(maxPacketLength, bodies, packetHeader, unread, reading.length);
      Show(unread[..reading.length]);
      unread := unread[reading.length..];
      recvingPkt := None;
      reading := NoRead;
      readsInFlight := readsInFlight - 1;
    }

    /** `commit` and `on_recv`. */
    method Show(body: seq<byte>)
      requires Faithful() && Showing() && Pooled()
      modifies this`bodies, this`delivered, this`poolDamaged
      ensures Faithful() && Showing() && Pooled() && bodies == old(bodies) + [body]
      ensures |delivered| == |old(delivered)| + 1 && old(delivered) <= delivered
      ensures !old(poolDamaged) ==> delivered[|old(delivered)|] == Committed([], body)
      ensures poolDamaged == (old(poolDamaged) || |body| >= TWO_31)
    {
      hide Committed, Fits, AllReusable, ShortEntries;
      ghost var before := bodies;
      var seen := Committed([], body);
      if poolDamaged {
        seen := *;
      }
      bodies := bodies + [body];
      delivered := delivered + [seen];
      assert bodies[|before|] == body && forall k :: 0 <= k < |before| ==> bodies[k] == before[k];
      if |body| >= TWO_31 {
        poolDamaged := true;
      }
    }

    /** The connect has ended, one way or the other. */
    ghost method StopConnecting()
      requires Gate() && connecting
      modifies this`connecting
      ensures Gate() && !connecting && !connected && wire == []
    {
      connecting := false;
    }

    /** The packet that marked the connect under way is let go. */
    method OpenGate()
      requires Gate() && Pooled() && !connecting && !connected
      modifies this`connected, this`started, this`sendingPkt
      ensures Gate() && Pooled() && connected && started
    {
      hide OnlyLongDamage, AllReusable, AllShort;
      NoneSent(poolDamaged, damagedByOthers, AllReusable(defragment, accepted), AllShort(bodies), outgoingQueue, sendingPkt);
      sendingPkt := None;
      connected, started := true, true;
    }

    /** `__OnConnect`: the gate opens. */
    method OnConnect(error: bool)
      requires Valid() && connecting
      modifies this`connecting, this`connected, this`started, this`sendingPkt, this`recvingPkt, this`reading,
               this`readsInFlight, this`outgoingQueue, this`posted, this`writesInFlight, this`wire, this`onDisconnect,
               this`disconnects
      ensures Valid() && !connecting && connected == !error && old(posted) <= posted
      ensures error ==> wire == [] && disconnects == 1
      ensures !error ==> started && disconnects == old(disconnects)
    {
      hide Gate, Offered, Written, Completed, Receiving, SendAwake, RecvAwake, Faithful, Showing, Pooled;
      StopConnecting();
      if error {
        Shutdown();
        return;
      }
      OpenGate();
      DoRecv();
      DoSend();
    }

    /** `__OnConnectTimeout`. */
    method OnConnectTimeout(aborted: bool)
      requires Valid()
      modifies this`onDisconnect, this`disconnects
      ensures Valid() && (if aborted then disconnects == old(disconnects) else disconnects == 1)
    {
      hide Gate, Offered, Written, Completed, Receiving, SendAwake, RecvAwake, Faithful, Showing, Pooled;
      if aborted {
        return;
      }
      Shutdown();
    }
  }

  /** One event of a connection that is not a call by the application. */
  datatype Event =
    | TaskRuns
    | PacketSent(error: bool)
    | HeaderCame(error: bool)
    | BodyCame(error: bool, reaction: Option<bool>)
    | BytesCame(bytes: seq<byte>)

  /** Any such event, if it can happen now. What has been offered stays as it is. */
  method Happens(c: TcpConnection, event: Event)
    requires c.Valid()
    modifies c
    ensures c.Valid() && c.offered == old(c.offered) && old(c.accepted) <= c.accepted && old(c.wire) <= c.wire
    ensures match event
            case TaskRuns =>
              old(c.posted) != [] ==>
                c.accepted == old(c.accepted) + TaskMessage(old(c.posted)[0])
                && c.fired == old(c.fired) + TaskFire(old(c.posted)[0]) && old(c.posted)[1..] <= c.posted
            case PacketSent(error) => old(c.writesInFlight) == 1 ==> c.writeFailed == error && (error ==> c.disconnects == 1)
            case HeaderCame(error) =>
              old(c.reading) == HeaderRead && (error || |old(c.unread)| >= PACKET_HEADER_LENGTH) ==>
                if error then c.readFailed
                else c.readFailed || c.reading == BodyRead(WordAt(old(c.unread)[..PACKET_HEADER_LENGTH]))
            case BodyCame(error, reaction) =>
              old(c.reading).BodyRead? && (error || |old(c.unread)| >= old(c.reading).length) ==>
                c.readFailed == error
                && c.bodies == old(c.bodies) + if error then [] else [old(c.unread)[..old(c.reading).length]]
            case BytesCame(bytes) => c.arrived == old(c.arrived) + bytes
  {
    hide TcpConnection.Valid;
    match event
    case TaskRuns =>
      if c.posted != [] {
        c.RunPosted();
      }
    case PacketSent(error) =>
      if c.writesInFlight == 1 {
        c.OnSendCallback(error);
      }
    case HeaderCame(error) =>
      if c.reading == HeaderRead && (error || |c.unread| >= PACKET_HEADER_LENGTH) {
        c.OnHeadRecvCallback(error);
      }
    case BodyCame(error, reaction) =>
      if c.reading.BodyRead? && (error || |c.unread| >= c.reading.length) {
        c.OnRecvCallback(error, reaction);
      }
    case BytesCame(bytes) =>
      c.Arrive(bytes);
  }

  /** The first loop of `__SendV`. */
  method TotalSize(datas: seq<seq<byte>>) returns (l: nat)
    ensures l == |Flatten(datas)|
  {
    l := 0;
    for i := 0 to |datas|
      invariant l == |Flatten(datas[..i])|
    {
      FlattenTo(datas, i);
      l := l + |datas[i]|;
    }
    assert datas[..|datas|] == datas;
  }

  /** A buffer with `header` in it into which others are copied, one `commit` each. */
  function Assembled(header: seq<byte>, datas: seq<seq<byte>>): (r: Option<seq<byte>>)
    decreases |datas|
  {
    if datas == [] then Some(header)
    else
      match Assembled(header, datas[..|datas| - 1])
      case None => None
      case Some(b) => Committed(b, datas[|datas| - 1])
  }

  /** It holds all of them exactly if each is shorter than 2^31 bytes. */
  lemma {:induction false} AssembledExactly(header: seq<byte>, datas: seq<seq<byte>>)
    ensures var r, all := Assembled(header, datas), header + Flatten(datas);
            (r.Some? ==> |r.value| <= |all|) && (r == Some(all) <==> AllShort(datas))
    decreases |datas|
  {
    hide Committed;
    if datas == [] {
      assert header + Flatten(datas) == header;
    } else {
      var some, last := datas[..|datas| - 1], datas[|datas| - 1];
      assert datas == some + [last];
      AssembledExactly(header, some);
      FlattenSnoc(some, last);
      AssembleStep(header, Assembled(header, some), Flatten(some), last);
    }
  }

  /** The shortest buffer that spoils a whole packet: with 2^31 bytes the put position leaves the packet. */
  lemma SpoiltPacket(header: seq<byte>, data: seq<byte>)
    requires |header| == PACKET_HEADER_LENGTH && |data| == TWO_31
    ensures Assembled(header, [data]) == None && !Fits(true, One(data, None)) && Fits(false, One(data, None))
  {
    assert [data][..0] == [];
    assert Assembled(header, []) == Some(header);
    assert Buffers(One(data, None))[0] == data;
  }

  lemma AssembleStep(header: seq<byte>, r: Option<seq<byte>>, flat: seq<byte>, last: seq<byte>)
    requires r.Some? ==> |r.value| <= |header + flat|
    ensures var all := header + (flat + last);
            r.Some? ==>
              var next := Committed(r.value, last);
              (next.Some? ==> |next.value| <= |all|)
              && (next == Some(all) <==> r == Some(header + flat) && |last| < TWO_31)
  {
    assert header + (flat + last) == (header + flat) + last;
    if r.Some? {
      var next, whole := Committed(r.value, last), r.value + last;
      if next == Some((header + flat) + last) {
        assert |next.value| <= |whole|;
        assert |r.value| == |header + flat|;
        assert next.value == whole;
        assert r.value == whole[..|r.value|] == ((header + flat) + last)[..|header + flat|] == header + flat;
      }
    }
  }

  /** The loop of `__SendV` that copies everything into one new packet. What a buffer shows whose put position has left
      it is not known. */
  method Assemble(header: seq<byte>, datas: seq<seq<byte>>) returns (newBuf: seq<byte>)
    ensures AllShort(datas) ==> newBuf == header + Flatten(datas)
    ensures Assembled(header, datas).Some? ==> Some(newBuf) == Assembled(header, datas)
  {
    hide Committed, AllShort;
    var built := Some(header);
    for i := 0 to |datas|
      invariant built == Assembled(header, datas[..i])
    {
      assert datas[..i + 1][..i] == datas[..i];
      if built.Some? {
        built := Committed(built.value, datas[i]);
      }
    }
    assert datas[..|datas|] == datas;
    AssembledExactly(header, datas);
    if built.Some? {
      newBuf := built.value;
    } else {
      newBuf := *;
    }
  }

  lemma ShortParts(datas: seq<seq<byte>>)
    ensures |Flatten(datas)| < TWO_31 ==> AllShort(datas)
  {
    if |Flatten(datas)| < TWO_31 {
      forall k | 0 <= k < |datas| ensures |datas[k]| < TWO_31 {
        PartsShorter(datas, k);
      }
    }
  }

  lemma FlattenOne(data: seq<byte>)
    ensures Flatten([data]) == data
  {
    FlattenSnoc([], data);
    assert [] + [data] == [data];
  }

  lemma LastReusable(defragment: bool, ms: seq<Message>, m: Message)
    ensures AllReusable(defragment, ms + [m]) <==> AllReusable(defragment, ms) && Reusable(defragment, m)
  {
    assert forall k :: 0 <= k < |ms| ==> (ms + [m])[k] == ms[k];
    assert (ms + [m])[|ms|] == m;
  }

  /** The pool stays sound as long as its other users keep it so, no entry that is written has 2^31 bytes or more (the
      4 bytes of the length count in defragment mode), and no body that is read has. */
  lemma PoolStaysSound(c: TcpConnection)
    requires c.Valid() && !c.damagedByOthers && AllReusable(c.defragment, c.accepted) && AllShort(c.bodies)
    ensures !c.poolDamaged
  {
  }

  /** In every state at most one write and one read are in flight, and no write before the connection is up or after a
      write error. */
  lemma OneInFlight(c: TcpConnection)
    requires c.Valid()
    ensures c.writesInFlight <= 1 && c.readsInFlight <= 1
    ensures !c.connected || c.writeFailed ==> c.writesInFlight == 0
    ensures !c.connected ==> c.wire == []
  {
  }

  /** In every state a connection that is up and has not failed makes progress: with anything queued a write is in
      flight, and once started, unless blocked, a read is in flight or posted. */
  lemma NoLostWakeUp(c: TcpConnection)
    requires c.Valid()
    ensures c.connected && !c.writeFailed && c.outgoingQueue != [] ==> c.writesInFlight == 1
    ensures c.started && !c.blockingRecv && !c.readFailed ==> c.readsInFlight == 1 || RecvTask in c.posted
  {
  }

  lemma NothingFlat(datas: seq<seq<byte>>)
    ensures Flatten(datas[..0]) == []
  {
  }

  lemma FlattenTo(datas: seq<seq<byte>>, i: nat)
    requires i < |datas|
    ensures Flatten(datas[..i + 1]) == Flatten(datas[..i]) + datas[i]
  {
    assert datas[..i + 1] == datas[..i] + [datas[i]];
    FlattenSnoc(datas[..i], datas[i]);
  }

  /** The bytes of a body after its header are one more frame. */
  lemma BodyTaken(max: nat, bodies: seq<seq<byte>>, header: seq<byte>, unread: seq<byte>, length: nat)
    requires |header| == PACKET_HEADER_LENGTH && length == WordAt(header) && !TooLong(max, length) && length <= |unread|
    requires AllReadable(max, bodies)
    ensures var ps, s := bodies + [unread[..length]], FrameAll(bodies) + header + unread;
            s == FrameAll(ps) + [] + unread[length..] && FrameAll(ps) <= s && AllReadable(max, ps)
  {
    hide FrameAll, Word, WordAt;
    var body := unread[..length];
    LoadedWord(header);
    FrameAllSnoc(bodies, body);
    assert header + unread == Frame(body) + unread[length..];
  }
}
