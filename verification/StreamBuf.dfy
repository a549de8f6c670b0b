/** `asio::basic_streambuf`: one growing array with a get and a put position, used as a byte queue. Positions are
    offsets into the array. */
module StreamBuf {
  import opened Common

  const BUFFER_DELTA: nat := 128

  /** `static_cast<int>` of a `size_t`, as `pbump` and `gbump` take their argument. */
  function AsInt(n: nat): (r: int)
    ensures r == n <==> n < TWO_31
    ensures r <= n
  {
    (n + TWO_31) % TWO_32 - TWO_31
  }

  /** What `commit` leaves in a buffer that holds `contents`, for bytes written right behind them: the put position
      moves by the count as an `int`. None stands for a put position in front of the contents, where the buffer shows
      memory that is not its own. */
  function Committed(contents: seq<byte>, bytes: seq<byte>): (r: Option<seq<byte>>)
    ensures r == Some(contents + bytes) <==> |bytes| < TWO_31
    ensures r.Some? ==> r.value <= contents + bytes
  {
    var all, p := contents + bytes, |contents| + AsInt(|bytes|);
    assert p == |all| ==> all[..p] == all;
    if p < 0 then None else Some(all[..p])
  }

  /** What moving the put position does to the contents [g, p) and the room [p, e). */
  lemma MovedEnd(s: seq<byte>, g: nat, p: nat, e: nat, k: nat)
    requires g <= p <= e <= |s| && k <= e - p
    ensures var q := p + AsInt(k);
            q <= e && (k < TWO_31 ==> q == p + k && s[g..q] == s[g..p] + s[p..e][..k] && s[q..e] == s[p..e][k..])
            && match Committed(s[g..p], s[p..e][..k])
               case None => q < g
               case Some(contents) => g <= q && s[g..q] == contents
  {
    var q, all := p + AsInt(k), s[g..p + k];
    assert s[p..e][..k] == s[p..p + k];
    assert s[g..p] + s[p..p + k] == all;
    if g <= q {
      assert s[g..q] == all[..q - g];
    }
  }

  class StreamBuf {
    const maxSize: nat
    var buffer: array<byte>
    var gptr: int
    var egptr: int
    var pptr: int
    var epptr: int

    ghost predicate Valid()
      reads this
    {
      0 <= gptr <= egptr <= pptr <= epptr <= maxSize
      && buffer.Length == (if epptr < 1 then 1 else epptr)
    }

    /** The input sequence: what `data()` shows. */
    ghost function Contents(): (s: seq<byte>)
      requires Valid()
      reads this, buffer
      ensures |s| == Size()
    {
      buffer[gptr..pptr]
    }

    /** The output sequence: room for bytes that may be committed. */
    ghost function Room(): (s: seq<byte>)
      requires Valid()
      reads this, buffer
    {
      buffer[pptr..epptr]
    }

    function Size(): (n: nat)
      requires Valid()
      reads this
    {
      pptr - gptr
    }

    constructor (maximumSize: nat)
      ensures Valid() && fresh(buffer) && maxSize == maximumSize && Contents() == []
      ensures |Room()| == if maximumSize < 128 then maximumSize else 128
    {
      maxSize := maximumSize;
      var pend := Min(maximumSize, BUFFER_DELTA);
      buffer := new byte[if pend < 1 then 1 else pend](_ => 0);
      gptr, egptr, pptr := 0, 0, 0;
      epptr := pend;
    }

    /** Makes room for `n` bytes; false stands for the thrown length_error. On success the contents are what they
        were, wherever they now lie; a failing call leaves the positions but may already have moved the bytes. */
    method Reserve(n: nat) returns (ok: bool)
      requires Valid()
      modifies this, buffer
      ensures Valid() && (buffer == old(buffer) || fresh(buffer))
      ensures ok <==> old(Size()) + n <= maxSize
      ensures ok ==> Contents() == old(Contents()) && |Room()| >= n
      ensures !ok ==> gptr == old(gptr) && pptr == old(pptr) && buffer[..pptr - gptr] == old(Contents())
    {
      var gnext, pnext, pend := gptr, pptr, epptr;
      if n <= pend - pnext {
        return true;
      }
      if gnext > 0 {
        pnext := pnext - gnext;
        forall k | 0 <= k < pnext {
          buffer[k] := buffer[gnext + k];
        }
      }
      assert buffer[..pnext] == old(Contents());
      if n > pend - pnext {
        if n <= maxSize && pnext <= maxSize - n {
          pend := pnext + n;
          Resize(if pend < 1 then 1 else pend);
        } else {
          return false;
        }
      }
      gptr, egptr, pptr, epptr := 0, pnext, pnext, pend;
      return true;
    }

    /** `vector::resize` to a larger size. */
    method Resize(n: nat)
      requires n >= buffer.Length
      modifies this`buffer
      ensures fresh(buffer) && buffer.Length == n && buffer[..old(buffer.Length)] == old(buffer[..])
    {
      var bigger := new byte[n](_ => 0);
      forall k | 0 <= k < buffer.Length {
        bigger[k] := buffer[k];
      }
      assert bigger[..buffer.Length] == buffer[..];
      buffer := bigger;
    }

    /** The offset of `n` writable bytes, or false for the thrown length_error. */
    method Prepare(n: nat) returns (ok: bool, at: nat)
      requires Valid()
      modifies this, buffer
      ensures Valid() && (buffer == old(buffer) || fresh(buffer))
      ensures ok <==> old(Size()) + n <= maxSize
      ensures ok ==> Contents() == old(Contents()) && at == pptr && n <= |Room()|
    {
      ok := Reserve(n);
      at := pptr;
    }

    /** The caller writes into the bytes it was given. */
    method Fill(bytes: seq<byte>)
      requires Valid() && |bytes| <= |Room()|
      modifies buffer
      ensures Contents() == old(Contents())
      ensures Room() == bytes + old(Room())[|bytes|..]
    {
      forall k | 0 <= k < |bytes| {
        buffer[pptr + k] := bytes[k];
      }
    }

    /** Moves bytes from the room to the contents, at most all of them. The count passes through an `int`: the call
        does what it says exactly for counts below 2^31. */
    method Commit(n: nat)
      requires Valid()
      modifies this
      ensures buffer == old(buffer) && gptr == old(gptr) && epptr == old(epptr)
      ensures match Committed(old(Contents()), old(Room())[..Min(n, |old(Room())|)])
              case None => !Valid()
              case Some(contents) => Valid() && Contents() == contents
      ensures var k := Min(n, |old(Room())|);
              (Valid() && Contents() == old(Contents()) + old(Room())[..k] && Room() == old(Room())[k..]) <==> k < TWO_31
    {
      hide Committed, AsInt;
      var k := n;
      if pptr + n > epptr {
        k := epptr - pptr;
      }
      MovedEnd(buffer[..], gptr, pptr, epptr, k);
      pptr := pptr + AsInt(k);
      egptr := pptr;
    }

    /** Removes bytes from the front, at most all of them; again exactly for counts below 2^31. */
    method Consume(n: nat)
      requires Valid()
      modifies this
      ensures buffer == old(buffer) && pptr == old(pptr) && epptr == old(epptr)
      ensures var k := Min(n, old(Size()));
              (Valid() && Contents() == old(Contents())[k..] && Room() == old(Room())) <==> k < TWO_31
    {
      if egptr < pptr {
        egptr := pptr;
      }
      var k := n;
      if gptr + n > pptr {
        k := pptr - gptr;
      }
      gptr := gptr + AsInt(k);
    }

    /** `consume(size())`, whatever state the buffer is in. */
    method ConsumeAll()
      requires gptr <= pptr
      modifies this`gptr, this`egptr
      ensures gptr == old(gptr) + AsInt(pptr - old(gptr)) && (gptr == pptr <==> pptr - old(gptr) < TWO_31)
      ensures egptr == if old(egptr) < pptr then pptr else old(egptr)
    {
      if egptr < pptr {
        egptr := pptr;
      }
      gptr := gptr + AsInt(pptr - gptr);
    }

    /** Looks at the front byte and lets the get area catch up; None stands for eof. */
    method Underflow() returns (c: Option<byte>)
      requires Valid()
      modifies this`egptr
      ensures Valid() && Contents() == old(Contents())
      ensures c == if Contents() == [] then None else Some(Contents()[0])
      ensures Contents() != [] ==> egptr == pptr
    {
      if gptr < pptr {
        egptr := pptr;
        return Some(buffer[gptr]);
      }
      return None;
    }

    /** Appends one byte, growing by up to 128 bytes when there is no room; None stands for eof, false for the
        thrown length_error. */
    method Overflow(c: Option<byte>) returns (ok: bool)
      requires Valid()
      modifies this, buffer
      ensures Valid() && (buffer == old(buffer) || fresh(buffer))
      ensures ok <==> c == None || old(Size()) < maxSize
      ensures ok ==> Contents() == old(Contents()) + if c == None then [] else [c.value]
    {
      if c == None {
        return true;
      }
      if pptr == epptr {
        var size := Size();
        if size < maxSize && maxSize - size < BUFFER_DELTA {
          ok := Reserve(maxSize - size);
        } else {
          ok := Reserve(BUFFER_DELTA);
        }
        if !ok {
          return;
        }
      }
      ghost var was := Contents();
      buffer[pptr] := c.value;
      pptr := pptr + 1;
      assert buffer[gptr..pptr] == was + [c.value];
      return true;
    }
  }

  /** The way every packet is put together and every body received: `prepare`, write into the room, `commit`. The bytes
      are appended exactly if there are fewer than 2^31 of them. */
  method CopyIn(b: StreamBuf, bytes: seq<byte>) returns (ok: bool)
    requires b.Valid()
    modifies b, b.buffer
    ensures ok <==> old(b.Size()) + |bytes| <= b.maxSize
    ensures ok ==> match Committed(old(b.Contents()), bytes)
                   case None => !b.Valid()
                   case Some(contents) => b.Valid() && b.Contents() == contents
    ensures ok ==> ((b.Valid() && b.Contents() == old(b.Contents()) + bytes) <==> |bytes| < TWO_31)
  {
    var at;
    ok, at := b.Prepare(|bytes|);
    if !ok {
      return;
    }
    b.Fill(bytes);
    assert b.Room()[..|bytes|] == bytes;
    b.Commit(|bytes|);
  }
}
