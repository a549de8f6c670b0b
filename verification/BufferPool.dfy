/** The agent's pool of stream buffers: a buffer whose last user lets go of it is emptied and kept for the next. */
module BufferPool {
  import opened Common
  import opened StreamBuf

  class BufferPool {
    const maxSize: nat
    var enabled: bool
    var pool: seq<StreamBuf>
    ghost var deleted: seq<StreamBuf>

    /** Every buffer in the pool is there once, and empty. */
    ghost predicate Valid()
      reads this, pool, set i | 0 <= i < |pool| :: pool[i].buffer
    {
      (forall i :: 0 <= i < |pool| ==> pool[i].Valid() && pool[i].Contents() == [])
      && forall i, j :: 0 <= i < j < |pool| ==> pool[i] != pool[j]
    }

    constructor (max: nat)
      ensures Valid() && enabled && pool == [] && deleted == [] && maxSize == max
    {
      maxSize, enabled, pool, deleted := max, true, [], [];
    }

    /** `__CreateIoBuffer`: whoever asks gets an empty buffer that is not in the pool. */
    method Create() returns (b: StreamBuf)
      requires Valid()
      modifies this`pool
      ensures Valid() && b.Valid() && b.Contents() == [] && b !in pool
      ensures if old(pool) == [] then fresh(b) && pool == [] else b == old(pool)[0] && pool == old(pool)[1..]
    {
      if |pool| > 0 {
        b := pool[0];
        pool := pool[1..];
      } else {
        b := new StreamBuf(maxSize);
      }
    }

    method Empty(b: StreamBuf)
      requires b.Valid()
      modifies b
      ensures (b.Valid() && b.Contents() == []) <==> old(b.Size()) < TWO_31
    {
      b.Consume(b.Size());
      assert b.Valid() ==> b.Room() == old(b.Room());
    }

    /** The deleter. `consume` counts in an `int`: the buffer goes back empty exactly when it holds fewer than 2^31
        bytes, and otherwise the pool is spoilt. */
    method Recycle(b: StreamBuf)
      requires Valid() && b.Valid() && b !in pool
      modifies this`pool, this`deleted, b
      ensures enabled ==> pool == old(pool) + [b] && deleted == old(deleted)
      ensures !enabled ==> pool == old(pool) && deleted == old(deleted) + [b] && Valid()
      ensures enabled ==> (Valid() <==> old(b.Size()) < TWO_31)
    {
      if enabled {
        ghost var before := pool;
        Empty(b);
        pool := pool + [b];
        assert pool[|before|] == b && forall i :: 0 <= i < |before| ==> pool[i] == before[i];
      } else {
        deleted := deleted + [b];
      }
    }

    /** A packet that has been written: `async_write` consumes it, and then its last user lets go of it. The pool stays
        sound exactly if the packet is shorter than 2^31 bytes. */
    method Release(b: StreamBuf)
      requires Valid() && b.Valid() && b !in pool && enabled
      modifies this`pool, b`gptr, b`egptr
      ensures pool == old(pool) + [b]
      ensures Valid() <==> old(b.Size()) < TWO_31
    {
      hide AsInt;
      ghost var before := pool;
      NothingLeft(b.Size());
      b.ConsumeAll();
      b.ConsumeAll();
      pool := pool + [b];
      assert pool[|before|] == b && forall i :: 0 <= i < |before| ==> pool[i] == before[i];
      assert b.Valid() ==> |b.Contents()| == b.pptr - b.gptr;
    }

    /** What a cast loses is a multiple of 2^32, and a second cast loses it all. */
    lemma NothingLeft(n: nat)
      ensures AsInt(n - AsInt(n)) == 0 && (AsInt(n) == n <==> n < TWO_31)
    {
      var q := (n + TWO_31) / TWO_32;
      assert n - AsInt(n) == TWO_32 * q;
      assert (TWO_32 * q + TWO_31) % TWO_32 == TWO_31;
    }
  }
}
