/** `asio::buffers_iterator`: a random access iterator over the bytes of a buffer sequence that keeps both a flat
    position and a pair of buffer and offset. */
module BuffersIterator {
  import opened Common

  /** Bytes in the first `i` buffers. */
  function Before(bufs: seq<seq<byte>>, i: nat): nat
    requires i <= |bufs|
  {
    if i == 0 then 0 else Before(bufs, i - 1) + |bufs[i - 1]|
  }

  lemma {:induction false} BeforeMonotone(bufs: seq<seq<byte>>, i: nat, j: nat)
    requires i <= j <= |bufs|
    ensures Before(bufs, i) <= Before(bufs, j)
    ensures i < j ==> Before(bufs, i) + |bufs[i]| <= Before(bufs, j)
    decreases j
  {
    if i < j {
      BeforeMonotone(bufs, i, j - 1);
    }
  }

  /** If everything between two buffers is empty, the same number of bytes lies before both. */
  lemma {:induction false} EmptyBetween(bufs: seq<seq<byte>>, i: nat, j: nat)
    requires i <= j <= |bufs| && forall k :: i <= k < j ==> bufs[k] == []
    ensures Before(bufs, i) == Before(bufs, j)
    decreases j
  {
    if i < j {
      EmptyBetween(bufs, i, j - 1);
    }
  }

  /** Buffer `i` and offset `off` are where flat position `p` is: inside a buffer, or at the very end. */
  predicate IsPlace(bufs: seq<seq<byte>>, i: nat, off: nat, p: nat) {
    i <= |bufs| && p == Before(bufs, i) + off && if i < |bufs| then off < |bufs[i]| else off == 0
  }

  /** A flat position has one place only. */
  lemma PlaceUnique(bufs: seq<seq<byte>>, i: nat, off: nat, j: nat, off': nat, p: nat)
    requires IsPlace(bufs, i, off, p) && IsPlace(bufs, j, off', p)
    ensures i == j && off == off'
  {
    if i < j {
      BeforeMonotone(bufs, i, j);
    } else if j < i {
      BeforeMonotone(bufs, j, i);
    }
  }

  lemma {:induction false} FlattenBefore(bufs: seq<seq<byte>>, i: nat)
    requires i <= |bufs|
    ensures |Flatten(bufs[..i])| == Before(bufs, i)
  {
    if i > 0 {
      FlattenBefore(bufs, i - 1);
      assert bufs[..i] == bufs[..i - 1] + [bufs[i - 1]];
      FlattenSnoc(bufs[..i - 1], bufs[i - 1]);
    }
  }

  /** The byte at a place is the byte at the flat position of the flattened buffers. */
  lemma ByteAt(bufs: seq<seq<byte>>, i: nat, off: nat)
    requires i < |bufs| && off < |bufs[i]|
    ensures var p := Before(bufs, i) + off; p < |Flatten(bufs)| && Flatten(bufs)[p] == bufs[i][off]
  {
    var a, b, c := bufs[..i], bufs[i], bufs[i + 1..];
    assert bufs == a + ([b] + c);
    FlattenConcat(a, [b] + c);
    assert ([b] + c)[1..] == c;
    FlattenBefore(bufs, i);
  }

  lemma TotalBefore(bufs: seq<seq<byte>>)
    ensures |Flatten(bufs)| == Before(bufs, |bufs|)
  {
    FlattenBefore(bufs, |bufs|);
    assert bufs[..|bufs|] == bufs;
  }

  class BuffersIterator {
    const bufs: seq<seq<byte>>
    var currentBuffer: seq<byte>
    var currentBufferPosition: nat
    var current: nat
    var position: nat

    /** The two positions agree. At the end the cached buffer is whatever was looked at last. */
    ghost predicate Valid()
      reads this
    {
      IsPlace(bufs, current, currentBufferPosition, position)
      && (current < |bufs| ==> currentBuffer == bufs[current])
    }

    constructor Begin(buffers: seq<seq<byte>>)
      ensures Valid() && bufs == buffers && position == 0
    {
      bufs := buffers;
      currentBuffer, currentBufferPosition, position := [], 0, 0;
      current := 0;
      new;
      while current != |bufs|
        invariant current <= |bufs| && currentBufferPosition == 0 && position == 0
        invariant forall k :: 0 <= k < current ==> bufs[k] == []
        decreases |bufs| - current
      {
        currentBuffer := bufs[current];
        if |currentBuffer| > 0 {
          break;
        }
        current := current + 1;
      }
      EmptyBetween(bufs, 0, current);
    }

    constructor End(buffers: seq<seq<byte>>)
      ensures Valid() && bufs == buffers && position == |Flatten(buffers)|
    {
      bufs := buffers;
      currentBuffer, currentBufferPosition, position := [], 0, 0;
      current := 0;
      new;
      while current != |bufs|
        invariant current <= |bufs| && currentBufferPosition == 0 && position == Before(bufs, current)
        decreases |bufs| - current
      {
        position := position + |bufs[current]|;
        current := current + 1;
      }
      TotalBefore(bufs);
    }

    /** The copy that indexing and arithmetic work on. */
    constructor Copy(other: BuffersIterator)
      requires other.Valid()
      ensures Valid() && bufs == other.bufs && position == other.position
    {
      bufs, currentBuffer, currentBufferPosition := other.bufs, other.currentBuffer, other.currentBufferPosition;
      current, position := other.current, other.position;
    }

    method Dereference() returns (b: byte)
      requires Valid() && current < |bufs|
      ensures position < |Flatten(bufs)| && b == Flatten(bufs)[position]
    {
      ByteAt(bufs, current, currentBufferPosition);
      b := currentBuffer[currentBufferPosition];
    }

    function Equal(other: BuffersIterator): bool
      reads this, other
    {
      position == other.position
    }

    function DistanceTo(other: BuffersIterator): int
      reads this, other
    {
      other.position - position
    }

    method Increment()
      requires Valid() && current != |bufs|
      modifies this
      ensures Valid() && position == old(position) + 1
    {
      position := position + 1;
      currentBufferPosition := currentBufferPosition + 1;
      if currentBufferPosition != |currentBuffer| {
        return;
      }
      current := current + 1;
      currentBufferPosition := 0;
      ghost var next := current;
      while current != |bufs|
        invariant next <= current <= |bufs| && currentBufferPosition == 0 && position == Before(bufs, next)
        invariant forall k :: next <= k < current ==> bufs[k] == []
        decreases |bufs| - current
      {
        currentBuffer := bufs[current];
        if |currentBuffer| > 0 {
          break;
        }
        current := current + 1;
      }
      EmptyBetween(bufs, next, current);
    }

    /** The last buffer before `from` that is not empty. */
    method PreviousBuffer(from: nat) returns (iter: nat)
      requires from <= |bufs| && Before(bufs, from) > 0
      ensures iter < from && bufs[iter] != [] && Before(bufs, iter) + |bufs[iter]| == Before(bufs, from)
    {
      iter := from;
      while iter != 0
        invariant iter <= from && forall k :: iter <= k < from ==> bufs[k] == []
      {
        iter := iter - 1;
        if |bufs[iter]| > 0 {
          EmptyBetween(bufs, iter + 1, from);
          return;
        }
      }
      EmptyBetween(bufs, 0, from);
      assert false;
    }

    method Decrement()
      requires Valid() && position > 0
      modifies this
      ensures Valid() && position == old(position) - 1
    {
      position := position - 1;
      if currentBufferPosition != 0 {
        currentBufferPosition := currentBufferPosition - 1;
        return;
      }
      current := PreviousBuffer(current);
      currentBuffer := bufs[current];
      currentBufferPosition := |currentBuffer| - 1;
    }

    /** Every move that stays inside the bytes, forwards or backwards, across any number of empty buffers. */
    method Advance(n: int)
      requires Valid() && 0 <= position + n <= |Flatten(bufs)|
      modifies this
      ensures Valid() && position == old(position) + n
    {
      TotalBefore(bufs);
      if n > 0 {
        Forward(n);
      } else if n < 0 {
        Backward(-n);
      }
    }

    method Forward(distance: nat)
      requires Valid() && distance > 0 && position + distance <= Before(bufs, |bufs|)
      modifies this
      ensures Valid() && position == old(position) + distance
    {
      var n := distance;
      while true
        invariant current < |bufs| && currentBuffer == bufs[current] && currentBufferPosition <= |currentBuffer|
        invariant position == Before(bufs, current) + currentBufferPosition
        invariant 0 <= n && position + n == old(position) + distance
        decreases |bufs| - current
      {
        var balance := |currentBuffer| - currentBufferPosition;
        if balance > n {
          position := position + n;
          currentBufferPosition := currentBufferPosition + n;
          return;
        }
        n := n - balance;
        position := position + balance;
        current := current + 1;
        if current == |bufs| {
          assert n == 0;
          currentBuffer, currentBufferPosition := [], 0;
          return;
        }
        currentBuffer := bufs[current];
        currentBufferPosition := 0;
      }
    }

    method Backward(distance: nat)
      requires Valid() && 0 < distance <= position
      modifies this
      ensures Valid() && position == old(position) - distance
    {
      var n := distance;
      while true
        invariant current <= |bufs| && position == Before(bufs, current) + currentBufferPosition
        invariant current < |bufs| ==> currentBuffer == bufs[current] && currentBufferPosition <= |currentBuffer|
        invariant current == |bufs| ==> currentBufferPosition == 0
        invariant 0 < n <= position && position - n == old(position) - distance
        decreases current
      {
        if currentBufferPosition >= n {
          position := position - n;
          currentBufferPosition := currentBufferPosition - n;
          return;
        }
        n := n - currentBufferPosition;
        position := position - currentBufferPosition;
        if current == 0 {
          assert false;
        }
        current := PreviousBuffer(current);
        currentBuffer := bufs[current];
        currentBufferPosition := |currentBuffer|;
      }
    }

    /** Access relative to the iterator. */
    method Index(difference: int) returns (b: byte)
      requires Valid() && 0 <= position + difference < |Flatten(bufs)|
      ensures b == Flatten(bufs)[position + difference]
    {
      var tmp := new BuffersIterator.Copy(this);
      tmp.Advance(difference);
      TotalBefore(bufs);
      b := tmp.Dereference();
    }
  }

  /** Two iterators at the same flat position are in the same state, however they got there; so one `Advance(n)` is
      as good as |n| single steps, and equality by flat position is equality of places. */
  lemma SamePlace(a: BuffersIterator, b: BuffersIterator)
    requires a.Valid() && b.Valid() && a.bufs == b.bufs
    ensures a.Equal(b) <==> a.current == b.current && a.currentBufferPosition == b.currentBufferPosition
    ensures a.Equal(b) && a.current < |a.bufs| ==> a.currentBuffer == b.currentBuffer
    ensures a.DistanceTo(b) == 0 <==> a.Equal(b)
  {
    if a.Equal(b) {
      PlaceUnique(a.bufs, a.current, a.currentBufferPosition, b.current, b.currentBufferPosition, a.position);
    }
  }

  /** Moving an iterator by its distance to another one reaches that one, before or behind it. */
  method Reach(a: BuffersIterator, b: BuffersIterator)
    requires a.Valid() && b.Valid() && a.bufs == b.bufs && a != b
    modifies a
    ensures a.Valid() && a.Equal(b)
    ensures a.current == b.current && a.currentBufferPosition == b.currentBufferPosition
  {
    InBounds(b);
    a.Advance(a.DistanceTo(b));
    SamePlace(a, b);
  }

  lemma InBounds(a: BuffersIterator)
    requires a.Valid()
    ensures a.position <= |Flatten(a.bufs)|
  {
    TotalBefore(a.bufs);
    BeforeMonotone(a.bufs, a.current, |a.bufs|);
  }
}
