/** `asio::buffer_copy` between buffer sequences: scatter-gather with one cursor in each sequence. A buffer is an
    address and a size; all buffers lie in one memory. */
module BufferCopy {
  import opened Common

  datatype Buffer = Buffer(data: nat, size: nat)

  /** Buffer arithmetic: what is left behind the first `start` bytes. */
  function Plus(b: Buffer, start: nat): Buffer {
    if start > b.size then Buffer(0, 0) else Buffer(b.data + start, b.size - start)
  }

  /** `buffer_size` of a sequence. */
  function Total(bs: seq<Buffer>): nat {
    if bs == [] then 0 else bs[0].size + Total(bs[1..])
  }

  predicate InMemory(n: nat, bs: seq<Buffer>) { forall k :: 0 <= k < |bs| ==> bs[k].data + bs[k].size <= n }

  predicate Disjoint(b: Buffer, c: Buffer) {
    b.size == 0 || c.size == 0 || b.data + b.size <= c.data || c.data + c.size <= b.data
  }

  /** No two buffers of the target overlap, and none overlaps a source buffer. */
  predicate NoOverlap(target: seq<Buffer>, source: seq<Buffer>) {
    (forall i, j :: 0 <= i < j < |target| ==> Disjoint(target[i], target[j]))
    && (forall i, j :: 0 <= i < |target| && 0 <= j < |source| ==> Disjoint(target[i], source[j]))
  }

  /** The flattened contents of a buffer sequence. */
  ghost function Bytes(memory: seq<byte>, bs: seq<Buffer>): (s: seq<byte>)
    requires InMemory(|memory|, bs)
    ensures |s| == Total(bs)
  {
    if bs == [] then []
    else
      assert bs[0].data + bs[0].size <= |memory|;
      memory[bs[0].data..bs[0].data + bs[0].size] + Bytes(memory, bs[1..])
  }

  predicate Covers(bs: seq<Buffer>, a: int) { exists k :: 0 <= k < |bs| && bs[k].data <= a < bs[k].data + bs[k].size }

  /** Memory with `d` written at address `at`. */
  ghost function Overwrite(m: seq<byte>, at: nat, d: seq<byte>): (m': seq<byte>)
    requires at + |d| <= |m|
    ensures |m'| == |m|
  {
    m[..at] + d + m[at + |d|..]
  }

  // ----- flattening -----

  lemma {:induction false} BytesSplit(memory: seq<byte>, bs: seq<Buffer>, i: nat)
    requires InMemory(|memory|, bs) && i < |bs|
    ensures InMemory(|memory|, bs[..i]) && InMemory(|memory|, bs[i + 1..]) && bs[i].data + bs[i].size <= |memory|
    ensures Total(bs) == Total(bs[..i]) + bs[i].size + Total(bs[i + 1..])
    ensures Bytes(memory, bs) ==
            Bytes(memory, bs[..i]) + memory[bs[i].data..bs[i].data + bs[i].size] + Bytes(memory, bs[i + 1..])
    decreases i
  {
    if i > 0 {
      var rest := bs[1..];
      BytesSplit(memory, rest, i - 1);
      assert rest[..i - 1] == bs[..i][1..] && rest[i..] == bs[i + 1..];
    }
  }

  lemma {:induction false} TotalSnoc(bs: seq<Buffer>, i: nat)
    requires i < |bs|
    ensures Total(bs[..i + 1]) == Total(bs[..i]) + bs[i].size
    decreases i
  {
    if i > 0 {
      TotalSnoc(bs[1..], i - 1);
      assert bs[1..][..i] == bs[..i + 1][1..] && bs[1..][..i - 1] == bs[..i][1..];
    }
  }

  /** Memory changed only inside a region that no buffer of the sequence touches. */
  lemma {:induction false} BytesFrame(m: seq<byte>, m': seq<byte>, bs: seq<Buffer>, region: Buffer)
    requires |m| == |m'| && InMemory(|m|, bs)
    requires forall a :: 0 <= a < |m| && !(region.data <= a < region.data + region.size) ==> m'[a] == m[a]
    requires forall k :: 0 <= k < |bs| ==> Disjoint(bs[k], region)
    ensures Bytes(m', bs) == Bytes(m, bs)
  {
    if bs != [] {
      BytesFrame(m, m', bs[1..], region);
      assert Disjoint(bs[0], region);
      assert m'[bs[0].data..bs[0].data + bs[0].size] == m[bs[0].data..bs[0].data + bs[0].size];
    }
  }

  lemma SpliceMiddle(a: seq<byte>, o: seq<byte>, c: seq<byte>, offset: nat, d: seq<byte>)
    requires offset + |d| <= |o|
    ensures var s := a + o + c;
            a + (o[..offset] + d + o[offset + |d|..]) + c == s[..|a| + offset] + d + s[|a| + offset + |d|..]
  {
    var s, p, q := a + o + c, o[..offset], o[offset + |d|..];
    assert s[..|a| + offset] == a + p;
    assert s[|a| + offset + |d|..] == q + c;
    assert a + (p + d + q) + c == (a + p) + d + (q + c);
  }

  lemma PieceOfMiddle(a: seq<byte>, o: seq<byte>, c: seq<byte>, offset: nat, n: nat)
    requires offset + n <= |o|
    ensures (a + o + c)[|a| + offset..|a| + offset + n] == o[offset..offset + n]
  {
    var s := a + o + c;
    var u := s[|a| + offset..|a| + offset + n];
    assert forall k :: 0 <= k < n ==> u[k] == s[|a| + offset + k];
  }

  lemma PieceOfSlice(m: seq<byte>, lo: nat, hi: nat, offset: nat, n: nat)
    requires lo <= hi <= |m| && offset + n <= hi - lo
    ensures m[lo..hi][offset..offset + n] == m[lo + offset..lo + offset + n]
  {
    var s := m[lo..hi];
    assert forall k :: 0 <= k < |s| ==> s[k] == m[lo + k];
    var u := s[offset..offset + n];
    assert forall k :: 0 <= k < n ==> u[k] == s[offset + k];
  }

  lemma SpliceOfSlice(m: seq<byte>, m': seq<byte>, lo: nat, hi: nat, offset: nat, d: seq<byte>)
    requires lo <= hi <= |m| && offset + |d| <= hi - lo
    requires m' == Overwrite(m, lo + offset, d)
    ensures |m'| == |m| && m'[lo..hi] == m[lo..hi][..offset] + d + m[lo..hi][offset + |d|..]
    ensures forall a :: 0 <= a < |m| && !(lo <= a < hi) ==> m'[a] == m[a]
  {
    var s, s' := m[lo..hi], m'[lo..hi];
    assert forall k :: 0 <= k < |s| ==> s[k] == m[lo + k];
    assert forall k :: 0 <= k < |s'| ==> s'[k] == m'[lo + k];
    var u := s[..offset] + d + s[offset + |d|..];
    assert forall k :: 0 <= k < |u| ==> u[k] == s'[k];
  }

  lemma SpliceFrames(m: seq<byte>, m': seq<byte>, bs: seq<Buffer>, i: nat, offset: nat, d: seq<byte>)
    requires InMemory(|m|, bs) && i < |bs| && offset + |d| <= bs[i].size
    requires forall j, k :: 0 <= j < k < |bs| ==> Disjoint(bs[j], bs[k])
    requires bs[i].data + bs[i].size <= |m| && m' == Overwrite(m, bs[i].data + offset, d)
    ensures var o := m[bs[i].data..bs[i].data + bs[i].size];
            Bytes(m', bs) == Bytes(m, bs[..i]) + (o[..offset] + d + o[offset + |d|..]) + Bytes(m, bs[i + 1..])
  {
    hide Overwrite, Bytes;
    BytesSplit(m', bs, i);
    SpliceOfSlice(m, m', bs[i].data, bs[i].data + bs[i].size, offset, d);
    BytesFrame(m, m', bs[..i], bs[i]);
    BytesFrame(m, m', bs[i + 1..], bs[i]);
  }

  /** Writing into one buffer of a sequence is a splice into its flattened contents. */
  lemma Splice(m: seq<byte>, m': seq<byte>, bs: seq<Buffer>, i: nat, offset: nat, d: seq<byte>)
    requires InMemory(|m|, bs) && i < |bs| && offset + |d| <= bs[i].size
    requires forall j, k :: 0 <= j < k < |bs| ==> Disjoint(bs[j], bs[k])
    requires bs[i].data + bs[i].size <= |m| && m' == Overwrite(m, bs[i].data + offset, d)
    ensures var at := Total(bs[..i]) + offset;
            at + |d| <= Total(bs) && Bytes(m', bs) == Bytes(m, bs)[..at] + d + Bytes(m, bs)[at + |d|..]
  {
    hide *;
    var lo, hi := bs[i].data, bs[i].data + bs[i].size;
    BytesSplit(m, bs, i);
    SpliceFrames(m, m', bs, i, offset, d);
    var a, c := Bytes(m, bs[..i]), Bytes(m, bs[i + 1..]);
    SpliceConcluded(Bytes(m, bs), Bytes(m', bs), a, m[lo..hi], c, Total(bs[..i]) + offset, offset, d);
  }

  lemma SpliceConcluded(s: seq<byte>, s': seq<byte>, a: seq<byte>, o: seq<byte>, c: seq<byte>,
                        at: nat, offset: nat, d: seq<byte>)
    requires s == a + o + c && offset + |d| <= |o| && at == |a| + offset
    requires s' == a + (o[..offset] + d + o[offset + |d|..]) + c
    ensures at + |d| <= |s| && s' == s[..at] + d + s[at + |d|..]
  {
    SpliceMiddle(a, o, c, offset, d);
  }

  /** A piece of one buffer is the matching piece of the flattened contents. */
  lemma Piece(m: seq<byte>, bs: seq<Buffer>, i: nat, offset: nat, n: nat)
    requires InMemory(|m|, bs) && i < |bs| && offset + n <= bs[i].size
    ensures var at := Total(bs[..i]) + offset;
            at + n <= Total(bs) && Bytes(m, bs)[at..at + n] == m[bs[i].data + offset..bs[i].data + offset + n]
  {
    hide *;
    var lo, hi := bs[i].data, bs[i].data + bs[i].size;
    BytesSplit(m, bs, i);
    PieceConcluded(Bytes(m, bs), Bytes(m, bs[..i]), m, lo, hi, Bytes(m, bs[i + 1..]), Total(bs[..i]) + offset, offset, n);
  }

  lemma PieceConcluded(s: seq<byte>, a: seq<byte>, m: seq<byte>, lo: nat, hi: nat, c: seq<byte>,
                       at: nat, offset: nat, n: nat)
    requires lo <= hi <= |m| && s == a + m[lo..hi] + c && offset + n <= hi - lo && at == |a| + offset
    ensures at + n <= |s| && s[at..at + n] == m[lo + offset..lo + offset + n]
  {
    PieceOfMiddle(a, m[lo..hi], c, offset, n);
    PieceOfSlice(m, lo, hi, offset, n);
  }

  // ----- the copy -----

  /** One buffer to one buffer: `memcpy` of the smaller size. */
  method CopyOne(memory: array<byte>, target: Buffer, source: Buffer) returns (n: nat)
    requires target.data + target.size <= memory.Length && source.data + source.size <= memory.Length
    requires Disjoint(target, source)
    modifies memory
    ensures n == Min(target.size, source.size)
    ensures var m := old(memory[..]); memory[..] == Overwrite(m, target.data, m[source.data..source.data + n])
  {
    ghost var m := memory[..];
    n := Min(target.size, source.size);
    forall k | 0 <= k < n {
      memory[target.data + k] := memory[source.data + k];
    }
    assert memory[..] == Overwrite(m, target.data, m[source.data..source.data + n]);
  }

  /** A cursor: an index into the sequence and an offset into that buffer. */
  predicate At(bs: seq<Buffer>, i: nat, offset: nat, flat: nat) {
    i <= |bs| && flat == Total(bs[..i]) + offset && (if i < |bs| then offset <= bs[i].size else offset == 0)
  }

  /** Moving a cursor by `n` bytes inside its buffer, on to the next buffer when this one is used up. */
  lemma CursorMoves(bs: seq<Buffer>, i: nat, offset: nat, flat: nat, n: nat)
    requires At(bs, i, offset, flat) && i < |bs| && n <= bs[i].size - offset
    ensures if n == bs[i].size - offset then At(bs, i + 1, 0, flat + n) else At(bs, i, offset + n, flat + n)
  {
    TotalSnoc(bs, i);
  }

  /** State of a copy after `total` bytes. */
  ghost predicate Copied(m0: seq<byte>, m: seq<byte>, target: seq<Buffer>, source: seq<Buffer>, total: nat) {
    |m| == |m0| && InMemory(|m|, target) && InMemory(|m|, source)
    && total <= Total(target) && total <= Total(source)
    && Bytes(m, target) == Bytes(m0, source)[..total] + Bytes(m0, target)[total..]
    && Bytes(m, source) == Bytes(m0, source)
    && forall a :: 0 <= a < |m| && !Covers(target, a) ==> m[a] == m0[a]
  }

  /** One piece copied. */
  lemma CopyStep(m0: seq<byte>, m: seq<byte>, m': seq<byte>, target: seq<Buffer>, source: seq<Buffer>, total: nat,
                 ti: nat, to: nat, si: nat, so: nat, n: nat)
    requires NoOverlap(target, source) && Copied(m0, m, target, source, total)
    requires At(target, ti, to, total) && ti < |target| && to + n <= target[ti].size
    requires At(source, si, so, total) && si < |source| && so + n <= source[si].size
    requires target[ti].data + target[ti].size <= |m| && source[si].data + source[si].size <= |m|
    requires m' == Overwrite(m, target[ti].data + to, m[source[si].data + so..source[si].data + so + n])
    ensures Copied(m0, m', target, source, total + n)
  {
    hide Bytes, Total, Covers, Disjoint, Overwrite, InMemory;
    var d := m[source[si].data + so..source[si].data + so + n];
    var s0, t0 := Bytes(m0, source), Bytes(m0, target);
    Piece(m, source, si, so, n);
    Splice(m, m', target, ti, to, d);
    SpliceOfSlice(m, m', target[ti].data, target[ti].data + target[ti].size, to, d);
    SourcesApart(target, source, ti);
    BytesFrame(m, m', source, target[ti]);
    Uncovered(m, m', target, ti);
    Spliced(s0, t0, Bytes(m, target), Bytes(m', target), total, d);
  }

  lemma SourcesApart(target: seq<Buffer>, source: seq<Buffer>, ti: nat)
    requires NoOverlap(target, source) && ti < |target|
    ensures forall k :: 0 <= k < |source| ==> Disjoint(source[k], target[ti])
  {
    forall k | 0 <= k < |source| ensures Disjoint(source[k], target[ti]) {
      assert Disjoint(target[ti], source[k]);
    }
  }

  lemma Uncovered(m: seq<byte>, m': seq<byte>, target: seq<Buffer>, ti: nat)
    requires ti < |target| && |m| == |m'|
    requires forall a :: 0 <= a < |m| && !(target[ti].data <= a < target[ti].data + target[ti].size) ==> m'[a] == m[a]
    ensures forall a :: 0 <= a < |m| && !Covers(target, a) ==> m'[a] == m[a]
  {
  }

  lemma Spliced(s0: seq<byte>, t0: seq<byte>, t: seq<byte>, t': seq<byte>, total: nat, d: seq<byte>)
    requires total + |d| <= |s0| && total + |d| <= |t0| && d == s0[total..total + |d|]
    requires t == s0[..total] + t0[total..] && t' == t[..total] + d + t[total + |d|..]
    ensures t' == s0[..total + |d|] + t0[total + |d|..]
  {
    assert s0[..total + |d|] == s0[..total] + d;
    assert t[total + |d|..] == t0[total + |d|..];
  }

  lemma AllCopied(m0: seq<byte>, memory: array<byte>, target: seq<Buffer>, source: seq<Buffer>, total: nat)
    requires Copied(m0, memory[..], target, source, total)
    ensures total <= Total(target) && total <= Total(source)
    ensures InMemory(|m0|, target) && InMemory(|m0|, source) && |m0| == memory.Length
    ensures Bytes(memory[..], target) == Bytes(m0, source)[..total] + Bytes(m0, target)[total..]
    ensures forall a :: 0 <= a < memory.Length && !Covers(target, a) ==> memory[a] == m0[a]
  {
    assert forall a :: 0 <= a < memory.Length ==> memory[a] == memory[..][a];
  }

  lemma NothingCopied(m: seq<byte>, target: seq<Buffer>, source: seq<Buffer>)
    requires InMemory(|m|, target) && InMemory(|m|, source)
    ensures Copied(m, m, target, source, 0)
  {
  }

  lemma PieceReady(m0: seq<byte>, m: seq<byte>, target: seq<Buffer>, source: seq<Buffer>, total: nat, ti: nat, si: nat)
    requires NoOverlap(target, source) && Copied(m0, m, target, source, total) && ti < |target| && si < |source|
    ensures target[ti].data + target[ti].size <= |m| && source[si].data + source[si].size <= |m|
    ensures Disjoint(target[ti], source[si])
  {
  }

  /** The copy between the two buffers under the cursors, of at most `limit` bytes. */
  method CopyPiece(memory: array<byte>, target: seq<Buffer>, source: seq<Buffer>, ti: nat, to: nat, si: nat, so: nat,
                   limit: nat, ghost m0: seq<byte>, ghost total: nat) returns (n: nat)
    requires NoOverlap(target, source) && Copied(m0, memory[..], target, source, total)
    requires At(target, ti, to, total) && ti < |target| && At(source, si, so, total) && si < |source|
    modifies memory
    ensures n == Min(limit, Min(target[ti].size - to, source[si].size - so))
    ensures Copied(m0, memory[..], target, source, total + n)
  {
    hide Copied, InMemory, NoOverlap, Overwrite, Total;
    ghost var m := memory[..];
    PieceReady(m0, m, target, source, total, ti, si);
    var t, s := Plus(target[ti], to), Plus(source[si], so);
    n := CopyOne(memory, Buffer(t.data, Min(t.size, limit)), s);
    CopyStep(m0, m, memory[..], target, source, total, ti, to, si, so, n);
  }

  /** Sequence to sequence. */
  method Copy(memory: array<byte>, target: seq<Buffer>, source: seq<Buffer>) returns (total: nat)
    requires InMemory(memory.Length, target) && InMemory(memory.Length, source) && NoOverlap(target, source)
    modifies memory
    ensures total == Min(Total(target), Total(source))
    ensures Bytes(memory[..], target) == Bytes(old(memory[..]), source)[..total] + Bytes(old(memory[..]), target)[total..]
    ensures forall a :: 0 <= a < memory.Length && !Covers(target, a) ==> memory[a] == old(memory[a])
  {
    hide Copied, Covers, Disjoint;
    ghost var m0 := memory[..];
    var ti, to, si, so := 0, 0, 0, 0;
    total := 0;
    NothingCopied(m0, target, source);
    while ti != |target| && si != |source|
      invariant At(target, ti, to, total) && At(source, si, so, total)
      invariant Copied(m0, memory[..], target, source, total)
      decreases |target| - ti + |source| - si
    {
      var t, s := Plus(target[ti], to).size, Plus(source[si], so).size;
      var n := CopyPiece(memory, target, source, ti, to, si, so, Min(t, s), m0, total);
      CursorMoves(target, ti, to, total, n);
      CursorMoves(source, si, so, total, n);
      total := total + n;
      if n == t {
        ti, to := ti + 1, 0;
      } else {
        to := to + n;
      }
      if n == s {
        si, so := si + 1, 0;
      } else {
        so := so + n;
      }
    }
    AllCopied(m0, memory, target, source, total);
    assert target[..|target|] == target && source[..|source|] == source;
  }

  /** At most `bound` bytes, sequence to sequence. */
  method CopyBounded(memory: array<byte>, target: seq<Buffer>, source: seq<Buffer>, bound: nat) returns (total: nat)
    requires InMemory(memory.Length, target) && InMemory(memory.Length, source) && NoOverlap(target, source)
    modifies memory
    ensures total == Min(bound, Min(Total(target), Total(source)))
    ensures Bytes(memory[..], target) == Bytes(old(memory[..]), source)[..total] + Bytes(old(memory[..]), target)[total..]
    ensures forall a :: 0 <= a < memory.Length && !Covers(target, a) ==> memory[a] == old(memory[a])
  {
    hide Copied, Covers, Disjoint;
    ghost var m0 := memory[..];
    var ti, to, si, so := 0, 0, 0, 0;
    total := 0;
    NothingCopied(m0, target, source);
    while total != bound && ti != |target| && si != |source|
      invariant total <= bound && At(target, ti, to, total) && At(source, si, so, total)
      invariant Copied(m0, memory[..], target, source, total)
      decreases |target| - ti + |source| - si + bound - total
    {
      var t, s := Plus(target[ti], to).size, Plus(source[si], so).size;
      var n := CopyPiece(memory, target, source, ti, to, si, so, bound - total, m0, total);
      CursorMoves(target, ti, to, total, n);
      CursorMoves(source, si, so, total, n);
      total := total + n;
      if n == t {
        ti, to := ti + 1, 0;
      } else {
        to := to + n;
      }
      if n == s {
        si, so := si + 1, 0;
      } else {
        so := so + n;
      }
    }
    AllCopied(m0, memory, target, source, total);
    assert target[..|target|] == target && source[..|source|] == source;
  }
}
