/** rapidxml's `memory_pool`: aligned regions cut from a chain of blocks, each but the first starting with a header
    that leads to the one before. Addresses are numbers. */
module MemoryPool {
  import opened Bits

  function Align(k: nat, p: nat): nat {
    var a := Pow2(k);
    var low := And(p, a - 1);
    if low > a then p else p + And(a - low, a - 1)
  }

  /** `align` gives the next multiple of the alignment, skipping less than one alignment. */
  lemma Aligned(k: nat, p: nat)
    ensures Align(k, p) % Pow2(k) == 0 && p <= Align(k, p) <= p + Pow2(k) - 1
    ensures p % Pow2(k) == 0 ==> Align(k, p) == p
  {
    hide And, Pow2;
    var a := Pow2(k);
    var q, r := p / a, p % a;
    Mask(p, k);
    Split(p, a);
    Mask(a - r, k);
    if r == 0 {
      Unique(a, a, 1, 0);
    } else {
      Unique(a - r, a, 0, a - r);
      Distribute(a, q, 1);
      Unique(p + (a - r), a, q + 1, 0);
    }
  }

  /** Aligning behind a header that starts at an aligned address. */
  lemma AlignBehind(k: nat, m: nat, header: nat)
    requires m % Pow2(k) == 0
    ensures var a := Pow2(k); Align(k, m + header) == m + header + (a - header % a) % a
  {
    hide And, Pow2;
    var a := Pow2(k);
    var q, q', r := m / a, header / a, header % a;
    Split(m, a);
    Split(header, a);
    Distribute(a, q, q');
    Unique(m + header, a, q + q', r);
    Mask(m + header, k);
    Mask(a - r, k);
  }

  /** The bytes a new block needs besides the header and the request, wherever it lies: at worst its address is one
      behind an aligned one, and then the header ends wherever its size says. */
  function SlackNeeded(k: nat, header: nat): nat {
    var a := Pow2(k);
    (a - 1) + (a - header % a) % a
  }

  /** That much is enough for every address, */
  lemma SlackSuffices(k: nat, header: nat, raw: nat)
    ensures Align(k, Align(k, raw) + header) <= raw + header + SlackNeeded(k, header)
  {
    hide Align, Pow2;
    Aligned(k, raw);
    AlignBehind(k, Align(k, raw), header);
  }

  /** and no less is. */
  lemma SlackReached(k: nat, header: nat)
    ensures Align(k, Align(k, 1) + header) == 1 + header + SlackNeeded(k, header)
  {
    Aligned(k, 1);
    if k > 0 {
      JustAfter(k, 0);
    }
    AlignBehind(k, Align(k, 1), header);
  }

  /** The source provides two alignments less two bytes. All of it is needed exactly for headers whose size is one more
      than a multiple of the alignment; for a header as long as the alignment half of it is. */
  lemma SlackIsTight(k: nat, header: nat)
    ensures SlackNeeded(k, header) <= 2 * Pow2(k) - 2
    ensures SlackNeeded(k, header) == 2 * Pow2(k) - 2 <==> header % Pow2(k) == 1 % Pow2(k)
    ensures header % Pow2(k) == 0 ==> SlackNeeded(k, header) == Pow2(k) - 1
  {
    hide Pow2;
    var a := Pow2(k);
    var r := header % a;
    Split(header, a);
    if r == 0 {
      Unique(a, a, 1, 0);
    } else {
      Unique(a - r, a, 0, a - r);
    }
    if a > 1 {
      Unique(1, a, 0, 1);
    }
  }

  lemma JustAfter(k: nat, q: nat)
    requires k > 0
    ensures Align(k, Pow2(k) * q + 1) == Pow2(k) * q + Pow2(k)
  {
    hide And;
    var a := Pow2(k);
    var p := a * q + 1;
    Unique(p, a, q, 1);
    Mask(p, k);
    Mask(a - 1, k);
    Unique(a - 1, a, 0, a - 1);
  }

  /** A stretch of memory. */
  datatype Block = Block(start: nat, size: nat)

  predicate Inside(r: Block, b: Block) { b.start <= r.start && r.start + r.size <= b.start + b.size }

  predicate Apart(a: Block, b: Block) { a.start + a.size <= b.start || b.start + b.size <= a.start }

  /** What was handed out, and from which block of the chain. */
  datatype Region = Region(memory: Block, block: nat)

  class MemoryPool {
    const k: nat
    const headerSize: nat
    const dynamicSize: nat
    const staticMemory: Block
    var begin: nat
    var ptr: nat
    var end: nat
    // The headers in memory: an address, and the `previous_begin` stored there.
    var headers: map<nat, nat>

    ghost var blocks: seq<Block>
    ghost var regions: seq<Region>
    ghost var freed: seq<nat>

    function HeaderOf(b: Block): Block { Block(Align(k, b.start), headerSize) }

    ghost predicate Chain()
      reads `blocks, `headers
    {
      headerSize > 0 && |blocks| > 0 && blocks[0] == staticMemory
      && (forall i :: 0 <= i < |blocks| ==> blocks[i].size > 0)
      && (forall i, j :: 0 <= i < j < |blocks| ==> Apart(blocks[i], blocks[j]))
      && (forall i :: 0 < i < |blocks| ==>
            Inside(HeaderOf(blocks[i]), blocks[i])
            && HeaderOf(blocks[i]).start in headers && headers[HeaderOf(blocks[i]).start] == blocks[i - 1].start)
    }

    /** Every region is aligned, inside its block, and clear of the header there. */
    ghost predicate Placed()
      reads `blocks, `regions
    {
      forall i :: 0 <= i < |regions| ==>
        var r := regions[i];
        r.memory.start % Pow2(k) == 0 && r.block < |blocks| && Inside(r.memory, blocks[r.block])
        && (r.block > 0 ==> Apart(r.memory, HeaderOf(blocks[r.block])))
    }

    ghost predicate Disjoint()
      reads `regions
    {
      forall i, j :: 0 <= i < j < |regions| ==> Apart(regions[i].memory, regions[j].memory)
    }

    /** The current block is the last one, and all that is taken of it lies before `ptr`. */
    ghost predicate Current()
      reads `begin, `ptr, `end, `blocks, `regions
    {
      |blocks| > 0 && begin == blocks[|blocks| - 1].start && end == begin + blocks[|blocks| - 1].size && begin <= ptr
      && (|blocks| > 1 ==> HeaderOf(blocks[|blocks| - 1]).start + headerSize <= ptr)
      && forall i :: 0 <= i < |regions| && regions[i].block == |blocks| - 1 ==>
           regions[i].memory.start + regions[i].memory.size <= ptr
    }

    ghost predicate Valid()
      reads this
    {
      Chain() && Placed() && Disjoint() && Current()
    }

    /** `memory_pool()` and `init`. */
    constructor (power: nat, header: nat, dynamic: nat, fixed: Block)
      requires fixed.size > 0 && header > 0
      ensures Valid() && regions == [] && freed == [] && blocks == [fixed] && k == power
    {
      k, headerSize, dynamicSize, staticMemory := power, header, dynamic, fixed;
      begin, end, headers := fixed.start, fixed.start + fixed.size, map[];
      ptr := Align(power, fixed.start);
      blocks, regions, freed := [fixed], [], [];
      Aligned(power, fixed.start);
    }

    /** Whether a request needs another block, and how large that is. */
    predicate Grows(size: nat)
      reads `ptr, `end
    {
      Align(k, ptr) + size > end
    }

    function AllocSize(size: nat): (n: nat)
      ensures n - headerSize - (2 * Pow2(k) - 2) in {size, dynamicSize}
      ensures n >= headerSize + (2 * Pow2(k) - 2) + dynamicSize && n >= headerSize + (2 * Pow2(k) - 2) + size
    {
      headerSize + (2 * Pow2(k) - 2) + if dynamicSize < size then size else dynamicSize
    }

    /** `allocate_aligned`. `raw` is what the allocator answers if it is asked: memory nobody else has. */
    method AllocateAligned(size: nat, raw: nat) returns (result: nat)
      requires Valid()
      requires Grows(size) ==> forall i :: 0 <= i < |blocks| ==> Apart(blocks[i], Block(raw, AllocSize(size)))
      modifies this`begin, this`ptr, this`end, this`headers, this`blocks, this`regions
      ensures Valid() && result % Pow2(k) == 0
      ensures regions == old(regions) + [Region(Block(result, size), |blocks| - 1)]
      ensures blocks == old(blocks) + if old(Grows(size)) then [Block(raw, AllocSize(size))] else []
      ensures result == (if old(Grows(size)) then Align(k, Align(k, raw) + headerSize) else Align(k, old(ptr)))
      ensures ptr == result + size
      ensures old(Grows(size)) && size <= dynamicSize ==> ptr + (dynamicSize - size) <= end
    {
      hide Chain, Placed, Disjoint, Current, Align, Pow2;
      if Align(k, ptr) + size > end {
        NeverEmpty(size);
        NewBlock(raw, AllocSize(size), size);
      }
      result := Cut(size);
    }

    lemma NeverEmpty(size: nat)
      requires Chain()
      ensures AllocSize(size) > 0
    {
    }

    /** Links a new block; the slack of two alignments leaves room for the request behind the header. */
    method NewBlock(raw: nat, allocSize: nat, ghost size: nat)
      requires Valid() && allocSize > 0 && headerSize + 2 * Pow2(k) - 2 + size <= allocSize
      requires forall i :: 0 <= i < |blocks| ==> Apart(blocks[i], Block(raw, allocSize))
      modifies this`begin, this`ptr, this`end, this`headers, this`blocks
      ensures Valid() && !Grows(size) && blocks == old(blocks) + [Block(raw, allocSize)]
      ensures ptr == Align(k, raw) + headerSize
      ensures Align(k, ptr) + (allocSize - (headerSize + 2 * Pow2(k) - 2)) <= end
    {
      hide Align, Pow2;
      var pool := Align(k, raw);
      Aligned(k, raw);
      Aligned(k, pool + headerSize);
      HeadersApart(raw, allocSize);
      assert Inside(HeaderOf(Block(raw, allocSize)), Block(raw, allocSize));
      headers := headers[pool := begin];
      begin := raw;
      ptr := pool + headerSize;
      end := raw + allocSize;
      blocks := blocks + [Block(raw, allocSize)];
    }

    /** The header of a new block is not that of an old one. */
    lemma HeadersApart(raw: nat, size: nat)
      requires Chain()
      requires forall i :: 0 <= i < |blocks| ==> Apart(blocks[i], Block(raw, size))
      requires Align(k, raw) + headerSize <= raw + size && raw <= Align(k, raw)
      ensures forall i :: 0 < i < |blocks| ==> HeaderOf(blocks[i]).start != Align(k, raw)
    {
      hide Align;
      forall i | 0 < i < |blocks| ensures HeaderOf(blocks[i]).start != Align(k, raw) {
        assert Inside(HeaderOf(blocks[i]), blocks[i]);
        assert Apart(blocks[i], Block(raw, size));
      }
    }

    /** Takes the next aligned stretch of the current block. */
    method Cut(size: nat) returns (result: nat)
      requires Valid() && !Grows(size)
      modifies this`ptr, this`regions
      ensures Valid() && result % Pow2(k) == 0 && result == Align(k, old(ptr)) && ptr == result + size && end == old(end)
      ensures regions == old(regions) + [Region(Block(result, size), |blocks| - 1)]
    {
      hide Align, Pow2, Chain;
      result := Align(k, ptr);
      Aligned(k, ptr);
      LastRegion(Block(result, size));
      ptr := result + size;
      regions := regions + [Region(Block(result, size), |blocks| - 1)];
    }

    /** Memory from the current block behind `ptr` is apart from every region. */
    lemma LastRegion(m: Block)
      requires Valid() && ptr <= m.start && m.start + m.size <= end
      ensures forall i :: 0 <= i < |regions| ==> Apart(regions[i].memory, m)
    {
      hide Align, Pow2;
      forall i | 0 <= i < |regions| ensures Apart(regions[i].memory, m) {
        var r := regions[i];
        if r.block < |blocks| - 1 {
          assert Apart(blocks[r.block], blocks[|blocks| - 1]);
        }
      }
    }

    /** The dynamic blocks, the newest first. */
    ghost function Dynamic(): (s: seq<nat>)
      requires |blocks| > 0
      reads `blocks
    {
      var bs := blocks;
      seq(|bs| - 1, (i: nat) requires i < |bs| - 1 => bs[|bs| - 1 - i].start)
    }

    /** Dynamic blocks have different addresses, none of them that of the static memory: freeing each of them is
        freeing no block twice. */
    lemma DynamicDistinct()
      requires Valid()
      ensures forall i :: 0 <= i < |Dynamic()| ==> Dynamic()[i] != staticMemory.start
      ensures forall i, j :: 0 <= i < j < |Dynamic()| ==> Dynamic()[i] != Dynamic()[j]
    {
      hide Placed, Disjoint, Current;
      var n := |blocks|;
      StartsDiffer();
      forall i, j | 0 <= i < j < n - 1 ensures Dynamic()[i] != Dynamic()[j] {
        assert Apart(blocks[n - 1 - j], blocks[n - 1 - i]);
      }
    }

    lemma StartsDiffer()
      requires Chain()
      ensures forall i :: 0 < i < |blocks| ==> blocks[i].start != staticMemory.start
    {
      forall i | 0 < i < |blocks| ensures blocks[i].start != staticMemory.start {
        assert Apart(blocks[0], blocks[i]);
      }
    }

    /** `clear`: every dynamic block is freed once, the newest first, and the pool is as it was at the start. */
    method Clear()
      requires Valid()
      modifies this
      ensures Valid() && freed == old(freed) + old(Dynamic())
      ensures blocks == [staticMemory] && regions == [] && begin == staticMemory.start
      ensures ptr == Align(k, begin) && end == begin + staticMemory.size
    {
      hide Align, Pow2, Placed, Disjoint;
      ghost var n, all := |blocks| - 1, Dynamic();
      while begin != staticMemory.start
        invariant blocks == old(blocks) && headers == old(headers) && Chain()
        invariant 0 <= n < |blocks| && begin == blocks[n].start && freed == old(freed) + all[..|blocks| - 1 - n]
        decreases n
      {
        var header := Align(k, begin);
        assert header == HeaderOf(blocks[n]).start;
        var previousBegin := headers[header];
        freed := freed + [begin];
        begin := previousBegin;
        n := n - 1;
      }
      StartsDiffer();
      Init();
    }

    /** `init`. */
    method Init()
      requires staticMemory.size > 0 && headerSize > 0
      modifies this`begin, this`ptr, this`end, this`blocks, this`regions
      ensures Valid() && blocks == [staticMemory] && regions == [] && begin == staticMemory.start
      ensures ptr == Align(k, begin) && end == begin + staticMemory.size
    {
      hide Align, Pow2;
      begin := staticMemory.start;
      ptr := Align(k, begin);
      end := staticMemory.start + staticMemory.size;
      blocks, regions := [staticMemory], [];
      Aligned(k, begin);
    }
  }
}
