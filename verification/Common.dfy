/** Shared value types. */
module Common {
  newtype byte = x: int | 0 <= x < 256

  datatype Option<+T> = None | Some(value: T)

  datatype Result<+T, +E> = Ok(value: T) | Err(error: E)

  const TWO_16: int := 0x1_0000
  const TWO_31: int := 0x8000_0000
  const TWO_32: int := 0x1_0000_0000
  const TWO_64: int := 0x1_0000_0000_0000_0000

  function Min(a: nat, b: nat): nat { if a < b then a else b }

  /** The bytes of several buffers, one after the other. */
  function Flatten<T>(parts: seq<seq<T>>): seq<T> {
    if parts == [] then [] else parts[0] + Flatten(parts[1..])
  }

  lemma {:induction false} FlattenConcat<T>(a: seq<seq<T>>, b: seq<seq<T>>)
    ensures Flatten(a + b) == Flatten(a) + Flatten(b)
  {
    if a == [] {
      assert a + b == b;
    } else {
      assert (a + b)[1..] == a[1..] + b;
      FlattenConcat(a[1..], b);
    }
  }

  lemma FlattenSnoc<T>(a: seq<seq<T>>, x: seq<T>)
    ensures Flatten(a + [x]) == Flatten(a) + x
  {
    FlattenConcat(a, [x]);
    assert Flatten([x]) == x;
  }

  /** The pieces `f` gives for each element, one after the other. */
  function Gather<A, B>(f: A -> seq<B>, s: seq<A>): seq<B> {
    if s == [] then [] else f(s[0]) + Gather(f, s[1..])
  }

  lemma GatherFirst<A, B>(f: A -> seq<B>, s: seq<A>)
    requires s != []
    ensures Gather(f, s) == f(s[0]) + Gather(f, s[1..])
  {
  }

  lemma {:induction false} GatherConcat<A, B>(f: A -> seq<B>, a: seq<A>, b: seq<A>)
    ensures Gather(f, a + b) == Gather(f, a) + Gather(f, b)
  {
    if a == [] {
      assert a + b == b;
    } else {
      assert (a + b)[1..] == a[1..] + b;
      GatherConcat(f, a[1..], b);
    }
  }

  lemma GatherSnoc<A, B>(f: A -> seq<B>, a: seq<A>, x: A)
    ensures Gather(f, a + [x]) == Gather(f, a) + f(x)
  {
    GatherConcat(f, a, [x]);
    assert Gather(f, [x]) == f(x) + Gather(f, []);
  }
}
