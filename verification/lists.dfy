/** The two `Array.prototype.filter` shapes the application uses on lists. */
module Lists {

  /** `xs.filter(x => x !== v)`: every occurrence of `v` removed, order kept. */
  function RemoveAll<T(==,!new)>(xs: seq<T>, v: T): (r: seq<T>)
    ensures |r| <= |xs|
    ensures forall x :: x in r <==> x in xs && x != v
  {
    if xs == [] then []
    else (if xs[0] == v then [] else [xs[0]]) + RemoveAll(xs[1..], v)
  }

  /** A list without `v` passes the filter unchanged. */
  lemma {:induction false} RemoveAllAbsent<T(!new)>(xs: seq<T>, v: T)
    requires v !in xs
    ensures RemoveAll(xs, v) == xs
  {
    if xs != [] {
      RemoveAllAbsent(xs[1..], v);
    }
  }

  /** The filter distributes over concatenation. */
  lemma {:induction false} RemoveAllAppend<T(!new)>(a: seq<T>, b: seq<T>, v: T)
    ensures RemoveAll(a + b, v) == RemoveAll(a, v) + RemoveAll(b, v)
  {
    if a == [] {
      assert a + b == b;
    } else {
      assert (a + b)[1..] == a[1..] + b;
      RemoveAllAppend(a[1..], b, v);
    }
  }

  /** `xs.filter((_, i) => i !== index)`, with `start` the index of `xs[0]`. */
  function RemoveIndexFrom<T>(xs: seq<T>, index: int, start: int): (r: seq<T>)
    ensures |r| <= |xs|
  {
    if xs == [] then []
    else (if start == index then [] else [xs[0]]) + RemoveIndexFrom(xs[1..], index, start + 1)
  }

  /** `xs.filter((_, i) => i !== index)`. */
  function RemoveIndex<T>(xs: seq<T>, index: int): (r: seq<T>)
    ensures |r| <= |xs|
  {
    RemoveIndexFrom(xs, index, 0)
  }

  lemma {:induction false} RemoveIndexFromSlices<T>(xs: seq<T>, index: int, start: int)
    ensures start <= index < start + |xs| ==>
      RemoveIndexFrom(xs, index, start) == xs[..index - start] + xs[index - start + 1..]
    ensures !(start <= index < start + |xs|) ==> RemoveIndexFrom(xs, index, start) == xs
  {
    if xs != [] {
      RemoveIndexFromSlices(xs[1..], index, start + 1);
      if start == index {
        assert RemoveIndexFrom(xs[1..], index, start + 1) == xs[1..];
      } else if start < index < start + |xs| {
        assert xs[1..][..index - start - 1] == xs[1..index - start];
        assert xs[1..][index - start..] == xs[index - start + 1..];
        assert [xs[0]] + xs[1..index - start] == xs[..index - start];
      } else {
        assert [xs[0]] + xs[1..] == xs;
      }
    }
  }

  /**
   * Removing an index that exists drops exactly that element and keeps the
   * others in order; any other index leaves the list as it is.
   */
  lemma RemoveIndexSpec<T>(xs: seq<T>, index: int)
    ensures 0 <= index < |xs| ==> RemoveIndex(xs, index) == xs[..index] + xs[index + 1..]
    ensures 0 <= index < |xs| ==> |RemoveIndex(xs, index)| == |xs| - 1
    ensures !(0 <= index < |xs|) ==> RemoveIndex(xs, index) == xs
  {
    RemoveIndexFromSlices(xs, index, 0);
  }

  /** A prefix one element longer is the shorter prefix and that element. */
  lemma TakeOneMore<T>(xs: seq<T>, i: int)
    requires 0 <= i < |xs|
    ensures xs[..i + 1] == xs[..i] + [xs[i]]
  {
  }
}
