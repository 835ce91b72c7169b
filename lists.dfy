/** Python list operations the core applies to lists of more than one element type. */
module Lists {

  /** `xs.remove(x)`: the list without the first occurrence of `x`; Python raises ValueError
      when there is none. */
  function RemoveFirst<T(==)>(xs: seq<T>, x: T): (r: seq<T>)
    requires x in xs
    ensures |r| == |xs| - 1
    decreases |xs|
  {
    if xs[0] == x then xs[1..] else [xs[0]] + RemoveFirst(xs[1..], x)
  }

  /** Removing an element that does not occur before position `|a|` drops exactly that position. */
  lemma {:induction false} RemoveFirstAt<T>(a: seq<T>, x: T, b: seq<T>)
    requires x !in a
    ensures x in a + [x] + b
    ensures RemoveFirst(a + [x] + b, x) == a + b
    decreases |a|
  {
    assert (a + [x] + b)[|a|] == x;
    if a != [] {
      assert (a + [x] + b)[1..] == a[1..] + [x] + b;
      RemoveFirstAt(a[1..], x, b);
      assert a + b == [a[0]] + (a[1..] + b);
    } else {
      assert a + [x] + b == [x] + b;
    }
  }
}
