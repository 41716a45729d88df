/** Python list behaviour the program relies on: `list.insert` with its
    index clamping, filtering (the reverse `pop` loops and comprehensions),
    and swapping two positions. */
module PyList {

  /** The slot `list.insert(i, x)` uses on a list of length `n`: a negative
      index counts from the end, and out-of-range indices are clamped. */
  function InsertIndex(n: nat, i: int): (j: nat)
    ensures j <= n
    ensures 0 <= i <= n ==> j == i
  {
    if i < 0 then (if i + n < 0 then 0 else i + n) else if i > n then n else i
  }

  /** `xs.insert(i, x)`. */
  function Insert<T>(xs: seq<T>, i: int, x: T): (r: seq<T>)
    ensures |r| == |xs| + 1
    ensures r[InsertIndex(|xs|, i)] == x
    ensures r[..InsertIndex(|xs|, i)] == xs[..InsertIndex(|xs|, i)]
    ensures r[InsertIndex(|xs|, i) + 1..] == xs[InsertIndex(|xs|, i)..]
  {
    var j := InsertIndex(|xs|, i);
    xs[..j] + [x] + xs[j..]
  }

  /** `insert` adds one occurrence of `x` and changes no other count. */
  lemma InsertCounts<T>(xs: seq<T>, i: int, x: T)
    ensures multiset(Insert(xs, i, x)) == multiset(xs) + multiset{x}
  {
    var j := InsertIndex(|xs|, i);
    assert xs == xs[..j] + xs[j..];
    assert Insert(xs, i, x) == xs[..j] + [x] + xs[j..];
  }

  /** `xs.pop(i)`: the list without position `i`. */
  function RemoveAt<T>(xs: seq<T>, i: nat): (r: seq<T>)
    requires i < |xs|
    ensures |r| == |xs| - 1
  {
    xs[..i] + xs[i + 1..]
  }

  /** `pop` takes away exactly one occurrence of the popped element. */
  lemma RemoveAtCounts<T>(xs: seq<T>, i: nat)
    requires i < |xs|
    ensures multiset(RemoveAt(xs, i)) + multiset{xs[i]} == multiset(xs)
  {
    assert xs == xs[..i] + [xs[i]] + xs[i + 1..];
  }

  /** The elements of `xs` that satisfy `keep`, in their original order. */
  function Filter<T>(xs: seq<T>, keep: T -> bool): (r: seq<T>)
    ensures |r| <= |xs|
    ensures forall k :: 0 <= k < |r| ==> keep(r[k])
  {
    if xs == [] then []
    else if keep(xs[0]) then [xs[0]] + Filter(xs[1..], keep) else Filter(xs[1..], keep)
  }

  /** Filtering keeps every kept value as often as it occurs and drops the
      others entirely. */
  lemma {:induction false} FilterCounts<T(!new)>(xs: seq<T>, keep: T -> bool)
    ensures multiset(Filter(xs, keep)) <= multiset(xs)
    ensures forall x :: keep(x) ==> multiset(Filter(xs, keep))[x] == multiset(xs)[x]
    ensures forall x :: !keep(x) ==> multiset(Filter(xs, keep))[x] == 0
  {
    if xs != [] {
      assert xs == [xs[0]] + xs[1..];
      FilterCounts(xs[1..], keep);
    }
  }

  /** Filtering by a test and by its negation splits the list: every
      element lands in exactly one of the two parts. */
  lemma FilterPartition<T(!new)>(xs: seq<T>, keep: T -> bool, drop: T -> bool)
    requires forall x :: drop(x) == !keep(x)
    ensures multiset(Filter(xs, keep)) + multiset(Filter(xs, drop)) == multiset(xs)
  {
    FilterCounts(xs, keep);
    FilterCounts(xs, drop);
    var m := multiset(Filter(xs, keep)) + multiset(Filter(xs, drop));
    forall x
      ensures m[x] == multiset(xs)[x]
    {
      if keep(x) {
        assert !drop(x);
      }
    }
  }

  lemma {:induction false} FilterAppend<T>(a: seq<T>, b: seq<T>, keep: T -> bool)
    ensures Filter(a + b, keep) == Filter(a, keep) + Filter(b, keep)
  {
    if a != [] {
      assert (a + b)[0] == a[0];
      assert (a + b)[1..] == a[1..] + b;
      FilterAppend(a[1..], b, keep);
    } else {
      assert a + b == b;
    }
  }

  lemma {:induction false} FilterAllKept<T>(xs: seq<T>, keep: T -> bool)
    requires forall k :: 0 <= k < |xs| ==> keep(xs[k])
    ensures Filter(xs, keep) == xs
  {
    if xs != [] {
      FilterAllKept(xs[1..], keep);
    }
  }

  lemma FilterIdempotent<T>(xs: seq<T>, keep: T -> bool)
    ensures Filter(Filter(xs, keep), keep) == Filter(xs, keep)
  {
    FilterAllKept(Filter(xs, keep), keep);
  }

  /** The list with positions `i` and `j` exchanged. */
  function Swap<T>(xs: seq<T>, i: nat, j: nat): (r: seq<T>)
    requires i < |xs| && j < |xs|
    ensures |r| == |xs|
    ensures r[i] == xs[j] && r[j] == xs[i]
    ensures forall k :: 0 <= k < |xs| && k != i && k != j ==> r[k] == xs[k]
  {
    xs[i := xs[j]][j := xs[i]]
  }

  lemma SwapIsPermutation<T>(xs: seq<T>, i: nat, j: nat)
    requires i < |xs| && j < |xs|
    ensures multiset(Swap(xs, i, j)) == multiset(xs)
  {
    var r := Swap(xs, i, j);
    if i != j {
      var a := xs[i := xs[j]];
      assert a[j] == xs[j] && r == a[j := xs[i]];
      assert multiset(a) == multiset(xs) - multiset{xs[i]} + multiset{xs[j]};
      assert multiset(r) == multiset(a) - multiset{xs[j]} + multiset{xs[i]};
    } else {
      assert r == xs;
    }
  }
}
