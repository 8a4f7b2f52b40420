/** Sequence helpers of the match classifier: keeping the elements that satisfy
    a predicate, and dropping repeated elements while keeping the first
    occurrence of each. */
module Lists {

  /** The elements of `xs` that satisfy `p`, in their order. */
  function Filter<T(!new)>(xs: seq<T>, p: T -> bool): (r: seq<T>)
    ensures |r| <= |xs|
    ensures forall x :: x in r <==> x in xs && p(x)
    ensures forall i :: 0 <= i < |r| ==> p(r[i])
    ensures (forall i :: 0 <= i < |xs| ==> !p(xs[i])) ==> r == []
  {
    if xs == [] then []
    else
      var front := Filter(xs[..|xs| - 1], p);
      var x := xs[|xs| - 1];
      assert xs == xs[..|xs| - 1] + [x];
      if p(x) then front + [x] else front
  }

  predicate Distinct<T(==)>(s: seq<T>) {
    forall i, j :: 0 <= i < j < |s| ==> s[i] != s[j]
  }

  /** `xs` without repetitions: each element is kept where it first occurs. */
  function Dedup<T(==,!new)>(xs: seq<T>): (r: seq<T>)
    ensures |r| <= |xs| && (xs == [] ==> r == [])
    ensures forall x :: x in r <==> x in xs
    ensures Distinct(r)
  {
    if xs == [] then []
    else
      var front := Dedup(xs[..|xs| - 1]);
      var x := xs[|xs| - 1];
      assert xs == xs[..|xs| - 1] + [x];
      if x in front then front else front + [x]
  }

  /** Position of the first occurrence of `x` in `xs`. */
  function FirstIndex<T(==)>(xs: seq<T>, x: T): (i: nat)
    requires x in xs
    ensures i < |xs| && xs[i] == x && x !in xs[..i]
  {
    if xs[0] == x then 0
    else
      var j := FirstIndex(xs[1..], x);
      assert xs[..j + 1] == [xs[0]] + xs[1..][..j];
      j + 1
  }

  lemma FirstIndexUnique<T>(xs: seq<T>, x: T, i: nat)
    requires i < |xs| && xs[i] == x && x !in xs[..i]
    ensures FirstIndex(xs, x) == i
  {
    var k := FirstIndex(xs, x);
    assert forall j :: 0 <= j < i ==> xs[..i][j] == xs[j];
    assert forall j :: 0 <= j < k ==> xs[..k][j] == xs[j];
  }

  lemma FirstIndexSnoc<T>(xs: seq<T>, y: T, x: T)
    requires x in xs
    ensures x in xs + [y] && FirstIndex(xs + [y], x) == FirstIndex(xs, x)
  {
    var i := FirstIndex(xs, x);
    assert (xs + [y])[..i] == xs[..i];
    FirstIndexUnique(xs + [y], x, i);
  }

  /** Dedup keeps the first-seen order: an element kept earlier occurs earlier in `xs`. */
  lemma {:induction false} DedupOrder<T(!new)>(xs: seq<T>)
    ensures forall i, j :: 0 <= i < j < |Dedup(xs)| ==>
      FirstIndex(xs, Dedup(xs)[i]) < FirstIndex(xs, Dedup(xs)[j])
  {
    if xs != [] {
      var ys := xs[..|xs| - 1];
      var x := xs[|xs| - 1];
      var front := Dedup(ys);
      assert xs == ys + [x];
      DedupOrder(ys);
      forall y | y in ys
        ensures FirstIndex(xs, y) == FirstIndex(ys, y)
      {
        FirstIndexSnoc(ys, x, y);
      }
      if x !in front {
        assert x !in ys;
        assert xs[..|ys|] == ys;
        FirstIndexUnique(xs, x, |ys|);
      }
    }
  }

  /** A sequence without repetitions is its own Dedup. */
  lemma {:induction false} DedupDistinct<T(!new)>(xs: seq<T>)
    requires Distinct(xs)
    ensures Dedup(xs) == xs
  {
    if xs != [] {
      var ys := xs[..|xs| - 1];
      DedupDistinct(ys);
      assert xs == ys + [xs[|xs| - 1]];
    }
  }

  lemma DedupIdempotent<T(!new)>(xs: seq<T>)
    ensures Dedup(Dedup(xs)) == Dedup(xs)
  {
    DedupDistinct(Dedup(xs));
  }

  /** Filtering and removing repetitions can be done in either order. */
  lemma {:induction false} DedupFilter<T(!new)>(xs: seq<T>, p: T -> bool)
    ensures Dedup(Filter(xs, p)) == Filter(Dedup(xs), p)
  {
    if xs != [] {
      var ys := xs[..|xs| - 1];
      var x := xs[|xs| - 1];
      DedupFilter(ys, p);
      var d := Dedup(ys);
      if x !in d {
        assert (d + [x])[..|d|] == d;
      }
      if p(x) {
        var f := Filter(ys, p);
        assert (f + [x])[..|f|] == f;
      }
    }
  }

  /** Filtering with a predicate every element satisfies changes nothing. */
  lemma {:induction false} FilterAll<T(!new)>(xs: seq<T>, p: T -> bool)
    requires forall i :: 0 <= i < |xs| ==> p(xs[i])
    ensures Filter(xs, p) == xs
  {
    if xs != [] {
      FilterAll(xs[..|xs| - 1], p);
      assert xs == xs[..|xs| - 1] + [xs[|xs| - 1]];
    }
  }

  /** Filter distributes over concatenation; with FilterOne this fixes the
      order and the number of the kept elements. */
  lemma {:induction false} FilterAppend<T(!new)>(a: seq<T>, b: seq<T>, p: T -> bool)
    ensures Filter(a + b, p) == Filter(a, p) + Filter(b, p)
    decreases |b|
  {
    if b == [] {
      assert a + b == a;
    } else {
      var c, x := b[..|b| - 1], b[|b| - 1];
      assert a + b == (a + c) + [x];
      assert b == c + [x];
      FilterAppend(a, c, p);
      if p(x) {
        FilterKeep(a + c, x, p, Filter(a + c, p));
        FilterKeep(c, x, p, Filter(c, p));
      } else {
        FilterDrop(a + c, x, p, Filter(a + c, p));
        FilterDrop(c, x, p, Filter(c, p));
      }
    }
  }

  lemma FilterOne<T(!new)>(x: T, p: T -> bool)
    ensures Filter([x], p) == if p(x) then [x] else []
  {
    assert [x][..0] == [];
  }

  /** `s` lists elements of `q` in the order of their first occurrence in `q`. */
  predicate InOrderOf<T(==)>(s: seq<T>, q: seq<T>) {
    (forall x :: x in s ==> x in q) &&
    forall i, j :: 0 <= i < j < |s| ==> FirstIndex(q, s[i]) < FirstIndex(q, s[j])
  }

  /** Filtering keeps the relative order of the elements. */
  lemma {:induction false} FilterOrder<T(!new)>(xs: seq<T>, p: T -> bool, q: seq<T>)
    requires InOrderOf(xs, q)
    ensures InOrderOf(Filter(xs, p), q)
  {
    if xs != [] {
      var ys, x := xs[..|xs| - 1], xs[|xs| - 1];
      assert xs == ys + [x];
      assert forall i :: 0 <= i < |ys| ==> ys[i] == xs[i];
      FilterOrder(ys, p, q);
      var f := Filter(ys, p);
      if p(x) {
        FilterKeep(ys, x, p, f);
        forall i | 0 <= i < |f|
          ensures FirstIndex(q, f[i]) < FirstIndex(q, x)
        {
          assert f[i] in ys;
          var k :| 0 <= k < |ys| && ys[k] == f[i];
        }
      } else {
        FilterDrop(ys, x, p, f);
      }
    }
  }

  /** Appending an element Dedup already kept changes nothing. */
  lemma DedupKeep<T(!new)>(xs: seq<T>, x: T, d: seq<T>)
    requires Dedup(xs) == d && x in d
    ensures Dedup(xs + [x]) == d
  {
    assert (xs + [x])[..|xs|] == xs;
  }

  /** Appending a new element appends it to Dedup. */
  lemma DedupAdd<T(!new)>(xs: seq<T>, x: T, d: seq<T>)
    requires Dedup(xs) == d && x !in d
    ensures Dedup(xs + [x]) == d + [x]
  {
    assert (xs + [x])[..|xs|] == xs;
  }

  /** Appending an element that satisfies `p` appends it to the filtered sequence. */
  lemma FilterKeep<T(!new)>(xs: seq<T>, x: T, p: T -> bool, f: seq<T>)
    requires Filter(xs, p) == f && p(x)
    ensures Filter(xs + [x], p) == f + [x]
  {
    assert (xs + [x])[..|xs|] == xs;
  }

  /** Appending an element that fails `p` leaves the filtered sequence as it was. */
  lemma FilterDrop<T(!new)>(xs: seq<T>, x: T, p: T -> bool, f: seq<T>)
    requires Filter(xs, p) == f && !p(x)
    ensures Filter(xs + [x], p) == f
  {
    assert (xs + [x])[..|xs|] == xs;
  }
}
