/** Text order and sorting, as Python's `str` comparison and `sorted` have them. */
module Order {

  /** `a <= b` on strings: by code point, a prefix first. */
  predicate TextLeq(a: string, b: string) {
    a == [] || (b != [] && (a[0] < b[0] || (a[0] == b[0] && TextLeq(a[1..], b[1..]))))
  }

  predicate TextLess(a: string, b: string) {
    TextLeq(a, b) && a != b
  }

  lemma {:induction false} TextLeqTotal(a: string, b: string)
    ensures TextLeq(a, b) || TextLeq(b, a)
    ensures TextLeq(a, b) && TextLeq(b, a) ==> a == b
  {
    if a != [] && b != [] && a[0] == b[0] {
      TextLeqTotal(a[1..], b[1..]);
      assert a == [a[0]] + a[1..] && b == [b[0]] + b[1..];
    }
  }

  lemma {:induction false} TextLeqTransitive(a: string, b: string, c: string)
    requires TextLeq(a, b) && TextLeq(b, c)
    ensures TextLeq(a, c)
  {
    if a != [] && a[0] == b[0] == c[0] {
      TextLeqTransitive(a[1..], b[1..], c[1..]);
    }
  }

  /** A common prefix decides nothing, and two fixed-width heads decide first. */
  lemma {:induction false} TextLeqOfHeads(a: string, b: string, x: string, y: string)
    requires |a| == |b|
    ensures TextLeq(a + x, b + y) <==> (if a == b then TextLeq(x, y) else TextLeq(a, b))
  {
    if a == [] {
      assert a + x == x && b + y == y;
    } else {
      TextLeqOfHeads(a[1..], b[1..], x, y);
      assert (a + x)[1..] == a[1..] + x && (b + y)[1..] == b[1..] + y;
      assert a == [a[0]] + a[1..] && b == [b[0]] + b[1..];
    }
  }

  // --- Sorting ---

  ghost predicate TotalPreorder<T(!new)>(leq: (T, T) -> bool) {
    && (forall x, y :: leq(x, y) || leq(y, x))
    && (forall x, y, z :: leq(x, y) && leq(y, z) ==> leq(x, z))
  }

  ghost predicate SortedBy<T>(xs: seq<T>, leq: (T, T) -> bool) {
    forall i, j :: 0 <= i < j < |xs| ==> leq(xs[i], xs[j])
  }

  /** No two different entries of `xs` tie. */
  ghost predicate Untied<T>(xs: seq<T>, leq: (T, T) -> bool) {
    forall x, y :: x in xs && y in xs && leq(x, y) && leq(y, x) ==> x == y
  }

  function Insert<T>(x: T, xs: seq<T>, leq: (T, T) -> bool): seq<T> {
    if xs == [] || leq(x, xs[0]) then [x] + xs else [xs[0]] + Insert(x, xs[1..], leq)
  }

  /** `sorted(xs)`: stable, so equal keys keep the order they came in. */
  function Sort<T>(xs: seq<T>, leq: (T, T) -> bool): seq<T> {
    if xs == [] then [] else Insert(xs[0], Sort(xs[1..], leq), leq)
  }

  lemma {:induction false} TailKeeps<T>(xs: seq<T>, leq: (T, T) -> bool)
    requires xs != []
    ensures SortedBy(xs, leq) ==> SortedBy(xs[1..], leq)
    ensures Untied(xs, leq) ==> Untied(xs[1..], leq)
    ensures multiset(xs[1..]) == multiset(xs) - multiset{xs[0]}
  {
    assert xs == [xs[0]] + xs[1..];
  }

  lemma {:induction false} LeastIsFirst<T(!new)>(xs: seq<T>, x: T, leq: (T, T) -> bool)
    requires SortedBy(xs, leq) && TotalPreorder(leq) && x in xs
    ensures leq(xs[0], x)
  {}

  lemma {:induction false} Prepend<T(!new)>(x: T, xs: seq<T>, leq: (T, T) -> bool)
    requires SortedBy(xs, leq) && forall y :: y in xs ==> leq(x, y)
    ensures SortedBy([x] + xs, leq)
    ensures multiset([x] + xs) == multiset{x} + multiset(xs)
  {}

  lemma {:induction false} InsertIsSorted<T(!new)>(x: T, xs: seq<T>, leq: (T, T) -> bool)
    requires TotalPreorder(leq) && SortedBy(xs, leq)
    ensures SortedBy(Insert(x, xs, leq), leq)
    ensures multiset(Insert(x, xs, leq)) == multiset{x} + multiset(xs)
  {
    if xs == [] {
    } else if leq(x, xs[0]) {
      forall y | y in xs ensures leq(x, y) {
        LeastIsFirst(xs, y, leq);
      }
      Prepend(x, xs, leq);
    } else {
      var rest := Insert(x, xs[1..], leq);
      TailKeeps(xs, leq);
      InsertIsSorted(x, xs[1..], leq);
      SameEntries(rest, [x] + xs[1..]);
      forall y | y in rest ensures leq(xs[0], y) {
        assert y in [x] + xs[1..];
        if y != x {
          LeastIsFirst(xs, y, leq);
        }
      }
      Prepend(xs[0], rest, leq);
    }
  }

  lemma {:induction false} SortIsSorted<T(!new)>(xs: seq<T>, leq: (T, T) -> bool)
    requires TotalPreorder(leq)
    ensures SortedBy(Sort(xs, leq), leq)
    ensures multiset(Sort(xs, leq)) == multiset(xs)
    ensures |Sort(xs, leq)| == |xs|
    ensures forall x :: x in Sort(xs, leq) <==> x in xs
  {
    if xs != [] {
      SortIsSorted(xs[1..], leq);
      InsertIsSorted(xs[0], Sort(xs[1..], leq), leq);
      assert xs == [xs[0]] + xs[1..];
    }
    SameEntries(Sort(xs, leq), xs);
  }

  lemma SameEntries<T>(xs: seq<T>, ys: seq<T>)
    requires multiset(xs) == multiset(ys)
    ensures |xs| == |ys|
    ensures forall x :: x in xs <==> x in ys
  {
    assert |multiset(xs)| == |xs| && |multiset(ys)| == |ys|;
    forall x ensures x in xs <==> x in ys {
      assert x in xs <==> x in multiset(xs);
      assert x in ys <==> x in multiset(ys);
    }
  }

  /** Two sorted arrangements of the same untied entries are one arrangement. */
  lemma {:induction false} SortedIsUnique<T(!new)>(xs: seq<T>, ys: seq<T>, leq: (T, T) -> bool)
    requires SortedBy(xs, leq) && SortedBy(ys, leq) && Untied(xs, leq) && TotalPreorder(leq)
    requires multiset(xs) == multiset(ys)
    ensures xs == ys
  {
    SameEntries(xs, ys);
    if xs != [] {
      assert xs[0] in ys && ys[0] in xs;
      LeastIsFirst(xs, ys[0], leq);
      LeastIsFirst(ys, xs[0], leq);
      assert xs[0] == ys[0];
      hide SortedBy, Untied, TotalPreorder;
      TailKeeps(xs, leq);
      TailKeeps(ys, leq);
      assert xs == [xs[0]] + xs[1..] && ys == [ys[0]] + ys[1..];
      SortedIsUnique(xs[1..], ys[1..], leq);
    }
  }

  /** `sorted` answers the same whatever order untied entries arrive in, and
      leaves a sorted list alone. */
  lemma SortIsCanonical<T(!new)>(xs: seq<T>, ys: seq<T>, leq: (T, T) -> bool)
    requires TotalPreorder(leq) && Untied(xs, leq)
    requires multiset(xs) == multiset(ys)
    ensures Sort(xs, leq) == Sort(ys, leq)
    ensures SortedBy(xs, leq) ==> Sort(xs, leq) == xs
  {
    SortIsSorted(xs, leq);
    SortIsSorted(ys, leq);
    SortedIsUnique(Sort(xs, leq), Sort(ys, leq), leq);
    if SortedBy(xs, leq) {
      SortedIsUnique(Sort(xs, leq), xs, leq);
    }
  }

  /** Sorting is stable: an entry nothing sorts after stays last. */
  lemma {:induction false} GreatestStaysLast<T>(xs: seq<T>, last: T, leq: (T, T) -> bool)
    requires leq(last, last) && forall x :: x in xs ==> leq(x, last)
    ensures Sort(xs + [last], leq) == Sort(xs, leq) + [last]
  {
    if xs == [] {
      assert xs + [last] == [last];
    } else {
      assert (xs + [last])[1..] == xs[1..] + [last];
      GreatestStaysLast(xs[1..], last, leq);
      InsertBeforeLast(xs[0], Sort(xs[1..], leq), last, leq);
    }
  }

  lemma {:induction false} InsertBeforeLast<T>(x: T, xs: seq<T>, last: T, leq: (T, T) -> bool)
    requires leq(x, last)
    ensures Insert(x, xs + [last], leq) == Insert(x, xs, leq) + [last]
  {
    if xs == [] {
      assert xs + [last] == [last];
    } else {
      assert (xs + [last])[1..] == xs[1..] + [last];
      InsertBeforeLast(x, xs[1..], last, leq);
    }
  }

  function Map<T, U>(xs: seq<T>, f: T -> U): (ys: seq<U>)
    ensures |ys| == |xs| && forall i :: 0 <= i < |xs| ==> ys[i] == f(xs[i])
  {
    if xs == [] then [] else [f(xs[0])] + Map(xs[1..], f)
  }

  lemma {:induction false} BagOfMiddle<T, U>(a: seq<T>, x: T, b: seq<T>, f: T -> U)
    ensures multiset(a + [x] + b) == multiset{x} + multiset(a + b)
    ensures multiset(Map(a + [x] + b, f)) == multiset{f(x)} + multiset(Map(a + b, f))
  {
    hide Map;
    assert Map(a + [x] + b, f) == Map(a, f) + [f(x)] + Map(b, f);
    assert Map(a + b, f) == Map(a, f) + Map(b, f);
  }

  /** Rearranging the entries rearranges their images. */
  lemma {:induction false} MapKeepsBags<T, U>(xs: seq<T>, ys: seq<T>, f: T -> U)
    requires multiset(xs) == multiset(ys)
    ensures multiset(Map(xs, f)) == multiset(Map(ys, f))
  {
    hide Map;
    if xs == [] {
      assert |multiset(ys)| == 0;
    } else {
      BagOfHead(xs, f);
      var a, b := SplitAt(xs[0], ys);
      BagOfMiddle(a, xs[0], b, f);
      assert multiset(xs[1..]) == multiset(xs) - multiset{xs[0]};
      assert multiset(a + b) == multiset(ys) - multiset{xs[0]};
      MapKeepsBags(xs[1..], a + b, f);
    }
  }

  lemma {:induction false} BagOfHead<T, U>(xs: seq<T>, f: T -> U)
    requires xs != []
    ensures multiset(xs) == multiset{xs[0]} + multiset(xs[1..])
    ensures multiset(Map(xs, f)) == multiset{f(xs[0])} + multiset(Map(xs[1..], f))
  {
    BagOfMiddle([], xs[0], xs[1..], f);
    assert [] + [xs[0]] + xs[1..] == xs && [] + xs[1..] == xs[1..];
  }

  lemma {:induction false} SplitAt<T>(x: T, ys: seq<T>) returns (a: seq<T>, b: seq<T>)
    requires x in multiset(ys)
    ensures ys == a + [x] + b
  {
    assert x in ys;
    var j :| 0 <= j < |ys| && ys[j] == x;
    a, b := ys[..j], ys[j + 1..];
  }

  // --- Filtering ---

  /** The entries of `xs` that are in `chosen`, in order. */
  function Keep<T(==)>(xs: seq<T>, chosen: set<T>): seq<T> {
    if xs == [] then [] else (if xs[0] in chosen then [xs[0]] else []) + Keep(xs[1..], chosen)
  }

  lemma {:induction false} KeepAppend<T>(xs: seq<T>, ys: seq<T>, chosen: set<T>)
    ensures Keep(xs + ys, chosen) == Keep(xs, chosen) + Keep(ys, chosen)
  {
    if xs == [] {
      assert xs + ys == ys;
    } else {
      KeepAppend(xs[1..], ys, chosen);
      assert (xs + ys)[1..] == xs[1..] + ys;
    }
  }

  lemma {:induction false} KeepBag<T>(xs: seq<T>, chosen: set<T>)
    ensures forall x :: multiset(Keep(xs, chosen))[x] == if x in chosen then multiset(xs)[x] else 0
  {
    if xs != [] {
      KeepBag(xs[1..], chosen);
      assert xs == [xs[0]] + xs[1..];
    }
  }

  lemma {:induction false} KeepAgree<T>(xs: seq<T>, a: set<T>, b: set<T>)
    requires forall x :: x in xs ==> (x in a <==> x in b)
    ensures Keep(xs, a) == Keep(xs, b)
  {
    if xs != [] {
      assert xs == [xs[0]] + xs[1..];
      KeepAgree(xs[1..], a, b);
    }
  }

  /** Two choices one after the other are one choice of what both choose. */
  lemma {:induction false} KeepBoth<T>(xs: seq<T>, a: set<T>, b: set<T>, both: set<T>)
    requires forall x :: x in xs ==> (x in both <==> x in a && x in b)
    ensures Keep(Keep(xs, a), b) == Keep(xs, both)
  {
    if xs != [] {
      var tail := Keep(xs[1..], a);
      assert xs == [xs[0]] + xs[1..];
      KeepBoth(xs[1..], a, b, both);
      if xs[0] in a {
        assert Keep(xs, a) == [xs[0]] + tail;
        assert ([xs[0]] + tail)[1..] == tail;
      } else {
        assert Keep(xs, a) == tail;
      }
    }
  }

  lemma {:induction false} KeepAll<T>(xs: seq<T>, chosen: set<T>)
    requires forall x :: x in xs ==> x in chosen
    ensures Keep(xs, chosen) == xs
  {
    if xs != [] {
      KeepAll(xs[1..], chosen);
    }
  }
}
