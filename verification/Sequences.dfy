/** Sequences under maps and sorting, as Python's comprehensions and `sorted` and Rust's iterators use them. */
module Sequences {
  ghost predicate TotalPreorder<T(!new)>(leq: (T, T) -> bool) {
    (forall a, b :: leq(a, b) || leq(b, a)) && (forall a, b, c :: leq(a, b) && leq(b, c) ==> leq(a, c))
  }

  ghost predicate TotalOrder<T(!new)>(leq: (T, T) -> bool) {
    TotalPreorder(leq) && forall a, b :: leq(a, b) && leq(b, a) ==> a == b
  }

  predicate Ascending<T>(s: seq<T>, leq: (T, T) -> bool) {
    forall i, j | 0 <= i < j < |s| :: leq(s[i], s[j])
  }

  function Insert<T>(x: T, s: seq<T>, leq: (T, T) -> bool): (r: seq<T>)
    ensures multiset(r) == multiset(s) + multiset{x}
  {
    if s == [] then [x]
    else if leq(x, s[0]) then [x] + s
    else
      assert s == [s[0]] + s[1..];
      [s[0]] + Insert(x, s[1..], leq)
  }

  function Sorted<T>(s: seq<T>, leq: (T, T) -> bool): (r: seq<T>)
    ensures multiset(r) == multiset(s)
  {
    if s == [] then []
    else
      assert s == [s[0]] + s[1..];
      Insert(s[0], Sorted(s[1..], leq), leq)
  }

  lemma {:induction false} InsertAscends<T(!new)>(x: T, s: seq<T>, leq: (T, T) -> bool)
    requires TotalPreorder(leq) && Ascending(s, leq)
    ensures Ascending(Insert(x, s, leq), leq)
  {
    if s != [] && !leq(x, s[0]) {
      var rest := Insert(x, s[1..], leq);
      InsertAscends(x, s[1..], leq);
      forall k | 0 <= k < |rest| ensures leq(s[0], rest[k]) {
        assert rest[k] in multiset(rest);
        assert rest[k] == x || rest[k] in s[1..];
      }
    }
  }

  lemma {:induction false} SortedAscends<T(!new)>(s: seq<T>, leq: (T, T) -> bool)
    requires TotalPreorder(leq)
    ensures Ascending(Sorted(s, leq), leq)
  {
    if s != [] {
      SortedAscends(s[1..], leq);
      InsertAscends(s[0], Sorted(s[1..], leq), leq);
    }
  }

  /** An ascending arrangement of given elements is unique. */
  lemma {:induction false} AscendingUnique<T(!new)>(a: seq<T>, b: seq<T>, leq: (T, T) -> bool)
    requires TotalOrder(leq) && Ascending(a, leq) && Ascending(b, leq) && multiset(a) == multiset(b)
    ensures a == b
  {
    if a == [] {
      assert |multiset(b)| == 0;
    } else {
      assert |multiset(a)| == |multiset(b)|;
      FirstIsLeast(a, b, leq);
      FirstIsLeast(b, a, leq);
      WithoutFirst(a);
      WithoutFirst(b);
      AscendingUnique(a[1..], b[1..], leq);
    }
  }

  lemma WithoutFirst<T>(s: seq<T>)
    requires s != []
    ensures s == [s[0]] + s[1..] && multiset(s[1..]) == multiset(s) - multiset{s[0]}
  {
    assert s == [s[0]] + s[1..];
  }

  lemma FirstIsLeast<T(!new)>(a: seq<T>, b: seq<T>, leq: (T, T) -> bool)
    requires TotalOrder(leq) && Ascending(a, leq) && multiset(a) == multiset(b) && a != [] && b != []
    ensures leq(a[0], b[0])
  {
    assert b[0] in multiset(b);
    var k :| 0 <= k < |a| && a[k] == b[0];
    assert leq(a[0], a[0]);
  }

  function Map<S, T>(s: seq<S>, f: S -> T): (r: seq<T>)
    ensures |r| == |s| && forall k | 0 <= k < |s| :: r[k] == f(s[k])
  {
    seq(|s|, k requires 0 <= k < |s| => f(s[k]))
  }

  lemma MapConcat<S, T>(a: seq<S>, b: seq<S>, f: S -> T)
    ensures Map(a + b, f) == Map(a, f) + Map(b, f)
  {
  }

  lemma MapOne<S, T>(a: S, f: S -> T)
    ensures Map([a], f) == [f(a)]
  {
  }

  lemma MapTwo<S, T>(a: S, b: S, f: S -> T)
    ensures Map([a, b], f) == [f(a), f(b)]
  {
  }

  lemma MapFour<S, T>(a: S, b: S, c: S, d: S, f: S -> T)
    ensures Map([a, b, c, d], f) == [f(a), f(b), f(c), f(d)]
  {
  }

  /** Sorting commutes with a map that carries one order to the other. */
  lemma {:induction false} SortedMapped<S(!new), T(!new)>(s: seq<S>, f: S -> T, leqS: (S, S) -> bool, leqT: (T, T) -> bool)
    requires forall a, b :: leqS(a, b) == leqT(f(a), f(b))
    ensures Map(Sorted(s, leqS), f) == Sorted(Map(s, f), leqT)
  {
    if s != [] {
      SortedMapped(s[1..], f, leqS, leqT);
      InsertMapped(s[0], Sorted(s[1..], leqS), f, leqS, leqT);
      assert Map(s, f)[1..] == Map(s[1..], f);
    }
  }

  lemma MapCons<S, T>(x: S, s: seq<S>, f: S -> T)
    ensures Map([x] + s, f) == [f(x)] + Map(s, f)
  {
  }

  lemma {:induction false} InsertMapped<S(!new), T(!new)>(x: S, s: seq<S>, f: S -> T, leqS: (S, S) -> bool,
                                                          leqT: (T, T) -> bool)
    requires forall a, b :: leqS(a, b) == leqT(f(a), f(b))
    ensures Map(Insert(x, s, leqS), f) == Insert(f(x), Map(s, f), leqT)
  {
    if s == [] {
    } else if leqS(x, s[0]) {
      MapCons(x, s, f);
    } else {
      InsertMapped(x, s[1..], f, leqS, leqT);
      MapCons(s[0], Insert(x, s[1..], leqS), f);
      assert Map(s, f)[1..] == Map(s[1..], f);
    }
  }

  lemma {:induction false} InsertMultiset<S, T>(x: S, s: seq<S>, f: S -> T, leq: (S, S) -> bool)
    ensures multiset(Map(Insert(x, s, leq), f)) == multiset(Map(s, f)) + multiset{f(x)}
  {
    if s == [] {
      MapOne(x, f);
    } else if leq(x, s[0]) {
      MapCons(x, s, f);
    } else {
      InsertMultiset(x, s[1..], f, leq);
      MapCons(s[0], Insert(x, s[1..], leq), f);
      assert s == [s[0]] + s[1..];
      MapCons(s[0], s[1..], f);
    }
  }

  lemma MapHead<S, T>(s: seq<S>, f: S -> T)
    requires s != []
    ensures Map(s, f) == [f(s[0])] + Map(s[1..], f)
  {
  }

  lemma {:induction false} SortedMultiset<S, T>(s: seq<S>, f: S -> T, leq: (S, S) -> bool)
    ensures multiset(Map(Sorted(s, leq), f)) == multiset(Map(s, f))
  {
    if s != [] {
      SortedMultiset(s[1..], f, leq);
      InsertMultiset(s[0], Sorted(s[1..], leq), f, leq);
      MapHead(s, f);
    }
  }

  /** An injective map forgets nothing about a multiset. */
  lemma {:induction false} MultisetOfImage<S(!new), T(!new)>(s: seq<S>, f: S -> T, x: S)
    requires forall a, b :: f(a) == f(b) ==> a == b
    ensures multiset(Map(s, f))[f(x)] == multiset(s)[x]
  {
    if s != [] {
      WithoutFirst(s);
      MultisetOfImage(s[1..], f, x);
      MapCons(s[0], s[1..], f);
    }
  }

  lemma SameMultiset<S(!new), T(!new)>(a: seq<S>, b: seq<S>, f: S -> T)
    requires forall x, y :: f(x) == f(y) ==> x == y
    requires multiset(Map(a, f)) == multiset(Map(b, f))
    ensures multiset(a) == multiset(b)
  {
    forall x ensures multiset(a)[x] == multiset(b)[x] {
      MultisetOfImage(a, f, x);
      MultisetOfImage(b, f, x);
    }
  }

  predicate Distinct<T(==)>(s: seq<T>) {
    forall i, j | 0 <= i < j < |s| :: s[i] != s[j]
  }

  lemma {:induction false} DistinctCounts<T>(s: seq<T>, x: T)
    requires Distinct(s)
    ensures multiset(s)[x] <= 1
  {
    if s != [] {
      WithoutFirst(s);
      DistinctCounts(s[1..], x);
    }
  }

  lemma RepeatedCounts<T>(s: seq<T>, i: nat, j: nat)
    requires i < j < |s| && s[i] == s[j]
    ensures multiset(s)[s[i]] >= 2
  {
    assert s == s[..j] + s[j..];
    assert s[i] in s[..j] && s[i] in s[j..];
  }

  /** Whether elements are distinct does not depend on their order. */
  lemma DistinctPermuted<T>(a: seq<T>, b: seq<T>)
    requires Distinct(a) && multiset(a) == multiset(b)
    ensures Distinct(b)
  {
    forall i, j | 0 <= i < j < |b| ensures b[i] != b[j] {
      if b[i] == b[j] {
        RepeatedCounts(b, i, j);
        DistinctCounts(a, b[i]);
      }
    }
  }
}
