/** Python's `sorted` as a specification: a stable insertion sort over a total preorder. */
module Sorting {

  ghost predicate TotalPreorder<T(!new)>(leq: (T, T) -> bool) {
    && (forall a, b :: leq(a, b) || leq(b, a))
    && (forall a, b, c :: leq(a, b) && leq(b, c) ==> leq(a, c))
  }

  ghost predicate Antisymmetric<T(!new)>(leq: (T, T) -> bool) {
    forall a, b :: leq(a, b) && leq(b, a) ==> a == b
  }

  ghost predicate SortedBy<T>(leq: (T, T) -> bool, s: seq<T>) {
    forall i, j | 0 <= i < j < |s| :: leq(s[i], s[j])
  }

  function Insert<T>(leq: (T, T) -> bool, x: T, s: seq<T>): (r: seq<T>)
    ensures multiset(r) == multiset{x} + multiset(s)
  {
    if s == [] then [x]
    else if leq(x, s[0]) then [x] + s
    else
      assert s == [s[0]] + s[1..];
      [s[0]] + Insert(leq, x, s[1..])
  }

  /** sorted(s): the same elements, with the same multiplicities. */
  function Sort<T>(leq: (T, T) -> bool, s: seq<T>): (r: seq<T>)
    ensures multiset(r) == multiset(s)
    ensures |r| == |s|
  {
    if s == [] then []
    else
      assert s == [s[0]] + s[1..];
      var r := Insert(leq, s[0], Sort(leq, s[1..]));
      assert |multiset(r)| == |multiset(s)|;
      r
  }

  lemma SameElements<T>(s: seq<T>, t: seq<T>)
    requires multiset(s) == multiset(t)
    ensures forall x :: x in s <==> x in t
    ensures |s| == |t|
  {
    forall x ensures x in s <==> x in t {
      assert x in s <==> x in multiset(s);
      assert x in t <==> x in multiset(t);
    }
    assert |s| == |multiset(s)| == |multiset(t)| == |t|;
  }

  lemma {:induction false} InsertSorted<T(!new)>(leq: (T, T) -> bool, x: T, s: seq<T>)
    requires TotalPreorder(leq) && SortedBy(leq, s)
    ensures SortedBy(leq, Insert(leq, x, s))
  {
    if s != [] && !leq(x, s[0]) {
      InsertSorted(leq, x, s[1..]);
      var r := Insert(leq, x, s[1..]);
      SameElements(r, [x] + s[1..]);
      forall y | y in r ensures leq(s[0], y) {
        assert y in [x] + s[1..];
      }
    }
  }

  lemma {:induction false} SortSorted<T(!new)>(leq: (T, T) -> bool, s: seq<T>)
    requires TotalPreorder(leq)
    ensures SortedBy(leq, Sort(leq, s))
  {
    if s != [] {
      SortSorted(leq, s[1..]);
      InsertSorted(leq, s[0], Sort(leq, s[1..]));
    }
  }

  /** A list that is in order is left as it is. */
  lemma {:induction false} SortOfSorted<T(!new)>(leq: (T, T) -> bool, s: seq<T>)
    requires SortedBy(leq, s)
    ensures Sort(leq, s) == s
  {
    if s != [] {
      SortOfSorted(leq, s[1..]);
      assert s == [s[0]] + s[1..];
    }
  }

  lemma SortedHead<T(!new)>(leq: (T, T) -> bool, s: seq<T>, t: seq<T>)
    requires TotalPreorder(leq) && SortedBy(leq, s) && multiset(s) == multiset(t) && s != []
    ensures t != [] && leq(s[0], t[0]) && t == [t[0]] + t[1..] && s == [s[0]] + s[1..]
  {
    SameElements(s, t);
    assert t[0] in s && leq(s[0], s[0]);
  }

  lemma Cancel<T>(x: T, s': seq<T>, u: seq<T>, s: seq<T>)
    requires s == [x] + s' && multiset(s) == multiset{x} + multiset(u)
    ensures multiset(s') == multiset(u)
  {
    assert multiset(s') == multiset(s) - multiset{x};
  }

  /** Under an antisymmetric order only one arrangement of given elements is sorted. */
  lemma {:induction false} SortedUnique<T(!new)>(leq: (T, T) -> bool, s: seq<T>, t: seq<T>)
    requires Antisymmetric(leq) && TotalPreorder(leq)
    requires SortedBy(leq, s) && SortedBy(leq, t) && multiset(s) == multiset(t)
    ensures s == t
  {
    if s == [] {
      SameElements(s, t);
    } else {
      SortedHead(leq, s, t);
      SortedHead(leq, t, s);
      Cancel(s[0], s[1..], t[1..], s);
      SortedUnique(leq, s[1..], t[1..]);
    }
  }

  /** sorted() forgets the input order whenever ties are equal elements. */
  lemma SortForgetsOrder<T(!new)>(leq: (T, T) -> bool, s: seq<T>, t: seq<T>)
    requires Antisymmetric(leq) && TotalPreorder(leq) && multiset(s) == multiset(t)
    ensures Sort(leq, s) == Sort(leq, t)
  {
    SortSorted(leq, s);
    SortSorted(leq, t);
    SortedUnique(leq, Sort(leq, s), Sort(leq, t));
  }

  function Map<A, B>(f: A -> B, s: seq<A>): (r: seq<B>)
    ensures |r| == |s|
    ensures forall i | 0 <= i < |s| :: r[i] == f(s[i])
  {
    if s == [] then [] else [f(s[0])] + Map(f, s[1..])
  }

  lemma {:induction false} InsertMap<A(!new), B>(f: A -> B, leqA: (A, A) -> bool, leqB: (B, B) -> bool, x: A, s: seq<A>)
    requires forall a, b :: leqA(a, b) == leqB(f(a), f(b))
    ensures Insert(leqB, f(x), Map(f, s)) == Map(f, Insert(leqA, x, s))
  {
    if s != [] && !leqA(x, s[0]) {
      InsertMap(f, leqA, leqB, x, s[1..]);
    }
  }

  /** Sorting the images by their keys is the image of sorting the originals. */
  lemma {:induction false} SortMap<A(!new), B>(f: A -> B, leqA: (A, A) -> bool, leqB: (B, B) -> bool, s: seq<A>)
    requires forall a, b :: leqA(a, b) == leqB(f(a), f(b))
    ensures Sort(leqB, Map(f, s)) == Map(f, Sort(leqA, s))
  {
    if s != [] {
      SortMap(f, leqA, leqB, s[1..]);
      InsertMap(f, leqA, leqB, s[0], Sort(leqA, s[1..]));
    }
  }

  lemma MapConcat<A, B>(f: A -> B, s: seq<A>, t: seq<A>)
    ensures Map(f, s + t) == Map(f, s) + Map(f, t)
  {
  }

  /** Images of rearranged lists are rearranged images. */
  lemma {:induction false} MapMultiset<A, B>(f: A -> B, s: seq<A>, t: seq<A>)
    requires multiset(s) == multiset(t)
    ensures multiset(Map(f, s)) == multiset(Map(f, t))
  {
    if s == [] {
      SameElements(s, t);
    } else {
      var a, b := Around(s, t);
      MapMultiset(f, s[1..], a + b);
      MapConcat(f, a, b);
      MapConcat(f, a, [s[0]] + b);
      assert Map(f, s) == [f(s[0])] + Map(f, s[1..]);
      assert Map(f, [s[0]] + b) == [f(s[0])] + Map(f, b);
      MultisetSplit(Map(f, a), f(s[0]), Map(f, b));
    }
  }

  lemma MultisetSplit<A>(a: seq<A>, x: A, b: seq<A>)
    ensures multiset(a + ([x] + b)) == multiset{x} + multiset(a + b)
  {
  }

  /** Where the first element of s stands in a rearrangement t of s. */
  lemma Around<A>(s: seq<A>, t: seq<A>) returns (a: seq<A>, b: seq<A>)
    requires multiset(s) == multiset(t) && s != []
    ensures t == a + ([s[0]] + b)
    ensures multiset(s[1..]) == multiset(a + b)
  {
    SameElements(s, t);
    assert s[0] in t;
    var i :| 0 <= i < |t| && t[i] == s[0];
    a, b := t[..i], t[i + 1..];
    assert t == a + ([s[0]] + b);
    MultisetSplit(a, s[0], b);
    Cancel(s[0], s[1..], a + b, s);
  }
}
