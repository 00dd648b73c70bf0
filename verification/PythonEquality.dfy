/** Python's == on the values a bundle can hold: it is equality of the encodings, but for True and 1
    (ctp/sandwich.py, ctp/cbor.py). */
module PythonEquality {
  import opened Wrappers
  import opened Bytes
  import opened Sorting
  import opened Cbor
  import opened CborProofs
  import CborWire
  import opened Sandwich
  import opened SandwichCounts

  /** Neither True nor False occurs, as key or as value. */
  ghost predicate NoBools(v: Value) {
    match v
    case Leaf(a) => !a.Bool?
    case List(items) => forall i | 0 <= i < |items| :: NoBools(items[i])
    case Dict(es) => forall i | 0 <= i < |es| :: !es[i].key.Bool? && NoBools(es[i].value)
  }

  // ---- sorting where only the members are told apart ----

  ghost predicate Apart<T(!new)>(leq: (T, T) -> bool, s: seq<T>) {
    forall a, b | a in s && b in s && leq(a, b) && leq(b, a) :: a == b
  }

  lemma {:induction false} SortedUniqueOn<T(!new)>(leq: (T, T) -> bool, s: seq<T>, t: seq<T>)
    requires TotalPreorder(leq) && Apart(leq, s)
    requires SortedBy(leq, s) && SortedBy(leq, t) && multiset(s) == multiset(t)
    ensures s == t
    decreases s
  {
    SameElements(s, t);
    if s != [] {
      SortedHead(leq, s, t);
      SortedHead(leq, t, s);
      assert t[0] in s && s[0] in s;
      Cancel(s[0], s[1..], t[1..], s);
      assert forall a | a in s[1..] :: a in s;
      SortedUniqueOn(leq, s[1..], t[1..]);
    }
  }

  lemma SortForgets<T(!new)>(leq: (T, T) -> bool, s: seq<T>, t: seq<T>)
    requires TotalPreorder(leq) && Apart(leq, s) && multiset(s) == multiset(t)
    ensures Sort(leq, s) == Sort(leq, t)
  {
    SortSorted(leq, s);
    SortSorted(leq, t);
    SameElements(s, Sort(leq, s));
    SortedUniqueOn(leq, Sort(leq, s), Sort(leq, t));
  }

  /** Without repetition a list is its members, each once. */
  lemma {:induction false} OnceEach<T>(s: seq<T>, x: T)
    requires NoRepeats(s)
    ensures multiset(s)[x] == if x in s then 1 else 0
  {
    if s != [] {
      var n := |s| - 1;
      assert s == s[..n] + [s[n]];
      OnceEach(s[..n], x);
    }
  }

  lemma SameBag<T>(s: seq<T>, t: seq<T>)
    requires NoRepeats(s) && NoRepeats(t) && Members(s) == Members(t)
    ensures multiset(s) == multiset(t)
  {
    forall x ensures multiset(s)[x] == multiset(t)[x] {
      OnceEach(s, x);
      OnceEach(t, x);
      assert x in s <==> x in Members(s);
      assert x in t <==> x in Members(t);
    }
  }

  // ---- dicts ----

  /** Keys that are told apart by their encodings. */
  ghost predicate PlainKeys(es: seq<Entry>) {
    && DistinctKeys(es)
    && forall i | 0 <= i < |es| :: !es[i].key.Bool? && DumpsAtom(es[i].key).Ok?
  }

  ghost predicate Agree(v: Value, w: Value) {
    SameValue(v, w) <==> Canon(v) == Canon(w)
  }

  lemma CanonOnce(es: seq<Entry>)
    requires PlainKeys(es)
    ensures NoRepeats(Map(CanonEntry, es)) && Apart(EntryLeq, Map(CanonEntry, es))
  {
    hide Canon, DumpsAtom, KeyLeq, SameKey;
    var cs := Map(CanonEntry, es);
    forall i, j | 0 <= i < j < |cs| ensures cs[i].key != cs[j].key { KeysApart(es, i, j); }
    forall a, b | a in cs && b in cs && EntryLeq(a, b) && EntryLeq(b, a) ensures a == b {
      var i :| 0 <= i < |cs| && cs[i] == a;
      var j :| 0 <= j < |cs| && cs[j] == b;
      EqualKeys(a.key, b.key);
    }
  }

  lemma KeysApart(es: seq<Entry>, i: nat, j: nat)
    requires PlainKeys(es) && i < j < |es|
    ensures es[i].key != es[j].key
  {
    assert !SameKey(es[i].key, es[j].key);
  }

  lemma EqualKeys(a: Atom, b: Atom)
    requires DumpsAtom(a).Ok? && DumpsAtom(b).Ok?
    requires KeyLeq(KeyBytes(a), KeyBytes(b)) && KeyLeq(KeyBytes(b), KeyBytes(a))
    ensures a == b
  {
    hide DumpsAtom, KeyBytes;
    KeyLeqOrder();
    CborWire.KeyBytesBind(a, b);
  }

  lemma HasEqualIff(e: Entry, es: seq<Entry>)
    requires !e.key.Bool? && forall i | 0 <= i < |es| :: !es[i].key.Bool? && Agree(e.value, es[i].value)
    ensures HasEqual(e, es) <==> CanonEntry(e) in Map(CanonEntry, es)
  {
    hide Canon, SameValue;
    var cs := Map(CanonEntry, es);
    forall i | 0 <= i < |es|
      ensures SameKey(e.key, es[i].key) && SameValue(e.value, es[i].value) <==> cs[i] == CanonEntry(e)
    {
      assert Agree(e.value, es[i].value);
    }
  }

  lemma EqualDicts(x: seq<Entry>, y: seq<Entry>)
    requires PlainKeys(x) && PlainKeys(y)
    requires forall i, j | 0 <= i < |x| && 0 <= j < |y| :: Agree(x[i].value, y[j].value)
    ensures Agree(Dict(x), Dict(y))
  {
    hide HasEqual, CanonEntry, EntryLeq, NoRepeats, SameKey;
    var cx, cy := Map(CanonEntry, x), Map(CanonEntry, y);
    CanonOnce(x);
    CanonOnce(y);
    forall i | 0 <= i < |x| ensures HasEqual(x[i], y) <==> cx[i] in cy {
      assert forall j | 0 <= j < |y| :: Agree(x[i].value, y[j].value);
      HasEqualIff(x[i], y);
    }
    CanonSorted(x);
    CanonSorted(y);
    OrderOfKeys();
    if SameValue(Dict(x), Dict(y)) {
      assert Members(cx) <= Members(cy);
      Pigeonhole(cx, cy);
      SameBag(cx, cy);
      SortForgets(EntryLeq, cx, cy);
    }
    if Sort(EntryLeq, cx) == Sort(EntryLeq, cy) {
      SameElements(cx, cy);
      forall i | 0 <= i < |x| ensures HasEqual(x[i], y) { assert cx[i] in cx; }
    }
  }

  lemma CanonSorted(es: seq<Entry>)
    ensures Canon(Dict(es)) == Dict(Sort(EntryLeq, Map(CanonEntry, es)))
  {
    hide Sort, CanonEntry, EntryLeq, Map;
    EntriesCanon(es);
  }

  lemma OrderOfKeys()
    ensures TotalPreorder(EntryLeq)
  {
    hide KeyLeq, KeyBytes;
    KeyLeqOrder();
  }

  // ---- all values ----

  lemma {:induction false} CanonDecides(v: Value, w: Value)
    requires Valid(v) && Valid(w) && NoBools(v) && NoBools(w) && Dumps(v).Ok? && Dumps(w).Ok?
    ensures Agree(v, w)
    decreases v
  {
    hide Dumps, Agree, DumpsAtom;
    match (v, w)
    case (Leaf(a), Leaf(b)) => AtomsAgree(a, b);
    case (List(x), List(y)) =>
      CborWire.ListInside(x);
      CborWire.ListInside(y);
      forall i | 0 <= i < |x| && i < |y| ensures Agree(x[i], y[i]) { CanonDecides(x[i], y[i]); }
      ListsAgree(x, y);
    case (Dict(x), Dict(y)) =>
      CborWire.EncodableInside(x);
      CborWire.EncodableInside(y);
      forall i, j | 0 <= i < |x| && 0 <= j < |y| ensures Agree(x[i].value, y[j].value) {
        CanonDecides(x[i].value, y[j].value);
      }
      EqualDicts(x, y);
    case _ => KindsDiffer(v, w);
  }

  lemma AtomsAgree(a: Atom, b: Atom)
    requires !a.Bool? && !b.Bool?
    ensures Agree(Leaf(a), Leaf(b))
  {
  }

  lemma KindsDiffer(v: Value, w: Value)
    requires v.Leaf? != w.Leaf? || v.List? != w.List?
    ensures Agree(v, w)
  {
  }

  lemma ListsAgree(x: seq<Value>, y: seq<Value>)
    requires forall i | 0 <= i < |x| && i < |y| :: Agree(x[i], y[i])
    ensures Agree(List(x), List(y))
  {
    CborWire.CanonAllAt(x);
    CborWire.CanonAllAt(y);
    hide Canon;
    CanonOfList(x);
    CanonOfList(y);
    if |x| == |y| {
      forall i | 0 <= i < |x| ensures SameValue(x[i], y[i]) <==> CanonAll(x)[i] == CanonAll(y)[i] {
        assert Agree(x[i], y[i]);
      }
    }
  }

  lemma CanonOfList(x: seq<Value>)
    ensures Canon(List(x)) == List(CanonAll(x))
  {
  }

  /** Values that can be encoded and hold no truth values are equal in Python exactly when their encodings are. */
  lemma EqualIffSameBytes(v: Value, w: Value)
    requires Valid(v) && Valid(w) && NoBools(v) && NoBools(w) && Dumps(v).Ok? && Dumps(w).Ok?
    ensures SameValue(v, w) <==> Dumps(v) == Dumps(w)
  {
    hide Dumps, Valid, NoBools, Canon, SameValue;
    CanonDecides(v, w);
    SameEncodingIffSameValue(v, w);
  }
}
