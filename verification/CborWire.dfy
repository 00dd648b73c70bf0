/** The order of keys on the wire, in lengths and bytes (ctp/cbor.py; RFC 8949 section 4.2.3). */
module CborWire {
  import opened Wrappers
  import opened Bytes
  import opened Sorting
  import opened Cbor
  import opened CborProofs

  /** Shorter, or of one length and smaller at the first byte that differs. */
  ghost predicate Before(a: bytes, b: bytes) {
    |a| < |b| || (|a| == |b| && exists k: nat :: SmallerAt(a, b, k))
  }

  /** Every key's encoding comes before those of the keys behind it. */
  ghost predicate Ascending(es: seq<Entry>) {
    forall i, j | 0 <= i < j < |es| :: Before(KeyBytes(es[i].key), KeyBytes(es[j].key))
  }

  /** In every dict of the value, however deep, the keys ascend. */
  ghost predicate Ordered(v: Value) {
    match v
    case Leaf(_) => true
    case List(items) => forall i | 0 <= i < |items| :: Ordered(items[i])
    case Dict(es) => Ascending(es) && forall i | 0 <= i < |es| :: Ordered(es[i].value)
  }

  lemma BeforeIff(a: bytes, b: bytes)
    ensures Before(a, b) <==> KeyLeq(a, b) && a != b
  {
    LexLeqIff(a, b);
  }

  lemma KeyBytesBind(a: Atom, b: Atom)
    requires DumpsAtom(a).Ok? && DumpsAtom(b).Ok? && KeyBytes(a) == KeyBytes(b)
    ensures a == b
  {
    hide DumpsAtom, Loads;
    LoadsDumps(Leaf(a));
    LoadsDumps(Leaf(b));
  }

  lemma AscendingIff(es: seq<Entry>)
    requires DistinctKeys(es) && forall i | 0 <= i < |es| :: DumpsAtom(es[i].key).Ok?
    ensures Ascending(es) <==> SortedBy(EntryLeq, es)
  {
    hide Before, KeyLeq, KeyBytes, DumpsAtom;
    forall i, j | 0 <= i < j < |es|
      ensures Before(KeyBytes(es[i].key), KeyBytes(es[j].key)) <==> EntryLeq(es[i], es[j])
    {
      BeforeIff(KeyBytes(es[i].key), KeyBytes(es[j].key));
      assert !SameKey(es[i].key, es[j].key);
      if KeyBytes(es[i].key) == KeyBytes(es[j].key) { KeyBytesBind(es[i].key, es[j].key); }
    }
  }

  lemma EncodableInside(es: seq<Entry>)
    requires Dumps(Dict(es)).Ok?
    ensures forall i | 0 <= i < |es| :: DumpsAtom(es[i].key).Ok? && Dumps(es[i].value).Ok?
  {
    hide Dumps, DumpsAtom;
    EntriesOf(es);
    EntriesEncoded(es);
    forall i | 0 <= i < |es| ensures DumpsAtom(es[i].key).Ok? && Dumps(es[i].value).Ok? {
      assert Encodable(es[i]);
    }
  }

  lemma EntriesOf(es: seq<Entry>)
    ensures Dumps(Dict(es)).Ok? ==> DumpsEntries(es).Ok?
  {
  }

  lemma {:induction false} ItemsInside(items: seq<Value>)
    requires DumpsAll(items).Ok?
    ensures forall i | 0 <= i < |items| :: Dumps(items[i]).Ok?
    decreases |items|
  {
    hide Dumps;
    if items != [] {
      ItemsInside(items[1..]);
      assert forall i | 0 < i < |items| :: items[i] == items[1..][i - 1];
    }
  }

  lemma {:induction false} CanonAllAt(items: seq<Value>)
    ensures forall i | 0 <= i < |items| :: CanonAll(items)[i] == Canon(items[i])
    decreases |items|
  {
    hide Canon;
    if items != [] {
      CanonAllAt(items[1..]);
      assert forall i | 0 < i < |items| :: items[i] == items[1..][i - 1];
    }
  }

  lemma ListInside(items: seq<Value>)
    requires Dumps(List(items)).Ok?
    ensures forall i | 0 <= i < |items| :: Dumps(items[i]).Ok?
    ensures Canon(List(items)) == List(items) <==> forall i | 0 <= i < |items| :: Canon(items[i]) == items[i]
  {
    hide Dumps;
    ItemsOf(items);
    ItemsInside(items);
    CanonAllAt(items);
    assert Canon(List(items)) == List(CanonAll(items));
    if forall i | 0 <= i < |items| :: Canon(items[i]) == items[i] { assert CanonAll(items) == items; }
  }

  lemma ItemsOf(items: seq<Value>)
    ensures Dumps(List(items)).Ok? ==> DumpsAll(items).Ok?
  {
  }

  lemma DictInside(es: seq<Entry>)
    requires Valid(Dict(es)) && Dumps(Dict(es)).Ok?
    ensures Canon(Dict(es)) == Dict(es)
       <==> Ascending(es) && forall i | 0 <= i < |es| :: Canon(es[i].value) == es[i].value
  {
    hide Dumps, Canon, KeyLeq, KeyBytes, Sort, Ascending;
    EncodableInside(es);
    DictCanon(es);
    AscendingIff(es);
    KeyLeqOrder();
    var sorted := Sort(EntryLeq, es);
    SortSorted(EntryLeq, es);
    if Canon(Dict(es)) == Dict(es) {
      assert Map(CanonEntry, sorted) == es;
      forall i, j | 0 <= i < j < |es| ensures EntryLeq(es[i], es[j]) {
        assert es[i].key == sorted[i].key && es[j].key == sorted[j].key && EntryLeq(sorted[i], sorted[j]);
      }
      SortOfSorted(EntryLeq, es);
    }
    if Ascending(es) && forall i | 0 <= i < |es| :: Canon(es[i].value) == es[i].value {
      SortOfSorted(EntryLeq, es);
      assert Map(CanonEntry, es) == es;
    }
  }

  lemma {:induction false} CanonIffOrdered(v: Value)
    requires Valid(v) && Dumps(v).Ok?
    ensures Canon(v) == v <==> Ordered(v)
    decreases v
  {
    hide Dumps, Canon, Ascending;
    match v
    case Leaf(_) => LeafCanon(v);
    case List(items) =>
      ListInside(items);
      forall i | 0 <= i < |items| ensures Canon(items[i]) == items[i] <==> Ordered(items[i]) {
        CanonIffOrdered(items[i]);
      }
    case Dict(es) =>
      DictInside(es);
      EncodableInside(es);
      forall i | 0 <= i < |es| ensures Canon(es[i].value) == es[i].value <==> Ordered(es[i].value) {
        CanonIffOrdered(es[i].value);
      }
  }

  lemma LeafCanon(v: Value)
    requires v.Leaf?
    ensures Canon(v) == v
  {
  }

  /** The decoder returns v exactly for the encoding of v, where v is a proper value whose dicts all have
      their keys in ascending order: shorter encodings first, then the smaller first differing byte. */
  lemma LoadsIffOrdered(data: bytes, v: Value)
    ensures Loads(data) == Ok(v) <==> Valid(v) && Dumps(v) == Ok(data) && Ordered(v)
  {
    hide Dumps, Loads, Canon, Valid, Ordered;
    LoadsIffEncoding(data, v);
    if Valid(v) && Dumps(v) == Ok(data) { CanonIffOrdered(v); }
  }

  /** A dict that is read has no two keys that Python holds equal, and the encodings of its keys ascend. */
  lemma ReadKeys(data: bytes, es: seq<Entry>, i: nat, j: nat)
    requires Loads(data) == Ok(Dict(es)) && i < j < |es|
    ensures es[i].key != es[j].key
    ensures es[i].key.Bool? && es[j].key.Int? ==> es[j].key.n != if es[i].key.b then 1 else 0
    ensures es[i].key.Int? && es[j].key.Bool? ==> es[i].key.n != if es[j].key.b then 1 else 0
    ensures Dumps(Leaf(es[i].key)).Ok? && Dumps(Leaf(es[j].key)).Ok?
    ensures
      var a, b := Dumps(Leaf(es[i].key)).value, Dumps(Leaf(es[j].key)).value;
      |a| < |b| || (|a| == |b| && exists k: nat | k < |a| :: a[..k] == b[..k] && a[k] < b[k])
  {
    hide Loads, DumpsAtom;
    LoadsIffOrdered(data, Dict(es));
    EncodableInside(es);
    assert Before(KeyBytes(es[i].key), KeyBytes(es[j].key));
    assert !SameKey(es[i].key, es[j].key);
  }

  /** The encoder writes a dict's entries so that the encodings of the keys ascend, whatever the order of
      insertion. */
  lemma WrittenKeys(es: seq<Entry>, b: bytes) returns (fs: seq<Entry>)
    requires Valid(Dict(es)) && Dumps(Dict(es)) == Ok(b)
    ensures multiset(fs) == multiset(es) && Ascending(fs)
    ensures Head(5, |es|).Ok? && b == Head(5, |es|).value + Join(Map(EntryBytes, fs))
  {
    hide Dumps, Head, Join, Sort, KeyLeq, KeyBytes, DumpsAtom, DistinctKeys, Ascending, EntryBytes;
    EncodableInside(es);
    EncodableEntries(es);
    DictEncoding(es);
    KeyLeqOrder();
    fs := Sort(EntryLeq, es);
    SortSorted(EntryLeq, es);
    SortKeepsDistinct(es);
    SameElements(fs, es);
    forall i | 0 <= i < |fs| ensures DumpsAtom(fs[i].key).Ok? { assert fs[i] in es; }
    AscendingIff(fs);
  }
}
