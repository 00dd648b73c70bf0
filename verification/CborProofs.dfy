/** The codec's two inverse directions. */
module CborProofs {
  import opened Wrappers
  import opened Bytes
  import opened Sorting
  import opened Cbor

  // ---- orders ----

  lemma KeyLeqOrder()
    ensures TotalPreorder(KeyLeq) && Antisymmetric(KeyLeq)
    ensures TotalPreorder(PairLeq)
    ensures TotalPreorder(EntryLeq)
  {
    forall a, b ensures KeyLeq(a, b) || KeyLeq(b, a) { LexTotal(a, b); }
    forall a, b, c | KeyLeq(a, b) && KeyLeq(b, c) ensures KeyLeq(a, c) {
      if |a| == |b| == |c| { LexTransitive(a, b, c); }
    }
    forall a, b | KeyLeq(a, b) && KeyLeq(b, a) ensures a == b { LexAntisymmetric(a, b); }
  }

  /** No entry of es repeats the key k. */
  ghost predicate Apart(k: Atom, es: seq<Entry>) {
    forall e | e in es :: !SameKey(k, e.key)
  }

  lemma DistinctCons(e: Entry, es: seq<Entry>)
    ensures DistinctKeys([e] + es) <==> Apart(e.key, es) && DistinctKeys(es)
  {
    hide SameKey;
    var all := [e] + es;
    if DistinctKeys(all) {
      forall i, j | 0 <= i < j < |es| ensures !SameKey(es[i].key, es[j].key) {
        assert !SameKey(all[i + 1].key, all[j + 1].key);
      }
      forall x | x in es ensures !SameKey(e.key, x.key) {
        var j :| 0 <= j < |es| && es[j] == x;
        assert !SameKey(all[0].key, all[j + 1].key);
      }
    }
  }

  lemma ApartInsert(k: Atom, x: Entry, es: seq<Entry>)
    requires Apart(k, es) && !SameKey(k, x.key)
    ensures Apart(k, Insert(EntryLeq, x, es))
  {
    hide SameKey, EntryLeq;
    SameElements(Insert(EntryLeq, x, es), [x] + es);
    assert forall e | e in Insert(EntryLeq, x, es) :: e in [x] + es;
  }

  lemma {:induction false} InsertKeepsDistinct(x: Entry, es: seq<Entry>)
    requires Apart(x.key, es) && DistinctKeys(es)
    ensures DistinctKeys(Insert(EntryLeq, x, es))
  {
    hide DistinctKeys, EntryLeq;
    DistinctCons(x, es);
    if es != [] && !EntryLeq(x, es[0]) {
      assert es == [es[0]] + es[1..];
      DistinctCons(es[0], es[1..]);
      InsertKeepsDistinct(x, es[1..]);
      ApartInsert(es[0].key, x, es[1..]);
      DistinctCons(es[0], Insert(EntryLeq, x, es[1..]));
    } else if es == [] {
      assert [x] + es == [x];
    }
  }

  lemma {:induction false} SortKeepsDistinct(es: seq<Entry>)
    requires DistinctKeys(es)
    ensures DistinctKeys(Sort(EntryLeq, es))
  {
    if es != [] {
      assert es == [es[0]] + es[1..];
      DistinctCons(es[0], es[1..]);
      SortKeepsDistinct(es[1..]);
      SameElements(Sort(EntryLeq, es[1..]), es[1..]);
      InsertKeepsDistinct(es[0], Sort(EntryLeq, es[1..]));
    }
  }

  // ---- heads ----

  lemma HeadRead(data: bytes, pos: nat, major: nat, n: int)
    requires major < 8 && Head(major, n).Ok? && At(data, pos, Head(major, n).value)
    ensures pos < |data| && data[pos] / 32 == major
    ensures ReadUint(data, pos + 1, data[pos] % 32) == Ok((n, pos + |Head(major, n).value|))
  {
    hide BE, FromBE, Pow256;
    var h := Head(major, n).value;
    Pow256Values();
    assert data[pos] == data[pos..pos + |h|][0] == h[0];
    assert data[pos + 1..pos + |h|] == data[pos..pos + |h|][1..] == h[1..];
    if n >= 0x100 {
      BERoundTrip(n, |h| - 1);
    } else if n >= 24 {
      OneByte([n]);
    }
  }

  lemma OneByte(b: bytes)
    requires |b| == 1
    ensures FromBE(b) == b[0] && BE(b[0], 1) == b
  {
    assert FromBE(b[..0]) == 0;
  }

  lemma ReadHead(data: bytes, pos: nat)
    requires pos < |data| && ReadUint(data, pos + 1, data[pos] % 32).Ok?
    ensures var (n, p) := ReadUint(data, pos + 1, data[pos] % 32).value;
      pos < p <= |data| && Head(data[pos] / 32, n) == Ok(data[pos..p])
  {
    hide BE, FromBE, Pow256;
    var ai := data[pos] % 32;
    var (n, p) := ReadUint(data, pos + 1, ai).value;
    Pow256Values();
    var b := data[pos + 1..p];
    assert data[pos] == 32 * (data[pos] / 32) + ai;
    assert data[pos..p] == [data[pos]] + b;
    if ai >= 24 {
      FromBEBound(b);
      FromBERoundTrip(b);
      assert n == FromBE(b);
      if ai == 24 {
        OneByte(b);
        assert data[pos..p] == [data[pos], b[0]];
      } else if ai == 25 {
        assert 0xff < n <= 0xffff && BE(n, 2) == b;
      } else if ai == 26 {
        assert 0xffff < n <= 0xffff_ffff && BE(n, 4) == b;
      } else {
        assert 0xffff_ffff < n <= 0xffff_ffff_ffff_ffff && BE(n, 8) == b;
      }
    } else {
      assert data[pos..p] == [data[pos]];
    }
  }

  // ---- decoding what was encoded ----

  /** How deeply lists and dicts are nested: the measure of the induction over values. */
  ghost function Depth(v: Value): nat
    decreases v, 0
  {
    match v
    case Leaf(_) => 0
    case List(items) => 1 + DepthAll(items)
    case Dict(es) => 1 + DepthEntries(es)
  }

  ghost function DepthAll(items: seq<Value>): (d: nat)
    ensures forall i | 0 <= i < |items| :: Depth(items[i]) <= d
    decreases items, 1
  {
    if items == [] then 0 else
    var a, b := Depth(items[0]), DepthAll(items[1..]);
    if a <= b then b else a
  }

  ghost function DepthEntries(es: seq<Entry>): (d: nat)
    ensures forall i | 0 <= i < |es| :: DepthEntry(es[i]) <= d
    decreases es, 1
  {
    if es == [] then 0 else
    var a, b := DepthEntry(es[0]), DepthEntries(es[1..]);
    if a <= b then b else a
  }

  ghost function DepthEntry(e: Entry): nat
    decreases e, 0
  {
    Depth(e.value)
  }

  lemma AtomRead(data: bytes, pos: nat, a: Atom)
    requires DumpsAtom(a).Ok? && At(data, pos, DumpsAtom(a).value)
    ensures LoadsOne(data, pos) == Ok((Leaf(a), pos + |DumpsAtom(a).value|))
  {
    hide Utf8Length, IsUtf8, LoadsItems, LoadsEntries, Head, ReadUint, BE;
    match a
    case Null => assert data[pos] == data[pos..pos + 1][0] == 0xf6;
    case Bool(b) => assert data[pos] == data[pos..pos + 1][0] == if b then 0xf5 else 0xf4;
    case Int(n) => HeadRead(data, pos, if n >= 0 then 0 else 1, if n >= 0 then n else -1 - n);
    case Raw(b) =>
      AtConcat(data, pos, Head(2, |b|).value, b);
      HeadRead(data, pos, 2, |b|);
    case Text(b) =>
      AtConcat(data, pos, Head(3, |b|).value, b);
      HeadRead(data, pos, 3, |b|);
  }

  ghost predicate Encodable(e: Entry) {
    DumpsEntry(e).Ok?
  }

  function EntryKeyBytes(e: Entry): bytes {
    KeyBytes(e.key)
  }

  lemma {:induction false} EntriesEncoded(es: seq<Entry>)
    ensures DumpsEntries(es).Ok? <==> forall i | 0 <= i < |es| :: Encodable(es[i])
    ensures DumpsEntries(es).Ok? ==> DumpsEntries(es).value == Map(EntryBytes, es)
    decreases |es|
  {
    if es != [] {
      EntriesEncoded(es[1..]);
      assert es[1..] == es[1..|es|];
      assert forall i | 1 <= i < |es| :: es[i] == es[1..][i - 1];
    }
  }

  lemma {:induction false} EntriesCanon(es: seq<Entry>)
    ensures CanonEntries(es) == Map(CanonEntry, es)
    decreases |es|
  {
    if es != [] { EntriesCanon(es[1..]); }
  }

  lemma SortedEncoding(es: seq<Entry>)
    ensures Sort(PairLeq, Map(EntryBytes, es)) == Map(EntryBytes, Sort(EntryLeq, es))
    ensures Sort(EntryLeq, Map(CanonEntry, es)) == Map(CanonEntry, Sort(EntryLeq, es))
  {
    hide KeyLeq, KeyBytes, ValueBytes, Canon;
    SortMap(EntryBytes, EntryLeq, PairLeq, es);
    SortMap(CanonEntry, EntryLeq, EntryLeq, es);
  }

  lemma HeadFits(major: nat, n: nat)
    requires major < 8 && n <= 0xffff_ffff_ffff_ffff
    ensures Head(major, n).Ok?
  {
  }

  /** A dict is written as the concatenation of its entries in canonical order. */
  lemma DictEncoding(es: seq<Entry>)
    requires |es| <= 0xffff_ffff_ffff_ffff && forall i | 0 <= i < |es| :: Encodable(es[i])
    ensures Dumps(Dict(es)) == Ok(Head(5, |es|).value + Join(Map(EntryBytes, Sort(EntryLeq, es))))
  {
    hide Sort, Map, Join, EntryLeq, PairLeq, EntryBytes, Encodable, Head, DumpsEntries;
    EntriesEncoded(es);
    HeadFits(5, |es|);
    SortedEncoding(es);
  }

  lemma DictCanon(es: seq<Entry>)
    ensures Canon(Dict(es)) == Dict(Map(CanonEntry, Sort(EntryLeq, es)))
  {
    EntriesCanon(es);
    SortedEncoding(es);
    hide Sort, Map, EntryLeq, CanonEntry;
  }

  /** Wherever the encoding of a value stands, the decoder reads that value, its dicts in
      canonical order, and stops right after it. */
  lemma {:induction false} EncodedReadsBack(data: bytes, pos: nat, v: Value)
    requires Valid(v) && Dumps(v).Ok? && At(data, pos, Dumps(v).value)
    ensures LoadsOne(data, pos) == Ok((Canon(v), pos + |Dumps(v).value|))
    decreases Depth(v), 2, 0
  {
    hide LoadsOne, LoadsItems, ReadUint, Head, At, DumpsAtom, DumpsAll, DumpsEntries, Valid;
    ValidInside(v);
    match v
    case Leaf(a) => AtomRead(data, pos, a);
    case List(items) =>
      var h, body := Head(4, |items|).value, DumpsAll(items).value;
      AtConcat(data, pos, h, body);
      HeadRead(data, pos, 4, |items|);
      ItemsRead(data, pos + |h|, items, Depth(v));
      ListStep(data, pos, |items|, pos + |h|, CanonAll(items), pos + |h| + |body|);
    case Dict(es) => DictRead(data, pos, es);
  }

  lemma ValidInside(v: Value)
    requires Valid(v)
    ensures v.List? ==> forall i | 0 <= i < |v.items| :: Valid(v.items[i])
  {
  }

  lemma ListStep(data: bytes, pos: nat, n: nat, p: nat, items: seq<Value>, end: nat)
    requires pos < |data| && data[pos] / 32 == 4 && ReadUint(data, pos + 1, data[pos] % 32) == Ok((n, p))
    requires LoadsItems(data, p, n) == Ok((items, end))
    ensures LoadsOne(data, pos) == Ok((List(items), end))
  {
    hide ReadUint, LoadsItems;
  }

  lemma DictStep(data: bytes, pos: nat, n: nat, p: nat, es: seq<Entry>, ks: seq<bytes>, end: nat)
    requires pos < |data| && data[pos] / 32 == 5 && ReadUint(data, pos + 1, data[pos] % 32) == Ok((n, p))
    requires LoadsEntries(data, p, n) == Ok((es, ks, end))
    requires DistinctKeys(es) && ks == Sort(KeyLeq, ks)
    ensures LoadsOne(data, pos) == Ok((Dict(es), end))
  {
    hide ReadUint, LoadsEntries, Sort, DistinctKeys;
  }

  lemma NothingRead(data: bytes, pos: nat)
    ensures LoadsItems(data, pos, 0) == Ok(([], pos)) && LoadsEntries(data, pos, 0) == Ok(([], [], pos))
    ensures Join([]) == []
  {
  }

  lemma ItemsStep(data: bytes, pos: nat, v: Value, p: nat, vs: seq<Value>, end: nat)
    requires LoadsOne(data, pos) == Ok((v, p)) && LoadsItems(data, p, |vs|) == Ok((vs, end))
    ensures LoadsItems(data, pos, |vs| + 1) == Ok(([v] + vs, end))
  {
    hide LoadsOne;
  }

  lemma EntriesStep(data: bytes, pos: nat, e: Entry, kb: bytes, p: nat, es: seq<Entry>, ks: seq<bytes>, end: nat)
    requires At(data, pos, kb) && LoadsOne(data, pos) == Ok((Leaf(e.key), pos + |kb|))
    requires LoadsOne(data, pos + |kb|) == Ok((e.value, p))
    requires LoadsEntries(data, p, |es|) == Ok((es, ks, end))
    ensures LoadsEntries(data, pos, |es| + 1) == Ok(([e] + es, [kb] + ks, end))
  {
    hide LoadsOne;
  }

  lemma {:induction false} ItemsRead(data: bytes, pos: nat, items: seq<Value>, d: nat)
    requires forall i | 0 <= i < |items| :: Valid(items[i]) && Depth(items[i]) < d
    requires DumpsAll(items).Ok? && At(data, pos, DumpsAll(items).value)
    ensures LoadsItems(data, pos, |items|) == Ok((CanonAll(items), pos + |DumpsAll(items).value|))
    decreases d, 0, |items|
  {
    hide LoadsOne, LoadsItems, Dumps, At, Valid, Depth, Canon;
    NothingRead(data, pos);
    if items != [] {
      var b := Dumps(items[0]).value;
      var rest := DumpsAll(items[1..]).value;
      AtConcat(data, pos, b, rest);
      EncodedReadsBack(data, pos, items[0]);
      ItemsRead(data, pos + |b|, items[1..], d);
      ItemsStep(data, pos, Canon(items[0]), pos + |b|, CanonAll(items[1..]), pos + |b| + |rest|);
    }
  }

  lemma JoinStep(es: seq<Entry>)
    requires es != []
    ensures Join(Map(EntryBytes, es)) == EntryBytes(es[0]).0 + EntryBytes(es[0]).1 + Join(Map(EntryBytes, es[1..]))
  {
    assert Map(EntryBytes, es)[1..] == Map(EntryBytes, es[1..]);
  }

  lemma {:induction false} EntriesRead(data: bytes, pos: nat, es: seq<Entry>, d: nat)
    requires forall i | 0 <= i < |es| :: Encodable(es[i]) && Valid(es[i].value) && Depth(es[i].value) < d
    requires At(data, pos, Join(Map(EntryBytes, es)))
    ensures LoadsEntries(data, pos, |es|)
         == Ok((Map(CanonEntry, es), Map(EntryKeyBytes, es), pos + |Join(Map(EntryBytes, es))|))
    decreases d, 0, |es|
  {
    hide LoadsOne, LoadsEntries, Dumps, DumpsAtom, At, Join, Canon, Valid, Depth;
    NothingRead(data, pos);
    if es != [] {
      var (k, v) := EntryBytes(es[0]);
      var rest := Join(Map(EntryBytes, es[1..]));
      JoinStep(es);
      assert Encodable(es[0]);
      AtConcat(data, pos, k + v, rest);
      AtConcat(data, pos, k, v);
      AtomRead(data, pos, es[0].key);
      EncodedReadsBack(data, pos + |k|, es[0].value);
      EntriesRead(data, pos + |k| + |v|, es[1..], d);
      EntriesStep(data, pos, CanonEntry(es[0]), k, pos + |k| + |v|,
                  Map(CanonEntry, es[1..]), Map(EntryKeyBytes, es[1..]), pos + |k| + |v| + |rest|);
    }
  }

  lemma DictRead(data: bytes, pos: nat, es: seq<Entry>)
    requires Valid(Dict(es)) && Dumps(Dict(es)).Ok? && At(data, pos, Dumps(Dict(es)).value)
    ensures LoadsOne(data, pos) == Ok((Canon(Dict(es)), pos + |Dumps(Dict(es)).value|))
    decreases Depth(Dict(es)), 1, 0
  {
    hide LoadsOne, LoadsEntries, Dumps, Canon, At, Join, ReadUint, Head, Sort, DistinctKeys, Valid, Depth, EntryLeq;
    EncodableEntries(es);
    DictEncoding(es);
    DictCanon(es);
    var sorted := Sort(EntryLeq, es);
    var h, body := Head(5, |es|).value, Join(Map(EntryBytes, sorted));
    AtConcat(data, pos, h, body);
    HeadRead(data, pos, 5, |es|);
    SortedInside(es);
    EntriesRead(data, pos + |h|, sorted, Depth(Dict(es)));
    SortedDict(es);
    DictStep(data, pos, |es|, pos + |h|, Map(CanonEntry, sorted), Map(EntryKeyBytes, sorted), pos + |h| + |body|);
  }

  lemma EncodableEntries(es: seq<Entry>)
    requires Valid(Dict(es)) && Dumps(Dict(es)).Ok?
    ensures |es| <= 0xffff_ffff_ffff_ffff && Head(5, |es|).Ok? && DistinctKeys(es)
    ensures forall i | 0 <= i < |es| :: Encodable(es[i])
  {
    EntriesEncoded(es);
  }

  lemma SortedInside(es: seq<Entry>)
    requires Valid(Dict(es)) && forall i | 0 <= i < |es| :: Encodable(es[i])
    ensures var sorted := Sort(EntryLeq, es);
      forall i | 0 <= i < |sorted| ::
        Encodable(sorted[i]) && Valid(sorted[i].value) && Depth(sorted[i].value) < Depth(Dict(es))
  {
    var sorted := Sort(EntryLeq, es);
    SameElements(sorted, es);
    forall i | 0 <= i < |sorted|
      ensures Encodable(sorted[i]) && Valid(sorted[i].value) && DepthEntry(sorted[i]) < Depth(Dict(es))
    {
      assert sorted[i] in es;
    }
  }

  /** Sorting a dict's entries passes the decoder's duplicate and order checks. */
  lemma SortedDict(es: seq<Entry>)
    requires DistinctKeys(es)
    ensures DistinctKeys(Map(CanonEntry, Sort(EntryLeq, es)))
    ensures var ks := Map(EntryKeyBytes, Sort(EntryLeq, es)); Sort(KeyLeq, ks) == ks
  {
    KeyLeqOrder();
    SortSorted(EntryLeq, es);
    SortOfSorted(KeyLeq, Map(EntryKeyBytes, Sort(EntryLeq, es)));
    SortKeepsDistinct(es);
  }

  // ---- re-encoding what was decoded ----

  ghost predicate Faithful(v: Value, b: bytes) {
    Valid(v) && Canon(v) == v && Dumps(v) == Ok(b)
  }

  /** Whatever the decoder reads is a valid value in canonical order, and encodes to exactly the
      bytes it was read from. */
  lemma {:induction false} DecodedReencodes(data: bytes, pos: nat)
    requires LoadsOne(data, pos).Ok?
    ensures var (v, p) := LoadsOne(data, pos).value; Faithful(v, data[pos..p])
    decreases |data| - pos, 0
  {
    var (v, end) := LoadsOne(data, pos).value;
    var major := data[pos] / 32;
    if major == 7 {
      assert data[pos..end] == [data[pos]];
    } else {
      ReadHead(data, pos);
      var (n, p) := ReadUint(data, pos + 1, data[pos] % 32).value;
      assert data[pos..end] == data[pos..p] + data[p..end];
      if major == 4 {
        ItemsReencode(data, p, n);
      } else if major == 5 {
        EntriesReencode(data, p, n);
        var (es, encKeys, _) := LoadsEntries(data, p, n).value;
        DictReencodes(es, encKeys);
      }
    }
  }

  lemma {:induction false} ItemsReencode(data: bytes, pos: nat, n: nat)
    requires pos <= |data| && LoadsItems(data, pos, n).Ok?
    ensures var (vs, p) := LoadsItems(data, pos, n).value;
      && |vs| == n && (forall i | 0 <= i < n :: Valid(vs[i]))
      && CanonAll(vs) == vs && DumpsAll(vs) == Ok(data[pos..p])
    decreases |data| - pos, 1
  {
    hide LoadsOne, Dumps, Valid, Canon;
    NothingRead(data, pos);
    if n == 0 {
      assert data[pos..pos] == [];
    } else {
      var (v, p) := LoadsOne(data, pos).value;
      var (vs, end) := LoadsItems(data, pos, n).value;
      DecodedReencodes(data, pos);
      ItemsReencode(data, p, n - 1);
      assert data[pos..end] == data[pos..p] + data[p..end];
      assert vs[1..] == LoadsItems(data, p, n - 1).value.0;
    }
  }

  lemma {:induction false} EntriesReencode(data: bytes, pos: nat, n: nat)
    requires pos <= |data| && LoadsEntries(data, pos, n).Ok?
    ensures var (es, ks, p) := LoadsEntries(data, pos, n).value;
      && |es| == |ks| == n
      && (forall i | 0 <= i < n :: Valid(es[i].value) && Encodable(es[i]) && KeyBytes(es[i].key) == ks[i])
      && CanonEntries(es) == es && Join(Map(EntryBytes, es)) == data[pos..p]
    decreases |data| - pos, 1
  {
    hide LoadsOne, Join, Dumps, DumpsAtom, Valid, Canon;
    NothingRead(data, pos);
    if n == 0 {
      assert data[pos..pos] == [];
    } else {
      var (k, p) := LoadsOne(data, pos).value;
      var (v, p') := LoadsOne(data, p).value;
      var (es, ks, end) := LoadsEntries(data, pos, n).value;
      DecodedReencodes(data, pos);
      DecodedReencodes(data, p);
      EntriesReencode(data, p', n - 1);
      assert es[0] == Entry(k.atom, v) && es[1..] == LoadsEntries(data, p', n - 1).value.0;
      FaithfulEntry(k, v, data[pos..p], data[p..p']);
      assert data[pos..end] == data[pos..p] + data[p..p'] + data[p'..end];
      JoinStep(es);
    }
  }

  lemma FaithfulEntry(k: Value, v: Value, kb: bytes, vb: bytes)
    requires k.Leaf? && Faithful(k, kb) && Faithful(v, vb)
    ensures var e := Entry(k.atom, v);
      Encodable(e) && Valid(v) && KeyBytes(e.key) == kb && EntryBytes(e) == (kb, vb) && CanonEntry(e) == e
  {
  }

  lemma DictReencodes(es: seq<Entry>, encKeys: seq<bytes>)
    requires |es| == |encKeys| <= 0xffff_ffff_ffff_ffff
    requires forall i | 0 <= i < |es| :: Encodable(es[i]) && KeyBytes(es[i].key) == encKeys[i]
    requires encKeys == Sort(KeyLeq, encKeys) && CanonEntries(es) == es
    ensures Canon(Dict(es)) == Dict(es)
    ensures Dumps(Dict(es)) == Ok(Head(5, |es|).value + Join(Map(EntryBytes, es)))
  {
    hide Canon, Dumps, Join, EntryLeq, Sort;
    SortedKeys(es, encKeys);
    SortOfSorted(EntryLeq, es);
    EntriesCanon(es);
    DictEncoding(es);
    DictCanon(es);
  }

  lemma SortedKeys(es: seq<Entry>, encKeys: seq<bytes>)
    requires |es| == |encKeys| && forall i | 0 <= i < |es| :: KeyBytes(es[i].key) == encKeys[i]
    requires encKeys == Sort(KeyLeq, encKeys)
    ensures SortedBy(EntryLeq, es)
  {
    hide KeyLeq, KeyBytes;
    KeyLeqOrder();
    SortSorted(KeyLeq, encKeys);
  }

  // ---- the codec's laws ----

  /** loads(data) returns x exactly when data is the encoding of x and x is what Python calls a
      value, its dicts in canonical order: there is one accepted byte string per value. */
  lemma LoadsIffEncoding(data: bytes, x: Value)
    ensures Loads(data) == Ok(x) <==> Valid(x) && Canon(x) == x && Dumps(x) == Ok(data)
  {
    hide Dumps, LoadsOne, Valid, Canon;
    assert data[0..|data|] == data;
    if LoadsOne(data, 0).Ok? {
      DecodedReencodes(data, 0);
    }
    if Valid(x) && Dumps(x) == Ok(data) {
      EncodedReadsBack(data, 0, x);
    }
  }

  /** The re-encoding comparison at the end of loads never fires: the decoder alone already
      rejects everything that is not canonical. */
  lemma ReencodingCheckNeverFires(data: bytes)
    ensures Loads(data).Ok? <==> LoadsOne(data, 0).Ok? && LoadsOne(data, 0).value.1 == |data|
  {
    hide Dumps, LoadsOne, Valid, Canon;
    if LoadsOne(data, 0).Ok? {
      DecodedReencodes(data, 0);
      assert data[0..|data|] == data;
    }
  }

  /** loads(dumps(x)) is x for every value that can be encoded. */
  lemma LoadsDumps(x: Value)
    requires Valid(x) && Dumps(x).Ok?
    ensures Loads(Dumps(x).value) == Ok(Canon(x))
  {
    hide Dumps, LoadsOne, Valid, Canon;
    var data := Dumps(x).value;
    assert data[0..|data|] == data;
    EncodedReadsBack(data, 0, x);
    DecodedReencodes(data, 0);
  }

  /** Two values have the same encoding exactly when they differ at most in the insertion order of
      their dicts. */
  lemma SameEncodingIffSameValue(x: Value, y: Value)
    requires Valid(x) && Dumps(x).Ok? && Valid(y) && Dumps(y).Ok?
    ensures Dumps(x) == Dumps(y) <==> Canon(x) == Canon(y)
  {
    hide Dumps, LoadsOne, Valid, Canon;
    LoadsDumps(x);
    LoadsDumps(y);
    LoadsIffEncoding(Dumps(x).value, Canon(x));
    LoadsIffEncoding(Dumps(y).value, Canon(y));
  }

  /** No encoding is a proper prefix of another: what follows a value never changes how it reads. */
  lemma EncodingPrefixFree(x: Value, y: Value, tail: bytes)
    requires Valid(x) && Valid(y) && Dumps(x).Ok? && Dumps(y) == Ok(Dumps(x).value + tail)
    ensures tail == []
  {
    hide Dumps, LoadsOne, Valid, Canon;
    var data := Dumps(y).value;
    assert data[0..|data|] == data && data[0..|Dumps(x).value|] == Dumps(x).value;
    EncodedReadsBack(data, 0, x);
    EncodedReadsBack(data, 0, y);
  }
}
