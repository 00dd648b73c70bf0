/** The maps with keys 1, 2, ..., n that every as_obj of the protocol builds. */
module Records {
  import opened Wrappers
  import opened Bytes
  import opened Sorting
  import opened Cbor
  import CborProofs
  import opened HashSuite

  function Fields(vs: seq<Value>, first: nat): (es: seq<Entry>)
    ensures |es| == |vs|
    ensures forall i | 0 <= i < |vs| :: es[i] == Entry(Int(first + i), vs[i])
  {
    if vs == [] then [] else [Entry(Int(first), vs[0])] + Fields(vs[1..], first + 1)
  }

  /** {1: vs[0], 2: vs[1], ...} */
  function Record(vs: seq<Value>): Value {
    Dict(Fields(vs, 1))
  }

  function Num(n: int): Value { Leaf(Int(n)) }

  function Blob(b: bytes): Value { Leaf(Raw(b)) }

  function Str(utf8: bytes): Value { Leaf(Text(utf8)) }

  /** A Python value whose dicts are built in canonical order. */
  ghost predicate Plain(v: Value) {
    Valid(v) && Canon(v) == v
  }

  ghost predicate AllPlain(vs: seq<Value>) {
    forall i | 0 <= i < |vs| :: Plain(vs[i])
  }

  lemma RecordInjective(vs: seq<Value>, ws: seq<Value>)
    requires Record(vs) == Record(ws)
    ensures vs == ws
  {
    hide Fields;
    var a, b := Fields(vs, 1), Fields(ws, 1);
    assert a == b;
    forall i | 0 <= i < |vs| ensures vs[i] == ws[i] {
      assert a[i] == b[i];
    }
  }

  lemma SmallKeys(a: nat, b: nat)
    requires a <= b < 24
    ensures KeyLeq(KeyBytes(Int(a)), KeyBytes(Int(b)))
  {
    assert KeyBytes(Int(a)) == [a] && KeyBytes(Int(b)) == [b];
  }

  /** The keys are small natural numbers in increasing order, as in every dict the protocol builds. */
  ghost predicate Keyed(es: seq<Entry>) {
    && |es| < 24
    && (forall i | 0 <= i < |es| :: es[i].key.Int? && 0 <= es[i].key.n < 24)
    && forall i, j | 0 <= i < j < |es| :: es[i].key.n < es[j].key.n
  }

  lemma KeyedPlain(es: seq<Entry>)
    requires Keyed(es) && forall i | 0 <= i < |es| :: Plain(es[i].value)
    ensures Plain(Dict(es))
  {
    hide Canon, KeyLeq, KeyBytes, Sort;
    forall i, j | 0 <= i < j < |es| ensures EntryLeq(es[i], es[j]) { SmallKeys(es[i].key.n, es[j].key.n); }
    SortOfSorted(EntryLeq, es);
    forall i | 0 <= i < |es| ensures CanonEntry(es[i]) == es[i] && Valid(es[i].value) {
      assert Plain(es[i].value);
    }
    assert Map(CanonEntry, es) == es;
    CborProofs.DictCanon(es);
  }

  lemma RecordPlain(vs: seq<Value>)
    requires |vs| < 23 && AllPlain(vs)
    ensures Plain(Record(vs))
  {
    hide Plain;
    var es := Fields(vs, 1);
    assert forall i | 0 <= i < |es| :: es[i].value == vs[i] && Plain(vs[i]);
    KeyedPlain(es);
  }

  lemma {:induction false} CanonOfPlain(vs: seq<Value>)
    requires AllPlain(vs)
    ensures CanonAll(vs) == vs
  {
    if vs != [] {
      assert Plain(vs[0]);
      CanonOfPlain(vs[1..]);
    }
  }

  lemma ListPlain(vs: seq<Value>)
    requires AllPlain(vs)
    ensures Plain(List(vs))
  {
    CanonOfPlain(vs);
  }

  /** Equal encodings of plain values mean equal values. */
  lemma EncodingBinds(x: Value, y: Value)
    requires Plain(x) && Plain(y) && Dumps(x).Ok? && Dumps(x) == Dumps(y)
    ensures x == y
  {
    CborProofs.SameEncodingIffSameValue(x, y);
  }

  /** A plain value that can be written is read back as it is. */
  lemma PlainReads(v: Value)
    requires Plain(v) && Dumps(v).Ok?
    ensures Loads(Dumps(v).value) == Ok(v)
  {
    hide Dumps, Loads, Valid, Canon;
    CborProofs.LoadsDumps(v);
  }

  // ---- what can be written ----

  lemma KeyedEncodes(es: seq<Entry>)
    requires Keyed(es) && forall i | 0 <= i < |es| :: Dumps(es[i].value).Ok?
    ensures Dumps(Dict(es)).Ok?
  {
    CborProofs.EntriesEncoded(es);
    CborProofs.HeadFits(5, |es|);
    forall i | 0 <= i < |es| ensures CborProofs.Encodable(es[i]) {
      assert Dumps(es[i].value).Ok?;
    }
  }

  lemma RecordEncodes(vs: seq<Value>)
    requires |vs| < 23 && forall i | 0 <= i < |vs| :: Dumps(vs[i]).Ok?
    ensures Dumps(Record(vs)).Ok?
  {
    hide Dumps;
    var es := Fields(vs, 1);
    assert forall i | 0 <= i < |es| :: es[i].value == vs[i] && Dumps(vs[i]).Ok?;
    KeyedEncodes(es);
  }

  lemma {:induction false} AllEncode(vs: seq<Value>)
    requires forall i | 0 <= i < |vs| :: Dumps(vs[i]).Ok?
    ensures DumpsAll(vs).Ok?
  {
    hide Dumps;
    if vs != [] {
      assert forall i | 0 <= i < |vs[1..]| :: vs[1..][i] == vs[i + 1];
      AllEncode(vs[1..]);
      assert Dumps(vs[0]).Ok?;
    }
  }

  lemma ListEncodes(vs: seq<Value>)
    requires |vs| < 0x1_0000 && forall i | 0 <= i < |vs| :: Dumps(vs[i]).Ok?
    ensures Dumps(List(vs)).Ok?
  {
    hide DumpsAll;
    AllEncode(vs);
    CborProofs.HeadFits(4, |vs|);
  }

  lemma NumEncodes(n: int)
    requires -0x8000_0000_0000_0000 <= n < 0x8000_0000_0000_0000
    ensures Dumps(Num(n)).Ok?
  {
  }

  lemma BlobEncodes(b: bytes)
    requires |b| < 0x1_0000
    ensures Dumps(Blob(b)).Ok?
  {
  }

  ghost predicate IsAscii(b: bytes) {
    forall i | 0 <= i < |b| :: b[i] < 0x80
  }

  lemma {:induction false} AsciiIsUtf8(b: bytes)
    requires IsAscii(b)
    ensures IsUtf8(b)
  {
    if b != [] { AsciiIsUtf8(b[1..]); }
  }

  lemma StrEncodes(b: bytes)
    requires IsAscii(b) && |b| < 0x1_0000
    ensures Dumps(Str(b)).Ok?
  {
    AsciiIsUtf8(b);
  }

  // ---- digest pairs ----

  function PairObj(p: DigestPair): Value {
    Record([Blob(p.sha256), Blob(p.shake384)])
  }

  lemma PairObjPlain(p: DigestPair)
    ensures Plain(PairObj(p))
  {
    var vs := [Blob(p.sha256), Blob(p.shake384)];
    assert AllPlain(vs);
    RecordPlain(vs);
  }

  lemma PairObjInjective(p: DigestPair, r: DigestPair)
    requires PairObj(p) == PairObj(r)
    ensures p == r
  {
    var a, b := [Blob(p.sha256), Blob(p.shake384)], [Blob(r.sha256), Blob(r.shake384)];
    RecordInjective(a, b);
    assert a[0] == b[0] && a[1] == b[1];
  }

  lemma PairObjEncodes(p: DigestPair)
    ensures Dumps(PairObj(p)).Ok?
  {
    hide Dumps, Record;
    BlobEncodes(p.sha256);
    BlobEncodes(p.shake384);
    RecordEncodes([Blob(p.sha256), Blob(p.shake384)]);
  }
}
