/** The deterministic CBOR subset of the protocol (ctp/cbor.py): RFC 8949 heads (section 3) in
    shortest form (section 4.1) and maps in length-first key order (section 4.2.3). */
module Cbor {
  import opened Wrappers
  import opened Bytes
  import opened Sorting

  /** A hashable Python value.  A str is its UTF-8 encoding; one that cannot be encoded is
      bytes that are not UTF-8. */
  datatype Atom = Null | Bool(b: bool) | Int(n: int) | Raw(raw: bytes) | Text(utf8: bytes)

  datatype Entry = Entry(key: Atom, value: Value)

  /** A dict is its items in insertion order. */
  datatype Value = Leaf(atom: Atom) | List(items: seq<Value>) | Dict(entries: seq<Entry>)

  /** Python's key equality, under which True == 1 and False == 0. */
  predicate SameKey(a: Atom, b: Atom) {
    || a == b
    || (a.Bool? && b.Int? && b.n == if a.b then 1 else 0)
    || (a.Int? && b.Bool? && a.n == if b.b then 1 else 0)
  }

  predicate DistinctKeys(es: seq<Entry>) {
    forall i, j | 0 <= i < j < |es| :: !SameKey(es[i].key, es[j].key)
  }

  /** What Python guarantees of every value: no dict holds two equal keys. */
  predicate Valid(v: Value) {
    match v
    case Leaf(_) => true
    case List(items) => forall i | 0 <= i < |items| :: Valid(items[i])
    case Dict(es) => DistinctKeys(es) && forall i | 0 <= i < |es| :: Valid(es[i].value)
  }

  // ---- UTF-8 (RFC 3629 section 4) ----

  predicate Tail(b: bytes, i: nat) {
    i < |b| && 0x80 <= b[i] < 0xC0
  }

  /** The length of the well-formed sequence at the start of b, 0 when there is none. */
  function Utf8Length(b: bytes): (n: nat)
    ensures n <= |b|
  {
    if b == [] then 0
    else if b[0] < 0x80 then 1
    else if !Tail(b, 1) then 0
    else if 0xC2 <= b[0] <= 0xDF then 2
    else if !Tail(b, 2) then 0
    else if (b[0] == 0xE0 && b[1] >= 0xA0) || (b[0] == 0xED && b[1] < 0xA0)
         || 0xE1 <= b[0] <= 0xEC || 0xEE <= b[0] <= 0xEF then 3
    else if !Tail(b, 3) then 0
    else if (b[0] == 0xF0 && b[1] >= 0x90) || 0xF1 <= b[0] <= 0xF3 || (b[0] == 0xF4 && b[1] < 0x90) then 4
    else 0
  }

  predicate IsUtf8(b: bytes) {
    b == [] || (Utf8Length(b) > 0 && IsUtf8(b[Utf8Length(b)..]))
  }

  // ---- encoder ----

  function Head(major: nat, n: int): Result<bytes>
    requires major < 8
  {
    if n < 0 then Raised
    else if n < 24 then Ok([32 * major + n])
    else if n <= 0xff then Ok([32 * major + 24, n])
    else if n <= 0xffff then Ok([32 * major + 25] + BE(n, 2))
    else if n <= 0xffff_ffff then Ok([32 * major + 26] + BE(n, 4))
    else if n <= 0xffff_ffff_ffff_ffff then Ok([32 * major + 27] + BE(n, 8))
    else Raised
  }

  function DumpsAtom(a: Atom): Result<bytes> {
    match a
    case Null => Ok([0xf6])
    case Bool(b) => Ok([if b then 0xf5 else 0xf4])
    case Int(n) => if n >= 0 then Head(0, n) else Head(1, -1 - n)
    case Raw(b) =>
      var h :- Head(2, |b|);
      Ok(h + b)
    case Text(b) =>
      if !IsUtf8(b) then Raised else
      var h :- Head(3, |b|);
      Ok(h + b)
  }

  function Dumps(x: Value): Result<bytes>
    decreases x, 0
  {
    match x
    case Leaf(a) => DumpsAtom(a)
    case List(items) =>
      var h :- Head(4, |items|);
      var body :- DumpsAll(items);
      Ok(h + body)
    case Dict(es) =>
      var encoded :- DumpsEntries(es);
      var h :- Head(5, |encoded|);
      Ok(h + Join(Sort(PairLeq, encoded)))
  }

  function DumpsAll(items: seq<Value>): Result<bytes>
    decreases items, 1
  {
    if items == [] then Ok([]) else
    var b :- Dumps(items[0]);
    var rest :- DumpsAll(items[1..]);
    Ok(b + rest)
  }

  function DumpsEntries(es: seq<Entry>): (r: Result<seq<(bytes, bytes)>>)
    ensures r.Ok? ==> |r.value| == |es|
    decreases es, 1
  {
    if es == [] then Ok([]) else
    var kv :- DumpsEntry(es[0]);
    var rest :- DumpsEntries(es[1..]);
    Ok([kv] + rest)
  }

  function DumpsEntry(e: Entry): Result<(bytes, bytes)>
    decreases e, 0
  {
    var k :- DumpsAtom(e.key);
    var v :- Dumps(e.value);
    Ok((k, v))
  }

  function Join(pairs: seq<(bytes, bytes)>): bytes {
    if pairs == [] then [] else pairs[0].0 + pairs[0].1 + Join(pairs[1..])
  }

  /** Length first, then byte-wise (RFC 8949 section 4.2.3). */
  predicate KeyLeq(a: bytes, b: bytes) {
    |a| < |b| || (|a| == |b| && LexLeq(a, b))
  }

  predicate PairLeq(p: (bytes, bytes), q: (bytes, bytes)) {
    KeyLeq(p.0, q.0)
  }

  // ---- decoder ----

  function UintSize(ai: nat): nat {
    if ai == 24 then 1 else if ai == 25 then 2 else if ai == 26 then 4 else if ai == 27 then 8 else 0
  }

  function ReadUint(data: bytes, pos: nat, ai: nat): (r: Result<(nat, nat)>)
    ensures r.Ok? ==> pos <= r.value.1 && (pos <= |data| ==> r.value.1 <= |data|)
  {
    if ai < 24 then Ok((ai, pos)) else
    var n := UintSize(ai);
    if n == 0 || pos + n > |data| then Raised else
    var val := FromBE(data[pos..pos + n]);
    if || (ai == 24 && val < 24) || (ai == 25 && val <= 0xff)
       || (ai == 26 && val <= 0xffff) || (ai == 27 && val <= 0xffff_ffff) then Raised
    else Ok((val, pos + n))
  }

  function LoadsOne(data: bytes, pos: nat): (r: Result<(Value, nat)>)
    ensures r.Ok? ==> pos < r.value.1 <= |data|
    decreases |data| - pos, 0
  {
    if pos >= |data| then Raised else
    var major, ai := data[pos] / 32, data[pos] % 32;
    if major == 7 then
      if ai == 20 then Ok((Leaf(Bool(false)), pos + 1))
      else if ai == 21 then Ok((Leaf(Bool(true)), pos + 1))
      else if ai == 22 then Ok((Leaf(Null), pos + 1))
      else Raised
    else if major == 6 then Raised
    else
      var (n, p) :- ReadUint(data, pos + 1, ai);
      if major <= 1 then Ok((Leaf(Int(if major == 0 then n else -1 - n)), p))
      else if major <= 3 then
        if p + n > |data| then Raised else
        var b := data[p..p + n];
        if major == 2 then Ok((Leaf(Raw(b)), p + n))
        else if IsUtf8(b) then Ok((Leaf(Text(b)), p + n))
        else Raised
      else if major == 4 then
        var (items, p') :- LoadsItems(data, p, n);
        Ok((List(items), p'))
      else
        var (es, encKeys, p') :- LoadsEntries(data, p, n);
        if DistinctKeys(es) && encKeys == Sort(KeyLeq, encKeys) then Ok((Dict(es), p')) else Raised
  }

  function LoadsItems(data: bytes, pos: nat, n: nat): (r: Result<(seq<Value>, nat)>)
    ensures r.Ok? ==> pos <= r.value.1 && (pos <= |data| ==> r.value.1 <= |data|)
    decreases |data| - pos, 1
  {
    if n == 0 then Ok(([], pos)) else
    var (v, p) :- LoadsOne(data, pos);
    var (vs, p') :- LoadsItems(data, p, n - 1);
    Ok(([v] + vs, p'))
  }

  function LoadsEntries(data: bytes, pos: nat, n: nat): (r: Result<(seq<Entry>, seq<bytes>, nat)>)
    ensures r.Ok? ==> pos <= r.value.2 && (pos <= |data| ==> r.value.2 <= |data|)
    decreases |data| - pos, 1
  {
    if n == 0 then Ok(([], [], pos)) else
    var (k, p) :- LoadsOne(data, pos);
    if !k.Leaf? then Raised else   // a list or dict is unhashable
    var (v, p') :- LoadsOne(data, p);
    var (es, encKeys, p'') :- LoadsEntries(data, p', n - 1);
    Ok(([Entry(k.atom, v)] + es, [data[pos..p]] + encKeys, p''))
  }

  function Loads(data: bytes): Result<Value> {
    var (obj, pos) :- LoadsOne(data, 0);
    if pos != |data| then Raised
    else if Dumps(obj) != Ok(data) then Raised
    else Ok(obj)
  }

  // ---- canonical dict order ----

  function KeyBytes(k: Atom): bytes {
    match DumpsAtom(k) case Ok(b) => b case Raised => []
  }

  function ValueBytes(v: Value): bytes {
    match Dumps(v) case Ok(b) => b case Raised => []
  }

  function EntryBytes(e: Entry): (bytes, bytes) {
    (KeyBytes(e.key), ValueBytes(e.value))
  }

  predicate EntryLeq(a: Entry, b: Entry) {
    KeyLeq(KeyBytes(a.key), KeyBytes(b.key))
  }

  /** The same value with every dict's items in canonical key order.  Python's == does not see
      the difference. */
  function Canon(x: Value): Value
    decreases x, 0
  {
    match x
    case Leaf(_) => x
    case List(items) => List(CanonAll(items))
    case Dict(es) => Dict(Sort(EntryLeq, CanonEntries(es)))
  }

  function CanonAll(items: seq<Value>): (r: seq<Value>)
    ensures |r| == |items|
    decreases items, 1
  {
    if items == [] then [] else [Canon(items[0])] + CanonAll(items[1..])
  }

  function CanonEntries(es: seq<Entry>): seq<Entry>
    decreases es, 1
  {
    if es == [] then [] else [CanonEntry(es[0])] + CanonEntries(es[1..])
  }

  function CanonEntry(e: Entry): Entry
    decreases e, 0
  {
    Entry(e.key, Canon(e.value))
  }
}
