/** The codec as ctp/cbor.py runs it, with its loops and its moving position. */
module CborLoops {
  import opened Wrappers
  import opened Bytes
  import opened Sorting
  import opened Cbor

  // ---- encoder ----

  /** What a loop that has collected acc will return when the rest of its work returns r. */
  function Onto<A>(acc: seq<A>, r: Result<seq<A>>): Result<seq<A>> {
    match r case Raised => Raised case Ok(rest) => Ok(acc + rest)
  }

  lemma OntoStep<A>(acc: seq<A>, x: seq<A>, r: Result<seq<A>>)
    ensures Onto([], r) == r && Onto(acc, Ok([])) == Ok(acc)
    ensures Onto(acc, Onto(x, r)) == Onto(acc + x, r)
  {
    if r.Ok? {
      assert [] + r.value == r.value && acc + (x + r.value) == acc + x + r.value;
    }
    assert acc + [] == acc;
  }

  method Encode(x: Value) returns (r: Result<bytes>)
    ensures r == Dumps(x)
    decreases x, 1
  {
    match x
    case Leaf(a) => r := DumpsAtom(a);
    case List(items) =>
      var head := Head(4, |items|);
      if head.Raised? { return Raised; }
      var body: bytes := [];
      OntoStep(body, [], DumpsAll(items));
      assert items[0..] == items;
      for i := 0 to |items|
        invariant DumpsAll(items) == Onto(body, DumpsAll(items[i..]))
      {
        var b := Encode(items[i]);
        assert items[i..][1..] == items[i + 1..];
        if b.Raised? { return Raised; }
        OntoStep(body, b.value, DumpsAll(items[i + 1..]));
        body := body + b.value;
      }
      OntoStep(body, [], Ok([]));
      r := Ok(head.value + body);
    case Dict(es) => r := EncodeDict(es);
  }

  method EncodeDict(es: seq<Entry>) returns (r: Result<bytes>)
    ensures r == Dumps(Dict(es))
    decreases es, 0
  {
    var encoded: seq<(bytes, bytes)> := [];
    OntoStep(encoded, [], DumpsEntries(es));
    assert es[0..] == es;
    for i := 0 to |es|
      invariant DumpsEntries(es) == Onto(encoded, DumpsEntries(es[i..]))
    {
      assert es[i..][1..] == es[i + 1..];
      var k := DumpsAtom(es[i].key);
      var v := EncodeEntryValue(es[i]);
      if k.Raised? || v.Raised? { return Raised; }
      OntoStep(encoded, [(k.value, v.value)], DumpsEntries(es[i + 1..]));
      encoded := encoded + [(k.value, v.value)];
    }
    OntoStep(encoded, [], Ok([]));
    var head := Head(5, |encoded|);
    if head.Raised? { return Raised; }
    encoded := Sort(PairLeq, encoded);
    r := Ok(head.value + Join(encoded));
  }

  method EncodeEntryValue(e: Entry) returns (r: Result<bytes>)
    ensures r == Dumps(e.value)
    decreases e, 2
  {
    r := Encode(e.value);
  }

  // ---- decoder ----

  function ItemsOnto(acc: seq<Value>, r: Result<(seq<Value>, nat)>): Result<(seq<Value>, nat)> {
    match r case Raised => Raised case Ok((rest, p)) => Ok((acc + rest, p))
  }

  lemma ItemsOntoStep(acc: seq<Value>, v: Value, r: Result<(seq<Value>, nat)>, p: nat)
    ensures ItemsOnto([], r) == r && ItemsOnto(acc, Ok(([], p))) == Ok((acc, p))
    ensures ItemsOnto(acc, ItemsOnto([v], r)) == ItemsOnto(acc + [v], r)
  {
    if r.Ok? {
      var rest := r.value.0;
      assert [] + rest == rest && acc + ([v] + rest) == acc + [v] + rest;
    }
    assert acc + [] == acc;
  }

  function EntriesOnto(acc: seq<Entry>, keys: seq<bytes>, r: Result<(seq<Entry>, seq<bytes>, nat)>)
    : Result<(seq<Entry>, seq<bytes>, nat)>
  {
    match r case Raised => Raised case Ok((rest, ks, p)) => Ok((acc + rest, keys + ks, p))
  }

  lemma EntriesOntoStep(acc: seq<Entry>, keys: seq<bytes>, e: Entry, k: bytes,
                        r: Result<(seq<Entry>, seq<bytes>, nat)>, p: nat)
    ensures EntriesOnto([], [], r) == r && EntriesOnto(acc, keys, Ok(([], [], p))) == Ok((acc, keys, p))
    ensures EntriesOnto(acc, keys, EntriesOnto([e], [k], r)) == EntriesOnto(acc + [e], keys + [k], r)
  {
    if r.Ok? {
      var rest, ks := r.value.0, r.value.1;
      assert [] + rest == rest && acc + ([e] + rest) == acc + [e] + rest;
      assert [] + ks == ks && keys + ([k] + ks) == keys + [k] + ks;
    }
    assert acc + [] == acc && keys + [] == keys;
  }

  /** Python's `k in out`. */
  predicate HasKey(out: seq<Entry>, k: Atom) {
    exists i | 0 <= i < |out| :: SameKey(out[i].key, k)
  }

  method DecodeOne(data: bytes, start: nat) returns (r: Result<(Value, nat)>)
    ensures r == LoadsOne(data, start)
    decreases |data| - start, 0
  {
    if start >= |data| { return Raised; }
    var major, ai := data[start] / 32, data[start] % 32;
    var pos := start + 1;
    if major < 6 {
      var head := ReadUint(data, pos, ai);
      if head.Raised? { return Raised; }
      var n: nat;
      n, pos := head.value.0, head.value.1;
      if major == 4 {
        r := DecodeItems(data, pos, n);
      } else if major == 5 {
        r := DecodeEntries(data, pos, n);
      } else if major <= 1 {
        r := Ok((Leaf(Int(if major == 0 then n else -1 - n)), pos));
      } else if pos + n > |data| {
        r := Raised;
      } else {
        var b := data[pos..pos + n];
        pos := pos + n;
        if major == 2 {
          r := Ok((Leaf(Raw(b)), pos));
        } else if IsUtf8(b) {
          r := Ok((Leaf(Text(b)), pos));
        } else {
          r := Raised;
        }
      }
    } else if major == 7 && ai == 20 {
      r := Ok((Leaf(Bool(false)), pos));
    } else if major == 7 && ai == 21 {
      r := Ok((Leaf(Bool(true)), pos));
    } else if major == 7 && ai == 22 {
      r := Ok((Leaf(Null), pos));
    } else {
      r := Raised;
    }
  }

  method DecodeItems(data: bytes, start: nat, n: nat) returns (r: Result<(Value, nat)>)
    requires start <= |data|
    ensures r == match LoadsItems(data, start, n) case Raised => Raised case Ok((vs, p)) => Ok((List(vs), p))
    decreases |data| - start, 1
  {
    hide LoadsOne;
    var out: seq<Value> := [];
    var pos := start;
    ItemsOntoStep(out, Leaf(Null), LoadsItems(data, start, n), 0);
    for i := 0 to n
      invariant start <= pos <= |data|
      invariant LoadsItems(data, start, n) == ItemsOnto(out, LoadsItems(data, pos, n - i))
    {
      var v := DecodeOne(data, pos);
      if v.Raised? { return Raised; }
      ItemsOntoStep(out, v.value.0, LoadsItems(data, v.value.1, n - i - 1), 0);
      out, pos := out + [v.value.0], v.value.1;
    }
    ItemsOntoStep(out, Leaf(Null), Raised, pos);
    r := Ok((List(out), pos));
  }

  method DecodeEntries(data: bytes, start: nat, n: nat) returns (r: Result<(Value, nat)>)
    requires start <= |data|
    ensures r == match LoadsEntries(data, start, n)
                 case Raised => Raised
                 case Ok((es, ks, p)) =>
                    if DistinctKeys(es) && ks == Sort(KeyLeq, ks) then Ok((Dict(es), p)) else Raised
    decreases |data| - start, 1
  {
    hide LoadsOne, Sort;
    var out: seq<Entry>, encKeys: seq<bytes> := [], [];
    var pos := start;
    EntriesOntoStep(out, encKeys, Entry(Null, Leaf(Null)), [], LoadsEntries(data, start, n), 0);
    for i := 0 to n
      invariant start <= pos <= |data| && DistinctKeys(out)
      invariant LoadsEntries(data, start, n) == EntriesOnto(out, encKeys, LoadsEntries(data, pos, n - i))
    {
      var kStart := pos;
      var k := DecodeOne(data, pos);
      if k.Raised? || !k.value.0.Leaf? { return Raised; }
      pos := k.value.1;
      var ek := data[kStart..pos];
      var duplicate := HasKey(out, k.value.0.atom);
      if duplicate {
        DuplicateIsFinal(data, kStart, n - i, out, encKeys);
        return Raised;
      }
      var v := DecodeOne(data, pos);
      if v.Raised? { return Raised; }
      pos := v.value.1;
      EntriesOntoStep(out, encKeys, Entry(k.value.0.atom, v.value.0), ek, LoadsEntries(data, pos, n - i - 1), 0);
      out := out + [Entry(k.value.0.atom, v.value.0)];
      encKeys := encKeys + [ek];
    }
    EntriesOntoStep(out, encKeys, Entry(Null, Leaf(Null)), [], Raised, pos);
    if encKeys != Sort(KeyLeq, encKeys) { return Raised; }
    r := Ok((Dict(out), pos));
  }

  /** A repeated key cannot be undone by what follows it. */
  lemma DuplicateIsFinal(data: bytes, pos: nat, n: nat, out: seq<Entry>, ks: seq<bytes>)
    requires n > 0 && LoadsOne(data, pos).Ok? && LoadsOne(data, pos).value.0.Leaf?
    requires HasKey(out, LoadsOne(data, pos).value.0.atom)
    ensures var r := EntriesOnto(out, ks, LoadsEntries(data, pos, n)); r.Ok? ==> !DistinctKeys(r.value.0)
  {
    hide LoadsOne;
    var r := EntriesOnto(out, ks, LoadsEntries(data, pos, n));
    if r.Ok? {
      var es := r.value.0;
      var i :| 0 <= i < |out| && SameKey(out[i].key, LoadsOne(data, pos).value.0.atom);
      assert es[i] == out[i] && es[|out|].key == LoadsOne(data, pos).value.0.atom;
    }
  }
}
