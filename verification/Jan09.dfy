/** January-2009 serialisation and the anchor adapter (ctp/bitcoin_jan09.py). */
module Jan09 {
  import opened Wrappers
  import opened Bytes

  // ---- fixed-width fields ----

  /** struct.unpack of a k-byte little-endian field: an error when the slice comes up short. */
  function ReadU(data: bytes, pos: nat, k: nat): Result<nat> {
    var b := Slice(data, pos, pos + k);
    if |b| != k then Raised else Ok(FromLE(b))
  }

  const TWO_63 := 0x8000_0000_0000_0000
  const TWO_64 := 0x1_0000_0000_0000_0000

  /** struct.pack("<q", v) */
  function PackI64(v: int): Result<bytes> {
    if -TWO_63 <= v < TWO_63 then Ok(LE(if v < 0 then v + TWO_64 else v, 8)) else Raised
  }

  /** struct.unpack("<q", ...) */
  function ReadI64(data: bytes, pos: nat): Result<int> {
    var n :- ReadU(data, pos, 8);
    Ok(if n < TWO_63 then n else n - TWO_64)
  }

  /** struct.pack of a k-byte field. */
  function PackU(n: int, k: nat): Result<bytes> {
    if 0 <= n < Pow256(k) then Ok(LE(n, k)) else Raised
  }

  // ---- compact sizes ----

  function CompactSize(n: int): Result<bytes> {
    if n < 0 then Raised
    else if n < 253 then Ok([n])
    else if n <= 0xffff then Ok([0xfd] + LE(n, 2))
    else if n <= 0xffff_ffff then Ok([0xfe] + LE(n, 4))
    else if n < TWO_64 then Ok([0xff] + LE(n, 8))
    else Raised
  }

  function ReadCompactSize(data: bytes, pos: nat): (r: Result<(nat, nat)>)
    ensures r.Ok? ==> pos < r.value.1 <= |data|
  {
    if pos >= |data| then Raised else
    var x := data[pos];
    if x < 253 then Ok((x, pos + 1)) else
    var k := if x == 253 then 2 else if x == 254 then 4 else 8;
    if pos + 1 + k > |data| then Raised else
    var n := FromLE(data[pos + 1..pos + 1 + k]);
    if n < (if x == 253 then 253 else if x == 254 then 0x1_0000 else 0x1_0000_0000) then Raised
    else Ok((n, pos + 1 + k))
  }

  // ---- transactions ----

  datatype Output = Output(value: int, spk: bytes)

  datatype Tx = Tx(version: nat, prev: bytes, index: nat, scriptSig: bytes, sequence: nat,
                   outputs: seq<Output>, locktime: nat)

  function ParseOutputs(tx: bytes, pos: nat, n: nat): (r: Result<(seq<Output>, nat)>)
    ensures r.Ok? ==> r.value.1 >= pos && |r.value.0| == n
    decreases n
  {
    if n == 0 then Ok(([], pos)) else
    var value :- ReadI64(tx, pos);
    var (plen, p) :- ReadCompactSize(tx, pos + 8);
    var spk := Slice(tx, p, p + plen);
    var (rest, end) :- ParseOutputs(tx, p + plen, n - 1);
    Ok(([Output(value, spk)] + rest, end))
  }

  function ParseCoinbaseTx(tx: bytes): Result<Tx> {
    var version :- ReadU(tx, 0, 4);
    var (nin, p0) :- ReadCompactSize(tx, 4);
    if nin != 1 then Raised else
    var prev := Slice(tx, p0, p0 + 32);
    var index :- ReadU(tx, p0 + 32, 4);
    var (slen, p1) :- ReadCompactSize(tx, p0 + 36);
    var scriptSig := Slice(tx, p1, p1 + slen);
    var sequence :- ReadU(tx, p1 + slen, 4);
    var (nout, p2) :- ReadCompactSize(tx, p1 + slen + 4);
    var (outputs, p3) :- ParseOutputs(tx, p2, nout);
    var locktime :- ReadU(tx, p3, 4);
    if p3 + 4 != |tx| then Raised
    else Ok(Tx(version, prev, index, scriptSig, sequence, outputs, locktime))
  }

  /** The output loop of parse_coinbase_tx with its moving position. */
  method ParseOutputsLoop(tx: bytes, start: nat, n: nat) returns (r: Result<(seq<Output>, nat)>)
    ensures r == ParseOutputs(tx, start, n)
  {
    hide ReadI64, ReadCompactSize;
    var outputs: seq<Output>, pos := [], start;
    OutputsOntoStep(outputs, Output(0, []), ParseOutputs(tx, start, n), 0);
    for i := 0 to n
      invariant OutputsOnto(outputs, ParseOutputs(tx, pos, n - i)) == ParseOutputs(tx, start, n)
    {
      var value := ReadI64(tx, pos);
      if value.Raised? { return Raised; }
      pos := pos + 8;
      var plen := ReadCompactSize(tx, pos);
      if plen.Raised? { return Raised; }
      pos := plen.value.1;
      var spk := Slice(tx, pos, pos + plen.value.0);
      pos := pos + plen.value.0;
      OutputsOntoStep(outputs, Output(value.value, spk), ParseOutputs(tx, pos, n - i - 1), 0);
      outputs := outputs + [Output(value.value, spk)];
    }
    OutputsOntoStep(outputs, Output(0, []), Raised, pos);
    r := Ok((outputs, pos));
  }

  /** parse_coinbase_tx */
  method ParseCoinbaseTxLoop(tx: bytes) returns (r: Result<Tx>)
    ensures r == ParseCoinbaseTx(tx)
  {
    hide ReadU, ReadCompactSize, ParseOutputs, Slice;
    var pos := 0;
    var version := ReadU(tx, pos, 4);
    if version.Raised? { return Raised; }
    pos := pos + 4;
    var nin := ReadCompactSize(tx, pos);
    if nin.Raised? || nin.value.0 != 1 { return Raised; }
    pos := nin.value.1;
    var prev := Slice(tx, pos, pos + 32);
    pos := pos + 32;
    var index := ReadU(tx, pos, 4);
    if index.Raised? { return Raised; }
    pos := pos + 4;
    var slen := ReadCompactSize(tx, pos);
    if slen.Raised? { return Raised; }
    pos := slen.value.1;
    var scriptSig := Slice(tx, pos, pos + slen.value.0);
    pos := pos + slen.value.0;
    var sequence := ReadU(tx, pos, 4);
    if sequence.Raised? { return Raised; }
    pos := pos + 4;
    var nout := ReadCompactSize(tx, pos);
    if nout.Raised? { return Raised; }
    pos := nout.value.1;
    var outputs := ParseOutputsLoop(tx, pos, nout.value.0);
    if outputs.Raised? { return Raised; }
    pos := outputs.value.1;
    var locktime := ReadU(tx, pos, 4);
    if locktime.Raised? { return Raised; }
    pos := pos + 4;
    if pos != |tx| { return Raised; }
    r := Ok(Tx(version.value, prev, index.value, scriptSig, sequence.value, outputs.value.0, locktime.value));
  }

  function OutputsOnto(acc: seq<Output>, r: Result<(seq<Output>, nat)>): Result<(seq<Output>, nat)> {
    match r case Raised => Raised case Ok((rest, p)) => Ok((acc + rest, p))
  }

  lemma OutputsOntoStep(acc: seq<Output>, o: Output, r: Result<(seq<Output>, nat)>, p: nat)
    ensures OutputsOnto([], r) == r && OutputsOnto(acc, Ok(([], p))) == Ok((acc, p))
    ensures OutputsOnto(acc, OutputsOnto([o], r)) == OutputsOnto(acc + [o], r)
  {
    if r.Ok? {
      var rest := r.value.0;
      assert [] + rest == rest && acc + ([o] + rest) == acc + [o] + rest;
    }
    assert acc + [] == acc;
  }

  // ---- the serialiser the parser answers to ----

  function OutputBytes(o: Output): Result<bytes> {
    var value :- PackI64(o.value);
    var size :- CompactSize(|o.spk|);
    Ok(value + (size + o.spk))
  }

  function OutputsBytes(outputs: seq<Output>): Result<bytes> {
    if outputs == [] then Ok([]) else
    var first :- OutputBytes(outputs[0]);
    var rest :- OutputsBytes(outputs[1..]);
    Ok(first + rest)
  }

  /** A transaction with one input, its fields in wire order. */
  function SerializeTx(t: Tx): Result<bytes> {
    if |t.prev| != 32 then Raised else
    var version :- PackU(t.version, 4);
    var index :- PackU(t.index, 4);
    var slen :- CompactSize(|t.scriptSig|);
    var sequence :- PackU(t.sequence, 4);
    var nout :- CompactSize(|t.outputs|);
    var outputs :- OutputsBytes(t.outputs);
    var locktime :- PackU(t.locktime, 4);
    Ok(version + ([1] + (t.prev + (index + (slen + (t.scriptSig + (sequence + (nout + (outputs + locktime)))))))))
  }

  // ---- parsing is the inverse of serialising, both ways ----

  lemma ReadUIff(data: bytes, pos: nat, k: nat, n: nat)
    requires k > 0
    ensures ReadU(data, pos, k) == Ok(n) <==> PackU(n, k).Ok? && At(data, pos, PackU(n, k).value)
    ensures ReadU(data, pos, k).Ok? ==> pos + k <= |data|
  {
    if ReadU(data, pos, k) == Ok(n) {
      FromLEBound(data[pos..pos + k]);
      FromLERoundTrip(data[pos..pos + k]);
    }
    if PackU(n, k).Ok? && At(data, pos, PackU(n, k).value) {
      LERoundTrip(n, k);
    }
  }

  lemma ReadI64Iff(data: bytes, pos: nat, v: int)
    ensures ReadI64(data, pos) == Ok(v) <==> PackI64(v).Ok? && At(data, pos, PackI64(v).value)
  {
    hide LE, FromLE, Pow256, ReadU;
    Pow256Values();
    if ReadI64(data, pos) == Ok(v) {
      var n := ReadU(data, pos, 8).value;
      ReadUIff(data, pos, 8, n);
    }
    if PackI64(v).Ok? {
      ReadUIff(data, pos, 8, if v < 0 then v + TWO_64 else v);
    }
  }

  lemma OneByteSize(data: bytes, pos: nat, n: nat)
    requires n < 253
    ensures At(data, pos, [n]) <==> pos < |data| && data[pos] == n
  {
    if At(data, pos, [n]) { assert data[pos] == data[pos..pos + 1][0]; }
  }

  lemma ManyByteSize(data: bytes, pos: nat, x: byte, b: bytes)
    ensures At(data, pos, [x] + b) <==> pos < |data| && data[pos] == x && At(data, pos + 1, b)
  {
    AtConcat(data, pos, [x], b);
    if At(data, pos, [x]) { assert data[pos] == data[pos..pos + 1][0]; }
  }

  lemma CompactIff(data: bytes, pos: nat, n: nat, p: nat)
    ensures ReadCompactSize(data, pos) == Ok((n, p))
       <==> CompactSize(n).Ok? && At(data, pos, CompactSize(n).value) && p == pos + |CompactSize(n).value|
  {
    hide LE, FromLE, Pow256;
    Pow256Values();
    var k := if n < 253 then 0 else if n <= 0xffff then 2 else if n <= 0xffff_ffff then 4 else 8;
    if n < 253 {
      OneByteSize(data, pos, n);
    } else if n < TWO_64 {
      ManyByteSize(data, pos, if k == 2 then 0xfd else if k == 4 then 0xfe else 0xff, LE(n, k));
    }
    if ReadCompactSize(data, pos) == Ok((n, p)) && data[pos] >= 253 {
      var b := data[pos + 1..p];
      FromLEBound(b);
      FromLERoundTrip(b);
    }
    if 253 <= n < TWO_64 && At(data, pos, CompactSize(n).value) {
      LERoundTrip(n, k);
    }
  }

  lemma SliceAt(data: bytes, i: nat, j: nat, b: bytes)
    requires i <= j <= |data|
    ensures Slice(data, i, j) == b <==> j == i + |b| && At(data, i, b)
  {
  }

  lemma OutputsRead(tx: bytes, pos: nat, n: nat)
    requires ParseOutputs(tx, pos, n).Ok? && ParseOutputs(tx, pos, n).value.1 <= |tx|
    ensures var (outs, end) := ParseOutputs(tx, pos, n).value;
      OutputsBytes(outs).Ok? && At(tx, pos, OutputsBytes(outs).value) && end == pos + |OutputsBytes(outs).value|
    decreases n
  {
    hide ReadI64, ReadCompactSize, PackI64, CompactSize, Slice, At;
    if n == 0 {
      NothingAt(tx, pos);
    } else {
      var (outs, end) := ParseOutputs(tx, pos, n).value;
      var value := ReadI64(tx, pos).value;
      var (plen, p) := ReadCompactSize(tx, pos + 8).value;
      OutputsRead(tx, p + plen, n - 1);
      ReadI64Iff(tx, pos, value);
      PackI64Length(value);
      CompactIff(tx, pos + 8, plen, p);
      var spk := Slice(tx, p, p + plen);
      SliceAt(tx, p, p + plen, spk);
      assert outs[0] == Output(value, spk) && outs[1..] == ParseOutputs(tx, p + plen, n - 1).value.0;
      var size, rest := CompactSize(plen).value, OutputsBytes(outs[1..]).value;
      AtConcat(tx, pos + 8, size, spk);
      AtConcat(tx, pos, PackI64(value).value, size + spk);
      AtConcat(tx, pos, OutputBytes(outs[0]).value, rest);
    }
  }

  lemma NothingAt(data: bytes, pos: nat)
    requires pos <= |data|
    ensures At(data, pos, [])
  {
  }

  lemma PackI64Length(v: int)
    ensures PackI64(v).Ok? ==> |PackI64(v).value| == 8
  {
  }

  lemma OutputsWritten(tx: bytes, pos: nat, outs: seq<Output>)
    requires OutputsBytes(outs).Ok? && At(tx, pos, OutputsBytes(outs).value)
    ensures ParseOutputs(tx, pos, |outs|) == Ok((outs, pos + |OutputsBytes(outs).value|))
    decreases |outs|
  {
    hide OutputBytes, At, ReadI64, ReadCompactSize, ParseOutputs, Slice;
    if outs == [] {
      NoOutputs(tx, pos);
    } else {
      var o, rest := outs[0], outs[1..];
      var first := OutputBytes(o).value;
      AtConcat(tx, pos, first, OutputsBytes(rest).value);
      OutputWritten(tx, pos, o);
      OutputsWritten(tx, pos + |first|, rest);
      NextOutput(tx, pos, |outs|, o, rest, pos + |first|, pos + |OutputsBytes(outs).value|);
      assert outs == [o] + rest;
    }
  }

  lemma NoOutputs(tx: bytes, pos: nat)
    ensures ParseOutputs(tx, pos, 0) == Ok(([], pos))
  {
  }

  lemma NextOutput(tx: bytes, pos: nat, n: nat, o: Output, rest: seq<Output>, next: nat, end: nat)
    requires n > 0 && ReadI64(tx, pos) == Ok(o.value)
    requires ReadCompactSize(tx, pos + 8).Ok? && ReadCompactSize(tx, pos + 8).value.0 == |o.spk|
    requires var p := ReadCompactSize(tx, pos + 8).value.1;
             Slice(tx, p, p + |o.spk|) == o.spk && p + |o.spk| == next
    requires ParseOutputs(tx, next, n - 1) == Ok((rest, end))
    ensures ParseOutputs(tx, pos, n) == Ok(([o] + rest, end))
  {
    hide ReadI64, ReadCompactSize, Slice;
  }

  lemma OutputWritten(tx: bytes, pos: nat, o: Output)
    requires OutputBytes(o).Ok? && At(tx, pos, OutputBytes(o).value)
    ensures ReadI64(tx, pos) == Ok(o.value)
    ensures ReadCompactSize(tx, pos + 8).Ok? && ReadCompactSize(tx, pos + 8).value.0 == |o.spk|
    ensures var p := ReadCompactSize(tx, pos + 8).value.1;
            Slice(tx, p, p + |o.spk|) == o.spk && p + |o.spk| == pos + |OutputBytes(o).value|
  {
    hide ReadI64, ReadCompactSize, PackI64, CompactSize, Slice, At;
    var value, size := PackI64(o.value).value, CompactSize(|o.spk|).value;
    AtConcat(tx, pos, value, size + o.spk);
    PackI64Length(o.value);
    AtConcat(tx, pos + 8, size, o.spk);
    var p := pos + 8 + |size|;
    ReadI64Iff(tx, pos, o.value);
    CompactIff(tx, pos + 8, |o.spk|, p);
    AtInside(tx, p, o.spk);
    SliceAt(tx, p, p + |o.spk|, o.spk);
  }

  lemma AtInside(data: bytes, pos: nat, b: bytes)
    requires At(data, pos, b)
    ensures pos + |b| <= |data|
  {
  }

  lemma TxAt(data: bytes, pos: nat, a: bytes, b: bytes, c: bytes)
    ensures At(data, pos, a + (b + c)) <==> At(data, pos, a) && At(data, pos + |a|, b) && At(data, pos + |a| + |b|, c)
  {
    AtConcat(data, pos, a, b + c);
    AtConcat(data, pos + |a|, b, c);
  }

  ghost predicate FieldsAt(tx: bytes, t: Tx, p1: nat, p2: nat, p3: nat) {
    && |t.prev| == 32
    && PackU(t.version, 4).Ok? && At(tx, 0, PackU(t.version, 4).value) && At(tx, 4, [1])
    && At(tx, 5, t.prev) && PackU(t.index, 4).Ok? && At(tx, 37, PackU(t.index, 4).value)
    && CompactSize(|t.scriptSig|).Ok? && At(tx, 41, CompactSize(|t.scriptSig|).value)
    && p1 == 41 + |CompactSize(|t.scriptSig|).value| && At(tx, p1, t.scriptSig)
    && PackU(t.sequence, 4).Ok? && At(tx, p1 + |t.scriptSig|, PackU(t.sequence, 4).value)
    && CompactSize(|t.outputs|).Ok? && At(tx, p1 + |t.scriptSig| + 4, CompactSize(|t.outputs|).value)
    && p2 == p1 + |t.scriptSig| + 4 + |CompactSize(|t.outputs|).value|
    && OutputsBytes(t.outputs).Ok? && At(tx, p2, OutputsBytes(t.outputs).value)
    && p3 == p2 + |OutputsBytes(t.outputs).value|
    && PackU(t.locktime, 4).Ok? && At(tx, p3, PackU(t.locktime, 4).value) && p3 + 4 == |tx|
  }

  lemma ParsedFields(tx: bytes, t: Tx) returns (p1: nat, p2: nat, p3: nat)
    requires ParseCoinbaseTx(tx) == Ok(t)
    ensures FieldsAt(tx, t, p1, p2, p3)
  {
    hide ReadU, ReadCompactSize, PackU, CompactSize, Slice, At, ParseOutputs, OutputsBytes;
    var (nin, p0) := ReadCompactSize(tx, 4).value;
    CompactIff(tx, 4, 1, p0);
    SizeOfOne();
    ReadUIff(tx, 0, 4, t.version);
    ReadUIff(tx, p0 + 32, 4, t.index);
    SliceAt(tx, p0, p0 + 32, t.prev);
    var slen := ReadCompactSize(tx, 41).value.0;
    p1 := ReadCompactSize(tx, 41).value.1;
    CompactIff(tx, 41, slen, p1);
    ReadUIff(tx, p1 + slen, 4, t.sequence);
    SliceAt(tx, p1, p1 + slen, t.scriptSig);
    var nout := ReadCompactSize(tx, p1 + slen + 4).value.0;
    p2 := ReadCompactSize(tx, p1 + slen + 4).value.1;
    CompactIff(tx, p1 + slen + 4, nout, p2);
    p3 := ParseOutputs(tx, p2, nout).value.1;
    ReadUIff(tx, p3, 4, t.locktime);
    OutputsRead(tx, p2, nout);
  }

  lemma SizeOfOne()
    ensures CompactSize(1) == Ok([1])
  {
  }

  lemma FieldsParsed(tx: bytes, t: Tx, p1: nat, p2: nat, p3: nat)
    requires FieldsAt(tx, t, p1, p2, p3)
    ensures ParseCoinbaseTx(tx) == Ok(t)
  {
    hide ReadU, ReadCompactSize, PackU, CompactSize, Slice, At, ParseOutputs, OutputsBytes;
    SizeOfOne();
    CompactIff(tx, 4, 1, 5);
    ReadUIff(tx, 0, 4, t.version);
    ReadUIff(tx, 37, 4, t.index);
    ReadUIff(tx, p1 + |t.scriptSig|, 4, t.sequence);
    SliceAt(tx, 5, 37, t.prev);
    CompactIff(tx, 41, |t.scriptSig|, p1);
    SliceAt(tx, p1, p1 + |t.scriptSig|, t.scriptSig);
    CompactIff(tx, p1 + |t.scriptSig| + 4, |t.outputs|, p2);
    OutputsWritten(tx, p2, t.outputs);
    ReadUIff(tx, p3, 4, t.locktime);
  }

  lemma WholeAt(data: bytes, b: bytes)
    ensures At(data, 0, b) && |data| == |b| <==> data == b
  {
    if |data| == |b| { assert data[0..|b|] == data; }
  }

  lemma PackULength(n: int, k: nat)
    ensures PackU(n, k).Ok? ==> |PackU(n, k).value| == k
  {
  }

  lemma FieldsSerialize(tx: bytes, t: Tx, p1: nat, p2: nat, p3: nat)
    requires FieldsAt(tx, t, p1, p2, p3)
    ensures SerializeTx(t) == Ok(tx)
  {
    hide PackU, CompactSize, At, OutputsBytes;
    SerializedAt(tx, t);
    WholeAt(tx, SerializeTx(t).value);
  }

  /** The serialised transaction stands at 0 exactly when each field stands at its offset. */
  lemma SerializedAt(tx: bytes, t: Tx)
    requires SerializeTx(t).Ok?
    ensures var p1 := 41 + |CompactSize(|t.scriptSig|).value|;
            var p2 := p1 + |t.scriptSig| + 4 + |CompactSize(|t.outputs|).value|;
            var p3 := p2 + |OutputsBytes(t.outputs).value|;
      && |SerializeTx(t).value| == p3 + 4
      && (At(tx, 0, SerializeTx(t).value) && p3 + 4 == |tx| <==> FieldsAt(tx, t, p1, p2, p3))
  {
    hide PackU, CompactSize, At, OutputsBytes;
    var slen, nout := CompactSize(|t.scriptSig|).value, CompactSize(|t.outputs|).value;
    var outs := OutputsBytes(t.outputs).value;
    PackULength(t.version, 4);
    PackULength(t.index, 4);
    PackULength(t.sequence, 4);
    PackULength(t.locktime, 4);
    var version, index, sequence, locktime :=
      PackU(t.version, 4).value, PackU(t.index, 4).value, PackU(t.sequence, 4).value, PackU(t.locktime, 4).value;
    var w8 := outs + locktime;
    var w6 := sequence + (nout + w8);
    var w4 := slen + (t.scriptSig + w6);
    var w2 := t.prev + (index + w4);
    TxAt(tx, 0, version, [1], w2);
    TxAt(tx, 5, t.prev, index, w4);
    TxAt(tx, 41, slen, t.scriptSig, w6);
    var q := 41 + |slen| + |t.scriptSig|;
    TxAt(tx, q, sequence, nout, w8);
    AtConcat(tx, q + 4 + |nout|, outs, locktime);
  }

  /** Parsing loses nothing and invents nothing: the accepted byte strings are exactly the serialised
      transactions, each with its own fields, for any number of outputs.  In particular every
      unchecked slice of an accepted transaction was in bounds. */
  lemma ParseIffSerialize(tx: bytes, t: Tx)
    ensures ParseCoinbaseTx(tx) == Ok(t) <==> SerializeTx(t) == Ok(tx)
  {
    hide ParseCoinbaseTx, PackU, CompactSize, OutputsBytes, At;
    if ParseCoinbaseTx(tx) == Ok(t) {
      var p1, p2, p3 := ParsedFields(tx, t);
      FieldsSerialize(tx, t, p1, p2, p3);
    }
    if SerializeTx(t) == Ok(tx) {
      SerializedAt(tx, t);
      WholeAt(tx, tx);
      var p1 := 41 + |CompactSize(|t.scriptSig|).value|;
      var p2 := p1 + |t.scriptSig| + 4 + |CompactSize(|t.outputs|).value|;
      FieldsParsed(tx, t, p1, p2, p2 + |OutputsBytes(t.outputs).value|);
    }
  }

  // ---- the anchor ----

  datatype Anchor = Anchor(payload: bytes, flags: nat, epoch: nat, sha256: bytes, shake384: bytes)

  const CHRN: bytes := [0x43, 0x48, 0x52, 0x4e]

  function AnchorPayload(epoch: int, sha256: bytes, shake384: bytes, flags: int): (r: Result<bytes>)
    ensures r.Ok? ==> |r.value| == 96
  {
    if |sha256| != 32 || |shake384| != 48 then Raised
    else if !(0 <= epoch < TWO_64) || !(0 <= flags <= 0xffff) then Raised
    else Ok(CHRN + ([1, 1] + (BE(flags, 2) + (BE(epoch, 8) + (sha256 + shake384)))))
  }

  function AnchorScriptSig(payload: bytes): (r: Result<bytes>)
    ensures r.Ok? ==> |r.value| == 98
  {
    if |payload| != 96 then Raised else Ok([0x4c, 0x60] + payload)
  }

  function P2pkScript(pubkey: bytes): (r: Result<bytes>)
    ensures r.Ok? ==> |r.value| == 67
  {
    if |pubkey| != 65 then Raised else Ok([0x41] + pubkey + [0xac])
  }

  const NO_PREVIOUS: bytes := Repeat(0, 32)

  function CoinbaseTx(payload: bytes, value: int, pubkey: bytes): Result<bytes> {
    var sig :- AnchorScriptSig(payload);
    var spk :- P2pkScript(pubkey);
    var amount :- PackI64(value);
    var output := amount + ([67] + spk);
    Ok(LE(1, 4) + ([1] + (NO_PREVIOUS + (LE(0xffff_ffff, 4) + ([98] + (sig + (LE(0xffff_ffff, 4)
       + ([1] + (output + LE(0, 4))))))))))
  }

  function ExtractAnchor(tx: bytes): Result<Anchor> {
    var p :- ParseCoinbaseTx(tx);
    if p.prev != NO_PREVIOUS || p.index != 0xffff_ffff then Raised else
    var s := p.scriptSig;
    if !(2 <= |s| <= 100) || |s| != 98 || s[..2] != [0x4c, 0x60] then Raised else
    ReadAnchor(s[2..])
  }

  function ReadAnchor(payload: bytes): Result<Anchor>
    requires |payload| == 96
  {
    if payload[..4] != CHRN || payload[4] != 1 || payload[5] != 1 then Raised
    else Ok(Anchor(payload, FromBE(payload[6..8]), FromBE(payload[8..16]), payload[16..48], payload[48..96]))
  }

  /** The anchor's layout: "CHRN", twice 1, flags and epoch big-endian, then the two digests. */
  ghost predicate LaidOut(payload: bytes, a: Anchor) {
    && |payload| == 96 && a.payload == payload
    && payload[0] == 0x43 && payload[1] == 0x48 && payload[2] == 0x52 && payload[3] == 0x4e
    && payload[4] == 1 && payload[5] == 1
    && a.flags == 0x100 * payload[6] as int + payload[7] && a.epoch == FromBE(payload[8..16])
    && a.sha256 == payload[16..48] && a.shake384 == payload[48..]
  }

  lemma TwoBytes(b: bytes)
    requires |b| == 2
    ensures FromBE(b) == 0x100 * b[0] as int + b[1]
  {
    assert b[..1] == [b[0]] && b[..1][..0] == [];
    assert FromBE([]) == 0 && FromBE(b[..1]) == b[0];
  }

  lemma CoinbaseMark(payload: bytes)
    requires |payload| == 96
    ensures payload[..4] == CHRN
       <==> payload[0] == 0x43 && payload[1] == 0x48 && payload[2] == 0x52 && payload[3] == 0x4e
  {
    var p := payload[..4];
    assert p[0] == payload[0] && p[1] == payload[1] && p[2] == payload[2] && p[3] == payload[3];
  }

  lemma LaidOutIff(payload: bytes, a: Anchor)
    requires |payload| == 96
    ensures ReadAnchor(payload) == Ok(a) <==> LaidOut(payload, a)
  {
    hide FromBE;
    TwoBytes(payload[6..8]);
    CoinbaseMark(payload);
    assert payload[48..96] == payload[48..];
    assert payload[6..8][0] == payload[6] && payload[6..8][1] == payload[7];
  }

  /** The transaction spends nothing, its previous hash zero and its index all ones, and its script is the bytes
      4c 60, which push 96 bytes, and this payload. */
  ghost predicate CarriedBy(t: Tx, payload: bytes) {
    && |t.prev| == 32 && (forall i | 0 <= i < 32 :: t.prev[i] == 0) && t.index == 0xffff_ffff
    && |payload| == 96 && t.scriptSig == [0x4c, 0x60] + payload
  }

  /** Extraction succeeds exactly on the serialisation of a coinbase that carries a payload laid out so. */
  lemma ExtractIff(tx: bytes, a: Anchor)
    ensures ExtractAnchor(tx) == Ok(a)
       <==> exists t :: SerializeTx(t) == Ok(tx) && CarriedBy(t, a.payload) && LaidOut(a.payload, a)
  {
    hide ParseCoinbaseTx, SerializeTx, LaidOut, ReadAnchor, CarriedBy;
    if ExtractAnchor(tx) == Ok(a) {
      var t := ParseCoinbaseTx(tx).value;
      ParseIffSerialize(tx, t);
      LaidOutIff(t.scriptSig[2..], a);
      PayloadOfAnchor(t.scriptSig[2..], a);
      CarriedIff(t, a.payload);
    }
    forall t | SerializeTx(t) == Ok(tx) && CarriedBy(t, a.payload) && LaidOut(a.payload, a)
      ensures ExtractAnchor(tx) == Ok(a)
    {
      ParseIffSerialize(tx, t);
      CarriedIff(t, a.payload);
      LaidOutIff(a.payload, a);
    }
  }

  lemma PayloadOfAnchor(payload: bytes, a: Anchor)
    requires LaidOut(payload, a)
    ensures a.payload == payload
  {
  }

  lemma CarriedIff(t: Tx, payload: bytes)
    ensures CarriedBy(t, payload) <==>
              && t.prev == NO_PREVIOUS && t.index == 0xffff_ffff
              && |t.scriptSig| == 98 && t.scriptSig[..2] == [0x4c, 0x60] && t.scriptSig[2..] == payload
  {
    if |t.prev| == 32 && forall i | 0 <= i < 32 :: t.prev[i] == 0 { assert t.prev == NO_PREVIOUS; }
    if |t.scriptSig| == 98 { assert t.scriptSig == t.scriptSig[..2] + t.scriptSig[2..]; }
  }

  lemma AnchorReadsBack(epoch: int, sha256: bytes, shake384: bytes, flags: int)
    requires AnchorPayload(epoch, sha256, shake384, flags).Ok?
    ensures var p := AnchorPayload(epoch, sha256, shake384, flags).value;
      ReadAnchor(p) == Ok(Anchor(p, flags, epoch, sha256, shake384))
  {
    hide BE, FromBE, Pow256;
    var p := AnchorPayload(epoch, sha256, shake384, flags).value;
    Pow256Values();
    BERoundTrip(flags, 2);
    BERoundTrip(epoch, 8);
    assert p[..4] == CHRN && p[6..8] == BE(flags, 2) && p[8..16] == BE(epoch, 8);
    assert p[16..48] == sha256 && p[48..96] == shake384;
  }

  /** A payload carries one epoch and one digest pair. */
  lemma AnchorPayloadBinds(e: int, a: bytes, b: bytes, e': int, a': bytes, b': bytes, flags: int)
    requires AnchorPayload(e, a, b, flags).Ok?
    requires AnchorPayload(e, a, b, flags) == AnchorPayload(e', a', b', flags)
    ensures e == e' && a == a' && b == b'
  {
    AnchorReadsBack(e, a, b, flags);
    AnchorReadsBack(e', a', b', flags);
  }

  function AnchorTx(sig: bytes, value: int, spk: bytes): Tx {
    Tx(1, NO_PREVIOUS, 0xffff_ffff, sig, 0xffff_ffff, [Output(value, spk)], 0)
  }

  lemma CoinbaseIsTx(payload: bytes, value: int, pubkey: bytes)
    requires CoinbaseTx(payload, value, pubkey).Ok?
    ensures SerializeTx(AnchorTx(AnchorScriptSig(payload).value, value, P2pkScript(pubkey).value))
         == CoinbaseTx(payload, value, pubkey)
  {
    hide LE, PackI64, Pow256;
    Pow256Values();
    var sig, spk := AnchorScriptSig(payload).value, P2pkScript(pubkey).value;
    OneOutput(value, spk);
  }

  /** What the anchor coinbase is: one input that spends nothing and carries the payload, one output that pays the
      value to the public key. */
  lemma CoinbaseIff(payload: bytes, value: int, pubkey: bytes, tx: bytes)
    ensures CoinbaseTx(payload, value, pubkey) == Ok(tx) <==>
              && |payload| == 96 && |pubkey| == 65
              && SerializeTx(Tx(1, Repeat(0, 32), 0xffff_ffff, [0x4c, 0x60] + payload, 0xffff_ffff,
                                [Output(value, [0x41] + pubkey + [0xac])], 0)) == Ok(tx)
  {
    hide SerializeTx, LE, PackI64;
    if CoinbaseTx(payload, value, pubkey).Ok? {
      CoinbaseIsTx(payload, value, pubkey);
    } else if |payload| == 96 && |pubkey| == 65 {
      NotSerialized(AnchorTx([0x4c, 0x60] + payload, value, [0x41] + pubkey + [0xac]), value);
    }
  }

  lemma NotSerialized(t: Tx, value: int)
    requires PackI64(value).Raised? && |t.outputs| == 1 && t.outputs[0].value == value
    ensures SerializeTx(t).Raised?
  {
  }

  lemma OneOutput(value: int, spk: bytes)
    requires |spk| == 67 && PackI64(value).Ok?
    ensures OutputsBytes([Output(value, spk)]) == Ok(PackI64(value).value + ([67] + spk))
  {
    hide PackI64;
    var amount := PackI64(value).value;
    assert [Output(value, spk)][1..] == [];
    assert amount + ([67] + spk) + [] == amount + ([67] + spk);
  }

  /** What an anchor coinbase carries is what was put into it. */
  lemma AnchorRoundTrip(epoch: int, sha256: bytes, shake384: bytes, flags: int, value: int, pubkey: bytes)
    requires AnchorPayload(epoch, sha256, shake384, flags).Ok?
    requires CoinbaseTx(AnchorPayload(epoch, sha256, shake384, flags).value, value, pubkey).Ok?
    ensures var p := AnchorPayload(epoch, sha256, shake384, flags).value;
      ExtractAnchor(CoinbaseTx(p, value, pubkey).value) == Ok(Anchor(p, flags, epoch, sha256, shake384))
  {
    hide CoinbaseTx, SerializeTx, ParseCoinbaseTx, AnchorPayload;
    var p := AnchorPayload(epoch, sha256, shake384, flags).value;
    CoinbaseScripts(p, value, pubkey);
    var t := AnchorTx(AnchorScriptSig(p).value, value, P2pkScript(pubkey).value);
    CoinbaseIsTx(p, value, pubkey);
    ParseIffSerialize(CoinbaseTx(p, value, pubkey).value, t);
    AnchorReadsBack(epoch, sha256, shake384, flags);
    var s := t.scriptSig;
    assert s[..2] == [0x4c, 0x60] && s[2..] == p;
  }

  lemma CoinbaseScripts(payload: bytes, value: int, pubkey: bytes)
    requires CoinbaseTx(payload, value, pubkey).Ok?
    ensures AnchorScriptSig(payload).Ok? && P2pkScript(pubkey).Ok?
  {
  }

  // ---- blocks ----

  function ParseSingleTxBlock(raw: bytes): Result<(bytes, bytes)> {
    if |raw| < 81 then Raised else
    var (n, pos) :- ReadCompactSize(raw, 80);
    if n != 1 || ParseCoinbaseTx(raw[pos..]).Raised? then Raised
    else Ok((raw[..80], raw[pos..]))
  }

  /** Structure of a candidate block: Ok(false) where the code returns False, Raised where it raises. */
  function VerifyCandidate(dsha: bytes -> Hash256, raw: bytes, expected: bytes, medianTimePast: Option<int>)
    : Result<bool>
  {
    var (header, tx) :- ParseSingleTxBlock(raw);
    var parsed :- ExtractAnchor(tx);
    if parsed.payload != expected then Ok(false)
    else if header[36..68] != dsha(tx) then Ok(false)
    else Ok(medianTimePast.None? || FromLE(header[68..72]) > medianTimePast.value)
  }

  /** The raw block is a header and one transaction, a coinbase that carries exactly this payload, whose hash is
      the header's Merkle root, and the header is later than the median time past. */
  ghost predicate Carries(dsha: bytes -> Hash256, raw: bytes, payload: bytes, medianTimePast: Option<int>) {
    && |raw| > 81 && raw[80] == 1 && raw[36..68] == dsha(raw[81..])
    && (exists t :: SerializeTx(t) == Ok(raw[81..]) && CarriedBy(t, payload))
    && payload[..6] == [0x43, 0x48, 0x52, 0x4e, 1, 1]
    && (medianTimePast.Some? ==> FromLE(raw[68..72]) > medianTimePast.value)
  }

  lemma OneTransaction(raw: bytes)
    requires |raw| >= 81
    ensures ReadCompactSize(raw, 80).Ok? && ReadCompactSize(raw, 80).value.0 == 1
       <==> raw[80] == 1
    ensures raw[80] == 1 ==> ReadCompactSize(raw, 80) == Ok((1, 81))
  {
    hide FromLE;
  }

  lemma AnchorStart(payload: bytes)
    ensures (exists a :: LaidOut(payload, a)) <==>
              |payload| == 96 && payload[..6] == [0x43, 0x48, 0x52, 0x4e, 1, 1]
  {
    hide FromBE;
    if |payload| == 96 && payload[..6] == [0x43, 0x48, 0x52, 0x4e, 1, 1] {
      var p := payload[..6];
      assert payload[0] == p[0] && payload[1] == p[1] && payload[2] == p[2] && payload[3] == p[3];
      assert payload[4] == p[4] && payload[5] == p[5];
      assert LaidOut(payload, Anchor(payload, 0x100 * payload[6] as int + payload[7], FromBE(payload[8..16]),
                                     payload[16..48], payload[48..]));
    }
  }

  lemma ExtractedParses(tx: bytes)
    requires ExtractAnchor(tx).Ok?
    ensures ParseCoinbaseTx(tx).Ok?
  {
  }

  /** A candidate block is accepted exactly when it is laid out so. */
  lemma CandidateIff(dsha: bytes -> Hash256, raw: bytes, payload: bytes, medianTimePast: Option<int>)
    ensures VerifyCandidate(dsha, raw, payload, medianTimePast) == Ok(true)
       <==> Carries(dsha, raw, payload, medianTimePast)
  {
    hide ParseCoinbaseTx, ExtractAnchor, SerializeTx, LaidOut, CarriedBy, FromLE, ReadCompactSize;
    if |raw| >= 81 {
      OneTransaction(raw);
      var header, tx := raw[..80], raw[81..];
      assert header[36..68] == raw[36..68] && header[68..72] == raw[68..72];
      AnchorStart(payload);
      CarriedLength(payload);
      NotEmpty();
      if ExtractAnchor(tx).Ok? {
        ExtractIff(tx, ExtractAnchor(tx).value);
        ExtractedParses(tx);
      }
      if Carries(dsha, raw, payload, medianTimePast) {
        var a :| LaidOut(payload, a);
        PayloadOfAnchor(payload, a);
        ExtractIff(tx, a);
      }
    }
  }

  lemma CarriedLength(payload: bytes)
    ensures forall t | CarriedBy(t, payload) :: |payload| == 96
  {
  }

  lemma NotEmpty()
    ensures forall t | SerializeTx(t).Ok? :: SerializeTx(t).value != []
  {
    hide SerializeTx, At;
    forall t | SerializeTx(t).Ok? ensures SerializeTx(t).value != [] { SerializedAt(SerializeTx(t).value, t); }
  }

  function MakeHeader(prevHash: bytes, merkle: bytes, ntime: int, bits: int, nonce: int): (r: Result<bytes>)
    ensures r.Ok? ==> |r.value| == 80
  {
    if |prevHash| != 32 || |merkle| != 32 then Raised else
    var t :- PackU(ntime, 4);
    var b :- PackU(bits, 4);
    var n :- PackU(nonce, 4);
    Ok(LE(1, 4) + prevHash + merkle + t + b + n)
  }

  /** make_block(...)["raw"]; the previous hash is given in internal byte order. */
  function MakeBlock(dsha: bytes -> Hash256, payload: bytes, prevHash: bytes, ntime: int, bits: int, nonce: int,
                     value: int, pubkey: bytes): Result<bytes>
  {
    var tx :- CoinbaseTx(payload, value, pubkey);
    var header :- MakeHeader(prevHash, dsha(tx), ntime, bits, nonce);
    Ok(header + [1] + tx)
  }

  lemma HeaderFields(prevHash: bytes, merkle: bytes, ntime: int, bits: int, nonce: int)
    requires MakeHeader(prevHash, merkle, ntime, bits, nonce).Ok?
    ensures var h := MakeHeader(prevHash, merkle, ntime, bits, nonce).value;
      h[4..36] == prevHash && h[36..68] == merkle && FromLE(h[68..72]) == ntime && FromLE(h[72..76]) == bits
  {
    hide LE, FromLE, Pow256;
    var h := MakeHeader(prevHash, merkle, ntime, bits, nonce).value;
    LERoundTrip(ntime, 4);
    LERoundTrip(bits, 4);
    assert h[4..36] == prevHash && h[36..68] == merkle && h[68..72] == LE(ntime, 4) && h[72..76] == LE(bits, 4);
  }

  /** A header's six fields, each at its place. */
  lemma HeaderIff(prevHash: bytes, merkle: bytes, ntime: int, bits: int, nonce: int, h: bytes)
    requires |prevHash| == 32 && |merkle| == 32
    ensures MakeHeader(prevHash, merkle, ntime, bits, nonce) == Ok(h) <==>
              && |h| == 80 && h[..4] == [1, 0, 0, 0] && h[4..36] == prevHash && h[36..68] == merkle
              && FromLE(h[68..72]) == ntime && FromLE(h[72..76]) == bits && FromLE(h[76..]) == nonce
  {
    hide LE, FromLE, Pow256;
    VersionOne();
    if MakeHeader(prevHash, merkle, ntime, bits, nonce) == Ok(h) {
      HeaderFields(prevHash, merkle, ntime, bits, nonce);
      LERoundTrip(nonce, 4);
      assert h[..4] == LE(1, 4) && h[76..] == LE(nonce, 4);
    }
    if |h| == 80 && FromLE(h[68..72]) == ntime && FromLE(h[72..76]) == bits && FromLE(h[76..]) == nonce {
      FieldFits(h[68..72]);
      FieldFits(h[72..76]);
      FieldFits(h[76..]);
      assert h == h[..4] + h[4..36] + h[36..68] + h[68..72] + h[72..76] + h[76..];
    }
  }

  lemma VersionOne()
    ensures LE(1, 4) == [1, 0, 0, 0]
  {
    assert LE(0, 1) == [0] && LE(0, 2) == [0, 0] && LE(0, 3) == [0, 0, 0];
  }

  lemma FieldFits(b: bytes)
    requires |b| == 4
    ensures PackU(FromLE(b), 4) == Ok(b)
  {
    FromLEBound(b);
    FromLERoundTrip(b);
  }

  /** A block made for a checkpoint passes the structure check for exactly that checkpoint's payload,
      and for exactly those median times it is later than. */
  lemma MadeBlockVerifies(dsha: bytes -> Hash256, epoch: int, sha256: bytes, shake384: bytes, flags: int,
                          prevHash: bytes, ntime: int, bits: int, nonce: int, value: int, pubkey: bytes,
                          expected: bytes, medianTimePast: Option<int>)
    requires AnchorPayload(epoch, sha256, shake384, flags).Ok?
    requires MakeBlock(dsha, AnchorPayload(epoch, sha256, shake384, flags).value, prevHash, ntime, bits, nonce,
                       value, pubkey).Ok?
    ensures var p := AnchorPayload(epoch, sha256, shake384, flags).value;
            var raw := MakeBlock(dsha, p, prevHash, ntime, bits, nonce, value, pubkey).value;
      VerifyCandidate(dsha, raw, expected, medianTimePast)
        == Ok(expected == p && (medianTimePast.None? || ntime > medianTimePast.value))
  {
    hide AnchorPayload, CoinbaseTx, MakeHeader, ExtractAnchor, ParseCoinbaseTx, FromLE;
    var p := AnchorPayload(epoch, sha256, shake384, flags).value;
    var raw := MakeBlock(dsha, p, prevHash, ntime, bits, nonce, value, pubkey).value;
    var tx := CoinbaseTx(p, value, pubkey).value;
    var header := MakeHeader(prevHash, dsha(tx), ntime, bits, nonce).value;
    AnchorRoundTrip(epoch, sha256, shake384, flags, value, pubkey);
    ExtractedParses(tx);
    HeaderFields(prevHash, dsha(tx), ntime, bits, nonce);
    assert raw[..80] == header && raw[80] == 1 && raw[81..] == tx;
    CoinbaseNotEmpty(p, value, pubkey);
  }

  lemma CoinbaseNotEmpty(payload: bytes, value: int, pubkey: bytes)
    requires CoinbaseTx(payload, value, pubkey).Ok?
    ensures CoinbaseTx(payload, value, pubkey).value != []
  {
  }

  /** A block commits to one payload. */
  lemma BlockBindsPayload(dsha: bytes -> Hash256, raw: bytes, p: bytes, q: bytes, t: Option<int>, u: Option<int>)
    requires VerifyCandidate(dsha, raw, p, t) == Ok(true) && VerifyCandidate(dsha, raw, q, u) == Ok(true)
    ensures p == q
  {
  }

  // ---- targets ----

  /** mantissa << 8 * (exponent - 3); Python raises on a negative shift. */
  function TargetFromBits(bits: nat): Result<nat> {
    var exponent, mantissa := bits / 0x100_0000, bits % 0x80_0000;
    if exponent < 3 then Raised else Ok(mantissa * Pow256(exponent - 3))
  }

  /** The double hash of a header as the integer that is compared with the target. */
  function Work(dsha: bytes -> Hash256, header: bytes): nat {
    FromLE(dsha(header))
  }

  /** The header's hash, read little-endian, is at most the target its own bytes 72 to 75 spell: three bytes of
      mantissa, the top bit left out, scaled by as many bytes as the fourth says beyond three. */
  ghost predicate ProvesWork(dsha: bytes -> Hash256, header: bytes) {
    && |header| == 80 && header[75] >= 3
    && var mantissa := header[72] as int + 0x100 * header[73] as int + 0x1_0000 * (header[74] as int % 0x80);
       FromLE(dsha(header)) <= mantissa * Pow256(header[75] - 3)
  }

  lemma FourBytes(b: bytes)
    requires |b| == 4
    ensures FromLE(b) == b[0] as int + 0x100 * b[1] as int + 0x1_0000 * b[2] as int + 0x100_0000 * b[3] as int
  {
    assert FromLE(b) == b[0] + 0x100 * FromLE(b[1..]);
    assert FromLE(b[1..]) == b[1] + 0x100 * FromLE(b[2..]) by { assert b[1..][1..] == b[2..]; }
    assert FromLE(b[2..]) == b[2] + 0x100 * FromLE(b[3..]) by { assert b[2..][1..] == b[3..]; }
    assert FromLE(b[3..]) == b[3] by { assert b[3..][1..] == []; }
  }

  lemma BitsSplit(b0: nat, b1: nat, b2: nat, b3: nat)
    requires b0 < 0x100 && b1 < 0x100 && b2 < 0x100 && b3 < 0x100
    ensures var bits := b0 + 0x100 * b1 + 0x1_0000 * b2 + 0x100_0000 * b3;
      bits / 0x100_0000 == b3 && bits % 0x80_0000 == b0 + 0x100 * b1 + 0x1_0000 * (b2 % 0x80)
  {
    var low := b0 + 0x100 * b1;
    var bits := low + 0x1_0000 * b2 + 0x100_0000 * b3;
    var h, l := b2 / 0x80, b2 % 0x80;
    assert b2 == 0x80 * h + l;
    assert bits == 0x80_0000 * (h + 2 * b3) + (low + 0x1_0000 * l);
  }

  /** The comparison of a header's hash with its own target, done with integers. */
  lemma WorkIff(dsha: bytes -> Hash256, header: bytes)
    requires |header| == 80
    ensures TargetFromBits(FromLE(header[72..76])).Ok? <==> header[75] >= 3
    ensures ProvesWork(dsha, header) <==>
              && TargetFromBits(FromLE(header[72..76])).Ok?
              && Work(dsha, header) <= TargetFromBits(FromLE(header[72..76])).value
  {
    hide FromLE, Pow256;
    FourBytes(header[72..76]);
    BitsSplit(header[72], header[73], header[74], header[75]);
  }
}
