/** What a proof's operations do to the bytes of a message, what its attestations say, and hence what is
    attested (ctp/ots.py). */
module OtsOperations {
  import opened Wrappers
  import opened Bytes
  import opened Ots
  import opened OtsProofs

  // ---- one operation ----

  predicate LowerHex(c: byte) {
    0x30 <= c <= 0x39 || 0x61 <= c <= 0x66
  }

  function Nibble(c: byte): nat
    requires LowerHex(c)
  {
    if c <= 0x39 then c - 0x30 else c - 0x61 + 10
  }

  /** Two lower-case hexadecimal digits for every byte, the high one first. */
  ghost predicate HexOf(r: bytes, m: bytes) {
    && |r| == 2 * |m|
    && forall k | 0 <= k < |m| ::
         LowerHex(r[2 * k]) && LowerHex(r[2 * k + 1]) && 16 * Nibble(r[2 * k]) + Nibble(r[2 * k + 1]) == m[k]
  }

  /** The operation turns the message `m` into `r`: 0x02, 0x03 and 0x08 hash it, 0xf0 puts the argument behind
      it, 0xf1 before it, 0xf2 turns its bytes around, 0xf3 spells them out. */
  ghost predicate Produces(h: Hashes, op: Operation, m: bytes, r: bytes) {
    || (op.code == 0x02 && r == h.sha1(m))
    || (op.code == 0x03 && r == h.ripemd160(m))
    || (op.code == 0x08 && r == h.sha256(m))
    || (op.code == 0xf0 && |r| == |m| + |op.arg| && r[..|m|] == m && r[|m|..] == op.arg)
    || (op.code == 0xf1 && |r| == |m| + |op.arg| && r[..|op.arg|] == op.arg && r[|op.arg|..] == m)
    || (op.code == 0xf2 && Backwards(r, m))
    || (op.code == 0xf3 && HexOf(r, m))
  }

  lemma DigitIs(n: nat)
    requires n < 16
    ensures LowerHex(HexDigit(n)) && Nibble(HexDigit(n)) == n
    ensures forall c: byte | LowerHex(c) && Nibble(c) == n :: c == HexDigit(n)
  {
  }

  lemma {:induction false} HexlifyIff(r: bytes, m: bytes)
    ensures r == Hexlify(m) <==> HexOf(r, m)
    decreases m
  {
    hide HexOf, LowerHex, Nibble, HexDigit;
    if m == [] {
      NoHex(r);
    } else {
      var t := Hexlify(m);
      assert t[2..] == Hexlify(m[1..]);
      HexlifyIff(t[2..], m[1..]);
      HexHead(t, m);
      DigitIs(m[0] / 16);
      DigitIs(m[0] % 16);
      if HexOf(r, m) {
        HexSame(r, m);
        HexlifyIff(r[2..], m[1..]);
      }
    }
  }

  lemma NoHex(r: bytes)
    ensures HexOf(r, []) <==> r == []
  {
  }

  lemma HexSame(r: bytes, m: bytes)
    requires m != [] && HexOf(r, m)
    ensures |r| >= 2 && r == [HexDigit(m[0] / 16), HexDigit(m[0] % 16)] + r[2..] && HexOf(r[2..], m[1..])
  {
    hide LowerHex, Nibble, HexDigit;
    HexHead(r, m);
    HexBytes(m[0], r[0], r[1]);
  }

  lemma HexBytes(x: byte, hi: byte, lo: byte)
    requires LowerHex(hi) && LowerHex(lo) && 16 * Nibble(hi) + Nibble(lo) == x
    ensures hi == HexDigit(x / 16) && lo == HexDigit(x % 16)
  {
    assert Nibble(lo) < 16 && Nibble(hi) == x / 16 && Nibble(lo) == x % 16;
    DigitIs(x / 16);
    DigitIs(x % 16);
  }

  lemma HexHead(r: bytes, m: bytes)
    requires m != [] && |r| >= 2
    ensures HexOf(r, m) <==>
              && LowerHex(r[0]) && LowerHex(r[1]) && 16 * Nibble(r[0]) + Nibble(r[1]) == m[0] && HexOf(r[2..], m[1..])
  {
    hide LowerHex, Nibble;
    var s, n := r[2..], m[1..];
    if |r| == 2 * |m| {
      forall k | 0 <= k < |n|
        ensures s[2 * k] == r[2 * (k + 1)] && s[2 * k + 1] == r[2 * (k + 1) + 1] && n[k] == m[k + 1]
      {}
      if HexOf(s, n) && LowerHex(r[0]) && LowerHex(r[1]) && 16 * Nibble(r[0]) + Nibble(r[1]) == m[0] {
        forall k | 0 <= k < |m|
          ensures LowerHex(r[2 * k]) && LowerHex(r[2 * k + 1]) && 16 * Nibble(r[2 * k]) + Nibble(r[2 * k + 1]) == m[k]
        {
          if k > 0 { assert s[2 * (k - 1)] == r[2 * k] && s[2 * (k - 1) + 1] == r[2 * k + 1] && n[k - 1] == m[k]; }
        }
      }
      if HexOf(r, m) {
        assert LowerHex(r[2 * 0]) && LowerHex(r[2 * 0 + 1]);
        forall k | 0 <= k < |n|
          ensures LowerHex(s[2 * k]) && LowerHex(s[2 * k + 1]) && 16 * Nibble(s[2 * k]) + Nibble(s[2 * k + 1]) == n[k]
        {
          assert s[2 * k] == r[2 * (k + 1)] && s[2 * k + 1] == r[2 * (k + 1) + 1];
        }
      }
    }
  }

  /** An operation of the reader is exactly this; with any other code it raises. */
  lemma ApplyIff(h: Hashes, op: Operation, m: bytes, r: bytes)
    ensures Apply(h, op.code, m, op.arg) == Ok(r) <==> Produces(h, op, m, r)
  {
    hide HexOf, Hexlify, Reverse, Backwards;
    HexlifyIff(r, m);
    ReverseIff(r, m);
    if |r| == |m| + |op.arg| {
      assert r == r[..|m|] + r[|m|..] && r == r[..|op.arg|] + r[|op.arg|..];
    }
  }

  // ---- a path of operations ----

  /** Each operation turns the message before it into the one after it. */
  ghost predicate Chained(h: Hashes, ops: seq<Operation>, ms: seq<bytes>) {
    |ms| == |ops| + 1 && forall i | 0 <= i < |ops| :: Produces(h, ops[i], ms[i], ms[i + 1])
  }

  ghost predicate Leads(h: Hashes, ops: seq<Operation>, from: bytes, to: bytes) {
    exists ms :: Chained(h, ops, ms) && ms[0] == from && ms[|ops|] == to
  }

  lemma {:induction false} ApplyAllIff(h: Hashes, ops: seq<Operation>, m: bytes, r: bytes)
    ensures ApplyAll(h, ops, m) == Ok(r) <==> Leads(h, ops, m, r)
    decreases ops
  {
    hide Apply, Produces;
    if ops == [] {
      assert Chained(h, ops, [m]);
    } else {
      var next := Apply(h, ops[0].code, m, ops[0].arg);
      if next.Ok? {
        ApplyIff(h, ops[0], m, next.value);
        ApplyAllIff(h, ops[1..], next.value, r);
        if ms :| Chained(h, ops[1..], ms) && ms[0] == next.value && ms[|ops| - 1] == r { LinkFirst(h, ops, m, ms); }
      }
      if ms :| Chained(h, ops, ms) && ms[0] == m && ms[|ops|] == r {
        ApplyIff(h, ops[0], m, ms[1]);
        UnlinkFirst(h, ops, ms);
        ApplyAllIff(h, ops[1..], ms[1], r);
        assert ms[1..][0] == ms[1] && ms[1..][|ops| - 1] == r;
      }
    }
  }

  lemma LinkFirst(h: Hashes, ops: seq<Operation>, m: bytes, ms: seq<bytes>)
    requires ops != [] && Chained(h, ops[1..], ms) && Produces(h, ops[0], m, ms[0])
    ensures Chained(h, ops, [m] + ms) && ([m] + ms)[|ops|] == ms[|ops| - 1]
  {
    hide Produces;
    var all := [m] + ms;
    forall i | 0 <= i < |ops| ensures Produces(h, ops[i], all[i], all[i + 1]) {
      if i > 0 { assert Produces(h, ops[1..][i - 1], ms[i - 1], ms[i - 1 + 1]); }
    }
  }

  lemma UnlinkFirst(h: Hashes, ops: seq<Operation>, ms: seq<bytes>)
    requires ops != [] && Chained(h, ops, ms)
    ensures Produces(h, ops[0], ms[0], ms[1]) && Chained(h, ops[1..], ms[1..])
  {
    hide Produces;
    assert Produces(h, ops[0], ms[0], ms[0 + 1]);
    forall i | 0 <= i < |ops[1..]| ensures Produces(h, ops[1..][i], ms[1..][i], ms[1..][i + 1]) {
      assert Produces(h, ops[i + 1], ms[i + 1], ms[i + 1 + 1]);
    }
  }

  // ---- appending and prepending only ----

  ghost predicate OnlyJoins(ops: seq<Operation>) {
    forall i | 0 <= i < |ops| :: ops[i].code == 0xf0 || ops[i].code == 0xf1
  }

  /** The arguments of the prepending operations, the last first. */
  function Before(ops: seq<Operation>): bytes {
    if ops == [] then [] else Before(ops[1..]) + (if ops[0].code == 0xf1 then ops[0].arg else [])
  }

  /** The arguments of the appending operations, in order. */
  function After(ops: seq<Operation>): bytes {
    if ops == [] then [] else (if ops[0].code == 0xf0 then ops[0].arg else []) + After(ops[1..])
  }

  lemma {:induction false} JoinsOnly(h: Hashes, ops: seq<Operation>, m: bytes)
    requires OnlyJoins(ops)
    ensures ApplyAll(h, ops, m) == Ok(Before(ops) + m + After(ops))
    decreases ops
  {
    if ops == [] {
      assert [] + m + [] == m;
    } else {
      var op, rest := ops[0], ops[1..];
      var next := if op.code == 0xf0 then m + op.arg else op.arg + m;
      JoinsOnly(h, rest, next);
      ApplyIff(h, op, m, next);
      if op.code == 0xf0 {
        assert Before(ops) == Before(rest);
        assert Before(rest) + (m + op.arg) + After(rest) == Before(rest) + m + (op.arg + After(rest));
      } else {
        assert After(ops) == After(rest);
        assert Before(rest) + (op.arg + m) + After(rest) == (Before(rest) + op.arg) + m + After(rest);
      }
    }
  }

  // ---- numbers ----

  function Pow128(k: nat): nat {
    if k == 0 then 1 else 128 * Pow128(k - 1)
  }

  /** The low seven bits of the bytes as the digits of a number, the least significant first. */
  function Digits(b: bytes): nat {
    if b == [] then 0 else Digits(b[..|b| - 1]) + b[|b| - 1] % 128 * Pow128(|b| - 1)
  }

  /** At position i stand bytes with the top bit set, then one without it; they are the digits of n. */
  ghost predicate NumberAt(d: bytes, i: nat, n: nat, j: nat) {
    && i < j <= |d| && d[j - 1] < 128 && (forall k | i <= k < j - 1 :: d[k] >= 128)
    && n == Digits(d[i..j])
  }

  lemma {:induction false} DigitsHead(b: bytes)
    requires b != []
    ensures Digits(b) == b[0] % 128 + 128 * Digits(b[1..])
  {
    var n := |b| - 1;
    if n == 0 {
      assert b[..0] == [] && b[1..] == [] && Pow128(0) == 1;
    } else {
      DigitsHead(b[..n]);
      assert b[..n][1..] == b[1..][..n - 1] && b[..n][0] == b[0] && b[1..][n - 1] == b[n];
      var x, p := b[n] % 128, Pow128(n - 1);
      assert Digits(b[1..]) == Digits(b[1..][..n - 1]) + x * p;
      Carried(x, p);
    }
  }

  lemma Carried(x: nat, p: nat)
    ensures x * (128 * p) == 128 * (x * p)
  {
  }

  lemma OneDigit(d: bytes, i: nat, n: nat, j: nat)
    requires i < |d| && d[i] < 128
    ensures NumberAt(d, i, n, j) <==> n == d[i] && j == i + 1
  {
    hide Digits;
    DigitsHead([d[i]]);
    NoDigits();
    assert d[i..i + 1] == [d[i]] && [d[i]][1..] == [];
  }

  lemma NoDigits()
    ensures Digits([]) == 0
  {
  }

  lemma NextDigit(d: bytes, i: nat, rest: nat, j: nat)
    requires i < |d| && d[i] >= 128
    ensures NumberAt(d, i, d[i] - 128 + 128 * rest, j) <==> NumberAt(d, i + 1, rest, j)
  {
    hide Digits;
    if i + 1 < j <= |d| {
      DigitsHead(d[i..j]);
      assert d[i..j][1..] == d[i + 1..j] && d[i..j][0] == d[i];
    }
  }

  lemma {:induction false} VaruintIff(d: bytes, i: nat, n: nat, j: nat)
    ensures Varuint(d, i) == Ok((n, j)) <==> NumberAt(d, i, n, j)
    decreases |d| - i
  {
    if i >= |d| {
    } else if d[i] < 128 {
      hide NumberAt;
      OneDigit(d, i, n, j);
    } else {
      if NumberAt(d, i, n, j) { NumberSplits(d, i, n, j); }
      hide NumberAt;
      var rest := (n - (d[i] - 128)) / 128;
      if rest >= 0 {
        NextDigit(d, i, rest, j);
        VaruintIff(d, i + 1, rest, j);
      }
    }
  }

  lemma NumberSplits(d: bytes, i: nat, n: nat, j: nat)
    requires i < |d| && d[i] >= 128 && NumberAt(d, i, n, j)
    ensures exists rest: nat :: n == d[i] - 128 + 128 * rest
  {
    hide Digits;
    DigitsHead(d[i..j]);
    assert n == d[i] - 128 + 128 * Digits(d[i..j][1..]);
  }

  // ---- attestations ----

  ghost predicate StartsWithNumber(payload: bytes, n: nat) {
    exists j: nat :: NumberAt(payload, 0, n, j)
  }

  /** The payload starts with the text, its length before it. */
  ghost predicate StartsWithText(payload: bytes, text: bytes) {
    exists j: nat :: NumberAt(payload, 0, |text|, j) && At(payload, j, text)
  }

  /** What the tag and the payload say of the attestation; what follows the number or the text is ignored. */
  ghost predicate Says(tag: bytes, payload: bytes, a: Attestation) {
    if tag == [0x83, 0xdf, 0xe3, 0x0d, 0x2e, 0xf9, 0x0c, 0x8e] then a.Pending? && StartsWithText(payload, a.uri)
    else if tag == [0x05, 0x88, 0x96, 0x0d, 0x73, 0xd7, 0x19, 0x01]
      then a.Bitcoin? && StartsWithNumber(payload, a.height)
    else if tag == [0x06, 0x86, 0x9a, 0x0d, 0x73, 0xd7, 0x1b, 0x45]
      then a.Litecoin? && StartsWithNumber(payload, a.height)
    else if tag == [0x30, 0xfe, 0x80, 0x87, 0xb5, 0xc7, 0xea, 0xd7]
      then a.Ethereum? && StartsWithNumber(payload, a.height)
    else a.Unknown?
  }

  lemma NumberIff(payload: bytes, n: nat)
    ensures Varuint(payload, 0).Ok? && Varuint(payload, 0).value.0 == n <==> StartsWithNumber(payload, n)
  {
    hide NumberAt;
    if Varuint(payload, 0).Ok? { VaruintIff(payload, 0, Varuint(payload, 0).value.0, Varuint(payload, 0).value.1); }
    if j: nat :| NumberAt(payload, 0, n, j) { VaruintIff(payload, 0, n, j); }
  }

  lemma TextIff(payload: bytes, text: bytes)
    ensures Varbytes(payload, 0).Ok? && Varbytes(payload, 0).value.0 == text <==> StartsWithText(payload, text)
  {
    hide NumberAt, Varuint;
    if Varbytes(payload, 0).Ok? { VaruintIff(payload, 0, Varuint(payload, 0).value.0, Varuint(payload, 0).value.1); }
    if j: nat :| NumberAt(payload, 0, |text|, j) && At(payload, j, text) { VaruintIff(payload, 0, |text|, j); }
  }

  lemma AttestIff(tag: bytes, payload: bytes, m: bytes, a: Attestation)
    ensures Attest(tag, payload, m) == Ok(a) <==> a.message == m && Says(tag, payload, a)
  {
    hide Varuint, Varbytes, StartsWithText, StartsWithNumber;
    if a.Pending? { TextIff(payload, a.uri); }
    if a.Bitcoin? || a.Litecoin? || a.Ethereum? { NumberIff(payload, a.height); }
  }

  // ---- a whole file ----

  /** The attestation is the one at the end of the path: its message is what the operations lead to. */
  ghost predicate Attests(h: Hashes, p: Path, m: bytes, a: Attestation) {
    Leads(h, p.ops, m, a.message) && Says(p.tag, p.payload, a)
  }

  lemma AttestedIff(h: Hashes, p: Path, m: bytes, a: Attestation)
    ensures Attested(h, p, m) == Ok(a) <==> Attests(h, p, m, a)
  {
    hide ApplyAll, Attest, Leads, Says;
    ApplyAllIff(h, p.ops, m, a.message);
    AttestIff(p.tag, p.payload, a.message, a);
    if Attested(h, p, m) == Ok(a) { AttestIff(p.tag, p.payload, ApplyAll(h, p.ops, m).value, a); }
  }

  ghost predicate AllAttest(h: Hashes, paths: seq<Path>, m: bytes, found: seq<Attestation>) {
    |found| == |paths| && forall k | 0 <= k < |paths| :: Attests(h, paths[k], m, found[k])
  }

  lemma {:induction false} MeaningIff(h: Hashes, paths: seq<Path>, m: bytes, found: seq<Attestation>)
    ensures Meaning(h, paths, m) == Ok(found) <==> AllAttest(h, paths, m, found)
    decreases paths
  {
    hide Attested, Attests;
    if paths != [] {
      if found != [] {
        AttestedIff(h, paths[0], m, found[0]);
        MeaningIff(h, paths[1..], m, found[1..]);
        assert found == [found[0]] + found[1..];
        AttestSplit(h, paths, m, found);
      }
    }
  }

  lemma AttestSplit(h: Hashes, paths: seq<Path>, m: bytes, found: seq<Attestation>)
    requires paths != [] && found != []
    ensures AllAttest(h, paths, m, found)
       <==> Attests(h, paths[0], m, found[0]) && AllAttest(h, paths[1..], m, found[1..])
  {
    hide Attests;
    var ps, fs := paths[1..], found[1..];
    if AllAttest(h, paths, m, found) {
      forall k | 0 <= k < |ps| ensures Attests(h, ps[k], m, fs[k]) { assert Attests(h, paths[k + 1], m, found[k + 1]); }
    }
    if Attests(h, paths[0], m, found[0]) && AllAttest(h, ps, m, fs) {
      forall k | 0 <= k < |paths| ensures Attests(h, paths[k], m, found[k]) {
        if k > 0 { assert Attests(h, ps[k - 1], m, fs[k - 1]); }
      }
    }
  }

  /** The hash operations a file may name, and the lengths of their digests. */
  ghost predicate DigestFits(op: byte, length: nat) {
    (op == 0x08 && length == 32) || ((op == 0x02 || op == 0x03) && length == 20)
  }

  /** The file is laid out as magic, version 1 up to `v`, the hash operation, the digest, and a tree each of whose
      paths leads to one attestation. */
  ghost predicate Holds(h: Hashes, data: bytes, p: Proof, v: nat) {
    && At(data, 0, MAGIC) && NumberAt(data, |MAGIC|, 1, v)
    && v < |data| && data[v] == p.fileHashOp && DigestFits(p.fileHashOp, |p.fileDigest|)
    && At(data, v + 1, p.fileDigest)
    && ReadTree(data, v + 1 + |p.fileDigest|, 0).Ok?
    && AllAttest(h, Paths(ReadTree(data, v + 1 + |p.fileDigest|, 0).value.0), p.fileDigest, p.attestations)
  }

  /** A proof is accepted exactly when it is laid out so, and what is found in it is exactly what its paths lead
      to: said of the bytes of the messages, operation by operation. */
  lemma ParseIff(h: Hashes, data: bytes, p: Proof)
    ensures Parse(h, data) == Ok(p) <==> exists v: nat :: Holds(h, data, p, v)
  {
    hide Timestamp, ReadTree, Paths, Meaning, Varuint, NumberAt, AllAttest;
    var n := Varuint(data, |MAGIC|);
    if n.Ok? && n.value.0 == 1 { HeaderIff(h, data, p, n.value.1); }
    forall v: nat | Holds(h, data, p, v) ensures n == Ok((1, v)) { VaruintIff(data, |MAGIC|, 1, v); }
  }

  lemma HeaderIff(h: Hashes, data: bytes, p: Proof, v: nat)
    requires Varuint(data, |MAGIC|) == Ok((1, v))
    ensures Parse(h, data) == Ok(p) <==> Holds(h, data, p, v)
  {
    hide Timestamp, ReadTree, Paths, Meaning, Varuint, NumberAt, AllAttest;
    VaruintIff(data, |MAGIC|, 1, v);
    var start := v + 1 + |p.fileDigest|;
    TimestampMeans(h, data, start, p.fileDigest, 0);
    if ReadTree(data, start, 0).Ok? {
      MeaningIff(h, Paths(ReadTree(data, start, 0).value.0), p.fileDigest, p.attestations);
    }
  }

  /** Where only appending and prepending operations lead to an attestation, its message is the prepended
      arguments, the last first, then the file digest, then the appended arguments in order. */
  lemma JoinedMessage(h: Hashes, data: bytes, v: nat, k: nat)
    requires Parse(h, data).Ok? && Holds(h, data, Parse(h, data).value, v) && k < |Parse(h, data).value.attestations|
    ensures var p := Parse(h, data).value;
            var ops := Paths(ReadTree(data, v + 1 + |p.fileDigest|, 0).value.0)[k].ops;
            OnlyJoins(ops) ==> p.attestations[k].message == Before(ops) + p.fileDigest + After(ops)
  {
    hide Parse, ReadTree, Paths, Leads, Says, ApplyAll, OnlyJoins, NumberAt;
    var p := Parse(h, data).value;
    var path := Paths(ReadTree(data, v + 1 + |p.fileDigest|, 0).value.0)[k];
    assert Attests(h, path, p.fileDigest, p.attestations[k]);
    ApplyAllIff(h, path.ops, p.fileDigest, p.attestations[k].message);
    if OnlyJoins(path.ops) { JoinsOnly(h, path.ops, p.fileDigest); }
  }
}
