/** Reader for OpenTimestamps detached proofs (ctp/ots.py). */
module Ots {
  import opened Wrappers
  import opened Bytes

  const MAGIC: bytes :=
    [0x00, 0x4f, 0x70, 0x65, 0x6e, 0x54, 0x69, 0x6d, 0x65, 0x73, 0x74, 0x61, 0x6d, 0x70, 0x73, 0x00,
     0x00, 0x50, 0x72, 0x6f, 0x6f, 0x66, 0x00, 0xbf, 0x89, 0xe2, 0xe8, 0x84, 0xe8, 0x92, 0x94]
  const PENDING_TAG: bytes := [0x83, 0xdf, 0xe3, 0x0d, 0x2e, 0xf9, 0x0c, 0x8e]
  const BITCOIN_TAG: bytes := [0x05, 0x88, 0x96, 0x0d, 0x73, 0xd7, 0x19, 0x01]
  const LITECOIN_TAG: bytes := [0x06, 0x86, 0x9a, 0x0d, 0x73, 0xd7, 0x1b, 0x45]
  const ETHEREUM_TAG: bytes := [0x30, 0xfe, 0x80, 0x87, 0xb5, 0xc7, 0xea, 0xd7]

  const OP_SHA1: byte := 0x02
  const OP_RIPEMD160: byte := 0x03
  const OP_SHA256: byte := 0x08
  const OP_APPEND: byte := 0xf0
  const OP_PREPEND: byte := 0xf1
  const OP_REVERSE: byte := 0xf2
  const OP_HEXLIFY: byte := 0xf3
  const FORK: byte := 0xff
  const MAX_DEPTH := 256

  // ---- reading at a position ----

  function ReadByte(d: bytes, i: nat): (r: Result<(byte, nat)>)
    ensures r.Ok? ==> r.value.1 == i + 1 <= |d|
  {
    if i >= |d| then Raised else Ok((d[i], i + 1))
  }

  function Take(d: bytes, i: nat, n: nat): (r: Result<(bytes, nat)>)
    ensures r.Ok? ==> r.value.1 == i + n <= |d|
  {
    if i + n > |d| then Raised else Ok((d[i..i + n], i + n))
  }

  /** Seven bits a byte, least significant first, the top bit set on all but the last. */
  function Varuint(d: bytes, i: nat): (r: Result<(nat, nat)>)
    ensures r.Ok? ==> i < r.value.1 <= |d|
    decreases |d| - i
  {
    if i >= |d| then Raised
    else if d[i] < 128 then Ok((d[i], i + 1))
    else
      var (rest, j) :- Varuint(d, i + 1);
      Ok((d[i] - 128 + 128 * rest, j))
  }

  function Varbytes(d: bytes, i: nat): (r: Result<(bytes, nat)>)
    ensures r.Ok? ==> i < r.value.1 <= |d|
  {
    var (n, j) :- Varuint(d, i);
    Take(d, j, n)
  }

  /** class _Reader */
  class Reader {
    const d: bytes
    var i: nat

    constructor (data: bytes)
      ensures d == data && i == 0
    {
      d, i := data, 0;
    }

    method Byte() returns (r: Result<byte>)
      modifies this
      ensures match ReadByte(d, old(i))
              case Raised => r.Raised? && i == old(i)
              case Ok((b, j)) => r == Ok(b) && i == j
    {
      if i >= |d| { return Raised; }
      r := Ok(d[i]);
      i := i + 1;
    }

    method TakeBytes(n: nat) returns (r: Result<bytes>)
      modifies this
      ensures match Take(d, old(i), n)
              case Raised => r.Raised? && i == old(i)
              case Ok((b, j)) => r == Ok(b) && i == j
    {
      if i + n > |d| { return Raised; }
      r := Ok(d[i..i + n]);
      i := i + n;
    }

    /** val |= (b & 0x7f) << shift adds, because val is always below 2^shift; here scale is 2^shift. */
    method ReadVaruint() returns (r: Result<nat>)
      modifies this
      ensures match Varuint(d, old(i))
              case Raised => r.Raised?
              case Ok((n, j)) => r == Ok(n) && i == j
      ensures i >= old(i)
    {
      hide Scaled;
      var val: nat, scale: nat := 0, 1;
      ScaledEnds(val, scale);
      while true
        invariant i >= old(i) && val < scale
        invariant match Varuint(d, i)
                  case Raised => Varuint(d, old(i)).Raised?
                  case Ok((n, j)) => Varuint(d, old(i)) == Ok((Scaled(val, scale, n), j))
        decreases |d| - i
      {
        ghost var start := i;
        var b := Byte();
        if b.Raised? { return Raised; }
        if b.value < 128 {
          ScaledEnds(val, scale);
          return Ok(val + scale * b.value);
        }
        if Varuint(d, i).Ok? {
          ScaledStep(val, scale, b.value - 128, Varuint(d, i).value.0);
        }
        ScaleBound(val, scale, b.value - 128);
        val, scale := val + scale * (b.value - 128), 128 * scale;
      }
    }

    method ReadVarbytes() returns (r: Result<bytes>)
      modifies this
      ensures match Varbytes(d, old(i))
              case Raised => r.Raised?
              case Ok((b, j)) => r == Ok(b) && i == j
      ensures i >= old(i)
    {
      var n := ReadVaruint();
      if n.Raised? { return Raised; }
      r := TakeBytes(n.value);
    }
  }

  function Scaled(val: nat, scale: nat, n: nat): nat {
    val + scale * n
  }

  lemma ScaledEnds(val: nat, scale: nat)
    ensures forall n: nat :: Scaled(0, 1, n) == n && Scaled(val, scale, n) == val + scale * n
  {
  }

  lemma ScaledStep(val: nat, scale: nat, low: nat, rest: nat)
    ensures Scaled(val, scale, low + 128 * rest) == Scaled(val + scale * low, 128 * scale, rest)
  {
    assert scale * (low + 128 * rest) == scale * low + scale * (128 * rest);
  }

  lemma ScaleBound(val: nat, scale: nat, low: nat)
    requires val < scale && low < 128
    ensures val + scale * low < 128 * scale
  {
    assert scale * low <= scale * 127;
  }

  // ---- operations and attestations ----

  datatype Hashes = Hashes(sha1: bytes -> bytes, sha256: bytes -> bytes, ripemd160: bytes -> bytes)

  function HexDigit(n: nat): byte
    requires n < 16
  {
    if n < 10 then 0x30 + n else 0x61 + n - 10
  }

  /** msg.hex().encode() */
  function Hexlify(msg: bytes): bytes {
    if msg == [] then [] else [HexDigit(msg[0] / 16), HexDigit(msg[0] % 16)] + Hexlify(msg[1..])
  }

  /** _apply; keccak256 and unknown operations raise. */
  function Apply(h: Hashes, op: byte, msg: bytes, arg: bytes): Result<bytes> {
    if op == OP_SHA256 then Ok(h.sha256(msg))
    else if op == OP_SHA1 then Ok(h.sha1(msg))
    else if op == OP_RIPEMD160 then Ok(h.ripemd160(msg))
    else if op == OP_APPEND then Ok(msg + arg)
    else if op == OP_PREPEND then Ok(arg + msg)
    else if op == OP_REVERSE then Ok(Reverse(msg))
    else if op == OP_HEXLIFY then Ok(Hexlify(msg))
    else Raised
  }

  datatype Attestation =
    | Bitcoin(height: nat, message: bytes)
    | Pending(uri: bytes, message: bytes)
    | Litecoin(height: nat, message: bytes)
    | Ethereum(height: nat, message: bytes)
    | Unknown(message: bytes)

  /** The attestation a tag and payload stand for; bytes left over in the payload are ignored. */
  function Attest(tag: bytes, payload: bytes, msg: bytes): Result<Attestation> {
    if tag == PENDING_TAG then
      var (uri, _) :- Varbytes(payload, 0);
      Ok(Pending(uri, msg))
    else if tag == BITCOIN_TAG || tag == LITECOIN_TAG || tag == ETHEREUM_TAG then
      var (height, _) :- Varuint(payload, 0);
      Ok(if tag == BITCOIN_TAG then Bitcoin(height, msg)
         else if tag == LITECOIN_TAG then Litecoin(height, msg)
         else Ethereum(height, msg))
    else Ok(Unknown(msg))
  }

  function ReadAttestation(d: bytes, i: nat, msg: bytes): (r: Result<(Attestation, nat)>)
    ensures r.Ok? ==> i < r.value.1 <= |d|
  {
    var (tag, j) :- Take(d, i, 8);
    var (payload, k) :- Varbytes(d, j);
    var a :- Attest(tag, payload, msg);
    Ok((a, k))
  }

  // ---- the recursive reader ----

  function TakesArgument(op: byte): bool {
    op == OP_APPEND || op == OP_PREPEND
  }

  function Argument(d: bytes, i: nat, op: byte): (r: Result<(bytes, nat)>)
    ensures r.Ok? ==> i <= r.value.1 && (i <= |d| ==> r.value.1 <= |d|)
  {
    if TakesArgument(op) then Varbytes(d, i) else Ok(([], i))
  }

  type Found = Result<(seq<Attestation>, nat)>

  /** _timestamp: the attestations it appends and where it stops. */
  function Timestamp(h: Hashes, d: bytes, i: nat, msg: bytes, depth: nat): (r: Found)
    ensures r.Ok? ==> i < r.value.1 <= |d|
    decreases |d| - i, 0
  {
    if depth > MAX_DEPTH || i >= |d| then Raised else Branches(h, d, i + 1, d[i], msg, depth)
  }

  /** The loop of _timestamp, tag being the byte just read. */
  function Branches(h: Hashes, d: bytes, i: nat, tag: byte, msg: bytes, depth: nat): (r: Found)
    ensures r.Ok? ==> i < r.value.1 <= |d|
    decreases |d| - i, 2
  {
    if tag != FORK then Step(h, d, i, tag, msg, depth + 1) else
    var (t, i1) :- ReadByte(d, i);
    var (first, i2) :- Step(h, d, i1, t, msg, depth + 1);
    var (tag', i3) :- ReadByte(d, i2);
    var (rest, i4) :- Branches(h, d, i3, tag', msg, depth);
    Ok((first + rest, i4))
  }

  /** _step, tag being the byte just read. */
  function Step(h: Hashes, d: bytes, i: nat, tag: byte, msg: bytes, depth: nat): (r: Found)
    ensures r.Ok? ==> i < r.value.1 <= |d|
    decreases |d| - i, 1
  {
    if tag == 0 then
      var (a, j) :- ReadAttestation(d, i, msg);
      Ok(([a], j))
    else
      var (arg, j) :- Argument(d, i, tag);
      var next :- Apply(h, tag, msg, arg);
      Timestamp(h, d, j, next, depth)
  }

  datatype Proof = Proof(fileDigest: bytes, fileHashOp: byte, attestations: seq<Attestation>)

  function DigestLength(op: byte): nat {
    if op == OP_SHA256 then 32 else if op == OP_SHA1 || op == OP_RIPEMD160 then 20 else 0
  }

  function Parse(h: Hashes, data: bytes): Result<Proof> {
    var (magic, i0) :- Take(data, 0, |MAGIC|);
    if magic != MAGIC then Raised else
    var (version, i1) :- Varuint(data, i0);
    if version != 1 then Raised else
    var (op, i2) :- ReadByte(data, i1);
    if DigestLength(op) == 0 then Raised else
    var (digest, i3) :- Take(data, i2, DigestLength(op));
    var (found, _) :- Timestamp(h, data, i3, digest, 0);
    Ok(Proof(digest, op, found))
  }

  function Single(r: Result<(Attestation, nat)>): Found {
    match r case Raised => Raised case Ok((a, j)) => Ok(([a], j))
  }

  function Onto(acc: seq<Attestation>, r: Found): Found {
    match r case Raised => Raised case Ok((rest, j)) => Ok((acc + rest, j))
  }

  lemma OntoStep(acc: seq<Attestation>, found: seq<Attestation>, r: Found)
    ensures Onto([], r) == r && Onto(acc, Onto(found, r)) == Onto(acc + found, r)
  {
    if r.Ok? {
      assert [] + r.value.0 == r.value.0 && acc + (found + r.value.0) == acc + found + r.value.0;
    }
  }

  /** The list `out` that the recursive reader appends to. */
  class Collector {
    var out: seq<Attestation>

    constructor ()
      ensures out == []
    {
      out := [];
    }
  }

  /** The reader and the shared list after a call that should have found `spec`. */
  twostate predicate Appended(r: Reader, c: Collector, ok: bool, new spec: Found)
    reads r, c
  {
    && r.i >= old(r.i)
    && match spec
       case Raised => !ok
       case Ok((found, j)) => ok && r.i == j && c.out == old(c.out) + found
  }

  method AttestationInto(r: Reader, msg: bytes, c: Collector) returns (ok: bool)
    modifies r, c
    ensures Appended(r, c, ok, Single(ReadAttestation(r.d, old(r.i), msg)))
  {
    var tag := r.TakeBytes(8);
    if tag.Raised? { return false; }
    var payload := r.ReadVarbytes();
    if payload.Raised? { return false; }
    var p := new Reader(payload.value);
    if tag.value == PENDING_TAG {
      var uri := p.ReadVarbytes();
      if uri.Raised? { return false; }
      c.out := c.out + [Pending(uri.value, msg)];
    } else if tag.value == BITCOIN_TAG || tag.value == LITECOIN_TAG || tag.value == ETHEREUM_TAG {
      var height := p.ReadVaruint();
      if height.Raised? { return false; }
      c.out := c.out + [if tag.value == BITCOIN_TAG then Bitcoin(height.value, msg)
                        else if tag.value == LITECOIN_TAG then Litecoin(height.value, msg)
                        else Ethereum(height.value, msg)];
    } else {
      c.out := c.out + [Unknown(msg)];
    }
    ok := true;
  }

  method TimestampInto(h: Hashes, r: Reader, msg: bytes, c: Collector, depth: nat) returns (ok: bool)
    modifies r, c
    ensures Appended(r, c, ok, Timestamp(h, r.d, old(r.i), msg, depth))
    decreases |r.d| - r.i, 0
  {
    hide Step;
    if depth > MAX_DEPTH { return false; }
    var tag := r.Byte();
    if tag.Raised? { return false; }
    ghost var spec := Timestamp(h, r.d, old(r.i), msg, depth);
    ghost var added: seq<Attestation> := [];
    OntoStep([], [], spec);
    while tag.value == FORK
      invariant tag.Ok? && r.i > old(r.i) && c.out == old(c.out) + added
      invariant spec == Onto(added, Branches(h, r.d, r.i, tag.value, msg, depth))
      decreases |r.d| - r.i
    {
      ghost var start, t := r.i, tag.value;
      ghost var was := c.out;
      ok := StepInto(h, r, msg, c, depth + 1, None);
      if !ok { return false; }
      ghost var found := c.out[|was|..];
      assert c.out == was + found;
      tag := r.Byte();
      if tag.Raised? { return false; }
      OntoStep(added, found, Branches(h, r.d, r.i, tag.value, msg, depth));
      added := added + found;
    }
    ok := StepInto(h, r, msg, c, depth + 1, Some(tag.value));
  }

  /** What _step should find when it is given the tag, or has to read it. */
  function StepSpec(h: Hashes, d: bytes, i: nat, tag: Option<byte>, msg: bytes, depth: nat): Found {
    match tag
    case Some(t) => Step(h, d, i, t, msg, depth)
    case None =>
      var (t, j) :- ReadByte(d, i);
      Step(h, d, j, t, msg, depth)
  }

  method StepInto(h: Hashes, r: Reader, msg: bytes, c: Collector, depth: nat, given: Option<byte>) returns (ok: bool)
    modifies r, c
    ensures Appended(r, c, ok, StepSpec(h, r.d, old(r.i), given, msg, depth))
    decreases |r.d| - r.i, 1
  {
    hide Timestamp, ReadAttestation, Apply;
    var tag: byte;
    if given.None? {
      var b := r.Byte();
      if b.Raised? { return false; }
      tag := b.value;
    } else {
      tag := given.value;
    }
    if tag == 0 {
      ok := AttestationInto(r, msg, c);
      return;
    }
    var arg: bytes := [];
    if TakesArgument(tag) {
      var a := r.ReadVarbytes();
      if a.Raised? { return false; }
      arg := a.value;
    }
    var next := Apply(h, tag, msg, arg);
    if next.Raised? { return false; }
    ok := TimestampInto(h, r, next.value, c, depth);
  }

  method ParseFile(h: Hashes, data: bytes) returns (r: Result<Proof>)
    ensures r == Parse(h, data)
  {
    hide Timestamp;
    var reader := new Reader(data);
    var magic := reader.TakeBytes(|MAGIC|);
    if magic.Raised? || magic.value != MAGIC { return Raised; }
    var version := reader.ReadVaruint();
    if version.Raised? || version.value != 1 { return Raised; }
    var op := reader.Byte();
    if op.Raised? || DigestLength(op.value) == 0 { return Raised; }
    var digest := reader.TakeBytes(DigestLength(op.value));
    if digest.Raised? { return Raised; }
    var c := new Collector();
    ghost var found := Timestamp(h, data, reader.i, digest.value, 0);
    var ok := TimestampInto(h, reader, digest.value, c, 0);
    if !ok { return Raised; }
    assert [] + found.value.0 == found.value.0;
    r := Ok(Proof(digest.value, op.value, c.out));
  }
}
