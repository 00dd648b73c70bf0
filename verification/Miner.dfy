/** The native nonce scanner on byte arrays (native/mine_sha256d.c) beside the Python one
    (ctp/bitcoin_jan09.py). */
module Miner {
  import opened Wrappers
  import opened Bytes
  import opened Jan09
  import Retarget

  const TWO_32 := 0x1_0000_0000

  // ---- little-endian numbers in byte arrays ----

  /** A little-endian number, cut into its low and high bytes. */
  lemma {:induction false} Split(b: bytes, i: nat)
    requires i <= |b|
    ensures FromLE(b) == FromLE(b[..i]) + Pow256(i) * FromLE(b[i..])
    ensures FromLE(b[..i]) < Pow256(i)
  {
    FromLEBound(b[..i]);
    if i == 0 {
      assert b[i..] == b;
    } else {
      Split(b[1..], i - 1);
      assert b[1..][..i - 1] == b[..i][1..] && b[1..][i - 1..] == b[i..];
      Gather(Pow256(i - 1), FromLE(b[i..]));
    }
  }

  lemma Gather(p: nat, q: nat)
    ensures 256 * p * q == 256 * (p * q)
  {
  }

  lemma {:induction false} FromZeros(b: bytes)
    requires forall i | 0 <= i < |b| :: b[i] == 0
    ensures FromLE(b) == 0
  {
    if b != [] { FromZeros(b[1..]); }
  }

  function Sum(b0: nat, b1: nat, b2: nat, rest: nat): nat {
    b0 + 0x100 * b1 + 0x1_0000 * b2 + 0x100_0000 * rest
  }

  lemma FromFour(b: bytes)
    requires |b| == 4
    ensures FromLE(b) == Sum(b[0], b[1], b[2], b[3])
  {
    ThreeThen(b);
    assert FromLE(b[3..]) == b[3] + 256 * FromLE(b[3..][1..]);
  }

  /** The cast to unsigned char. */
  function LowByte(x: nat): byte {
    x % 0x100
  }

  lemma Digits(x: nat)
    ensures x / 0x100 / 0x100 == x / 0x1_0000 && x / 0x1_0000 / 0x100 == x / 0x100_0000
    ensures x == LowByte(x) + 0x100 * LowByte(x / 0x100) + 0x1_0000 * (x / 0x1_0000)
  {
  }

  lemma ToFour(x: nat)
    ensures LE(x, 4) == [LowByte(x), LowByte(x / 0x100), LowByte(x / 0x1_0000), LowByte(x / 0x100_0000)]
  {
    Digits(x);
    var x1, x2, x3 := x / 0x100, x / 0x1_0000, x / 0x100_0000;
    assert LE(x3, 1) == [LowByte(x3)] + LE(x3 / 256, 0);
    assert LE(x2, 2) == [LowByte(x2)] + LE(x3, 1);
    assert LE(x1, 3) == [LowByte(x1)] + LE(x2, 2);
  }

  /** le32: the four shifted bytes share no bit, so or-ing them is adding them. */
  method Le32(p: array<byte>, at: nat) returns (x: nat)
    requires at + 4 <= p.Length
    ensures x == FromLE(p[at..at + 4]) < TWO_32
  {
    x := Sum(p[at], p[at + 1], p[at + 2], p[at + 3]);
    FromFour(p[at..at + 4]);
    FromLEBound(p[at..at + 4]);
    Pow256Values();
  }

  /** setle32 */
  method SetLe32(p: array<byte>, at: nat, x: nat)
    requires at + 4 <= p.Length && x < TWO_32
    modifies p
    ensures p[..] == old(p[..at]) + LE(x, 4) + old(p[at + 4..])
  {
    hide LowByte;
    p[at] := LowByte(x);
    p[at + 1] := LowByte(x / 0x100);
    p[at + 2] := LowByte(x / 0x1_0000);
    p[at + 3] := LowByte(x / 0x100_0000);
    ToFour(x);
  }

  // ---- the target and the comparison ----

  function Exponent(bits: nat): nat {
    bits / 0x100_0000
  }

  /** target_from_bits: the program exits on an exponent whose bytes do not fit. */
  method TargetBytes(bits: nat, target: array<byte>) returns (supported: bool)
    requires bits < TWO_32 && target.Length == 32
    modifies target
    ensures supported <==> 3 <= Exponent(bits) <= 32
    ensures supported ==> TargetFromBits(bits) == Ok(FromLE(target[..]))
  {
    forall i | 0 <= i < 32 {
      target[i] := 0;
    }
    var mant := bits % 0x80_0000;
    var shift := bits / 0x100_0000 - 3;
    if shift < 0 || shift > 29 { return false; }
    target[shift] := LowByte(mant);
    target[shift + 1] := LowByte(mant / 0x100);
    target[shift + 2] := LowByte(mant / 0x1_0000);
    MantissaAt(target[..], shift, mant);
    supported := true;
  }

  lemma MantissaAt(t: bytes, shift: nat, mant: nat)
    requires |t| == 32 && shift <= 29 && mant < 0x80_0000
    requires forall i | 0 <= i < 32 && !(shift <= i < shift + 3) :: t[i] == 0
    requires t[shift] == LowByte(mant) && t[shift + 1] == LowByte(mant / 0x100)
    requires t[shift + 2] == LowByte(mant / 0x1_0000)
    ensures FromLE(t) == mant * Pow256(shift)
  {
    hide Pow256, FromLE;
    Split(t, shift);
    FromZeros(t[..shift]);
    var high := t[shift..];
    FromZeros(high[3..]);
    ThreeThen(high);
    Digits(mant);
    assert FromLE(high) == mant;
    Commute(Pow256(shift), mant);
  }

  lemma ThreeThen(b: bytes)
    requires |b| >= 3
    ensures FromLE(b) == Sum(b[0], b[1], b[2], FromLE(b[3..]))
  {
    assert b[1..][1..] == b[2..] && b[2..][1..] == b[3..];
    assert FromLE(b[2..]) == b[2] + 256 * FromLE(b[3..]);
  }

  lemma Commute(a: nat, b: nat)
    ensures a * b == b * a
  {
  }

  /** leq_le256 */
  method LeqLe256(a: array<byte>, b: array<byte>) returns (leq: bool)
    requires a.Length == 32 && b.Length == 32
    ensures leq <==> FromLE(a[..]) <= FromLE(b[..])
  {
    hide FromLE;
    ghost var x, y := a[..], b[..];
    var i := 31;
    while i >= 0
      invariant -1 <= i <= 31
      invariant x[i + 1..] == y[i + 1..]
    {
      if a[i] < b[i] {
        DecidedAt(x, y, i);
        return true;
      }
      if a[i] > b[i] {
        DecidedAt(y, x, i);
        return false;
      }
      assert x[i..] == [x[i]] + x[i + 1..] && y[i..] == [y[i]] + y[i + 1..];
      i := i - 1;
    }
    leq := true;
  }

  /** The highest byte in which two numbers differ decides which is smaller. */
  lemma DecidedAt(a: bytes, b: bytes, i: nat)
    requires |a| == |b| && i < |a| && a[i + 1..] == b[i + 1..] && a[i] < b[i]
    ensures FromLE(a) < FromLE(b)
  {
    hide FromLE, Pow256;
    Split(a, i);
    Split(b, i);
    HeadThen(a[i..]);
    HeadThen(b[i..]);
    assert a[i..][1..] == a[i + 1..] && b[i..][1..] == b[i + 1..];
    Larger(FromLE(a[i..]), FromLE(b[i..]), Pow256(i));
  }

  lemma HeadThen(b: bytes)
    requires b != []
    ensures FromLE(b) == b[0] + 256 * FromLE(b[1..])
  {
  }

  lemma Larger(x: nat, y: nat, p: nat)
    requires x < y
    ensures p * x + p <= p * y
  {
    TimesOrder(x, y, p);
    Commute(p, x);
    Commute(p, y);
  }

  /** Where the byte-array target exists it is the number of both Python versions. */
  lemma TargetsAgree(bits: nat)
    ensures Exponent(bits) >= 3 ==> TargetFromBits(bits) == Ok(Retarget.BitsToTarget(bits))
    ensures Exponent(bits) < 3 ==> TargetFromBits(bits).Raised?
  {
    hide Pow256;
    Retarget.SmallShifts(bits % 0x80_0000);
  }

  // ---- scanning ----

  /** A nonce that meets the target, and the hash it gives. */
  datatype Hit = Hit(nonce: nat, digest: Hash256)

  /** with_nonce */
  function WithNonce(header: bytes, nonce: nat): (h: bytes)
    requires |header| == 80
    ensures |h| == 80
  {
    header[..76] + LE(nonce, 4)
  }

  predicate Meets(dsha: bytes -> Hash256, header: bytes, target: nat, nonce: nat)
    requires |header| == 80
  {
    Work(dsha, WithNonce(header, nonce)) <= target
  }

  function First(dsha: bytes -> Hash256, header: bytes, target: nat, from: nat, end: int): Option<Hit>
    requires |header| == 80
    decreases end - from
  {
    if from >= end then None
    else if Meets(dsha, header, target, from) then Some(Hit(from, dsha(WithNonce(header, from))))
    else First(dsha, header, target, from + 1, end)
  }

  /** The hit is the least nonce of the range that meets the target; no hit means there is none. */
  lemma {:induction false} FirstIsLeast(dsha: bytes -> Hash256, header: bytes, target: nat, from: nat, end: int)
    requires |header| == 80
    ensures match First(dsha, header, target, from, end)
            case None => forall n: nat | from <= n < end :: !Meets(dsha, header, target, n)
            case Some(Hit(n, d)) =>
              && from <= n < end && Meets(dsha, header, target, n) && d == dsha(WithNonce(header, n))
              && forall m: nat | from <= m < n :: !Meets(dsha, header, target, m)
    decreases end - from
  {
    hide Meets;
    if from < end && !Meets(dsha, header, target, from) {
      FirstIsLeast(dsha, header, target, from + 1, end);
    }
  }

  /** scan_nonces, raising on a header without bits, on bits without a target, and, once there is a
      nonce to try, on a header of the wrong length or a negative nonce. */
  function Scan(dsha: bytes -> Hash256, header: bytes, start: int, count: int): Result<Option<Hit>> {
    var bits :- ReadU(header, 72, 4);
    var target :- TargetFromBits(bits);
    var end := Min(TWO_32, start + count);
    if start >= end then Ok(None)
    else if |header| != 80 || start < 0 then Raised
    else Ok(First(dsha, header, target, start, end))
  }

  method ScanNonces(dsha: bytes -> Hash256, header: bytes, start: int, count: int) returns (r: Result<Option<Hit>>)
    ensures r == Scan(dsha, header, start, count)
  {
    hide TargetFromBits, ReadU, Work;
    var bits := ReadU(header, 72, 4);
    if bits.Raised? { return Raised; }
    var target := TargetFromBits(bits.value);
    if target.Raised? { return Raised; }
    var end := Min(TWO_32, start + count);
    var n := start;
    while n < end
      invariant n == start || (start < n <= end && start >= 0 && |header| == 80)
      invariant start >= 0 && |header| == 80 ==>
                  First(dsha, header, target.value, start, end) == First(dsha, header, target.value, n, end)
      decreases end - n
    {
      if |header| != 80 || n < 0 { return Raised; }
      var digest := dsha(WithNonce(header, n));
      WorkIs(dsha, WithNonce(header, n));
      if FromLE(digest) <= target.value { return Ok(Some(Hit(n, digest))); }
      n := n + 1;
    }
    r := Ok(None);
  }

  lemma FirstStep(dsha: bytes -> Hash256, header: bytes, target: nat, n: nat, end: int)
    requires |header| == 80
    ensures First(dsha, header, target, n, end) ==
              if n >= end then None else
              var digest := dsha(WithNonce(header, n));
              if FromLE(digest) <= target then Some(Hit(n, digest)) else First(dsha, header, target, n + 1, end)
  {
    hide WithNonce, FromLE;
  }

  /** sha256d */
  method Sha256d(dsha: bytes -> Hash256, m: array<byte>, out: array<byte>)
    requires out.Length == 32 && m != out
    modifies out
    ensures out[..] == dsha(m[..])
  {
    ghost var message := m[..];
    var digest := dsha(m[..]);
    forall i | 0 <= i < 32 {
      out[i] := digest[i];
    }
    assert m[..] == message && out[..] == digest;
  }

  lemma WorkIs(dsha: bytes -> Hash256, header: bytes)
    ensures Work(dsha, header) == FromLE(dsha(header))
  {
  }

  datatype Outcome = Unsupported | Scanned(hit: Option<Hit>)

  /** start + k on uint64_t */
  function Plus64(start: nat, k: nat): nat {
    (start + k) % TWO_64
  }

  /** The loop of main.  It refuses the exponents its byte array cannot hold; on all others it
      reports what scan_nonces reports, and leaves the nonce it found in the header. */
  method MineHeader(dsha: bytes -> Hash256, h: array<byte>, start: nat, count: nat) returns (r: Outcome)
    requires h.Length == 80 && start < TWO_64 && count < TWO_64
    modifies h
    ensures r.Unsupported? <==> !(3 <= Exponent(FromLE(old(h[72..76]))) <= 32)
    ensures r.Scanned? ==> Scan(dsha, old(h[..]), start, count) == Ok(r.hit)
    ensures h[..76] == old(h[..76])
    ensures r.Scanned? && r.hit.Some? ==> h[..] == WithNonce(old(h[..]), r.hit.value.nonce)
  {
    hide FromLE, TargetFromBits, First, LE;
    ghost var header := h[..];
    var bits := Le32(h, 72);
    assert Slice(header, 72, 76) == h[72..76];
    var target := new byte[32];
    var supported := TargetBytes(bits, target);
    if !supported { return Unsupported; }
    ghost var goal := target[..];
    ghost var t, end := FromLE(goal), Min(TWO_32, start + count);
    var d := new byte[32];
    var k := 0;
    while k < count && Plus64(start, k) <= 0xffff_ffff
      invariant k <= count && (k == 0 || start + k <= end)
      invariant h[..76] == header[..76] && target[..] == goal
      invariant First(dsha, header, t, start, end) == First(dsha, header, t, start + k, end)
      decreases count - k
    {
      var n := Plus64(start, k) % TWO_32;
      FirstStep(dsha, header, t, start + k, end);
      SetLe32(h, 76, n);
      assert h[..] == WithNonce(header, n);
      Sha256d(dsha, h, d);
      var leq := LeqLe256(d, target);
      if leq { return Scanned(Some(Hit(n, d[..]))); }
      k := k + 1;
    }
    FirstStep(dsha, header, t, start + k, end);
    r := Scanned(None);
  }
}
