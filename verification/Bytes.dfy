/** Byte strings, fixed-width integers and the byte-wise order of Python's `bytes`. */
module Bytes {

  type byte = x: int | 0 <= x < 256

  type bytes = seq<byte>

  type Hash256 = b: bytes | |b| == 32 witness seq(32, _ => 0)

  /** bytes([x]) * n */
  function Repeat(x: byte, n: nat): (b: bytes)
    ensures |b| == n && forall i | 0 <= i < n :: b[i] == x
  {
    if n == 0 then [] else [x] + Repeat(x, n - 1)
  }

  // ---- slices ----

  function Min(a: int, b: int): int {
    if a <= b then a else b
  }

  /** Python's b[i:j] for non-negative i and j: bounds past the end are cut off, never an error. */
  function Slice(b: bytes, i: nat, j: nat): bytes {
    var hi := Min(j, |b|);
    if i <= hi then b[i..hi] else []
  }

  /** The bytes of `b` stand in `data` at position `pos`. */
  ghost predicate At(data: bytes, pos: nat, b: bytes) {
    pos + |b| <= |data| && data[pos..pos + |b|] == b
  }

  lemma AtConcat(data: bytes, pos: nat, a: bytes, b: bytes)
    ensures At(data, pos, a + b) <==> At(data, pos, a) && At(data, pos + |a|, b)
  {
    if At(data, pos, a + b) {
      assert data[pos..pos + |a|] == data[pos..pos + |a + b|][..|a|] == a;
      assert data[pos + |a|..pos + |a| + |b|] == data[pos..pos + |a + b|][|a|..] == b;
    }
    if At(data, pos, a) && At(data, pos + |a|, b) {
      assert data[pos..pos + |a + b|] == data[pos..pos + |a|] + data[pos + |a|..pos + |a| + |b|];
    }
  }

  function Flatten(parts: seq<bytes>): bytes {
    if parts == [] then [] else parts[0] + Flatten(parts[1..])
  }

  /** [raw[i:i + body] for i in range(0, len(raw), body)] */
  function Chunks(raw: bytes, body: nat): (chunks: seq<bytes>)
    requires body > 0
    ensures Flatten(chunks) == raw
    ensures raw != [] ==> chunks != []
    decreases |raw|
  {
    if raw == [] then [] else
    var n := Min(body, |raw|);
    assert raw == raw[..n] + raw[n..];
    [raw[..n]] + Chunks(raw[n..], body)
  }

  /** b[::-1] */
  function Reverse(b: bytes): bytes {
    if b == [] then [] else Reverse(b[1..]) + [b[0]]
  }

  lemma {:induction false} Reversed(b: bytes)
    ensures |Reverse(b)| == |b|
  {
    if b != [] { Reversed(b[1..]); }
  }

  /** The bytes of `b`, the last first. */
  ghost predicate Backwards(r: bytes, b: bytes) {
    |r| == |b| && forall k | 0 <= k < |b| :: r[k] == b[|b| - 1 - k]
  }

  lemma {:induction false} ReverseIff(r: bytes, b: bytes)
    ensures r == Reverse(b) <==> Backwards(r, b)
    decreases b
  {
    Reversed(b);
    if b != [] {
      var t := Reverse(b[1..]);
      ReverseIff(t, b[1..]);
      assert Backwards(Reverse(b), b);
    }
  }

  /** What is reversed can be read back. */
  lemma {:induction false} ReverseBinds(x: bytes, y: bytes)
    requires Reverse(x) == Reverse(y)
    ensures x == y
  {
    Reversed(x);
    Reversed(y);
    if x != [] {
      var r, s := Reverse(x[1..]), Reverse(y[1..]);
      assert r == Reverse(x)[..|x| - 1] && s == Reverse(y)[..|y| - 1];
      ReverseBinds(x[1..], y[1..]);
      assert Reverse(x)[|x| - 1] == x[0] && Reverse(y)[|y| - 1] == y[0];
    }
  }

  // ---- powers ----

  function Pow2(k: nat): (p: nat)
    ensures p > 0
    ensures k > 0 ==> p % 2 == 0
  {
    if k == 0 then 1 else 2 * Pow2(k - 1)
  }

  lemma Distribute(a: int, d: int, u: int)
    ensures (a + d) * u == a * u + d * u
  {
  }

  lemma TimesOrder(a: nat, b: nat, u: nat)
    ensures a <= b ==> a * u <= b * u
    ensures a < b ==> a * u + u <= b * u
  {
    if a < b {
      Distribute(a, b - a, u);
      Distribute(1, b - a - 1, u);
    }
  }

  lemma QuotientIs(t: nat, u: nat, q: nat)
    requires u > 0 && q * u <= t < (q + 1) * u
    ensures t / u == q
  {
    var p := t / u;
    assert t == p * u + t % u;
    TimesOrder(p, q, u);
    TimesOrder(q, p, u);
  }

  // ---- pieces ----

  /** How many pieces of `body` bytes a block of n bytes makes. */
  function Pieces(n: nat, body: nat): nat
    requires body > 0
  {
    (n + body - 1) / body
  }

  /** The k-th piece of that size. */
  function Piece(raw: bytes, body: nat, k: nat): bytes {
    Slice(raw, Multiple(k, body), Multiple(k + 1, body))
  }

  function Multiple(a: nat, b: nat): nat {
    a * b
  }

  lemma {:induction false} PiecesOf(raw: bytes, body: nat)
    requires body > 0
    ensures |Chunks(raw, body)| == Pieces(|raw|, body)
    ensures forall k | 0 <= k < |Chunks(raw, body)| :: Chunks(raw, body)[k] == Piece(raw, body, k)
    decreases |raw|
  {
    hide Pieces, Multiple;
    if raw == [] {
      NoPieces(body);
    } else {
      var n := Min(body, |raw|);
      var rest := raw[n..];
      PiecesOf(rest, body);
      OneMore(|raw|, body);
      forall k | 0 <= k < |Chunks(raw, body)| ensures Chunks(raw, body)[k] == Piece(raw, body, k) {
        if k == 0 {
          FirstPiece(raw, body);
        } else {
          assert Chunks(raw, body)[k] == Chunks(rest, body)[k - 1] == Piece(rest, body, k - 1);
          LaterPiece(raw, body, k);
        }
      }
    }
  }

  lemma NoPieces(body: nat)
    requires body > 0
    ensures Pieces(0, body) == 0
  {
  }

  lemma OneMore(n: nat, body: nat)
    requires body > 0 && n > 0
    ensures Pieces(n, body) == 1 + Pieces(if n <= body then 0 else n - body, body)
  {
    if n <= body {
      NoPieces(body);
      QuotientIs(n + body - 1, body, 1);
    } else {
      var q := (n - 1) / body;
      assert n - 1 == q * body + (n - 1) % body;
      assert (q + 1) * body == q * body + body && (q + 2) * body == q * body + 2 * body;
      QuotientIs(n + body - 1, body, q + 1);
    }
  }

  lemma FirstPiece(raw: bytes, body: nat)
    requires raw != [] && body > 0
    ensures Piece(raw, body, 0) == raw[..Min(body, |raw|)]
  {
    assert Multiple(0, body) == 0 && Multiple(1, body) == body;
  }

  lemma LaterPiece(raw: bytes, body: nat, k: nat)
    requires body > 0 && k > 0
    ensures Piece(raw[Min(body, |raw|)..], body, k - 1) == Piece(raw, body, k)
  {
    hide Multiple;
    OneMultiple(k - 1, body);
    OneMultiple(k, body);
    var lo, hi := Multiple(k - 1, body), Multiple(k, body);
    if |raw| >= body {
      assert Slice(raw[body..], lo, hi) == Slice(raw, lo + body, hi + body);
    }
  }

  lemma OneMultiple(k: nat, body: nat)
    ensures Multiple(k + 1, body) == Multiple(k, body) + body
  {
  }

  // ---- fixed-width integers ----

  /** 256 to the k-th power: the number of values k bytes can hold. */
  function Pow256(k: nat): (p: nat)
    ensures p > 0
  {
    if k == 0 then 1 else 256 * Pow256(k - 1)
  }

  lemma Pow256Values()
    ensures Pow256(1) == 0x100 && Pow256(2) == 0x1_0000
    ensures Pow256(4) == 0x1_0000_0000 && Pow256(8) == 0x1_0000_0000_0000_0000
  {
    assert Pow256(3) == 0x100_0000;
    assert Pow256(5) == 256 * Pow256(4);
    assert Pow256(7) == 256 * Pow256(6);
  }

  /** n.to_bytes(k, "big") when n fits. */
  function BE(n: nat, k: nat): (b: bytes)
    ensures |b| == k
  {
    if k == 0 then [] else BE(n / 256, k - 1) + [n % 256]
  }

  /** int.from_bytes(b, "big"). */
  function FromBE(b: bytes): nat {
    if b == [] then 0 else 256 * FromBE(b[..|b| - 1]) + b[|b| - 1]
  }

  lemma {:induction false} FromBEBound(b: bytes)
    ensures FromBE(b) < Pow256(|b|)
  {
    if b != [] { FromBEBound(b[..|b| - 1]); }
  }

  lemma {:induction false} BERoundTrip(n: nat, k: nat)
    requires n < Pow256(k)
    ensures FromBE(BE(n, k)) == n
  {
    if k > 0 {
      BERoundTrip(n / 256, k - 1);
      assert BE(n, k)[..k - 1] == BE(n / 256, k - 1);
    }
  }

  lemma {:induction false} FromBERoundTrip(b: bytes)
    ensures BE(FromBE(b), |b|) == b
  {
    if b != [] {
      FromBERoundTrip(b[..|b| - 1]);
      assert FromBE(b) / 256 == FromBE(b[..|b| - 1]) && FromBE(b) % 256 == b[|b| - 1];
      assert b == b[..|b| - 1] + [b[|b| - 1]];
    }
  }

  /** n.to_bytes(k, "little"), and struct.pack's "<H", "<I" and "<Q" for k of 2, 4 and 8. */
  function LE(n: nat, k: nat): (b: bytes)
    ensures |b| == k
  {
    if k == 0 then [] else [n % 256] + LE(n / 256, k - 1)
  }

  /** int.from_bytes(b, "little"). */
  function FromLE(b: bytes): nat {
    if b == [] then 0 else b[0] + 256 * FromLE(b[1..])
  }

  lemma {:induction false} FromLEBound(b: bytes)
    ensures FromLE(b) < Pow256(|b|)
  {
    if b != [] { FromLEBound(b[1..]); }
  }

  lemma {:induction false} LERoundTrip(n: nat, k: nat)
    requires n < Pow256(k)
    ensures FromLE(LE(n, k)) == n
  {
    if k > 0 {
      LERoundTrip(n / 256, k - 1);
      assert LE(n, k)[1..] == LE(n / 256, k - 1);
    }
  }

  lemma {:induction false} FromLERoundTrip(b: bytes)
    ensures LE(FromLE(b), |b|) == b
  {
    if b != [] {
      FromLERoundTrip(b[1..]);
      assert FromLE(b) / 256 == FromLE(b[1..]) && FromLE(b) % 256 == b[0];
      assert b == [b[0]] + b[1..];
    }
  }

  // ---- byte-wise order ----

  /** a <= b as Python compares bytes: lexicographic, a prefix first. */
  predicate LexLeq(a: bytes, b: bytes) {
    a == [] || (b != [] && (a[0] < b[0] || (a[0] == b[0] && LexLeq(a[1..], b[1..]))))
  }

  /** The two byte strings agree before k, and at k the first is smaller. */
  ghost predicate SmallerAt(a: bytes, b: bytes, k: nat) {
    k < |a| && k < |b| && a[..k] == b[..k] && a[k] < b[k]
  }

  /** Python's order of byte strings: a prefix first, else the smaller byte where they first differ. */
  lemma {:induction false} LexLeqIff(a: bytes, b: bytes)
    ensures LexLeq(a, b) <==> a <= b || exists k: nat :: SmallerAt(a, b, k)
  {
    if a != [] && b != [] && a[0] == b[0] {
      LexLeqIff(a[1..], b[1..]);
      if a[1..] <= b[1..] { assert a == [a[0]] + a[1..] && b == [b[0]] + b[1..]; }
      if k: nat :| SmallerAt(a[1..], b[1..], k) {
        assert a[..k + 1] == [a[0]] + a[1..][..k] && b[..k + 1] == [b[0]] + b[1..][..k];
        assert SmallerAt(a, b, k + 1);
      }
      if k: nat :| SmallerAt(a, b, k) {
        assert a[1..][..k - 1] == a[..k][1..] && b[1..][..k - 1] == b[..k][1..];
        assert SmallerAt(a[1..], b[1..], k - 1);
      }
    } else if a != [] && b != [] {
      if a[0] < b[0] { assert SmallerAt(a, b, 0); }
      if k: nat :| SmallerAt(a, b, k) { assert k > 0 ==> a[..k][0] == b[..k][0]; }
    }
  }

  /** The first byte string comes before the other: it is a proper prefix of it, or has the smaller byte where they
      first differ. */
  ghost predicate Earlier(a: bytes, b: bytes) {
    (a <= b && |a| < |b|) || exists k: nat :: SmallerAt(a, b, k)
  }

  lemma EarlierIff(a: bytes, b: bytes)
    ensures Earlier(a, b) <==> LexLeq(a, b) && a != b
  {
    hide LexLeq;
    LexLeqIff(a, b);
    if a <= b && |a| == |b| { assert a == b; }
  }

  lemma {:induction false} LexTotal(a: bytes, b: bytes)
    ensures LexLeq(a, b) || LexLeq(b, a)
  {
    if a != [] && b != [] { LexTotal(a[1..], b[1..]); }
  }

  lemma {:induction false} LexTransitive(a: bytes, b: bytes, c: bytes)
    requires LexLeq(a, b) && LexLeq(b, c)
    ensures LexLeq(a, c)
  {
    if a != [] && a[0] == b[0] == c[0] { LexTransitive(a[1..], b[1..], c[1..]); }
  }

  lemma {:induction false} LexAntisymmetric(a: bytes, b: bytes)
    requires LexLeq(a, b) && LexLeq(b, a)
    ensures a == b
  {
    if a != [] {
      LexAntisymmetric(a[1..], b[1..]);
      assert a == [a[0]] + a[1..] && b == [b[0]] + b[1..];
    }
  }
}
