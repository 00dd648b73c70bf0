/** The dual digest suite and its domain separation (ctp/hashsuite.py).  The two hash functions are
    parameters; nothing is assumed of them except where a lemma says so. */
module HashSuite {
  import opened Bytes

  type Digest48 = b: bytes | |b| == 48 witness seq(48, _ => 0)

  datatype Suite = Suite(sha256: bytes -> Hash256, shake384: bytes -> Digest48)

  /** DigestPair() rejects halves of any other length. */
  datatype DigestPair = DigestPair(sha256: Hash256, shake384: Digest48)

  datatype Family = Sha256 | Shake384

  function Width(family: Family): nat {
    if family.Sha256? then 32 else 48
  }

  function Hash(s: Suite, family: Family, m: bytes): (h: bytes)
    ensures |h| == Width(family)
  {
    if family.Sha256? then s.sha256(m) else s.shake384(m)
  }

  /** framed() rejects every other domain. */
  type Domain = d: bytes | d != [] && 0 !in d witness [1]

  function Framed(d: Domain, message: bytes): bytes {
    d + [0] + message
  }

  function DigestPairOf(s: Suite, d: Domain, message: bytes): DigestPair {
    var m := Framed(d, message);
    DigestPair(s.sha256(m), s.shake384(m))
  }

  /** An ASCII literal as bytes. */
  function Ascii(s: string): (b: bytes)
    requires forall i | 0 <= i < |s| :: s[i] < 128 as char
    ensures |b| == |s| && forall i | 0 <= i < |s| :: b[i] == s[i] as int
  {
    seq(|s|, i requires 0 <= i < |s| => s[i] as int)
  }

  const DOM_OBS: Domain := Ascii("CHRONOLOGY/OBSERVATION/v1")
  const DOM_OBS_SIGN: Domain := Ascii("CHRONOLOGY/OBSERVATION-SIGN/v1")
  const DOM_OBS_RECORD: Domain := Ascii("CHRONOLOGY/OBSERVATION-RECORD/v1")
  const DOM_CHECKPOINT_SIGN: Domain := Ascii("CHRONOLOGY/CHECKPOINT-SIGN/v1")
  const DOM_CHECKPOINT_RECORD: Domain := Ascii("CHRONOLOGY/CHECKPOINT-RECORD/v1")
  const DOM_MERKLE_LEAF: Domain := Ascii("CHRONOLOGY/MERKLE-LEAF/v1")
  const DOM_MERKLE_NODE: Domain := Ascii("CHRONOLOGY/MERKLE-NODE/v1")
  const DOM_EVIDENCE: Domain := Ascii("CHRONOLOGY/SOURCE-EVIDENCE/v1")
  const DOM_WITNESS: Domain := Ascii("CHRONOLOGY/WITNESS/v1")

  lemma NoNulInside(d: Domain, m: bytes, i: nat)
    requires i < |d|
    ensures Framed(d, m)[i] != 0 && Framed(d, m)[|d|] == 0
  {
    assert Framed(d, m)[i] == d[i];
  }

  /** The domain can be read back from a framed message: it ends at the first NUL. */
  lemma FramedInjective(d: Domain, m: bytes, d': Domain, m': bytes)
    requires Framed(d, m) == Framed(d', m')
    ensures d == d' && m == m'
  {
    if |d| < |d'| {
      NoNulInside(d', m', |d|);
    } else if |d'| < |d| {
      NoNulInside(d, m, |d'|);
    } else {
      var f := Framed(d, m);
      assert f[..|d|] == d && f[..|d|] == d' && f[|d| + 1..] == m && f[|d| + 1..] == m';
    }
  }

  // ---- collisions ----

  /** No two of the messages in M collide under that family. */
  ghost predicate CollisionFree(s: Suite, family: Family, M: set<bytes>) {
    forall a, b | a in M && b in M && Hash(s, family, a) == Hash(s, family, b) :: a == b
  }

  /** At least one of the two families is free of collisions on M. */
  ghost predicate OneFamilyHolds(s: Suite, M: set<bytes>) {
    CollisionFree(s, Sha256, M) || CollisionFree(s, Shake384, M)
  }

  /** A pair is equal only when both halves are, so one collision-free family is enough. */
  lemma PairBinds(s: Suite, M: set<bytes>, d: Domain, m: bytes, d': Domain, m': bytes)
    requires OneFamilyHolds(s, M) && Framed(d, m) in M && Framed(d', m') in M
    requires DigestPairOf(s, d, m) == DigestPairOf(s, d', m')
    ensures d == d' && m == m'
  {
    var a, b := Framed(d, m), Framed(d', m');
    assert Hash(s, Sha256, a) == Hash(s, Sha256, b) && Hash(s, Shake384, a) == Hash(s, Shake384, b);
    FramedInjective(d, m, d', m');
  }
}
