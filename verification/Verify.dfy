/** Checkpoints (ctp/model.py) and the bundle verifier that composes every check (ctp/verify.py). */
module Verify {
  import opened Wrappers
  import opened Bytes
  import opened Sorting
  import opened Cbor
  import opened HashSuite
  import opened Merkle
  import opened Intervals
  import opened Model
  import opened Chains
  import ChainProofs
  import opened Jan09
  import opened Checklists

  // ---- checkpoints ----

  /** key=lambda p: (p.sha256, p.shake384) */
  predicate CommitmentLeq(p: DigestPair, r: DigestPair) {
    (p.sha256 != r.sha256 && LexLeq(p.sha256, r.sha256)) || (p.sha256 == r.sha256 && LexLeq(p.shake384, r.shake384))
  }

  function Commitments(s: Suite, xs: History): (r: Result<seq<DigestPair>>)
    ensures r.Ok? ==> |r.value| == |xs|
  {
    if xs == [] then Ok([]) else
    var first :- RecordCommitment(s, xs[0]);
    var rest :- Commitments(s, xs[1..]);
    Ok([first] + rest)
  }

  lemma {:induction false} CommitmentsAt(s: Suite, xs: History)
    ensures Commitments(s, xs).Ok? <==> forall i | 0 <= i < |xs| :: RecordCommitment(s, xs[i]).Ok?
    ensures Commitments(s, xs).Ok? ==>
      forall i | 0 <= i < |xs| :: RecordCommitment(s, xs[i]) == Ok(Commitments(s, xs).value[i])
  {
    hide RecordCommitment;
    if xs != [] {
      CommitmentsAt(s, xs[1..]);
      assert forall i | 1 <= i < |xs| :: xs[i] == xs[1..][i - 1];
    }
  }

  function SortedRecords(s: Suite, xs: History): Result<seq<DigestPair>> {
    var records :- Commitments(s, xs);
    Ok(Sort(CommitmentLeq, records))
  }

  function IntervalOf(x: SignedObservation): Interval {
    x.unsigned.interval
  }

  function Witnesses(xs: History): set<bytes> {
    set x | x in xs :: x.unsigned.witnessId
  }

  function Geneses(xs: History): set<DigestPair> {
    set x | x in xs :: x.unsigned.genesis
  }

  const POLICY: bytes := Ascii("QSUPPORT-2FPLUS1/v1")

  function VerdictText(v: Verdict): bytes {
    if v.Consensus? then Ascii("CONSENSUS") else Ascii("TIME_CONFLICT")
  }

  function BuildCheckpoint(s: Suite, epoch: int, xs: History, f: int, previous: Option<DigestPair>)
    : Result<Checkpoint>
  {
    if |Witnesses(xs)| != |xs| || |Geneses(xs)| != 1 then Raised else
    var records :- SortedRecords(s, xs);
    var root :- MerklePair(s, records);
    var c :- ConsensusOf(Map(IntervalOf, xs), f);
    Ok(Checkpoint(1, epoch, previous, records, root, |xs|, f, c.q, VerdictText(c.verdict), c.interval, POLICY,
                  xs[0].unsigned.genesis))
  }

  function CanonicalCheckpoint(c: Checkpoint): Result<bytes> {
    if c.version != 1 || c.witnessCount != |c.records| then Raised else Dumps(CheckpointObj(c))
  }

  function CheckpointCommitment(s: Suite, x: SignedCheckpoint): Result<DigestPair> {
    var b :- Dumps(SignedCheckpointObj(x));
    Ok(DigestPairOf(s, DOM_CHECKPOINT_RECORD, b))
  }

  // ---- signatures ----

  /** A check is True, False, or could not be performed by this machine's toolchain. */
  datatype Check = Pass | Fail | Unavailable

  const ML_DSA_87: bytes := Ascii("ML-DSA-87")
  const SLH_DSA_SHAKE_256S: bytes := Ascii("SLH-DSA-SHAKE-256s")

  /** verify(algorithm, public key, message, signature) of the OpenSSL wrapper. */
  type Verifier = (bytes, bytes, bytes, bytes) -> Check

  function SignaturesFrom(verify: Verifier, message: bytes, sigs: seq<Signature>, found: set<bytes>): Check {
    if sigs == [] then (if {ML_DSA_87, SLH_DSA_SHAKE_256S} <= found then Pass else Fail)
    else if sigs[0].algorithm in found then Fail
    else
      var v := verify(sigs[0].algorithm, sigs[0].publicKey, message, sigs[0].signature);
      if !v.Pass? then v
      else SignaturesFrom(verify, message, sigs[1..], found + {sigs[0].algorithm})
  }

  function VerifySignedObservation(verify: Verifier, x: SignedObservation): Result<Check> {
    var canonical :- Canonical(x.unsigned);
    Ok(SignaturesFrom(verify, Framed(DOM_OBS_SIGN, canonical), x.signatures, {}))
  }

  function VerifySignedCheckpoint(verify: Verifier, x: SignedCheckpoint): Result<Check> {
    var canonical :- CanonicalCheckpoint(x.unsigned);
    Ok(SignaturesFrom(verify, Framed(DOM_CHECKPOINT_SIGN, canonical), x.signatures, {}))
  }

  /** all(verify_signed_observation(o) for o in history), stopping at the first that is not True. */
  function AllSigned(verify: Verifier, h: History): Result<Check> {
    if h == [] then Ok(Pass) else
    var c :- VerifySignedObservation(verify, h[0]);
    if !c.Pass? then Ok(c) else AllSigned(verify, h[1..])
  }

  // ---- what the signatures mean ----

  /** The verifier accepts the envelope's signature of the message under the envelope's key. */
  ghost predicate Genuine(verify: Verifier, message: bytes, e: Signature) {
    verify(e.algorithm, e.publicKey, message, e.signature) == Pass
  }

  ghost predicate AlgorithmsDiffer(sigs: seq<Signature>) {
    forall i, j | 0 <= i < j < |sigs| :: sigs[i].algorithm != sigs[j].algorithm
  }

  ghost predicate HasAlgorithm(sigs: seq<Signature>, name: bytes) {
    exists i | 0 <= i < |sigs| :: sigs[i].algorithm == name
  }

  /** Every signature is genuine, no algorithm occurs twice, both required ones occur. */
  ghost predicate AllGenuine(verify: Verifier, message: bytes, sigs: seq<Signature>) {
    && (forall i | 0 <= i < |sigs| :: Genuine(verify, message, sigs[i]))
    && AlgorithmsDiffer(sigs)
    && HasAlgorithm(sigs, ML_DSA_87) && HasAlgorithm(sigs, SLH_DSA_SHAKE_256S)
  }

  /** The check of the k-th envelope is unavailable; the envelopes before it are genuine, and up to it no
      algorithm occurs twice. */
  ghost predicate UnavailableAt(verify: Verifier, message: bytes, sigs: seq<Signature>, k: nat) {
    && k < |sigs|
    && verify(sigs[k].algorithm, sigs[k].publicKey, message, sigs[k].signature) == Unavailable
    && (forall i | 0 <= i < k :: Genuine(verify, message, sigs[i]))
    && AlgorithmsDiffer(sigs[..k + 1])
  }

  ghost predicate Unknowable(verify: Verifier, message: bytes, sigs: seq<Signature>) {
    exists k: nat :: UnavailableAt(verify, message, sigs, k)
  }

  ghost predicate NoneIn(sigs: seq<Signature>, found: set<bytes>) {
    forall i | 0 <= i < |sigs| :: sigs[i].algorithm !in found
  }

  ghost predicate UnavailableAmong(verify: Verifier, message: bytes, sigs: seq<Signature>, found: set<bytes>, k: nat) {
    UnavailableAt(verify, message, sigs, k) && NoneIn(sigs[..k + 1], found)
  }

  lemma {:induction false} PassesIff(verify: Verifier, message: bytes, sigs: seq<Signature>, found: set<bytes>)
    ensures SignaturesFrom(verify, message, sigs, found) == Pass <==>
      && (forall i | 0 <= i < |sigs| :: Genuine(verify, message, sigs[i]))
      && AlgorithmsDiffer(sigs) && NoneIn(sigs, found)
      && (ML_DSA_87 in found || HasAlgorithm(sigs, ML_DSA_87))
      && (SLH_DSA_SHAKE_256S in found || HasAlgorithm(sigs, SLH_DSA_SHAKE_256S))
    decreases |sigs|
  {
    hide Ascii, AlgorithmsDiffer, NoneIn, HasAlgorithm;
    if sigs == [] {
      NoEnvelopes(verify, message, found);
    } else {
      PassesIff(verify, message, sigs[1..], found + {sigs[0].algorithm});
      RestOfEnvelopes(verify, message, sigs, found);
    }
  }

  lemma NoEnvelopes(verify: Verifier, message: bytes, found: set<bytes>)
    ensures AlgorithmsDiffer([]) && NoneIn([], found) && forall name :: !HasAlgorithm([], name)
  {
  }

  lemma {:induction false} UnavailableIff(verify: Verifier, message: bytes, sigs: seq<Signature>, found: set<bytes>)
    ensures SignaturesFrom(verify, message, sigs, found) == Unavailable <==>
      exists k: nat :: UnavailableAmong(verify, message, sigs, found, k)
    decreases |sigs|
  {
    hide Ascii, UnavailableAmong;
    if sigs == [] {
      NoneUnavailable(verify, message, found);
    } else {
      var rest, more := sigs[1..], found + {sigs[0].algorithm};
      UnavailableIff(verify, message, rest, more);
      AtOnce(verify, message, sigs, found);
      if k: nat :| UnavailableAmong(verify, message, rest, more, k) {
        LaterEnvelope(verify, message, sigs, found, k);
      }
      if k: nat :| UnavailableAmong(verify, message, sigs, found, k) {
        FirstEnvelope(verify, message, sigs, found, k);
      }
    }
  }

  lemma NoneUnavailable(verify: Verifier, message: bytes, found: set<bytes>)
    ensures forall k: nat :: !UnavailableAmong(verify, message, [], found, k)
  {
  }

  lemma AtOnce(verify: Verifier, message: bytes, sigs: seq<Signature>, found: set<bytes>)
    requires sigs != []
    ensures UnavailableNow(verify, message, sigs, found) ==>
      UnavailableAmong(verify, message, sigs, found, 0)
  {
  }

  ghost predicate UnavailableNow(verify: Verifier, message: bytes, sigs: seq<Signature>, found: set<bytes>) {
    && sigs != [] && sigs[0].algorithm !in found
    && verify(sigs[0].algorithm, sigs[0].publicKey, message, sigs[0].signature) == Unavailable
  }

  lemma RestOfEnvelopes(verify: Verifier, message: bytes, sigs: seq<Signature>, found: set<bytes>)
    requires sigs != []
    ensures var rest := sigs[1..];
      && (AlgorithmsDiffer(sigs) && NoneIn(sigs, found)
          <==> AlgorithmsDiffer(rest) && NoneIn(rest, found + {sigs[0].algorithm}) && sigs[0].algorithm !in found)
      && ((forall i | 0 <= i < |sigs| :: Genuine(verify, message, sigs[i]))
          <==> Genuine(verify, message, sigs[0]) && forall i | 0 <= i < |rest| :: Genuine(verify, message, rest[i]))
      && (forall name :: HasAlgorithm(sigs, name) <==> sigs[0].algorithm == name || HasAlgorithm(rest, name))
  {
    hide Genuine;
    var rest := sigs[1..];
    assert forall i | 0 < i < |sigs| :: sigs[i] == rest[i - 1];
    if forall i | 0 <= i < |sigs| :: Genuine(verify, message, sigs[i]) {
      forall i | 0 <= i < |rest| ensures Genuine(verify, message, rest[i]) {
        assert Genuine(verify, message, sigs[i + 1]);
      }
    }
    if AlgorithmsDiffer(sigs) && NoneIn(sigs, found) {
      forall i, j | 0 <= i < j < |rest| ensures rest[i].algorithm != rest[j].algorithm {
        assert sigs[i + 1].algorithm != sigs[j + 1].algorithm;
      }
      forall i | 0 <= i < |rest| ensures rest[i].algorithm !in found + {sigs[0].algorithm} {
        assert sigs[i + 1].algorithm !in found && sigs[0].algorithm != sigs[i + 1].algorithm;
      }
    }
    forall name ensures HasAlgorithm(sigs, name) <==> sigs[0].algorithm == name || HasAlgorithm(rest, name) {
      if i :| 0 <= i < |rest| && rest[i].algorithm == name { assert sigs[i + 1].algorithm == name; }
    }
  }

  lemma LaterEnvelope(verify: Verifier, message: bytes, sigs: seq<Signature>, found: set<bytes>, k: nat)
    requires sigs != [] && UnavailableAmong(verify, message, sigs[1..], found + {sigs[0].algorithm}, k)
    ensures Genuine(verify, message, sigs[0]) && sigs[0].algorithm !in found ==>
      UnavailableAmong(verify, message, sigs, found, k + 1)
  {
    hide Genuine;
    var upto := sigs[..k + 2];
    assert upto[1..] == sigs[1..][..k + 1];
    RestOfEnvelopes(verify, message, upto, found);
    if Genuine(verify, message, sigs[0]) {
      forall i | 0 <= i < k + 1 ensures Genuine(verify, message, sigs[i]) {
        if i > 0 { assert Genuine(verify, message, sigs[1..][i - 1]); }
      }
    }
  }

  lemma FirstEnvelope(verify: Verifier, message: bytes, sigs: seq<Signature>, found: set<bytes>, k: nat)
    requires UnavailableAmong(verify, message, sigs, found, k)
    ensures sigs[0].algorithm !in found
    ensures k > 0 ==>
      && Genuine(verify, message, sigs[0])
      && UnavailableAmong(verify, message, sigs[1..], found + {sigs[0].algorithm}, k - 1)
    ensures k == 0 ==> UnavailableNow(verify, message, sigs, found)
  {
    hide Genuine;
    var upto := sigs[..k + 1];
    assert upto[0] == sigs[0];
    if k > 0 {
      assert upto[1..] == sigs[1..][..k];
      RestOfEnvelopes(verify, message, upto, found);
      forall i | 0 <= i < k - 1 ensures Genuine(verify, message, sigs[1..][i]) {
        assert Genuine(verify, message, sigs[i + 1]);
      }
    }
  }

  lemma SignaturesIff(verify: Verifier, message: bytes, sigs: seq<Signature>)
    ensures SignaturesFrom(verify, message, sigs, {}) == Pass <==> AllGenuine(verify, message, sigs)
    ensures SignaturesFrom(verify, message, sigs, {}) == Unavailable <==> Unknowable(verify, message, sigs)
  {
    hide SignaturesFrom, Ascii;
    PassesIff(verify, message, sigs, {});
    UnavailableIff(verify, message, sigs, {});
    if k: nat :| UnavailableAt(verify, message, sigs, k) { assert UnavailableAmong(verify, message, sigs, {}, k); }
  }

  /** The observation is in canonical form, and these are the bytes that are signed. */
  ghost predicate SignedBytes(o: Observation, message: bytes) {
    && o.version == 1 && |o.witnessId| == 32 && o.sequence >= 0 && o.sources != []
    && Dumps(ObservationObj(o)).Ok?
    && message == DOM_OBS_SIGN + [0] + Dumps(ObservationObj(o)).value
  }

  ghost predicate ObservationSigned(verify: Verifier, x: SignedObservation) {
    exists message :: SignedBytes(x.unsigned, message) && AllGenuine(verify, message, x.signatures)
  }

  ghost predicate ObservationUnknowable(verify: Verifier, x: SignedObservation) {
    exists message :: SignedBytes(x.unsigned, message) && Unknowable(verify, message, x.signatures)
  }

  /** All before the n-th are signed, and the check of the n-th is unavailable. */
  ghost predicate UnknowableAt(verify: Verifier, h: History, n: nat) {
    n < |h| && ObservationUnknowable(verify, h[n]) && forall i | 0 <= i < n :: ObservationSigned(verify, h[i])
  }

  ghost predicate HistoryUnknowable(verify: Verifier, h: History) {
    exists n: nat :: UnknowableAt(verify, h, n)
  }

  ghost predicate HistorySigned(verify: Verifier, h: History) {
    forall i | 0 <= i < |h| :: ObservationSigned(verify, h[i])
  }

  ghost predicate CheckpointBytes(c: Checkpoint, message: bytes) {
    && c.version == 1 && c.witnessCount == |c.records| && Dumps(CheckpointObj(c)).Ok?
    && message == DOM_CHECKPOINT_SIGN + [0] + Dumps(CheckpointObj(c)).value
  }

  ghost predicate CheckpointSigned(verify: Verifier, x: SignedCheckpoint) {
    exists message :: CheckpointBytes(x.unsigned, message) && AllGenuine(verify, message, x.signatures)
  }

  ghost predicate CheckpointUnknowable(verify: Verifier, x: SignedCheckpoint) {
    exists message :: CheckpointBytes(x.unsigned, message) && Unknowable(verify, message, x.signatures)
  }

  lemma ObservationSignedIff(verify: Verifier, x: SignedObservation)
    ensures VerifySignedObservation(verify, x) == Ok(Pass) <==> ObservationSigned(verify, x)
    ensures VerifySignedObservation(verify, x) == Ok(Unavailable) <==> ObservationUnknowable(verify, x)
  {
    hide Dumps, ObservationObj, SignaturesFrom, AllGenuine, Unknowable, Ascii;
    if Canonical(x.unsigned).Ok? {
      var message := Framed(DOM_OBS_SIGN, Canonical(x.unsigned).value);
      assert SignedBytes(x.unsigned, message);
      SignaturesIff(verify, message, x.signatures);
    }
  }

  /** A checkpoint passes the signature check exactly when it is in canonical form and every envelope's
      signature of its bytes is genuine, no algorithm twice, both required ones among them. */
  lemma CheckpointSignedIff(verify: Verifier, x: SignedCheckpoint)
    ensures VerifySignedCheckpoint(verify, x) == Ok(Pass) <==> CheckpointSigned(verify, x)
    ensures VerifySignedCheckpoint(verify, x) == Ok(Unavailable) <==> CheckpointUnknowable(verify, x)
  {
    hide Dumps, CheckpointObj, SignaturesFrom, AllGenuine, Unknowable, Ascii;
    if CanonicalCheckpoint(x.unsigned).Ok? {
      var message := Framed(DOM_CHECKPOINT_SIGN, CanonicalCheckpoint(x.unsigned).value);
      assert CheckpointBytes(x.unsigned, message);
      SignaturesIff(verify, message, x.signatures);
    }
  }

  /** A history passes the signature check exactly when every observation does likewise; the answer is
      Unavailable exactly when the first that does not pass has an envelope that could not be checked before
      any fault in it. */
  lemma {:induction false} AllSignedIff(verify: Verifier, h: History)
    ensures AllSigned(verify, h) == Ok(Pass) <==> HistorySigned(verify, h)
    ensures AllSigned(verify, h) == Ok(Unavailable) <==> HistoryUnknowable(verify, h)
    decreases h
  {
    hide VerifySignedObservation, ObservationSigned, ObservationUnknowable;
    if h != [] {
      ObservationSignedIff(verify, h[0]);
      AllSignedIff(verify, h[1..]);
      assert forall i | 0 < i < |h| :: h[i] == h[1..][i - 1];
      if HistorySigned(verify, h) {
        forall i | 0 <= i < |h[1..]| ensures ObservationSigned(verify, h[1..][i]) {
          assert ObservationSigned(verify, h[i + 1]);
        }
      }
      if n: nat :| UnknowableAt(verify, h[1..], n) {
        if ObservationSigned(verify, h[0]) {
          forall i | 0 <= i < n + 1 ensures ObservationSigned(verify, h[i]) {
            if i > 0 { assert ObservationSigned(verify, h[1..][i - 1]); }
          }
          assert UnknowableAt(verify, h, n + 1);
        }
      }
      if n: nat :| UnknowableAt(verify, h, n) {
        if n > 0 {
          assert ObservationSigned(verify, h[0]);
          forall i | 0 <= i < n - 1 ensures ObservationSigned(verify, h[1..][i]) {
            assert ObservationSigned(verify, h[i + 1]);
          }
          assert UnknowableAt(verify, h[1..], n - 1);
        }
      }
      if ObservationUnknowable(verify, h[0]) { assert UnknowableAt(verify, h, 0); }
    }
  }

  // ---- verify_bundle ----

  /** What a verification runs against: the two hash families, the double hash of headers and
      transactions, the signature toolchain, whether the project genesis reproduces, and the id of the
      protocol genesis, if one is given. */
  datatype Env = Env(suite: Suite, dsha: bytes -> Hash256, verify: Verifier, projectGenesis: bool,
                     genesis: Option<DigestPair>)

  datatype CheckName =
    | PROJECT_GENESIS_REPRODUCES | PROTOCOL_GENESIS_BINDING | ALL_OBSERVATION_PQ_SIGNATURES | WITNESS_CHAINS
    | UNIQUE_CHECKPOINT_WITNESSES | CHECKPOINT_LATEST_OBSERVATION_SET | MERKLE_ROOT | CONSENSUS_RULE
    | CHECKPOINT_PQ_SIGNATURES | ANCHOR_PAYLOAD_96 | JAN09_COINBASE_SCRIPTSIG_98 | BITCOIN_RAW_STRUCTURE | BITCOIN_POW

  datatype BundleVerdict = PASS | PASS_PRE_POW | FAIL | INDETERMINATE_TOOLCHAIN

  function AsCheck(b: bool): Check {
    if b then Pass else Fail
  }

  /** The latest records of an accepted history. */
  function LatestOf(s: Suite, h: History): History {
    match VerifyChains(s, h) case Ok(Some(latest)) => latest case _ => []
  }

  /** The observations, the checkpoint built from the latest of them, and all signatures are in order. */
  ghost predicate EvidenceHolds(env: Env, h: History, x: SignedCheckpoint) {
    ObservationsHold(env, h, x.unsigned) && CheckpointHolds(env, LatestOf(env.suite, h), x)
  }

  ghost predicate ObservationsHold(env: Env, h: History, cp: Checkpoint) {
    && env.projectGenesis
    && env.genesis == Some(cp.genesis) && (forall o | o in h :: o.unsigned.genesis == cp.genesis)
    && HistorySigned(env.verify, h)
    && VerifyChains(env.suite, h) == Ok(Some(LatestOf(env.suite, h)))
  }

  ghost predicate CheckpointHolds(env: Env, latest: History, x: SignedCheckpoint) {
    && RecordsAgree(env.suite, latest, x.unsigned)
    && ConsensusAgrees(latest, x.unsigned)
    && CheckpointSigned(env.verify, x)
  }

  ghost predicate RecordsAgree(s: Suite, latest: History, cp: Checkpoint) {
    && SortedRecords(s, latest) == Ok(cp.records)
    && cp.records != [] && MerkleRoot(s, cp.records) == cp.merkleRoot
  }

  ghost predicate ConsensusAgrees(latest: History, cp: Checkpoint) {
    var c := ConsensusOf(Map(IntervalOf, latest), cp.f);
    c.Ok? && c.value.q == cp.q && VerdictText(c.value.verdict) == cp.verdict && c.value.interval == cp.interval
  }

  /** The anchor payload of a signed checkpoint. */
  function PayloadOf(s: Suite, x: SignedCheckpoint): Result<bytes> {
    var cr :- CheckpointCommitment(s, x);
    AnchorPayload(x.unsigned.epoch, cr.sha256, cr.shake384, 3)
  }

  /** The payload is "CHRN", the bytes 1, 1, 0, 3, the epoch, and the two digests of the signed checkpoint. */
  ghost predicate IsPayload(s: Suite, x: SignedCheckpoint, payload: bytes) {
    && Dumps(SignedCheckpointObj(x)).Ok? && |payload| == 96
    && payload[..8] == [0x43, 0x48, 0x52, 0x4e, 1, 1, 0, 3] && FromBE(payload[8..16]) == x.unsigned.epoch
    && payload[16..48] == s.sha256(DOM_CHECKPOINT_RECORD + [0] + Dumps(SignedCheckpointObj(x)).value)
    && payload[48..] == s.shake384(DOM_CHECKPOINT_RECORD + [0] + Dumps(SignedCheckpointObj(x)).value)
  }

  /** The raw block carries the checkpoint's payload. */
  ghost predicate Anchored(env: Env, x: SignedCheckpoint, raw: bytes, medianTimePast: Option<int>) {
    exists payload :: IsPayload(env.suite, x, payload) && Carries(env.dsha, raw, payload, medianTimePast)
  }

  lemma PayloadIff(s: Suite, x: SignedCheckpoint, payload: bytes)
    ensures PayloadOf(s, x) == Ok(payload) <==> IsPayload(s, x, payload)
  {
    hide Dumps, SignedCheckpointObj, AnchorPayload, Ascii, LaidOut, FromBE;
    if Dumps(SignedCheckpointObj(x)).Ok? {
      var m := DOM_CHECKPOINT_RECORD + [0] + Dumps(SignedCheckpointObj(x)).value;
      PayloadBytesIff(x.unsigned.epoch, s.sha256(m), s.shake384(m), payload);
    }
  }

  lemma PayloadBytesIff(epoch: int, a: Hash256, b: Digest48, payload: bytes)
    ensures AnchorPayload(epoch, a, b, 3) == Ok(payload) <==>
              && |payload| == 96 && payload[..8] == [0x43, 0x48, 0x52, 0x4e, 1, 1, 0, 3]
              && FromBE(payload[8..16]) == epoch && payload[16..48] == a && payload[48..] == b
  {
    hide BE, FromBE, Pow256;
    Pow256Values();
    FlagBytes();
    if AnchorPayload(epoch, a, b, 3) == Ok(payload) {
      BERoundTrip(epoch, 8);
      assert payload[..8] == CHRN + ([1, 1] + BE(3, 2)) && payload[8..16] == BE(epoch, 8);
      assert payload[16..48] == a && payload[48..] == b;
    }
    if |payload| == 96 && FromBE(payload[8..16]) == epoch {
      FromBEBound(payload[8..16]);
      FromBERoundTrip(payload[8..16]);
      var rest := payload[8..16] + (payload[16..48] + payload[48..]);
      assert payload == payload[..8] + rest;
      assert CHRN + ([1, 1] + BE(3, 2)) + rest == CHRN + ([1, 1] + (BE(3, 2) + rest));
    }
  }

  lemma FlagBytes()
    ensures CHRN + ([1, 1] + BE(3, 2)) == [0x43, 0x48, 0x52, 0x4e, 1, 1, 0, 3]
  {
    assert BE(3, 1) == [3] && BE(0, 1) == [0];
    assert BE(3, 2) == [0, 3];
  }

  lemma AnchoredIff(env: Env, x: SignedCheckpoint, raw: bytes, medianTimePast: Option<int>)
    ensures Anchored(env, x, raw, medianTimePast) <==>
              && PayloadOf(env.suite, x).Ok?
              && VerifyCandidate(env.dsha, raw, PayloadOf(env.suite, x).value, medianTimePast) == Ok(true)
  {
    hide PayloadOf, IsPayload, VerifyCandidate, Carries;
    if PayloadOf(env.suite, x).Ok? {
      PayloadIff(env.suite, x, PayloadOf(env.suite, x).value);
      CandidateIff(env.dsha, raw, PayloadOf(env.suite, x).value, medianTimePast);
    }
    forall payload | IsPayload(env.suite, x, payload) ensures PayloadOf(env.suite, x) == Ok(payload) {
      PayloadIff(env.suite, x, payload);
    }
  }

  /** The header's compact target is one the target function accepts. */
  ghost predicate HasTarget(raw: bytes) {
    |raw| >= 80 && raw[75] >= 3
  }

  /** The block's header meets its own target. */
  ghost predicate Worked(env: Env, raw: bytes) {
    |raw| >= 80 && ProvesWork(env.dsha, raw[..80])
  }

  lemma WorkedIff(env: Env, raw: bytes)
    requires |raw| >= 80
    ensures HasTarget(raw) <==> TargetFromBits(FromLE(raw[72..76])).Ok?
    ensures Worked(env, raw)
       <==> HasTarget(raw) && Work(env.dsha, raw[..80]) <= TargetFromBits(FromLE(raw[72..76])).value
  {
    hide TargetFromBits, FromLE, Work, ProvesWork;
    var header := raw[..80];
    assert header[72..76] == raw[72..76] && header[75] == raw[75];
    WorkIff(env.dsha, header);
  }

  /** The `checks` dict: its items in the order they are written, each name once. */
  type Checks = seq<(CheckName, Check)>

  /** checks[k] = c, for a check not yet made. */
  function Put(checks: Checks, k: CheckName, c: Check): Checks {
    checks + [(k, c)]
  }

  /** The proof of work alone may fail. */
  predicate BadEvidence(c: (CheckName, Check)) {
    c.0 != BITCOIN_POW && c.1 != Pass
  }

  predicate IsUnavailable(c: (CheckName, Check)) {
    c.1 == Unavailable
  }

  predicate NotPassed(c: (CheckName, Check)) {
    c.1 != Pass
  }

  function VerdictOf(checks: Checks, anchored: bool, powPresent: bool): BundleVerdict {
    if exists i | 0 <= i < |checks| :: IsUnavailable(checks[i]) then INDETERMINATE_TOOLCHAIN
    else if exists i | 0 <= i < |checks| :: BadEvidence(checks[i]) then FAIL
    else if anchored && powPresent then PASS
    else PASS_PRE_POW
  }

  // ---- the checks a bundle comes to ----

  function GenesisBound(env: Env, h: History, cp: Checkpoint): bool {
    env.genesis == Some(cp.genesis) && forall o | o in h :: o.unsigned.genesis == cp.genesis
  }

  function ObservationChecks(env: Env, h: History, cp: Checkpoint): Result<Checks> {
    var signed :- AllSigned(env.verify, h);
    var chains :- VerifyChains(env.suite, h);
    Ok([(PROJECT_GENESIS_REPRODUCES, AsCheck(env.projectGenesis)),
        (PROTOCOL_GENESIS_BINDING, AsCheck(GenesisBound(env, h, cp))),
        (ALL_OBSERVATION_PQ_SIGNATURES, signed),
        (WITNESS_CHAINS, AsCheck(chains.Some?))])
  }

  /** Whether the consensus of the latest intervals is the checkpoint's; without records q stands at -1 and the
      verdict at "BAD". */
  function ConsensusChecked(latest: History, cp: Checkpoint): Result<bool> {
    if latest == [] then Ok(cp.q == -1 && cp.verdict == Ascii("BAD") && cp.interval == None) else
    var c :- ConsensusOf(Map(IntervalOf, latest), cp.f);
    Ok(c.q == cp.q && VerdictText(c.verdict) == cp.verdict && c.interval == cp.interval)
  }

  function CheckpointChecks(env: Env, latest: History, x: SignedCheckpoint): Result<Checks> {
    var cp := x.unsigned;
    var records :- SortedRecords(env.suite, latest);
    var agrees :- ConsensusChecked(latest, cp);
    var signed :- VerifySignedCheckpoint(env.verify, x);
    Ok([(UNIQUE_CHECKPOINT_WITNESSES, AsCheck(|Witnesses(latest)| == |latest|)),
        (CHECKPOINT_LATEST_OBSERVATION_SET, AsCheck(records == cp.records)),
        (MERKLE_ROOT, AsCheck(records != [] && MerkleRoot(env.suite, records) == cp.merkleRoot)),
        (CONSENSUS_RULE, AsCheck(agrees)),
        (CHECKPOINT_PQ_SIGNATURES, signed)])
  }

  /** The payload always has its 96 bytes and fits a script of 98. */
  const PAYLOAD_CHECKS: Checks := [(ANCHOR_PAYLOAD_96, Pass), (JAN09_COINBASE_SCRIPTSIG_98, Pass)]

  function BlockChecks(env: Env, payload: bytes, raw: bytes, medianTimePast: Option<int>): Result<Checks> {
    var structure :- VerifyCandidate(env.dsha, raw, payload, medianTimePast);
    CandidateLength(env.dsha, raw, payload, medianTimePast);
    var target :- TargetFromBits(FromLE(raw[72..76]));
    Ok([(BITCOIN_RAW_STRUCTURE, AsCheck(structure)), (BITCOIN_POW, AsCheck(Work(env.dsha, raw[..80]) <= target))])
  }

  /** All checks of a bundle, in the order in which verify_bundle writes them. */
  function BundleChecks(env: Env, h: History, x: SignedCheckpoint, raw: Option<bytes>, medianTimePast: Option<int>)
    : Result<Checks>
  {
    var observed :- ObservationChecks(env, h, x.unsigned);
    var checked :- CheckpointChecks(env, LatestOf(env.suite, h), x);
    var payload :- PayloadOf(env.suite, x);
    if raw.None? then Ok(observed + checked + PAYLOAD_CHECKS) else
    var block :- BlockChecks(env, payload, raw.value, medianTimePast);
    Ok(observed + checked + PAYLOAD_CHECKS + block)
  }

  function Judgement(env: Env, h: History, x: SignedCheckpoint, raw: Option<bytes>, medianTimePast: Option<int>)
    : Result<(Checks, BundleVerdict)>
  {
    var checks :- BundleChecks(env, h, x, raw, medianTimePast);
    Ok((checks, VerdictOf(checks, raw.Some?, (BITCOIN_POW, Pass) in checks)))
  }

  lemma {:induction false} DistinctCount(xs: History)
    requires forall i, j | 0 <= i < j < |xs| :: xs[i].unsigned.witnessId != xs[j].unsigned.witnessId
    ensures |Witnesses(xs)| == |xs|
  {
    if xs != [] {
      var n := |xs| - 1;
      DistinctCount(xs[..n]);
      assert xs == xs[..n] + [xs[n]];
      assert Witnesses(xs) == Witnesses(xs[..n]) + {xs[n].unsigned.witnessId};
    }
  }

  /** The uniqueness check on the latest records can never fail: the chains already imply it. */
  lemma LatestUnique(s: Suite, h: History)
    ensures |Witnesses(LatestOf(s, h))| == |LatestOf(s, h)|
  {
    hide VerifyChains, Chains.WitnessLeq;
    var latest := LatestOf(s, h);
    if latest != [] {
      ChainProofs.AcceptedLatest(s, h);
      DistinctCount(latest);
    }
  }

  lemma SameLength(s: Suite, xs: History)
    ensures SortedRecords(s, xs).Ok? ==> |SortedRecords(s, xs).value| == |xs|
  {
  }

  lemma PayloadLength(s: Suite, x: SignedCheckpoint)
    ensures PayloadOf(s, x).Ok? ==> |PayloadOf(s, x).value| == 96 && AnchorScriptSig(PayloadOf(s, x).value).Ok?
  {
  }

  lemma CandidateLength(dsha: bytes -> Hash256, raw: bytes, payload: bytes, t: Option<int>)
    requires VerifyCandidate(dsha, raw, payload, t).Ok?
    ensures |raw| >= 81
  {
  }

  // ---- what the checks mean ----

  lemma ObservationsMean(env: Env, h: History, cp: Checkpoint)
    ensures ObservationsHold(env, h, cp) ==> ObservationChecks(env, h, cp).Ok?
    ensures ObservationChecks(env, h, cp).Ok? ==>
      var checks := ObservationChecks(env, h, cp).value;
      && (Lacks(checks, BadEvidence) <==> ObservationsHold(env, h, cp))
      && (Lacks(checks, NotPassed) <==> ObservationsHold(env, h, cp))
      && (Lacks(checks, IsUnavailable) <==> !HistoryUnknowable(env.verify, h))
      && (BITCOIN_POW, Pass) !in checks
  {
    hide VerifyChains, AllSigned, Lacks, HistorySigned, HistoryUnknowable;
    AllSignedIff(env.verify, h);
    var r := ObservationChecks(env, h, cp);
    if r.Ok? {
      LacksFew(r.value, BadEvidence);
      LacksFew(r.value, NotPassed);
      LacksFew(r.value, IsUnavailable);
    }
  }

  lemma ConsensusCheckedIff(latest: History, cp: Checkpoint)
    requires latest != []
    ensures ConsensusChecked(latest, cp) == Ok(true) <==> ConsensusAgrees(latest, cp)
  {
    hide ConsensusOf;
  }

  /** The interval holds exactly the instants that 2f + 1 of the intervals hold. */
  ghost predicate IsQuorum(ivs: seq<Interval>, f: int, i: Interval) {
    forall t :: i.Contains(t) <==> |Holders(ivs, t)| >= 2 * f + 1
  }

  /** What a checkpoint says of n intervals and f faults, n being at least 3f + 1: where the instants held by a
      quorum make up one interval, that is the agreed one; otherwise the intervals are in conflict. */
  ghost predicate StatesConsensus(ivs: seq<Interval>, cp: Checkpoint) {
    && cp.f >= 0 && |ivs| >= 3 * cp.f + 1 && cp.q == 2 * cp.f + 1
    && match cp.interval
       case Some(i) => cp.verdict == Ascii("CONSENSUS") && IsQuorum(ivs, cp.f, i)
       case None => cp.verdict == Ascii("TIME_CONFLICT") && forall i: Interval :: !IsQuorum(ivs, cp.f, i)
  }

  lemma ConsensusAgreesIff(latest: History, cp: Checkpoint)
    ensures ConsensusAgrees(latest, cp) <==> StatesConsensus(Map(IntervalOf, latest), cp)
  {
    hide ConsensusOf, Holders, Ascii;
    var ivs := Map(IntervalOf, latest);
    AgreedInterval(ivs, cp.f);
    if ConsensusOf(ivs, cp.f).Ok? {
      var c := ConsensusOf(ivs, cp.f).value;
      TextsDiffer();
      forall i: Interval | IsQuorum(ivs, cp.f, i) ensures c.interval == Some(i) { QuorumAgreed(ivs, cp.f, i); }
    }
  }

  lemma TextsDiffer()
    ensures Ascii("CONSENSUS") != Ascii("TIME_CONFLICT")
  {
    assert |Ascii("CONSENSUS")| == 9 && |Ascii("TIME_CONFLICT")| == 13;
  }

  lemma QuorumAgreed(ivs: seq<Interval>, f: int, i: Interval)
    requires f >= 0 && |ivs| >= 3 * f + 1 && IsQuorum(ivs, f, i)
    ensures ConsensusOf(ivs, f).Ok? && ConsensusOf(ivs, f).value.interval == Some(i)
  {
    hide ConsensusOf, Holders;
    forall t ensures Support(ivs, t) >= 2 * f + 1 <==> i.Contains(t) { SupportCounts(ivs, t); }
    assert i.Contains(i.lower) && Reached(ivs, 2 * f + 1);
    ConsensusIff(ivs, f);
    AgreedInterval(ivs, f);
    var k := ConsensusOf(ivs, f).value.interval.value;
    assert i.Contains(i.lower) && i.Contains(i.upper) && k.Contains(k.lower) && k.Contains(k.upper);
    assert i.Contains(k.lower) && i.Contains(k.upper) && k.Contains(i.lower) && k.Contains(i.upper);
  }

  lemma CheckpointMeans(env: Env, latest: History, x: SignedCheckpoint)
    requires |Witnesses(latest)| == |latest|
    ensures CheckpointHolds(env, latest, x) ==> CheckpointChecks(env, latest, x).Ok?
    ensures CheckpointChecks(env, latest, x).Ok? ==>
      var checks := CheckpointChecks(env, latest, x).value;
      && (Lacks(checks, BadEvidence) <==> CheckpointHolds(env, latest, x))
      && (Lacks(checks, NotPassed) <==> CheckpointHolds(env, latest, x))
      && (Lacks(checks, IsUnavailable) <==> !CheckpointUnknowable(env.verify, x))
      && (BITCOIN_POW, Pass) !in checks
  {
    hide MerkleRoot, ConsensusChecked, ConsensusAgrees, SortedRecords, VerifySignedCheckpoint, Witnesses, Lacks,
         CheckpointSigned, CheckpointUnknowable;
    CheckpointSignedIff(env.verify, x);
    SameLength(env.suite, latest);
    if latest != [] { ConsensusCheckedIff(latest, x.unsigned); }
    var r := CheckpointChecks(env, latest, x);
    if r.Ok? {
      LacksFew(r.value, BadEvidence);
      LacksFew(r.value, NotPassed);
      LacksFew(r.value, IsUnavailable);
    }
  }

  lemma PayloadMeans()
    ensures Lacks(PAYLOAD_CHECKS, BadEvidence) && Lacks(PAYLOAD_CHECKS, NotPassed)
    ensures Lacks(PAYLOAD_CHECKS, IsUnavailable) && (BITCOIN_POW, Pass) !in PAYLOAD_CHECKS
  {
  }

  lemma BlockMeans(env: Env, x: SignedCheckpoint, raw: bytes, medianTimePast: Option<int>)
    requires PayloadOf(env.suite, x).Ok?
    ensures var r := BlockChecks(env, PayloadOf(env.suite, x).value, raw, medianTimePast);
      && (Anchored(env, x, raw, medianTimePast) && HasTarget(raw) ==> r.Ok?)
      && (r.Ok? ==>
            && HasTarget(raw)
            && (Lacks(r.value, BadEvidence) <==> Anchored(env, x, raw, medianTimePast))
            && (Lacks(r.value, NotPassed) <==> Anchored(env, x, raw, medianTimePast) && Worked(env, raw))
            && Lacks(r.value, IsUnavailable)
            && ((BITCOIN_POW, Pass) in r.value <==> Worked(env, raw)))
  {
    hide VerifyCandidate, TargetFromBits, FromLE, Work, PayloadOf, Lacks, HasTarget, Worked, Anchored;
    var payload := PayloadOf(env.suite, x).value;
    var r := BlockChecks(env, payload, raw, medianTimePast);
    AnchoredIff(env, x, raw, medianTimePast);
    if VerifyCandidate(env.dsha, raw, payload, medianTimePast).Ok? {
      CandidateLength(env.dsha, raw, payload, medianTimePast);
      WorkedIff(env, raw);
    }
    if r.Ok? {
      LacksFew(r.value, BadEvidence);
      LacksFew(r.value, NotPassed);
      LacksFew(r.value, IsUnavailable);
    }
  }

  lemma TwoLists(a: Checks, b: Checks)
    ensures Lacks(a + b, BadEvidence) <==> Lacks(a, BadEvidence) && Lacks(b, BadEvidence)
    ensures Lacks(a + b, NotPassed) <==> Lacks(a, NotPassed) && Lacks(b, NotPassed)
    ensures Lacks(a + b, IsUnavailable) <==> Lacks(a, IsUnavailable) && Lacks(b, IsUnavailable)
    ensures (BITCOIN_POW, Pass) in a + b <==> (BITCOIN_POW, Pass) in a || (BITCOIN_POW, Pass) in b
  {
    hide Lacks;
    LacksConcat(a, b, BadEvidence);
    LacksConcat(a, b, NotPassed);
    LacksConcat(a, b, IsUnavailable);
  }

  lemma ThreeLists(a: Checks, b: Checks, c: Checks)
    ensures Lacks(a + b + c, BadEvidence) <==> Lacks(a, BadEvidence) && Lacks(b, BadEvidence) && Lacks(c, BadEvidence)
    ensures Lacks(a + b + c, NotPassed) <==> Lacks(a, NotPassed) && Lacks(b, NotPassed) && Lacks(c, NotPassed)
    ensures Lacks(a + b + c, IsUnavailable)
       <==> Lacks(a, IsUnavailable) && Lacks(b, IsUnavailable) && Lacks(c, IsUnavailable)
    ensures (BITCOIN_POW, Pass) in a + b + c
       <==> (BITCOIN_POW, Pass) in a || (BITCOIN_POW, Pass) in b || (BITCOIN_POW, Pass) in c
  {
    hide Lacks;
    TwoLists(a, b);
    TwoLists(a + b, c);
  }

  lemma VerdictMeans(checks: Checks, anchored: bool, powPresent: bool)
    ensures var v := VerdictOf(checks, anchored, powPresent);
      && (v == INDETERMINATE_TOOLCHAIN <==> !Lacks(checks, IsUnavailable))
      && (v == PASS <==> Lacks(checks, IsUnavailable) && Lacks(checks, BadEvidence) && anchored && powPresent)
      && (v == PASS_PRE_POW <==>
            Lacks(checks, IsUnavailable) && Lacks(checks, BadEvidence) && !(anchored && powPresent))
  {
  }

  /** Holding evidence has signatures, and with them everything the payload is made of. */
  lemma PayloadKnown(env: Env, h: History, x: SignedCheckpoint, raw: Option<bytes>, medianTimePast: Option<int>)
    ensures raw.Some? && Anchored(env, x, raw.value, medianTimePast) ==> PayloadOf(env.suite, x).Ok?
    ensures raw.Some? && Worked(env, raw.value) ==> HasTarget(raw.value)
    ensures EvidenceHolds(env, h, x) ==> !HistoryUnknowable(env.verify, h) && !CheckpointUnknowable(env.verify, x)
  {
    hide PayloadOf, AllSigned, VerifySignedCheckpoint, RecordsAgree, ConsensusAgrees, VerifyChains, VerifyCandidate,
         HistorySigned, HistoryUnknowable, CheckpointSigned, CheckpointUnknowable, Anchored;
    if raw.Some? { AnchoredIff(env, x, raw.value, medianTimePast); }
    AllSignedIff(env.verify, h);
    CheckpointSignedIff(env.verify, x);
  }

  // ---- verify_bundle ----

  method CheckObservations(env: Env, h: History, cp: Checkpoint) returns (r: Result<(Checks, History)>)
    ensures r.Raised? <==> ObservationChecks(env, h, cp).Raised?
    ensures r.Ok? ==> r.value == (ObservationChecks(env, h, cp).value, LatestOf(env.suite, h))
  {
    hide VerifyChains, AllSigned;
    var checks := Put([], PROJECT_GENESIS_REPRODUCES, AsCheck(env.projectGenesis));
    if env.genesis.Some? {
      var gid := env.genesis.value;
      var sameGenesis := (forall o | o in h :: o.unsigned.genesis == gid) && cp.genesis == gid;
      checks := Put(checks, PROTOCOL_GENESIS_BINDING, AsCheck(sameGenesis));
    } else {
      checks := Put(checks, PROTOCOL_GENESIS_BINDING, Fail);
    }
    var signed := AllSigned(env.verify, h);
    if signed.Raised? { return Raised; }
    checks := Put(checks, ALL_OBSERVATION_PQ_SIGNATURES, signed.value);
    var chains := VerifyWitnessChains(env.suite, h);
    if chains.Raised? { return Raised; }
    checks := Put(checks, WITNESS_CHAINS, AsCheck(chains.value.Some?));
    assert checks == ObservationChecks(env, h, cp).value;
    r := Ok((checks, if chains.value.Some? then chains.value.value else []));
  }

  method CheckConsensus(latest: History, cp: Checkpoint) returns (r: Result<bool>)
    ensures r == ConsensusChecked(latest, cp)
  {
    hide ConsensusOf;
    if latest != [] {
      var c := RunConsensus(Map(IntervalOf, latest), cp.f);
      if c.Raised? { return Raised; }
      r := Ok(c.value.q == cp.q && VerdictText(c.value.verdict) == cp.verdict && c.value.interval == cp.interval);
    } else {
      r := Ok(cp.q == -1 && cp.verdict == Ascii("BAD") && cp.interval == None);
    }
  }

  method CheckCheckpoint(env: Env, latest: History, x: SignedCheckpoint) returns (r: Result<Checks>)
    ensures r == CheckpointChecks(env, latest, x)
  {
    hide MerkleRoot, ConsensusChecked, SortedRecords, VerifySignedCheckpoint, Witnesses;
    var cp := x.unsigned;
    var checks := Put([], UNIQUE_CHECKPOINT_WITNESSES, AsCheck(|Witnesses(latest)| == |latest|));
    var records := SortedRecords(env.suite, latest);
    if records.Raised? { return Raised; }
    checks := Put(checks, CHECKPOINT_LATEST_OBSERVATION_SET, AsCheck(records.value == cp.records));
    if records.value != [] {
      var root := ComputeMerklePair(env.suite, records.value);
      checks := Put(checks, MERKLE_ROOT, AsCheck(root.value == cp.merkleRoot));
    } else {
      checks := Put(checks, MERKLE_ROOT, Fail);
    }
    var agrees := CheckConsensus(latest, cp);
    if agrees.Raised? { return Raised; }
    checks := Put(checks, CONSENSUS_RULE, AsCheck(agrees.value));
    var checkpointSigned := VerifySignedCheckpoint(env.verify, x);
    if checkpointSigned.Raised? { return Raised; }
    checks := Put(checks, CHECKPOINT_PQ_SIGNATURES, checkpointSigned.value);
    assert checks == CheckpointChecks(env, latest, x).value;
    r := Ok(checks);
  }

  /** The verdict of an accepted, an unfinished, an unchecked and any other bundle. */
  lemma JudgementMeans(env: Env, h: History, x: SignedCheckpoint, raw: Option<bytes>, medianTimePast: Option<int>)
    ensures var r := Judgement(env, h, x, raw, medianTimePast);
      && (r.Ok? && r.value.1 == PASS
          <==> && EvidenceHolds(env, h, x) && raw.Some?
               && Anchored(env, x, raw.value, medianTimePast) && Worked(env, raw.value))
      && (r.Ok? && r.value.1 == PASS_PRE_POW
          <==> && EvidenceHolds(env, h, x) && PayloadOf(env.suite, x).Ok?
               && (raw.Some? ==>
                     && Anchored(env, x, raw.value, medianTimePast)
                     && HasTarget(raw.value) && !Worked(env, raw.value)))
      && (r.Ok? ==>
            (r.value.1 == INDETERMINATE_TOOLCHAIN
             <==> HistoryUnknowable(env.verify, h) || CheckpointUnknowable(env.verify, x)))
      && (r.Ok? && raw.Some? ==> (Lacks(r.value.0, NotPassed) <==> r.value.1 == PASS))
  {
    hide ObservationChecks, CheckpointChecks, BlockChecks, ObservationsHold, CheckpointHolds, LatestOf, Lacks,
         AllSigned, VerifySignedCheckpoint, PayloadOf, Anchored, HasTarget, Worked, Witnesses, HistoryUnknowable,
         CheckpointUnknowable;
    LatestUnique(env.suite, h);
    ObservationsMean(env, h, x.unsigned);
    CheckpointMeans(env, LatestOf(env.suite, h), x);
    PayloadMeans();
    PayloadKnown(env, h, x, raw, medianTimePast);
    var a, b := ObservationChecks(env, h, x.unsigned), CheckpointChecks(env, LatestOf(env.suite, h), x);
    if a.Ok? && b.Ok? && PayloadOf(env.suite, x).Ok? {
      ThreeLists(a.value, b.value, PAYLOAD_CHECKS);
      var three := a.value + b.value + PAYLOAD_CHECKS;
      if raw.None? {
        VerdictMeans(three, false, false);
      } else {
        BlockMeans(env, x, raw.value, medianTimePast);
        var c := BlockChecks(env, PayloadOf(env.suite, x).value, raw.value, medianTimePast);
        if c.Ok? {
          TwoLists(three, c.value);
          VerdictMeans(three + c.value, true, (BITCOIN_POW, Pass) in three + c.value);
        }
      }
    }
  }

  /** Before the block is looked at there is no check of its work. */
  lemma NoWorkYet(env: Env, h: History, x: SignedCheckpoint)
    ensures var a, b := ObservationChecks(env, h, x.unsigned), CheckpointChecks(env, LatestOf(env.suite, h), x);
            a.Ok? && b.Ok? ==> (BITCOIN_POW, Pass) !in a.value + b.value + PAYLOAD_CHECKS
  {
    hide ObservationChecks, CheckpointChecks, LatestOf, Lacks, Witnesses, ObservationsHold, CheckpointHolds, AllSigned,
         VerifySignedCheckpoint;
    LatestUnique(env.suite, h);
    ObservationsMean(env, h, x.unsigned);
    CheckpointMeans(env, LatestOf(env.suite, h), x);
    PayloadMeans();
  }

  /** verify_bundle.  PASS means that all evidence holds, the block carries this checkpoint's payload, and
      the block meets its own target; PASS_PRE_POW that only the work is missing; INDETERMINATE_TOOLCHAIN that a
      signature check was unavailable; FAIL anything else that does not raise. */
  method VerifyBundle(env: Env, h: History, x: SignedCheckpoint, raw: Option<bytes>, medianTimePast: Option<int>)
    returns (r: Result<(Checks, BundleVerdict)>)
    ensures r == Judgement(env, h, x, raw, medianTimePast)
    ensures r.Ok? && r.value.1 == PASS
      <==> && EvidenceHolds(env, h, x) && raw.Some?
           && Anchored(env, x, raw.value, medianTimePast) && Worked(env, raw.value)
    ensures r.Ok? && r.value.1 == PASS_PRE_POW
      <==> && EvidenceHolds(env, h, x) && PayloadOf(env.suite, x).Ok?
           && (raw.Some? ==>
                 && Anchored(env, x, raw.value, medianTimePast)
                 && HasTarget(raw.value) && !Worked(env, raw.value))
    ensures r.Ok? ==>
      (r.value.1 == INDETERMINATE_TOOLCHAIN
       <==> HistoryUnknowable(env.verify, h) || CheckpointUnknowable(env.verify, x))
  {
    hide ObservationChecks, CheckpointChecks, VerdictOf, PayloadOf, VerifyCandidate, TargetFromBits, FromLE,
         ObservationsHold, CheckpointHolds, LatestOf, Work, AllSigned, VerifySignedCheckpoint, Anchored, HasTarget,
         Worked, HistoryUnknowable, CheckpointUnknowable;
    JudgementMeans(env, h, x, raw, medianTimePast);
    var observed := CheckObservations(env, h, x.unsigned);
    if observed.Raised? { return Raised; }
    var checked := CheckCheckpoint(env, observed.value.1, x);
    if checked.Raised? { return Raised; }
    var checks := observed.value.0 + checked.value;
    var payload := PayloadOf(env.suite, x);
    if payload.Raised? { return Raised; }
    PayloadLength(env.suite, x);
    checks := Put(checks, ANCHOR_PAYLOAD_96, AsCheck(|payload.value| == 96));
    checks := Put(checks, JAN09_COINBASE_SCRIPTSIG_98, AsCheck(|AnchorScriptSig(payload.value).value| == 98));
    assert checks == observed.value.0 + checked.value + PAYLOAD_CHECKS;
    NoWorkYet(env, h, x);
    var powPresent := false;
    if raw.Some? {
      ghost var before := checks;
      var structure := VerifyCandidate(env.dsha, raw.value, payload.value, medianTimePast);
      if structure.Raised? { return Raised; }
      checks := Put(checks, BITCOIN_RAW_STRUCTURE, AsCheck(structure.value));
      CandidateLength(env.dsha, raw.value, payload.value, medianTimePast);
      var header := raw.value[..80];
      assert header[72..76] == raw.value[72..76];
      var target := TargetFromBits(FromLE(header[72..76]));
      if target.Raised? { return Raised; }
      powPresent := Work(env.dsha, header) <= target.value;
      checks := Put(checks, BITCOIN_POW, AsCheck(powPresent));
      assert checks == before + [(BITCOIN_RAW_STRUCTURE, AsCheck(structure.value)), (BITCOIN_POW, AsCheck(powPresent))];
    }
    r := Ok((checks, VerdictOf(checks, raw.Some?, powPresent)));
  }
}
