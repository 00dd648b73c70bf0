/** What an accepted bundle fixes, and that the checkpoint builder satisfies the verifier. */
module BundleProofs {
  import opened Wrappers
  import opened Bytes
  import opened Sorting
  import opened Cbor
  import opened HashSuite
  import opened Records
  import opened Merkle
  import opened Intervals
  import opened Model
  import opened Chains
  import ChainProofs
  import opened Jan09
  import opened Verify

  ghost function CheckpointMessage(x: SignedCheckpoint): bytes
    requires Dumps(SignedCheckpointObj(x)).Ok?
  {
    Framed(DOM_CHECKPOINT_RECORD, Dumps(SignedCheckpointObj(x)).value)
  }

  /** Every message whose digest pair ties an accepted bundle to its block: the signed checkpoint, the
      latest signed observations, and all unsigned observations. */
  ghost function BundleMessages(s: Suite, h: History, x: SignedCheckpoint): set<bytes> {
    (if Dumps(SignedCheckpointObj(x)).Ok? then {CheckpointMessage(x)} else {})
    + (set r | r in LatestOf(s, h) && Dumps(SignedObservationObj(r)).Ok? :: RecordMessage(r))
    + ChainProofs.LineageMessages(h)
  }

  /** A checkpoint's commitment fixes the signed checkpoint. */
  lemma CheckpointBinds(s: Suite, M: set<bytes>, x: SignedCheckpoint, y: SignedCheckpoint)
    requires OneFamilyHolds(s, M) && Dumps(SignedCheckpointObj(x)).Ok? && Dumps(SignedCheckpointObj(y)).Ok?
    requires CheckpointMessage(x) in M && CheckpointMessage(y) in M
    requires CheckpointCommitment(s, x) == CheckpointCommitment(s, y)
    ensures x == y
  {
    hide OneFamilyHolds, Framed, DigestPairOf, CheckpointObj, Dumps;
    PairBinds(s, M, DOM_CHECKPOINT_RECORD, Dumps(SignedCheckpointObj(x)).value,
              DOM_CHECKPOINT_RECORD, Dumps(SignedCheckpointObj(y)).value);
    CheckpointObjPlain(x.unsigned);
    CheckpointObjPlain(y.unsigned);
    SignedPlain(CheckpointObj(x.unsigned), x.signatures);
    SignedPlain(CheckpointObj(y.unsigned), y.signatures);
    EncodingBinds(SignedCheckpointObj(x), SignedCheckpointObj(y));
    SignedCheckpointRoundTrip(x);
    SignedCheckpointRoundTrip(y);
  }

  /** Equal payloads mean equal checkpoint commitments. */
  lemma PayloadBinds(s: Suite, x: SignedCheckpoint, y: SignedCheckpoint)
    requires PayloadOf(s, x).Ok? && PayloadOf(s, x) == PayloadOf(s, y)
    ensures CheckpointCommitment(s, x).Ok? && CheckpointCommitment(s, x) == CheckpointCommitment(s, y)
  {
    hide CheckpointCommitment, AnchorPayload;
    var a, b := CheckpointCommitment(s, x).value, CheckpointCommitment(s, y).value;
    AnchorPayloadBinds(x.unsigned.epoch, a.sha256, a.shake384, y.unsigned.epoch, b.sha256, b.shake384, 3);
  }

  lemma CommitmentEncodes(s: Suite, x: SignedCheckpoint)
    ensures CheckpointCommitment(s, x).Ok? <==> Dumps(SignedCheckpointObj(x)).Ok?
  {
    hide Dumps;
  }

  lemma RecordEncodes(s: Suite, r: SignedObservation)
    ensures RecordCommitment(s, r).Ok? <==> Dumps(SignedObservationObj(r)).Ok?
  {
    hide Dumps;
  }

  /** The sorted commitments of two lists are equal only if the lists have the same members. */
  lemma RecordsBind(s: Suite, M: set<bytes>, a: History, b: History, r: SignedObservation)
    requires OneFamilyHolds(s, M) && SortedRecords(s, a).Ok? && SortedRecords(s, a) == SortedRecords(s, b)
    requires forall o | (o in a || o in b) && Dumps(SignedObservationObj(o)).Ok? :: RecordMessage(o) in M
    requires r in a
    ensures r in b
  {
    hide OneFamilyHolds, RecordCommitment, RecordMessage, Dumps, Sort;
    CommitmentsAt(s, a);
    CommitmentsAt(s, b);
    var ca, cb := Commitments(s, a).value, Commitments(s, b).value;
    SameElements(ca, cb);
    var i :| 0 <= i < |a| && a[i] == r;
    assert ca[i] in cb;
    var j :| 0 <= j < |cb| && cb[j] == ca[i];
    assert b[j] in b;
    RecordEncodes(s, r);
    RecordEncodes(s, b[j]);
    RecordBinds(s, M, r, b[j]);
  }

  /** The block decides everything.  Let two bundles pass verify_bundle against the same raw block, under
      any median times, and let at least one hash family have no collision among the hashed messages.
      Then their signed checkpoints are equal, their latest signed observations are equal, and so is every
      witness's complete unsigned history. */
  lemma BlockFixesEvidence(env: Env, M: set<bytes>, h: History, x: SignedCheckpoint, g: History, y: SignedCheckpoint,
                           raw: bytes, t: Option<int>, u: Option<int>)
    requires EvidenceHolds(env, h, x) && Anchored(env, x, raw, t)
    requires EvidenceHolds(env, g, y) && Anchored(env, y, raw, u)
    requires OneFamilyHolds(env.suite, M)
    requires BundleMessages(env.suite, h, x) + BundleMessages(env.suite, g, y) <= M
    ensures x == y
    ensures LatestOf(env.suite, h) == LatestOf(env.suite, g)
    ensures forall w :: Map(ChainProofs.UnsignedOf, Chain(h, w)) == Map(ChainProofs.UnsignedOf, Chain(g, w))
  {
    var s := env.suite;
    hide OneFamilyHolds, PayloadOf, Anchored, VerifyCandidate, VerifyChains, SortedRecords, Dumps, HistorySigned,
         CheckpointSigned, ConsensusAgrees, RecordMessage, CheckpointMessage, Chain,
         ChainProofs.LineageMessages, ChainProofs.ByWitness, ChainProofs.Newest, CheckpointCommitment, MerkleRoot;
    AnchoredIff(env, x, raw, t);
    AnchoredIff(env, y, raw, u);
    BlockBindsPayload(env.dsha, raw, PayloadOf(s, x).value, PayloadOf(s, y).value, t, u);
    PayloadBinds(s, x, y);
    CommitmentEncodes(s, x);
    CommitmentEncodes(s, y);
    CheckpointBinds(s, M, x, y);
    var a, b := LatestOf(s, h), LatestOf(s, g);
    ChainProofs.AcceptedLatest(s, h);
    ChainProofs.AcceptedLatest(s, g);
    forall r ensures r in a <==> r in b {
      if r in a { RecordsBind(s, M, a, b, r); }
      if r in b { RecordsBind(s, M, b, a, r); }
    }
    ChainProofs.ByWitnessUnique(a, b);
    ChainProofs.LatestFixesHistory(s, M, h, g);
  }

  // ---- build, then verify ----

  lemma CommitmentLeqOrder()
    ensures TotalPreorder(CommitmentLeq) && Antisymmetric(CommitmentLeq)
  {
    forall p, r ensures CommitmentLeq(p, r) || CommitmentLeq(r, p) {
      LexTotal(p.sha256, r.sha256);
      LexTotal(p.shake384, r.shake384);
    }
    forall p, q, r | CommitmentLeq(p, q) && CommitmentLeq(q, r) ensures CommitmentLeq(p, r) {
      CommitmentLeqTransitive(p, q, r);
    }
    forall p, r | CommitmentLeq(p, r) && CommitmentLeq(r, p) ensures p == r {
      if p.sha256 != r.sha256 { LexAntisymmetric(p.sha256, r.sha256); }
      LexAntisymmetric(p.shake384, r.shake384);
    }
  }

  lemma CommitmentLeqTransitive(p: DigestPair, q: DigestPair, r: DigestPair)
    requires CommitmentLeq(p, q) && CommitmentLeq(q, r)
    ensures CommitmentLeq(p, r)
  {
    hide LexLeq;
    if p.sha256 == q.sha256 == r.sha256 {
      LexTransitive(p.shake384, q.shake384, r.shake384);
    } else if p.sha256 != q.sha256 && q.sha256 != r.sha256 {
      LexTransitive(p.sha256, q.sha256, r.sha256);
      if p.sha256 == r.sha256 { LexAntisymmetric(p.sha256, q.sha256); }
    }
  }

  /** By SHA-256 first, then by SHAKE: the smaller byte where they first differ. */
  ghost predicate NotAfter(p: DigestPair, r: DigestPair) {
    || (exists k: nat :: SmallerAt(p.sha256, r.sha256, k))
    || (p.sha256 == r.sha256 && (p.shake384 == r.shake384 || exists k: nat :: SmallerAt(p.shake384, r.shake384, k)))
  }

  ghost predicate Ascend(rs: seq<DigestPair>) {
    forall i, j | 0 <= i < j < |rs| :: NotAfter(rs[i], rs[j])
  }

  /** The digest pairs of the encoded records, one for each. */
  ghost predicate AreDigests(s: Suite, xs: History, cs: seq<DigestPair>) {
    && |cs| == |xs|
    && forall i | 0 <= i < |xs| ::
         && Dumps(SignedObservationObj(xs[i])).Ok?
         && cs[i].sha256 == s.sha256(DOM_OBS_RECORD + [0] + Dumps(SignedObservationObj(xs[i])).value)
         && cs[i].shake384 == s.shake384(DOM_OBS_RECORD + [0] + Dumps(SignedObservationObj(xs[i])).value)
  }

  lemma NotAfterIff(p: DigestPair, r: DigestPair)
    ensures CommitmentLeq(p, r) <==> NotAfter(p, r)
  {
    hide LexLeq;
    LexLeqIff(p.sha256, r.sha256);
    LexLeqIff(p.shake384, r.shake384);
  }

  lemma DigestsIff(s: Suite, xs: History, cs: seq<DigestPair>)
    ensures Commitments(s, xs) == Ok(cs) <==> AreDigests(s, xs, cs)
  {
    hide Dumps, SignedObservationObj, Ascii;
    CommitmentsAt(s, xs);
    if Commitments(s, xs).Ok? {
      var all := Commitments(s, xs).value;
      forall i | 0 <= i < |xs| ensures RecordCommitment(s, xs[i]) == Ok(all[i]) {}
    }
    if AreDigests(s, xs, cs) {
      forall i | 0 <= i < |xs| ensures RecordCommitment(s, xs[i]) == Ok(cs[i]) {
        assert Dumps(SignedObservationObj(xs[i])).Ok?;
      }
      assert Commitments(s, xs).value == cs;
    }
  }

  /** What a checkpoint lists: the digest pairs of the latest records, each as often as it occurs, ascending. */
  lemma RecordsIff(s: Suite, xs: History, rs: seq<DigestPair>)
    ensures SortedRecords(s, xs) == Ok(rs)
       <==> Ascend(rs) && exists cs :: AreDigests(s, xs, cs) && multiset(rs) == multiset(cs)
  {
    hide Commitments, AreDigests, CommitmentLeq, NotAfter;
    CommitmentLeqOrder();
    if Commitments(s, xs).Ok? {
      var cs := Commitments(s, xs).value;
      DigestsIff(s, xs, cs);
      SortSorted(CommitmentLeq, cs);
      var sorted := Sort(CommitmentLeq, cs);
      forall i, j | 0 <= i < j < |sorted| ensures NotAfter(sorted[i], sorted[j]) { NotAfterIff(sorted[i], sorted[j]); }
    }
    if Ascend(rs) {
      forall cs | AreDigests(s, xs, cs) && multiset(rs) == multiset(cs) ensures SortedRecords(s, xs) == Ok(rs) {
        DigestsIff(s, xs, cs);
        forall i, j | 0 <= i < j < |rs| ensures CommitmentLeq(rs[i], rs[j]) { NotAfterIff(rs[i], rs[j]); }
        SortSorted(CommitmentLeq, cs);
        SortedUnique(CommitmentLeq, Sort(CommitmentLeq, cs), rs);
      }
    }
  }

  lemma CommitmentsForgetOrder(s: Suite, xs: History, ys: History)
    requires multiset(xs) == multiset(ys)
    ensures SortedRecords(s, xs) == SortedRecords(s, ys)
  {
    hide RecordCommitment;
    CommitmentsAt(s, xs);
    CommitmentsAt(s, ys);
    SameElements(xs, ys);
    forall i | 0 <= i < |xs| ensures xs[i] in ys {}
    forall i | 0 <= i < |ys| ensures ys[i] in xs {}
    var f := (x: SignedObservation) =>
      match RecordCommitment(s, x) case Ok(d) => d case Raised => ChainProofs.NO_DIGEST;
    if Commitments(s, xs).Ok? && Commitments(s, ys).Ok? {
      assert Commitments(s, xs).value == Map(f, xs) && Commitments(s, ys).value == Map(f, ys);
      MapMultiset(f, xs, ys);
      CommitmentLeqOrder();
      SortForgetsOrder(CommitmentLeq, Commitments(s, xs).value, Commitments(s, ys).value);
    }
  }

  lemma ConsensusOfRecordsForgetsOrder(xs: History, ys: History, f: int)
    requires multiset(xs) == multiset(ys)
    ensures ConsensusOf(Map(IntervalOf, xs), f) == ConsensusOf(Map(IntervalOf, ys), f)
  {
    hide ConsensusOf;
    MapMultiset(IntervalOf, xs, ys);
    ConsensusForgetsOrder(Map(IntervalOf, xs), Map(IntervalOf, ys), f);
  }

  /** A checkpoint built from an accepted history's latest records, taken in any order, passes the
      record-set, Merkle-root and consensus checks of verify_bundle against that history, can be signed,
      and carries the history's genesis. */
  lemma BuiltCheckpointVerifies(s: Suite, h: History, xs: History, epoch: int, f: int, previous: Option<DigestPair>,
                                genesis: DigestPair)
    requires VerifyChains(s, h) == Ok(Some(LatestOf(s, h))) && multiset(xs) == multiset(LatestOf(s, h))
    requires BuildCheckpoint(s, epoch, xs, f, previous).Ok?
    requires forall o | o in h :: o.unsigned.genesis == genesis
    ensures var cp := BuildCheckpoint(s, epoch, xs, f, previous).value;
      && RecordsAgree(s, LatestOf(s, h), cp)
      && ConsensusAgrees(LatestOf(s, h), cp)
      && cp.genesis == genesis && cp.witnessCount == |cp.records| && cp.version == 1
      && cp.epoch == epoch && cp.f == f && cp.previous == previous && cp.policy == POLICY
  {
    hide VerifyChains, SortedRecords, MerkleRoot, ConsensusOf, ChainProofs.ByWitness, ChainProofs.Newest;
    var latest := LatestOf(s, h);
    CommitmentsForgetOrder(s, xs, latest);
    ConsensusOfRecordsForgetsOrder(xs, latest, f);
    SameLength(s, xs);
    SameElements(xs, latest);
    ChainProofs.AcceptedLatest(s, h);
    assert xs != [] by { if xs == [] { NoGenesis(xs); } }
    assert xs[0] in latest;
    ChainProofs.HasFirst(xs);
    MemberCount(h, xs[0]);
  }

  lemma NoGenesis(xs: History)
    requires xs == []
    ensures |Geneses(xs)| == 0
  {
    assert Geneses(xs) == {};
  }

  /** From an accepted history's latest records, taken in any order, building never fails on duplicate
      witnesses; it succeeds exactly when there is one genesis, every record has an encoding and n >= 3f + 1. */
  lemma BuildSucceedsIff(s: Suite, h: History, xs: History, epoch: int, f: int, previous: Option<DigestPair>)
    requires VerifyChains(s, h) == Ok(Some(LatestOf(s, h))) && multiset(xs) == multiset(LatestOf(s, h))
    ensures BuildCheckpoint(s, epoch, xs, f, previous).Ok?
      <==> && |Geneses(xs)| == 1 && f >= 0 && |xs| >= 3 * f + 1
           && forall i | 0 <= i < |xs| :: Dumps(SignedObservationObj(xs[i])).Ok?
  {
    hide VerifyChains, MerkleRoot, SortedRecords, Dumps, ConsensusOf, SignedObservationObj, LatestOf, Witnesses;
    LatestUnique(s, h);
    SameWitnesses(xs, LatestOf(s, h));
    SortedRecordsIff(s, xs);
    SameLength(s, xs);
    ConsensusOfIff(xs, f);
    if xs == [] { NoGenesis(xs); }
  }

  lemma SameWitnesses(xs: History, ys: History)
    requires multiset(xs) == multiset(ys)
    ensures |xs| == |ys| && Witnesses(xs) == Witnesses(ys)
  {
    SameElements(xs, ys);
    assert |multiset(xs)| == |xs| && |multiset(ys)| == |ys|;
  }

  lemma ConsensusOfIff(xs: History, f: int)
    ensures ConsensusOf(Map(IntervalOf, xs), f).Ok? <==> f >= 0 && |xs| >= 3 * f + 1
  {
    hide Regions;
  }

  lemma SortedRecordsIff(s: Suite, xs: History)
    ensures SortedRecords(s, xs).Ok? <==> forall i | 0 <= i < |xs| :: Dumps(SignedObservationObj(xs[i])).Ok?
  {
    hide RecordCommitment, Dumps, SignedObservationObj;
    CommitmentsAt(s, xs);
    forall i | 0 <= i < |xs| ensures RecordCommitment(s, xs[i]).Ok? <==> Dumps(SignedObservationObj(xs[i])).Ok? {
      RecordEncodes(s, xs[i]);
    }
  }

  predicate Gets(r: Result<(Checks, BundleVerdict)>, v: BundleVerdict) {
    r.Ok? && r.value.1 == v
  }

  /** The block's header hash is at most the target that the bits stand for. */
  predicate Meets(dsha: bytes -> Hash256, raw: bytes, bits: int) {
    && |raw| >= 80 && bits >= 0x300_0000
    && FromLE(dsha(raw[..80])) <= bits % 0x80_0000 * Pow256(bits / 0x100_0000 - 3)
  }

  /** Building, signing and anchoring end in acceptance.  Let the observations be in order and the checkpoint,
      built from their latest records in any order, be signed.  Without a block the bundle is PASS_PRE_POW as
      soon as the checkpoint has a payload; with a block made for that payload, later than the median time
      past, it is PASS exactly when the header meets the target of its bits. */
  lemma BuiltBundlePasses(env: Env, h: History, xs: History, x: SignedCheckpoint, payload: bytes, prevHash: bytes,
                          ntime: int, bits: int, nonce: int, value: int, pubkey: bytes, raw: bytes,
                          medianTimePast: Option<int>)
    requires ObservationsHold(env, h, x.unsigned) && multiset(xs) == multiset(LatestOf(env.suite, h))
    requires BuildCheckpoint(env.suite, x.unsigned.epoch, xs, x.unsigned.f, x.unsigned.previous) == Ok(x.unsigned)
    requires CheckpointSigned(env.verify, x) && PayloadOf(env.suite, x) == Ok(payload)
    requires MakeBlock(env.dsha, payload, prevHash, ntime, bits, nonce, value, pubkey) == Ok(raw)
    requires medianTimePast.Some? ==> ntime > medianTimePast.value
    ensures Gets(Judgement(env, h, x, None, medianTimePast), PASS_PRE_POW)
    ensures Gets(Judgement(env, h, x, Some(raw), medianTimePast), PASS) <==> Meets(env.dsha, raw, bits)
  {
    hide Judgement, CheckpointSigned, PayloadOf, HistorySigned, VerifyChains, MakeBlock, TargetFromBits, Work,
         Anchored, Worked, RecordsAgree, ConsensusAgrees, BuildCheckpoint, LatestOf, Meets;
    var cp := x.unsigned;
    BuiltCheckpointVerifies(env.suite, h, xs, cp.epoch, cp.f, cp.previous, cp.genesis);
    JudgementMeans(env, h, x, None, medianTimePast);
    JudgementMeans(env, h, x, Some(raw), medianTimePast);
    MadeBlockAnchors(env, x, prevHash, ntime, bits, nonce, value, pubkey, raw, medianTimePast);
  }

  lemma MadeBlockAnchors(env: Env, x: SignedCheckpoint, prevHash: bytes, ntime: int, bits: int, nonce: int, value: int,
                         pubkey: bytes, raw: bytes, medianTimePast: Option<int>)
    requires PayloadOf(env.suite, x).Ok? && (medianTimePast.Some? ==> ntime > medianTimePast.value)
    requires MakeBlock(env.dsha, PayloadOf(env.suite, x).value, prevHash, ntime, bits, nonce, value, pubkey) == Ok(raw)
    ensures Anchored(env, x, raw, medianTimePast) && (Worked(env, raw) <==> Meets(env.dsha, raw, bits))
  {
    hide AnchorPayload, CheckpointCommitment, VerifyCandidate, CoinbaseTx, MakeHeader, FromLE, Pow256, Anchored, Worked;
    var c := CheckpointCommitment(env.suite, x).value;
    var payload := PayloadOf(env.suite, x).value;
    MadeBlockVerifies(env.dsha, x.unsigned.epoch, c.sha256, c.shake384, 3, prevHash, ntime, bits, nonce, value, pubkey,
                      payload, medianTimePast);
    var tx := CoinbaseTx(payload, value, pubkey).value;
    var header := MakeHeader(prevHash, env.dsha(tx), ntime, bits, nonce).value;
    HeaderFields(prevHash, env.dsha(tx), ntime, bits, nonce);
    assert raw[72..76] == header[72..76];
    AnchoredIff(env, x, raw, medianTimePast);
    WorkedIff(env, raw);
  }
}
