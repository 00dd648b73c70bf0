/** A smallest world in which bundles can be written down: one second, one block header, one interval
    (ctp/sandwich.py, ctp/model.py, ctp/bitcoin_jan09.py). */
module ExampleWorld {
  import opened Wrappers
  import opened Bytes
  import opened Sorting
  import opened Cbor
  import opened HashSuite
  import opened Records
  import opened Intervals
  import opened Model
  import opened Chains
  import ChainProofs
  import opened Jan09
  import opened Measurement
  import opened Merkle
  import opened Verify
  import BundleProofs
  import Sandwich
  import opened SandwichComplete

  // ---- the world ----

  const NIL: Hash256 := Zeros(32)
  const NIL48: Digest48 := Zeros(48)
  const ONES: Hash256 := Filled(32, 1)
  const ONES48: Digest48 := Filled(48, 1)
  const PAIR: DigestPair := DigestPair(NIL, NIL48)

  /** Unix time 0 of the NTP era. */
  const EPOCH: int := -NTP_UNIX_DELTA
  const DIGITS: bytes := [0x30]
  const BITS: nat := 0x1D00FFFF

  /** Every hash is zero, but that SHAKE tells the blob `odd` from all others; every signature is good. */
  function World(odd: bytes): Sandwich.Env {
    Sandwich.Env(
      Verify.Env(Suite(m => NIL, m => if m == Framed(DOM_EVIDENCE, odd) then ONES48 else NIL48), m => NIL,
                 (a, k, m, s) => Pass, true, Some(PAIR)),
      m => NIL, (k, m, s) => Ok(false), t => Ok(EPOCH), map[])
  }

  function Signatures(): (r: seq<Signature>)
    ensures |r| == 2
  {
    [Signature(ML_DSA_87, [], []), Signature(SLH_DSA_SHAKE_256S, [], [])]
  }

  const INTERVAL: Interval := Span(-LOCAL_MARGIN_PS, LOCAL_MARGIN_PS)

  /** An observation of the second EPOCH. */
  function Observed(w: Hash256, cited: DigestPair): Observation {
    Observation(1, w, 0, None, 0, INTERVAL, FrameFor(DIGITS),
                [Source(Sandwich.NTP, 0, LOCAL_MARGIN_PS, UNAUTHENTICATED, cited)], PAIR, PAIR, PAIR)
  }

  function Testimony(w: Hash256, cited: DigestPair): SignedObservation {
    SignedObservation(Observed(w, cited), Signatures())
  }

  /** One or two witnesses who cite the same digest. */
  predicate IsHistory(h: History, cited: DigestPair) {
    h == [Testimony(NIL, cited)] || h == [Testimony(NIL, cited), Testimony(ONES, cited)]
  }

  // ---- everything can be written ----

  lemma SignaturesEncode()
    ensures Dumps(List(Map(SignatureObj, Signatures()))).Ok?
  {
    hide Dumps, Records.Record, Ascii;
    AlgorithmsAscii();
    BlobEncodes([]);
    var vs := Map(SignatureObj, Signatures());
    forall i | 0 <= i < |vs| ensures Dumps(vs[i]).Ok? {
      var e := Signatures()[i];
      StrEncodes(e.algorithm);
      RecordEncodes([Str(e.algorithm), Blob(e.publicKey), Blob(e.signature)]);
    }
    ListEncodes(vs);
  }

  lemma AlgorithmsAscii()
    ensures IsAscii(ML_DSA_87) && |ML_DSA_87| < 0x1_0000
    ensures IsAscii(SLH_DSA_SHAKE_256S) && |SLH_DSA_SHAKE_256S| < 0x1_0000
  {
  }

  lemma TextsAscii()
    ensures IsAscii(Sandwich.NTP) && |Sandwich.NTP| < 0x1_0000
    ensures IsAscii(UNAUTHENTICATED) && |UNAUTHENTICATED| < 0x1_0000
    ensures IsAscii(FrameFor(DIGITS)) && |FrameFor(DIGITS)| < 0x1_0000
  {
  }

  lemma VerdictAscii(v: Verdict)
    ensures IsAscii(VerdictText(v)) && |VerdictText(v)| < 0x1_0000
    ensures IsAscii(POLICY) && |POLICY| < 0x1_0000
  {
  }

  lemma SourceEncodes(cited: DigestPair)
    ensures Dumps(SourceObj(Source(Sandwich.NTP, 0, LOCAL_MARGIN_PS, UNAUTHENTICATED, cited))).Ok?
  {
    hide Dumps, Records.Record, PairObj, Ascii;
    TextsAscii();
    StrEncodes(Sandwich.NTP);
    StrEncodes(UNAUTHENTICATED);
    NumEncodes(0);
    NumEncodes(LOCAL_MARGIN_PS);
    PairObjEncodes(cited);
    RecordEncodes([Str(Sandwich.NTP), Num(0), Num(LOCAL_MARGIN_PS), Str(UNAUTHENTICATED), PairObj(cited)]);
  }

  lemma ObservedEncodes(w: Hash256, cited: DigestPair)
    ensures Dumps(ObservationObj(Observed(w, cited))).Ok?
  {
    hide Dumps, Records.Record, PairObj, SourceObj, FrameFor, Ascii;
    var o := Observed(w, cited);
    NumEncodes(0);
    NumEncodes(1);
    NumEncodes(LOCAL_MARGIN_PS);
    NumEncodes(-LOCAL_MARGIN_PS);
    BlobEncodes(w);
    TextsAscii();
    StrEncodes(o.frame);
    SourceEncodes(cited);
    var sources := Map(SourceObj, o.sources);
    assert sources == [SourceObj(o.sources[0])];
    ListEncodes(sources);
    PairObjEncodes(PAIR);
    NullEncodes();
    RecordEncodes(ObservationFields(o));
  }

  lemma NullEncodes()
    ensures Dumps(Leaf(Null)).Ok?
  {
  }

  lemma TestimonyEncodes(w: Hash256, cited: DigestPair)
    ensures Dumps(SignedObservationObj(Testimony(w, cited))).Ok?
  {
    hide Dumps, Records.Record, ObservationObj, SignatureObj, Signatures, Observed;
    ObservedEncodes(w, cited);
    SignaturesEncode();
    RecordEncodes(SignedFields(ObservationObj(Observed(w, cited)), Signatures()));
  }

  // ---- the observations are in order ----

  lemma ObservedCanonical(s: Suite, w: Hash256, cited: DigestPair)
    ensures Canonical(Observed(w, cited)).Ok? && Lineage(s, Observed(w, cited)).Ok?
  {
    hide Dumps, ObservationObj, FrameFor;
    ObservedEncodes(w, cited);
  }

  lemma AllPass(message: bytes)
    ensures AllGenuine((a, k, m, s) => Pass, message, Signatures())
  {
    hide Ascii;
    RequiredDiffer();
    assert Signatures()[0].algorithm == ML_DSA_87 && Signatures()[1].algorithm == SLH_DSA_SHAKE_256S;
  }

  lemma RequiredDiffer()
    ensures ML_DSA_87 != SLH_DSA_SHAKE_256S
  {
    assert ML_DSA_87[0] == 'M' as int && SLH_DSA_SHAKE_256S[0] == 'S' as int;
  }

  lemma TestimoniesSigned(odd: bytes, h: History)
    requires forall o | o in h :: exists w, cited :: o == Testimony(w, cited)
    ensures HistorySigned(World(odd).base.verify, h)
  {
    hide Dumps, ObservationObj, AllGenuine, FrameFor, Signatures, Ascii;
    forall i | 0 <= i < |h| ensures ObservationSigned(World(odd).base.verify, h[i]) {
      assert h[i] in h;
      var w, cited :| h[i] == Testimony(w, cited);
      ObservedEncodes(w, cited);
      var message := DOM_OBS_SIGN + [0] + Dumps(ObservationObj(h[i].unsigned)).value;
      AllPass(message);
      assert SignedBytes(h[i].unsigned, message);
    }
  }

  lemma WitnessesDiffer()
    ensures NIL != ONES
  {
    assert NIL[0] != ONES[0];
  }

  lemma HistoryLinked(odd: bytes, h: History, cited: DigestPair)
    requires IsHistory(h, cited)
    ensures ChainProofs.Linked(World(odd).base.suite, multiset(h))
  {
    hide Lineage, FrameFor, Signatures;
    var s := World(odd).base.suite;
    WitnessesDiffer();
    ObservedCanonical(s, NIL, cited);
    ObservedCanonical(s, ONES, cited);
  }

  lemma HistoryHolds(odd: bytes, h: History, cited: DigestPair, cp: Checkpoint)
    requires IsHistory(h, cited) && cp.genesis == PAIR
    ensures ObservationsHold(World(odd).base, h, cp)
    ensures LatestOf(World(odd).base.suite, h) != []
    ensures forall r | r in LatestOf(World(odd).base.suite, h) :: r in h
  {
    hide VerifyChains, HistorySigned, ChainProofs.Linked, Testimony, ChainProofs.ByWitness, ChainProofs.Newest;
    var s := World(odd).base.suite;
    HistoryMembers(h, cited);
    TestimoniesSigned(odd, h);
    HistoryLinked(odd, h, cited);
    ChainProofs.AcceptedIffLinked(s, h);
    ChainProofs.AcceptedLatest(s, h);
    var latest := LatestOf(s, h);
    forall r ensures r in latest ==> r in h { MemberCount(h, r); }
    FirstIsNewest(h, cited);
    MemberCount(h, h[0]);
  }

  lemma HistoryMembers(h: History, cited: DigestPair)
    requires IsHistory(h, cited)
    ensures h != [] && |h| <= 2
    ensures forall o | o in h :: exists w, k :: o == Testimony(w, k)
    ensures forall o | o in h :: o.unsigned.genesis == PAIR && o.unsigned.interval == INTERVAL
    ensures forall o | o in h :: Dumps(SignedObservationObj(o)).Ok?
  {
    hide Dumps, SignedObservationObj, FrameFor, Signatures;
    TestimonyEncodes(NIL, cited);
    TestimonyEncodes(ONES, cited);
  }

  lemma FirstIsNewest(h: History, cited: DigestPair)
    requires IsHistory(h, cited)
    ensures ChainProofs.Newest(multiset(h), h[0])
  {
    hide FrameFor, Signatures;
  }

  // ---- the checkpoint ----

  lemma {:induction false} SameSupport(ivs: seq<Interval>, t: int)
    requires ivs != [] && forall i | 0 <= i < |ivs| :: ivs[i] == INTERVAL
    ensures Support(ivs, t) >= 1 <==> INTERVAL.Contains(t)
  {
    if |ivs| > 1 {
      assert forall i | 0 <= i < |ivs[1..]| :: ivs[1..][i] == ivs[i + 1];
      SameSupport(ivs[1..], t);
    }
  }

  /** Equal intervals agree on that interval. */
  lemma OneInterval(ivs: seq<Interval>)
    requires ivs != [] && forall i | 0 <= i < |ivs| :: ivs[i] == INTERVAL
    ensures ConsensusOf(ivs, 0).Ok?
    ensures ConsensusOf(ivs, 0).value.q == 1 && ConsensusOf(ivs, 0).value.verdict == Consensus
    ensures ConsensusOf(ivs, 0).value.interval == Some(INTERVAL)
  {
    hide Regions, Support;
    var one: seq<Interval> := [INTERVAL];
    RegionsExact(ivs, 1);
    forall t ensures InRuns(one, t) <==> InRuns(Regions(ivs, 1), t) {
      SameSupport(ivs, t);
      assert one[0].Contains(t) <==> INTERVAL.Contains(t);
    }
    RunsUnique(one, Regions(ivs, 1));
  }

  lemma FewLatest(s: Suite, h: History, xs: History)
    requires xs == LatestOf(s, h) && (forall r | r in xs :: r in h)
    ensures |xs| <= |h|
  {
    hide LatestOf;
    LatestUnique(s, h);
    Verify.LatestUnique(s, h);
    WitnessCount(h);
    assert Witnesses(xs) <= Witnesses(h);
    Fewer(Witnesses(xs), Witnesses(h));
  }

  lemma {:induction false} WitnessCount(h: History)
    ensures |Witnesses(h)| <= |h|
  {
    if h != [] {
      var n := |h| - 1;
      WitnessCount(h[..n]);
      assert h == h[..n] + [h[n]];
      assert Witnesses(h) == Witnesses(h[..n]) + {h[n].unsigned.witnessId};
    }
  }

  lemma Fewer<T>(a: set<T>, b: set<T>)
    requires a <= b
    ensures |a| <= |b|
  {
    assert b == a + (b - a);
  }

  lemma OneGenesis(xs: History)
    requires xs != [] && forall o | o in xs :: o.unsigned.genesis == PAIR
    ensures |Geneses(xs)| == 1
  {
    assert xs[0] in xs;
    assert Geneses(xs) == {PAIR};
  }

  /** The checkpoint of the latest observations. */
  lemma Building(odd: bytes, h: History, cited: DigestPair) returns (cp: Checkpoint)
    requires IsHistory(h, cited)
    ensures BuildCheckpoint(World(odd).base.suite, 0, LatestOf(World(odd).base.suite, h), 0, None) == Ok(cp)
    ensures cp.version == 1 && cp.epoch == 0 && cp.previous == None && cp.f == 0 && cp.q == 1 && cp.genesis == PAIR
    ensures cp.interval == Some(INTERVAL) && cp.verdict == VerdictText(Consensus) && cp.policy == POLICY
    ensures |cp.records| == cp.witnessCount <= 2
  {
    hide LatestOf, SortedRecords, MerkleRoot, ConsensusOf, World, IsHistory, Geneses, Witnesses,
         SignedObservationObj, Dumps, VerifyChains, ObservationsHold, Testimony;
    var s := World(odd).base.suite;
    var xs := LatestOf(s, h);
    HistoryMembers(h, cited);
    HistoryAccepted(odd, h, cited);
    OneGenesis(xs);
    FewLatest(s, h, xs);
    BundleProofs.BuildSucceedsIff(s, h, xs, 0, 0, None);
    var ivs := Map(IntervalOf, xs);
    forall i | 0 <= i < |xs| ensures ivs[i] == INTERVAL { assert xs[i] in h; }
    OneInterval(ivs);
    SameLength(s, xs);
    assert xs[0] in h;
    cp := BuildCheckpoint(s, 0, xs, 0, None).value;
  }

  lemma HistoryAccepted(odd: bytes, h: History, cited: DigestPair)
    requires IsHistory(h, cited)
    ensures var s := World(odd).base.suite;
      && VerifyChains(s, h) == Ok(Some(LatestOf(s, h))) && LatestOf(s, h) != []
      && forall r | r in LatestOf(s, h) :: r in h && r.unsigned.genesis == PAIR
  {
    hide VerifyChains, LatestOf, HistorySigned, IsHistory, World;
    var any := Checkpoint(1, 0, None, [], PAIR, 0, 0, 0, [], None, [], PAIR);
    HistoryHolds(odd, h, cited, any);
    HistoryMembers(h, cited);
  }

  lemma CheckpointEncodes(cp: Checkpoint)
    requires cp.version == 1 && cp.epoch == 0 && cp.previous == None && cp.f == 0 && cp.q == 1 && cp.genesis == PAIR
    requires cp.interval == Some(INTERVAL) && cp.verdict == VerdictText(Consensus) && cp.policy == POLICY
    requires |cp.records| == cp.witnessCount <= 2
    ensures Dumps(CheckpointObj(cp)).Ok?
  {
    hide Dumps, Records.Record, PairObj, Ascii, VerdictText;
    NumEncodes(0);
    NumEncodes(1);
    NumEncodes(cp.witnessCount);
    NumEncodes(LOCAL_MARGIN_PS);
    NumEncodes(-LOCAL_MARGIN_PS);
    NullEncodes();
    VerdictAscii(Consensus);
    StrEncodes(cp.verdict);
    StrEncodes(POLICY);
    PairObjEncodes(cp.merkleRoot);
    PairObjEncodes(PAIR);
    var records := Map(PairObj, cp.records);
    forall i | 0 <= i < |records| ensures Dumps(records[i]).Ok? { PairObjEncodes(cp.records[i]); }
    ListEncodes(records);
    ListEncodes([Num(-LOCAL_MARGIN_PS), Num(LOCAL_MARGIN_PS)]);
    RecordEncodes(CheckpointFields(cp));
  }

  /** Signed, it has a payload. */
  lemma Signing(odd: bytes, cp: Checkpoint) returns (payload: bytes)
    requires cp.version == 1 && cp.epoch == 0 && Dumps(CheckpointObj(cp)).Ok? && cp.witnessCount == |cp.records|
    ensures CheckpointSigned(World(odd).base.verify, SignedCheckpoint(cp, Signatures()))
    ensures PayloadOf(World(odd).base.suite, SignedCheckpoint(cp, Signatures())) == Ok(payload)
  {
    hide Dumps, Records.Record, CheckpointObj, AllGenuine, Signatures, SignatureObj, Ascii;
    var message := DOM_CHECKPOINT_SIGN + [0] + Dumps(CheckpointObj(cp)).value;
    AllPass(message);
    assert CheckpointBytes(cp, message);
    SignaturesEncode();
    RecordEncodes(SignedFields(CheckpointObj(cp), Signatures()));
    payload := PayloadOf(World(odd).base.suite, SignedCheckpoint(cp, Signatures())).value;
  }

  // ---- the headers ----

  /** The one header: it names the zero hash as its predecessor's and as its Merkle root. */
  function Header(): bytes {
    match MakeHeader(NIL, NIL, 0, BITS, 0) case Ok(h) => h case Raised => []
  }

  lemma {:induction false} ZeroLE(n: nat)
    ensures FromLE(Zeros(n)) == 0
  {
    if n > 0 {
      ZeroLE(n - 1);
      assert Zeros(n)[1..] == Zeros(n - 1);
    }
  }

  lemma HeaderMade()
    ensures MakeHeader(NIL, NIL, 0, BITS, 0) == Ok(Header()) && |Header()| == 80
    ensures Header()[4..36] == NIL && FromLE(Header()[72..76]) == BITS
  {
    hide LE, FromLE, Pow256;
    BitsFit();
    HeaderFields(NIL, NIL, 0, BITS, 0);
  }

  lemma BitsFit()
    ensures 0 <= BITS < Pow256(4) && 0 < Pow256(4)
  {
    Pow256Values();
  }

  lemma HeaderMeets(odd: bytes)
    ensures ProvesWork(World(odd).base.dsha, Header())
  {
    hide FromLE, Pow256, Header;
    HeaderMade();
    ZeroLE(32);
  }

  lemma SameHeaders(odd: bytes, headers: seq<bytes>)
    requires forall i | 0 <= i < |headers| :: headers[i] == Header()
    ensures Sandwich.Contiguous(World(odd).base.dsha, headers)
  {
    hide Header;
    HeaderMade();
    HeaderMeets(odd);
  }

  lemma BlockMade(odd: bytes, payload: bytes) returns (raw: bytes)
    requires |payload| == 96
    ensures MakeBlock(World(odd).base.dsha, payload, NIL, 0, BITS, 0, 0, Zeros(65)) == Ok(raw)
    ensures Slice(raw, 0, 80) == Header()
  {
    hide MakeHeader, Header, LE;
    HeaderMade();
    raw := MakeBlock(World(odd).base.dsha, payload, NIL, 0, BITS, 0, 0, Zeros(65)).value;
    Front(raw, Header(), [1] + CoinbaseTx(payload, 0, Zeros(65)).value);
  }

  // ---- the bundle ----

  /** A bundle around the header, with one header on top of C. */
  function Around(h: History, x: SignedCheckpoint, raw: bytes, evidence: seq<bytes>, version: int,
                  manifest: Option<Value>): Sandwich.Bundle
  {
    Sandwich.Bundle(Header(), NIL, evidence, h, x, raw, [], [Header()],
                    Sandwich.EraObj(EraExpectation(EPOCH, 0)), version, manifest)
  }

  /** A history is built into a checkpoint, signed, anchored and buried, whatever evidence comes with it. */
  lemma Making(odd: bytes, h: History, cited: DigestPair, evidence: seq<bytes>, version: int, manifest: Option<Value>)
    returns (b: Sandwich.Bundle, xs: History, payload: bytes)
    requires IsHistory(h, cited)
    ensures b.b0 == Header() && b.session == NIL && b.history == h && b.evidence == evidence
    ensures b.version == version && b.manifest == manifest && b.burial != []
    ensures b.checkpoint.unsigned.interval.Some? && Predicts(b, EPOCH)
    ensures Anchors(World(odd), b, xs, payload)
    ensures MakeBlock(World(odd).base.dsha, payload, NIL, 0, BITS, 0, 0, Zeros(65)) == Ok(b.blockC)
    ensures Sandwich.Contiguous(World(odd).base.dsha, Sandwich.Headers(b))
  {
    hide World, BuildCheckpoint, LatestOf, ObservationsHold, CheckpointSigned, PayloadOf, MakeBlock,
         Signatures, Sandwich.Contiguous, Slice, Header, Sandwich.EraObj, EraExpectation, IsHistory,
         Dumps;
    var s := World(odd).base.suite;
    xs := LatestOf(s, h);
    var cp := Building(odd, h, cited);
    HistoryHolds(odd, h, cited, cp);
    CheckpointEncodes(cp);
    payload := Signing(odd, cp);
    PayloadLength(s, SignedCheckpoint(cp, Signatures()));
    var raw := BlockMade(odd, payload);
    b := Around(h, SignedCheckpoint(cp, Signatures()), raw, evidence, version, manifest);
    WholeHeader();
    SameHeaders(odd, Sandwich.Headers(b));
  }

  lemma WholeHeader()
    ensures Slice(Header(), 0, 80) == Header()
  {
    hide Header;
    HeaderMade();
  }
}
