/** An honestly acquired, built and anchored sandwich passes (ctp/sandwich.py, ctp/model.py,
    ctp/bitcoin_jan09.py). */
module SandwichComplete {
  import opened Wrappers
  import opened Bytes
  import opened Cbor
  import opened HashSuite
  import opened Records
  import opened Intervals
  import opened Model
  import opened Chains
  import opened Jan09
  import opened Measurement
  import Verify
  import BundleProofs
  import opened Sandwich
  import opened SandwichProofs

  // ---- acquisition ----

  /** A recorded NTP exchange: what ntp_exchange returns. */
  datatype Exchange = Exchange(host: bytes, ip: bytes, request: bytes, response: bytes, t1: int, t4: int, utc: int)

  /** One acquisition: its number and its exchange. */
  datatype Acquired = Acquired(sequence: int, ex: Exchange)

  const WITNESS_PREFIX: bytes := Ascii("NTP:")
  const UNAUTHENTICATED: bytes := Ascii("UNAUTHENTICATED")

  function Filled(n: nat, x: byte): (r: bytes)
    ensures |r| == n && forall i | 0 <= i < n :: r[i] == x
  {
    seq(n, _ => x)
  }

  /** bytes(n) */
  function Zeros(n: nat): (r: bytes)
    ensures |r| == n
  {
    Filled(n, 0)
  }

  /** The request ntp_exchange sends: version 4, mode 3, the nonce as its transmit timestamp. */
  function RequestFor(nonce: bytes): bytes {
    [0x23] + Zeros(39) + nonce
  }

  function NtpFields(a: Acquired, s: Session): (r: seq<Value>)
    ensures |r| == 12
  {
    [Str(NTP), Str(a.ex.host), Str(a.ex.ip), Blob(a.ex.request), Blob(a.ex.response), Num(a.ex.t1), Num(a.ex.t4),
     Num(a.ex.utc), Num(a.sequence), Blob(s.q), Blob(s.b0), Blob(s.id)]
  }

  /** evidence_blob */
  function EvidenceBlob(a: Acquired, s: Session): Result<bytes> {
    Dumps(Records.Record(NtpFields(a, s)))
  }

  /** frame_for_origin, the origin given as its decimal digits. */
  function FrameFor(digits: bytes): bytes {
    FRAME_PREFIX + digits + FRAME_SUFFIX
  }

  /** ntp_unsigned; what it takes from its caller and from the machine is copied from `u`. */
  function NtpUnsigned(suite: Suite, a: Acquired, m: Measure, blob: bytes, origin: int, digits: bytes, u: Observation)
    : Result<Observation>
  {
    if m.uncertainty < 0 then Raised else
    var rel := m.claimed - origin * PS;
    Ok(Observation(1, DigestPairOf(suite, DOM_WITNESS, WITNESS_PREFIX + a.ex.host).sha256, a.sequence, u.previous,
                   a.ex.t1 * 1000, Span(rel - m.uncertainty, rel + m.uncertainty), FrameFor(digits),
                   [Source(NTP, rel, m.uncertainty, UNAUTHENTICATED, KeyOf(suite, blob))],
                   u.hardware, u.firmware, u.genesis))
  }

  /** The request carries the session's nonce, and the server answered it as RFC 5905 says: in mode 4, at a
      stratum from 1 to 15, with the request's transmit timestamp as its origin timestamp. */
  predicate Honest(suite: Suite, s: Session, a: Acquired) {
    && ExchangeNonce(suite, s.q, a.ex.host, a.sequence).Ok?
    && var nonce := ExchangeNonce(suite, s.q, a.ex.host, a.sequence).value;
       && a.ex.request == RequestFor(nonce)
       && |a.ex.response| == 48 && a.ex.response[0] % 8 == 4 && 1 <= a.ex.response[1] <= 15
       && a.ex.response[24..32] == nonce
  }

  function MeasureIn(a: Acquired): Result<Measure> {
    DeriveMeasurement(a.ex.response, a.ex.t1, a.ex.t4)
  }

  /** The observation and the blob are what the acquisition makes of an honest exchange. */
  predicate IsAcquired(suite: Suite, s: Session, origin: int, digits: bytes, a: Acquired, blob: bytes, u: Observation) {
    && Honest(suite, s, a) && EvidenceBlob(a, s) == Ok(blob)
    && MeasureIn(a).Ok? && NtpUnsigned(suite, a, MeasureIn(a).value, blob, origin, digits, u) == Ok(u)
  }

  ghost predicate AllAcquired(env: Env, b: Bundle, s: Session, origin: int, digits: bytes, all: seq<Acquired>) {
    && |all| == |b.evidence| == |b.history|
    && forall i | 0 <= i < |all| ::
         IsAcquired(env.base.suite, s, origin, digits, all[i], b.evidence[i], b.history[i].unsigned)
  }

  // ---- the verifier reads it back ----

  /** The uncertainty of a measurement is never negative, so no observation of one is refused. */
  lemma MeasureOfHonest(suite: Suite, s: Session, a: Acquired)
    requires Honest(suite, s, a)
    ensures MeasureIn(a).Ok? && MeasureIn(a).value.uncertainty >= 0
    ensures FieldsOf(a.ex.response).Ok?
    ensures var f := FieldsOf(a.ex.response).value;
            f.mode == 4 && 1 <= f.stratum <= 15 && MeasureIn(a) == Ok(MeasureOf(f, a.ex.t1, a.ex.t4))
  {
    hide ExchangeNonce, TimestampPs, ShortPs, FromBE;
  }

  lemma FieldsPlain(a: Acquired, s: Session)
    ensures Plain(Records.Record(NtpFields(a, s)))
  {
    hide Plain;
    AtomsPlain();
    RecordPlain(NtpFields(a, s));
  }

  lemma BlobReads(a: Acquired, s: Session, blob: bytes)
    requires EvidenceBlob(a, s) == Ok(blob)
    ensures Loads(blob) == Ok(Records.Record(NtpFields(a, s)))
  {
    hide Loads, NtpFields, Dumps, Plain;
    FieldsPlain(a, s);
    PlainReads(Records.Record(NtpFields(a, s)));
  }

  lemma NonceLength(suite: Suite, q: bytes, host: bytes, sequence: int)
    ensures ExchangeNonce(suite, q, host, sequence).Ok? ==>
      |ExchangeNonce(suite, q, host, sequence).value| == 8 && 0 <= sequence <= 0xFF
  {
  }

  lemma NonceSent(nonce: bytes)
    requires |nonce| == 8
    ensures Slice(RequestFor(nonce), 40, 48) == nonce
  {
  }

  lemma HonestContent(suite: Suite, s: Session, a: Acquired)
    requires Honest(suite, s, a)
    ensures MeasureIn(a).Ok?
    ensures NtpContent(suite, s.q, Records.Record(NtpFields(a, s))) == Ok(Ntp(true, a.sequence, MeasureIn(a).value))
  {
    hide ExchangeNonce, FieldsOf, MeasureOf, Get, Records.Record, RequestFor, Slice;
    MeasureOfHonest(suite, s, a);
    GetFields(NtpFields(a, s));
    var nonce := ExchangeNonce(suite, s.q, a.ex.host, a.sequence).value;
    NonceLength(suite, s.q, a.ex.host, a.sequence);
    NonceSent(nonce);
    Echoed(a.ex.response);
  }

  lemma Echoed(resp: bytes)
    requires |resp| == 48
    ensures Slice(resp, 24, 32) == resp[24..32]
  {
  }

  lemma HonestReading(env: Env, b: Bundle, s: Session, a: Acquired, blob: bytes)
    requires Honest(env.base.suite, s, a) && EvidenceBlob(a, s) == Ok(blob)
    ensures MeasureIn(a).Ok?
    ensures ReadBlob(env, b, s, blob) == Read(true, Str(NTP), Ok(Ntp(true, a.sequence, MeasureIn(a).value)))
  {
    hide Loads, Get, Records.Record, NtpContent, Honest, EvidenceBlob, MeasureIn, Ascii;
    BlobReads(a, s, blob);
    GetFields(NtpFields(a, s));
    HonestContent(env.base.suite, s, a);
  }

  // ---- all of it ----

  /** A bound NTP blob whose nonce is echoed. */
  predicate GoodNtp(r: Reading) {
    r.Read? && r.bound && r.typ == Str(NTP) && r.content.Ok? && r.content.value.Ntp? && r.content.value.echoed
  }

  lemma AbsorbNtp(suite: Suite, e: Evidence, blob: bytes, r: Reading)
    requires GoodNtp(r)
    ensures var e' := Absorb(suite, e, blob, r);
      && e'.flags == e.flags && e'.records == e.records && e'.unchecked == e.unchecked
      && e'.index.Keys == e.index.Keys + {KeyOf(suite, blob)}
  {
    hide KeyOf, Ascii;
    TypesDiffer();
  }

  lemma {:induction false} ReadAllNtp(env: Env, b: Bundle, s: Session, blobs: seq<bytes>, e: Evidence)
    requires forall i | 0 <= i < |blobs| :: GoodNtp(ReadBlob(env, b, s, blobs[i]))
    ensures var e' := ReadAll(env, b, s, blobs, e);
      && e'.flags == e.flags && e'.records == e.records && e'.unchecked == e.unchecked
      && e.index.Keys <= e'.index.Keys
      && forall i | 0 <= i < |blobs| :: KeyOf(env.base.suite, blobs[i]) in e'.index.Keys
    decreases blobs
  {
    hide ReadBlob, Absorb, KeyOf, GoodNtp;
    if blobs != [] {
      assert forall i | 0 <= i < |blobs[1..]| :: blobs[1..][i] == blobs[i + 1];
      AbsorbNtp(env.base.suite, e, blobs[0], ReadBlob(env, b, s, blobs[0]));
      ReadAllNtp(env, b, s, blobs[1..], Absorb(env.base.suite, e, blobs[0], ReadBlob(env, b, s, blobs[0])));
      assert forall i | 1 <= i < |blobs| :: blobs[i] == blobs[1..][i - 1];
    }
  }

  /** The entry under a blob's digest is the blob's own. */
  lemma OwnEntry(env: Env, b: Bundle, s: Session, i: nat)
    requires i < |b.evidence| && OneFamilyHolds(env.base.suite, EvidenceMessages(b.evidence))
    requires KeyOf(env.base.suite, b.evidence[i]) in ReadAll(env, b, s, b.evidence, NOTHING_READ).index
    ensures EntryRead(ReadBlob(env, b, s, b.evidence[i]))
         == Some(ReadAll(env, b, s, b.evidence, NOTHING_READ).index[KeyOf(env.base.suite, b.evidence[i])])
  {
    hide ReadBlob, ReadAll, OneFamilyHolds, Framed, EntryRead;
    var x := b.evidence[i];
    var j := IndexedFrom(env, b, s, b.evidence, NOTHING_READ, KeyOf(env.base.suite, x));
    var M, y := EvidenceMessages(b.evidence), b.evidence[j];
    assert x in b.evidence && y in b.evidence;
    assert Framed(DOM_EVIDENCE, x) in M && Framed(DOM_EVIDENCE, y) in M;
    PairBinds(env.base.suite, M, DOM_EVIDENCE, x, DOM_EVIDENCE, y);
  }

  lemma FrameRead(parseInt: bytes -> Result<int>, digits: bytes)
    ensures FrameOrigin(parseInt, FrameFor(digits)) == parseInt(digits)
  {
    hide Ascii;
    Affixes();
    var frame := FrameFor(digits);
    assert Slice(frame, 0, 14) == FRAME_PREFIX;
    assert frame[|frame| - 3..] == FRAME_SUFFIX;
    assert frame[14..|frame| - 3] == digits;
  }

  lemma Affixes()
    ensures |FRAME_PREFIX| == 14 && |FRAME_SUFFIX| == 3
  {
  }

  lemma OriginOf(env: Env, b: Bundle, s: Session, origin: int, digits: bytes, all: seq<Acquired>)
    requires AllAcquired(env, b, s, origin, digits, all) && all != [] && env.parseInt(digits) == Ok(origin)
    ensures Origin(env.parseInt, b.history) == Some(origin)
  {
    hide Honest, EvidenceBlob, MeasureIn, FrameOrigin, FrameFor, KeyOf, DigestPairOf;
    forall i | 0 <= i < |b.history| ensures b.history[i].unsigned.frame == FrameFor(digits) {
      assert IsAcquired(env.base.suite, s, origin, digits, all[i], b.evidence[i], b.history[i].unsigned);
    }
    FrameRead(env.parseInt, digits);
  }

  /** The observation repeats the measurement under its blob's digest. */
  ghost predicate Repeats(e: Evidence, origin: int, u: Observation) {
    |u.sources| == 1 && u.sources[0].uncertainty >= 0 && SourceGood(e, Some(origin), u, u.sources[0])
  }

  lemma AcquiredRepeats(suite: Suite, s: Session, origin: int, digits: bytes, a: Acquired, blob: bytes, u: Observation,
                        e: Evidence)
    requires IsAcquired(suite, s, origin, digits, a, blob, u) && KeyOf(suite, blob) in e.index
    requires e.index[KeyOf(suite, blob)] == Indexed(NTP, a.sequence, ClaimOf(MeasureIn(a).value))
    ensures Repeats(e, origin, u)
  {
    hide Honest, EvidenceBlob, MeasureIn, FrameFor, KeyOf, DigestPairOf, Ascii;
  }

  lemma RepeatCounts(env: Env, e: Evidence, origin: int, u: Observation, t: Tally)
    requires e.records == [] && e.unchecked == map[] && Repeats(e, origin, u)
    ensures TallyOne(env, e, Some(origin), u, t) == Ok(t.(matched := t.matched + 1))
  {
    var more := t.(matched := t.matched + 1);
    assert !Foreign(e, u) && u.sources[1..] == [];
    assert TallySource(e, Some(origin), u, u.sources[0], t) == Ok(more);
    assert TallySources(e, Some(origin), u, u.sources[1..], more) == Ok(more);
    assert TallySources(e, Some(origin), u, u.sources, t) == Ok(more);
  }

  lemma {:induction false} AllRepeatsCount(env: Env, e: Evidence, origin: int, h: History, t: Tally)
    requires e.records == [] && e.unchecked == map[]
    requires forall i | 0 <= i < |h| :: Repeats(e, origin, h[i].unsigned)
    ensures TallyAll(env, e, Some(origin), h, t) == Ok(t.(matched := t.matched + |h|))
    decreases h
  {
    hide TallyOne, Repeats;
    if h != [] {
      assert forall i | 0 <= i < |h[1..]| :: h[1..][i] == h[i + 1];
      RepeatCounts(env, e, origin, h[0].unsigned, t);
      AllRepeatsCount(env, e, origin, h[1..], t.(matched := t.matched + 1));
    }
  }

  /** A bundle that announces no photographs. */
  predicate NoCamera(b: Bundle) {
    b.version < 2 || ManifestOf(b) == Dict([])
  }

  /** What honest acquisitions leave in a bundle is sound evidence, every observation matched. */
  lemma HonestEvidence(env: Env, b: Bundle, s: Session, origin: int, digits: bytes, all: seq<Acquired>)
    requires SessionOf(env, b) == Ok(s) && AllAcquired(env, b, s, origin, digits, all) && all != []
    requires env.parseInt(digits) == Ok(origin) && NoCamera(b)
    requires OneFamilyHolds(env.base.suite, EvidenceMessages(b.evidence))
    ensures Find(env, b).Ok? && Find(env, b).value.origin == Some(origin) && EvidenceSound(b, Find(env, b).value)
  {
    hide SessionOf, ReadBlob, ReadAll, TallyAll, Origin, OneFamilyHolds, EvidenceMessages, Honest, EvidenceBlob,
         MeasureIn, NtpUnsigned, KeyOf, Repeats, ManifestOf;
    var e := ReadAll(env, b, s, b.evidence, NOTHING_READ);
    forall i | 0 <= i < |all|
      ensures MeasureIn(all[i]).Ok?
      ensures ReadBlob(env, b, s, b.evidence[i])
           == Read(true, Str(NTP), Ok(Ntp(true, all[i].sequence, MeasureIn(all[i]).value)))
    {
      assert IsAcquired(env.base.suite, s, origin, digits, all[i], b.evidence[i], b.history[i].unsigned);
      HonestReading(env, b, s, all[i], b.evidence[i]);
    }
    ReadAllNtp(env, b, s, b.evidence, NOTHING_READ);
    forall i | 0 <= i < |b.history| ensures Repeats(e, origin, b.history[i].unsigned) {
      assert KeyOf(env.base.suite, b.evidence[i]) in e.index.Keys;
      OwnEntry(env, b, s, i);
      AcquiredRepeats(env.base.suite, s, origin, digits, all[i], b.evidence[i], b.history[i].unsigned, e);
    }
    OriginOf(env, b, s, origin, digits, all);
    AllRepeatsCount(env, e, origin, b.history, NewTally(Some(origin)));
  }

  // ---- the theorem ----

  lemma {:induction false} SameAsItself(v: Value)
    ensures SameValue(v, v)
    decreases v
  {
    match v
    case Leaf(_) =>
    case List(items) =>
      forall i | 0 <= i < |items| ensures SameValue(items[i], items[i]) { SameAsItself(items[i]); }
    case Dict(es) =>
      forall i | 0 <= i < |es| ensures HasEqual(es[i], es) {
        SameAsItself(es[i].value);
        assert SameKey(es[i].key, es[i].key) && SameValue(es[i].value, es[i].value);
      }
  }

  /** The expectation a builder puts into the bundle. */
  predicate Predicts(b: Bundle, origin: int) {
    match b.checkpoint.unsigned.interval
    case None => true
    case Some(i) => b.expectation == EraObj(EraExpectation(origin, (i.lower + i.upper) / 2))
  }

  /** The checkpoint is built from the latest observations in any order, signed, and anchored in block C. */
  ghost predicate Anchors(env: Env, b: Bundle, xs: History, payload: bytes) {
    var x := b.checkpoint;
    && Verify.ObservationsHold(env.base, b.history, x.unsigned)
    && multiset(xs) == multiset(Verify.LatestOf(env.base.suite, b.history))
    && Verify.BuildCheckpoint(env.base.suite, x.unsigned.epoch, xs, x.unsigned.f, x.unsigned.previous) == Ok(x.unsigned)
    && Verify.CheckpointSigned(env.base.verify, x)
    && Verify.PayloadOf(env.base.suite, x) == Ok(payload)
  }

  /** The whole procedure ends in a pass.  Let any number of exchanges be honest and recorded as the code
      records them, let the signed observations form proper chains, the checkpoint be built from their latest in
      any order, signed, and anchored by a made block C, and let all headers be contiguous, each meeting its own
      target.  If the digests of the evidence do not collide the sandwich passes; it is a SANDWICH_PASS exactly
      when the observations agree on an interval and a block follows C. */
  lemma HonestSandwichPasses(env: Env, b: Bundle, s: Session, origin: int, digits: bytes, all: seq<Acquired>,
                             xs: History, payload: bytes, prevHash: bytes, ntime: int, bits: int, nonce: int,
                             value: int, pubkey: bytes)
    requires SessionOf(env, b) == Ok(s) && AllAcquired(env, b, s, origin, digits, all) && all != []
    requires env.parseInt(digits) == Ok(origin) && NoCamera(b) && Predicts(b, origin)
    requires OneFamilyHolds(env.base.suite, EvidenceMessages(b.evidence))
    requires Anchors(env, b, xs, payload)
    requires MakeBlock(env.base.dsha, payload, prevHash, ntime, bits, nonce, value, pubkey) == Ok(b.blockC)
    requires Contiguous(env.base.dsha, Headers(b))
    ensures Judge(env, b).Ok? && Passing(Judge(env, b).value.verdict)
    ensures Judge(env, b).value.verdict == SANDWICH_PASS
       <==> b.checkpoint.unsigned.interval.Some? && b.burial != []
  {
    hide SessionOf, AllAcquired, Judge, Passing, OneFamilyHolds, MakeBlock, Contiguous, Find, EvidenceSound,
         BundleHolds;
    HonestEvidence(env, b, s, origin, digits, all);
    AnchoredHolds(env, b, xs, payload, prevHash, ntime, bits, nonce, value, pubkey);
    ExpectedAsPredicted(b, origin);
    PassIff(env, b);
  }

  lemma ExpectedAsPredicted(b: Bundle, origin: int)
    requires Predicts(b, origin)
    ensures b.checkpoint.unsigned.interval.Some? ==>
              Expected(b, Some(origin), b.checkpoint.unsigned.interval.value)
  {
    hide EraObj, EraExpectation, SameValue;
    SameAsItself(b.expectation);
  }

  /** Built, signed and anchored in a block that meets its target, the bundle within holds. */
  lemma AnchoredHolds(env: Env, b: Bundle, xs: History, payload: bytes, prevHash: bytes, ntime: int, bits: int,
                      nonce: int, value: int, pubkey: bytes)
    requires Anchors(env, b, xs, payload)
    requires MakeBlock(env.base.dsha, payload, prevHash, ntime, bits, nonce, value, pubkey) == Ok(b.blockC)
    requires Contiguous(env.base.dsha, Headers(b))
    ensures BundleHolds(env, b)
  {
    hide Verify.ObservationsHold, Verify.LatestOf, Verify.BuildCheckpoint, Verify.CheckpointSigned,
         Verify.PayloadOf, MakeBlock, Contiguous, Verify.Judgement, Verify.EvidenceHolds, Verify.Anchored,
         Verify.Worked, BundleProofs.Meets;
    BundleProofs.BuiltBundlePasses(env.base, b.history, xs, b.checkpoint, payload, prevHash, ntime, bits, nonce, value,
                                   pubkey, b.blockC, None);
    BlockMeets(env, b, payload, prevHash, ntime, bits, nonce, value, pubkey);
    Verify.JudgementMeans(env.base, b.history, b.checkpoint, Some(b.blockC), None);
  }

  lemma BlockMeets(env: Env, b: Bundle, payload: bytes, prevHash: bytes, ntime: int, bits: int, nonce: int, value: int,
                   pubkey: bytes)
    requires MakeBlock(env.base.dsha, payload, prevHash, ntime, bits, nonce, value, pubkey) == Ok(b.blockC)
    requires Contiguous(env.base.dsha, Headers(b))
    ensures BundleProofs.Meets(env.base.dsha, b.blockC, bits)
  {
    hide CoinbaseTx, MakeHeader, FromLE, Pow256, ProvesWork, Slice;
    var all := Headers(b);
    var c := Slice(b.blockC, 0, 80);
    assert all[1 + |b.path|] == c;
    assert ProvesWork(env.base.dsha, all[1 + |b.path|]);
    var tx := CoinbaseTx(payload, value, pubkey).value;
    var header := MakeHeader(prevHash, env.base.dsha(tx), ntime, bits, nonce).value;
    HeaderFields(prevHash, env.base.dsha(tx), ntime, bits, nonce);
    Front(b.blockC, header, [1] + tx);
    BitsNatural(prevHash, env.base.dsha(tx), ntime, bits, nonce);
    WorkIff(env.base.dsha, c);
  }

  lemma Front(raw: bytes, header: bytes, rest: bytes)
    requires |header| == 80 && raw == header + rest
    ensures Slice(raw, 0, 80) == header && raw[..80] == header && |raw| >= 80
  {
  }

  lemma BitsNatural(prevHash: bytes, merkle: bytes, ntime: int, bits: int, nonce: int)
    requires MakeHeader(prevHash, merkle, ntime, bits, nonce).Ok?
    ensures bits >= 0
  {
  }
}
