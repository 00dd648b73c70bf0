/** Bundles that meet the hypotheses of the theorems about verify_sandwich: one that passes and the same with
    a blob too many, one whose failure turns, and one that passes although a blob is cited twice and another,
    whose claim is no number, not at all (ctp/sandwich.py). */
module SandwichExamples {
  import opened Wrappers
  import opened Bytes
  import opened Cbor
  import CborProofs
  import opened HashSuite
  import opened Records
  import opened Model
  import opened Chains
  import opened Jan09
  import opened Measurement
  import Verify
  import opened Checklists
  import opened Sandwich
  import opened SandwichProofs
  import opened SandwichAppend
  import SandwichCounts
  import opened SandwichComplete
  import opened ExampleWorld

  // ---- the session and its exchange ----

  function TheSession(): Session {
    Session(NIL, Reverse(NIL), NIL)
  }

  lemma SessionIs(odd: bytes, b: Bundle)
    requires b.b0 == Header() && b.session == NIL
    ensures SessionOf(World(odd), b) == Ok(TheSession())
    ensures |TheSession().b0| == 32 && |TheSession().id| == 32
  {
    hide Header, Ascii, Slice;
    HeaderMade();
    WholeHeader();
    Reversed(NIL);
  }

  /** A server of stratum 1 answers at once, all its clock fields zero. */
  function TheAnswer(): bytes {
    [4, 1] + Zeros(46)
  }

  function TheExchange(): Acquired {
    Acquired(0, Exchange([0x68], [0x30], RequestFor(Zeros(8)), TheAnswer(), 0, 0, 0))
  }

  lemma ExchangeHonest(odd: bytes)
    ensures Honest(World(odd).base.suite, TheSession(), TheExchange())
  {
    hide Ascii, Reverse, RequestFor;
    assert NIL[..8] == Zeros(8);
    assert TheAnswer()[24..32] == Zeros(8);
  }

  lemma {:induction false} ZeroBE(n: nat)
    ensures FromBE(Zeros(n)) == 0
  {
    if n > 0 {
      ZeroBE(n - 1);
      assert Zeros(n)[..n - 1] == Zeros(n - 1);
    }
  }

  lemma ZeroField(pos: nat, k: nat)
    requires 2 <= pos && pos + k <= 48
    ensures ReadBE(TheAnswer(), pos, k) == Ok(0)
  {
    hide FromBE;
    assert Slice(TheAnswer(), pos, pos + k) == Zeros(k);
    ZeroBE(k);
  }

  lemma ExchangeMeasure()
    ensures MeasureIn(TheExchange()) == Ok(Measure(EPOCH * PS, LOCAL_MARGIN_PS))
  {
    hide ReadBE;
    ZeroField(4, 2);
    ZeroField(6, 2);
    ZeroField(8, 2);
    ZeroField(10, 2);
    ZeroField(32, 4);
    ZeroField(36, 4);
    ZeroField(40, 4);
    ZeroField(44, 4);
  }

  lemma ExchangeEncodes()
    ensures EvidenceBlob(TheExchange(), TheSession()).Ok?
  {
    hide Dumps, Records.Record, Ascii, RequestFor, TheAnswer, Reverse;
    Reversed(NIL);
    NtpAscii();
    var a, s := TheExchange(), TheSession();
    NumEncodes(0);
    StrEncodes(NTP);
    StrEncodes(a.ex.host);
    StrEncodes(a.ex.ip);
    ExchangeLengths();
    BlobEncodes(a.ex.request);
    BlobEncodes(a.ex.response);
    BlobEncodes(s.q);
    BlobEncodes(s.b0);
    BlobEncodes(s.id);
    RecordEncodes(NtpFields(a, s));
  }

  lemma NtpAscii()
    ensures IsAscii(NTP) && |NTP| < 0x1_0000
  {
    TextsAscii();
  }

  lemma ExchangeLengths()
    ensures |RequestFor(Zeros(8))| == 48 && |TheAnswer()| == 48
  {
  }

  /** The recorded exchange. */
  function TheBlob(): bytes {
    match EvidenceBlob(TheExchange(), TheSession()) case Ok(b) => b case Raised => []
  }

  lemma BlobMade()
    ensures EvidenceBlob(TheExchange(), TheSession()) == Ok(TheBlob())
  {
    hide EvidenceBlob, TheExchange, TheSession;
    ExchangeEncodes();
  }

  /** What the acquisition code makes of the exchange is the observation of the world. */
  lemma BlobObserved(odd: bytes)
    ensures IsAcquired(World(odd).base.suite, TheSession(), EPOCH, DIGITS, TheExchange(), TheBlob(),
                       Observed(NIL, KeyOf(World(odd).base.suite, TheBlob())))
  {
    hide EvidenceBlob, TheSession, MeasureIn, Honest, FrameFor, KeyOf, TheBlob, Ascii;
    BlobMade();
    ExchangeHonest(odd);
    ExchangeMeasure();
  }

  // ---- a bundle that passes ----

  lemma PassMade(odd: bytes) returns (b: Bundle)
    ensures b.b0 == Header() && b.session == NIL && b.evidence == [TheBlob()]
    ensures BundleHolds(World(odd), b) && Sound(World(odd), b)
    ensures Judge(World(odd), b).Ok? && Judge(World(odd), b).value.verdict == SANDWICH_PASS
  {
    hide World, TheBlob, TheSession, TheExchange, KeyOf, Header, IsAcquired, Judge, Anchors, Predicts, Contiguous,
         MakeBlock, OneFamilyHolds, BundleHolds, EvidenceSound, Find, SessionOf, Observed;
    var env, key := World(odd), KeyOf(World(odd).base.suite, TheBlob());
    var h := [Testimony(NIL, key)];
    var xs, payload;
    b, xs, payload := Making(odd, h, key, [TheBlob()], 1, None);
    SessionIs(odd, b);
    BlobObserved(odd);
    SingleMessage(env.base.suite, TheBlob());
    DigitsParse(odd);
    var all := [TheExchange()];
    assert AllAcquired(env, b, TheSession(), EPOCH, DIGITS, all);
    HonestSandwichPasses(env, b, TheSession(), EPOCH, DIGITS, all, xs, payload, NIL, 0, BITS, 0, 0, Zeros(65));
    HonestEvidence(env, b, TheSession(), EPOCH, DIGITS, all);
    AnchoredHolds(env, b, xs, payload, NIL, 0, BITS, 0, 0, Zeros(65));
    ExpectedAsPredicted(b, EPOCH);
  }

  lemma DigitsParse(odd: bytes)
    ensures World(odd).parseInt(DIGITS) == Ok(EPOCH)
  {
  }

  /** There is a bundle that passes, and with a bound blob of an unknown type appended, whose digest collides
      with nothing, it fails. */
  lemma SomePassTurns() returns (env: Env, b: Bundle, blob: bytes)
    ensures Judge(env, b).Ok? && Judge(env, b).value.verdict == SANDWICH_PASS
    ensures UnknownTo(env, b, blob) && BoundTo(env, b, blob)
    ensures OneFamilyHolds(env.base.suite, EvidenceMessages(b.evidence + [blob]))
    ensures Judge(env, With(b, blob)).Ok? && Judge(env, With(b, blob)).value.verdict == FAIL
  {
    hide World, Judge, OneFamilyHolds, BundleHolds, Sound, BareBlob, TheBlob, TheSession, Header, SessionOf,
         ReadBlob, IsUnknown, IsBound;
    blob := BareBlob(TheSession());
    env := World(blob);
    b := PassMade(blob);
    SessionIs(blob, b);
    NoExtensions(blob);
    BareUnknown(env, b, TheSession());
    assert UnknownTo(env, b, blob) && BoundTo(env, b, blob);
    assert b.evidence + [blob] == [TheBlob(), blob];
    TwoMessages(TheBlob(), blob);
    PassTurned(env, b, blob);
  }

  lemma NoExtensions(odd: bytes)
    ensures World(odd).extensions == map[]
  {
  }

  /** SHAKE tells the odd blob from the other. */
  lemma TwoMessages(x: bytes, odd: bytes)
    ensures OneFamilyHolds(World(odd).base.suite, EvidenceMessages([x, odd]))
  {
    hide Framed;
    var s := World(odd).base.suite;
    assert NIL48[0] != ONES48[0];
    assert EvidenceMessages([x, odd]) == {Framed(DOM_EVIDENCE, x), Framed(DOM_EVIDENCE, odd)};
    assert CollisionFree(s, Shake384, EvidenceMessages([x, odd]));
  }

  // ---- a failure that turns ----

  /** Where the bundle within holds, the headers are contiguous and the expectation is right, a bundle without
      evidence fails for its measurements only. */
  lemma OnlyMeasurementFails(env: Env, b: Bundle)
    requires BundleHolds(env, b) && Contiguous(env.base.dsha, Headers(b)) && NoCamera(b) && b.evidence == []
    requires Find(env, b).Ok? && Find(env, b).value.t.ext
    requires b.checkpoint.unsigned.interval.Some? ==>
               Expected(b, Find(env, b).value.origin, b.checkpoint.unsigned.interval.value)
    ensures Judge(env, b).Ok? && Lacks(Judge(env, b).value.checks, FailsElsewhere) && !ToolchainMissing(env, b)
  {
    hide BundleHolds, HeaderPow, Walk, Slice, Contiguous, AllChecks, VerdictOf, Lacks, Expected, Find, ProvesWork,
         CoreChecks, ToolchainMissing, NoCamera, Verify.NotPassed;
    CoreMeans(env, b);
    CoreAvailable(env, b);
    var dsha, core, f := env.base.dsha, CoreChecks(env, b).value, Find(env, b).value;
    var b0, c := Slice(b.b0, 0, 80), Slice(b.blockC, 0, 80);
    HeadersContiguousIff(dsha, b);
    PowIff(dsha, b0);
    LinkedIff(dsha, c, c);
    PowIff(dsha, c);
    var end, top := Walk(dsha, dsha(b0), b.path).value, Walk(dsha, dsha(c), b.burial).value;
    var linked := end.Some? && Slice(c, 4, 36) == end.value;
    NothingElsewhere(env, b, f, core);
    LacksAll(b, true, f, core, true, true, FailsElsewhere);
  }

  lemma CoreAvailable(env: Env, b: Bundle)
    requires BundleHolds(env, b)
    ensures !ToolchainMissing(env, b)
  {
    hide Verify.EvidenceHolds, Verify.Anchored, Verify.Worked, Verify.HistoryUnknowable, Verify.CheckpointUnknowable;
    Verify.PayloadKnown(env.base, b.history, b.checkpoint, None, None);
  }

  lemma NothingElsewhere(env: Env, b: Bundle, f: Finding, core: Verify.Checks)
    requires b.evidence == [] && NoCamera(b) && Find(env, b) == Ok(f) && f.t.ext && Lacks(core, Verify.NotPassed)
    requires b.checkpoint.unsigned.interval.Some? ==> Expected(b, f.origin, b.checkpoint.unsigned.interval.value)
    ensures EvidenceLacks(b, f.e, FailsElsewhere) && MatchLacks(b, f.e, f.t, FailsElsewhere)
    ensures Lacks(FromCore(core), FailsElsewhere)
    ensures !FailsElsewhere((S_EXPECTATION_RECOMPUTED, ExpectationStatus(b, f.origin)))
  {
    hide SessionOf, TallyAll, Origin, Measured, AnyUnchecked, Expected;
    var r := FromCore(core);
    forall i | 0 <= i < |r| ensures !FailsElsewhere(r[i]) { assert !Verify.NotPassed(core[i]); }
  }

  /** There is a bundle that fails for its missing blob alone: it meets the hypotheses under which the blob
      turns the failure. */
  lemma SomeFailureTurns() returns (env: Env, b: Bundle, blob: bytes)
    ensures Judge(env, b).Ok? && Judge(env, b).value.verdict == FAIL
    ensures UnknownTo(env, b, blob) && BoundTo(env, b, blob)
    ensures Judge(env, With(b, blob)).Ok?
         && Judge(env, With(b, blob)).value.verdict == INDETERMINATE_UNCHECKED_EVIDENCE
  {
    hide World, Judge, BundleHolds, BareBlob, TheSession, Header, SessionOf, ReadBlob, IsUnknown, IsBound, KeyOf,
         Observed, Anchors, Predicts, Contiguous, MakeBlock, Find, Origin, Lacks, ToolchainMissing, Expected;
    blob := BareBlob(TheSession());
    env := World(blob);
    var key := KeyOf(env.base.suite, blob);
    var h := [Testimony(NIL, key)];
    var xs, payload;
    b, xs, payload := Making(blob, h, key, [], 1, None);
    SessionIs(blob, b);
    NoExtensions(blob);
    BareUnknown(env, b, TheSession());
    assert UnknownTo(env, b, blob) && BoundTo(env, b, blob);
    AnchoredHolds(env, b, xs, payload, NIL, 0, BITS, 0, 0, Zeros(65));
    NothingFound(blob, b, key);
    ExpectedAsPredicted(b, EPOCH);
    OnlyMeasurementFails(env, b);
    ObservedCites(NIL, key);
    MeasurementFailureTurned(env, b);
  }

  lemma ObservedCites(w: Hash256, key: DigestPair)
    ensures Cited(Observed(w, key)) == {key} && Observed(w, key).frame == FrameFor(DIGITS)
  {
    hide FrameFor;
    var x := Observed(w, key).sources[0];
    assert Observed(w, key).sources == [x];
    assert x in Observed(w, key).sources;
  }

  lemma NothingFound(odd: bytes, b: Bundle, key: DigestPair)
    requires b.b0 == Header() && b.session == NIL && b.evidence == [] && b.history == [Testimony(NIL, key)]
    ensures Find(World(odd), b).Ok? && Find(World(odd), b).value.t.ext
    ensures Origin(World(odd).parseInt, b.history) == Some(EPOCH)
    ensures Find(World(odd), b).value.origin == Some(EPOCH)
  {
    hide SessionOf, Header, FrameFor, KeyOf, FrameOrigin, TallyAll, ReadAll, Signatures, Ascii;
    var env := World(odd);
    SessionIs(odd, b);
    FrameRead(env.parseInt, DIGITS);
    NoneRead(env, b, TheSession());
    NothingMatched(env, b.history, key);
  }

  lemma NothingMatched(env: Env, h: History, key: DigestPair)
    requires h == [Testimony(NIL, key)]
    ensures var t := NewTally(Some(EPOCH));
            TallyAll(env, NOTHING_READ, Some(EPOCH), h, t) == Ok(t.(meas := false))
  {
    hide FrameFor, Ascii, Signatures;
    var u, t := h[0].unsigned, NewTally(Some(EPOCH));
    var unmatched := t.(meas := false);
    assert h[1..] == [] && u.sources[1..] == [];
    assert !Foreign(NOTHING_READ, u);
    assert TallySources(NOTHING_READ, Some(EPOCH), u, u.sources[1..], unmatched) == Ok(unmatched);
    assert TallySources(NOTHING_READ, Some(EPOCH), u, u.sources, t) == Ok(unmatched);
    assert TallyAll(env, NOTHING_READ, Some(EPOCH), h[1..], unmatched) == Ok(unmatched);
  }

  // ---- a claim that is no number ----

  const PHOTOS: Value := Dict([Entry(Text([0x70]), Leaf(Bool(true)))])

  /** A camera blob that claims the time "x". */
  function TextEntries(): seq<Entry> {
    [Entry(Int(1), Str(CAMERA)), Entry(Int(2), PHOTOS), Entry(Int(6), Str([0x78])), Entry(Int(7), Num(0)),
     Entry(Int(10), Blob(NIL)), Entry(Int(11), Blob(Reverse(NIL))), Entry(Int(12), Blob(NIL))]
  }

  function TextBlob(): bytes {
    match Dumps(Dict(TextEntries())) case Ok(b) => b case Raised => []
  }

  lemma PhotosFit()
    ensures Plain(PHOTOS) && Dumps(PHOTOS).Ok?
  {
    var es := [Entry(Text([0x70]), Leaf(Bool(true)))];
    assert IsUtf8([0x70]) by { assert Utf8Length([0x70]) == 1 && [0x70][1..] == []; }
    CborProofs.DictCanon(es);
    CborProofs.EntriesEncoded(es);
    assert CborProofs.Encodable(es[0]);
  }

  lemma CameraAscii()
    ensures IsAscii(CAMERA) && |CAMERA| < 0x1_0000
  {
  }

  lemma TextReads()
    ensures Loads(TextBlob()) == Ok(Dict(TextEntries()))
  {
    hide Dumps, Loads, Plain, Ascii, PHOTOS, Reverse;
    var es := TextEntries();
    Reversed(NIL);
    AtomsPlain();
    PhotosFit();
    CameraAscii();
    StrEncodes(CAMERA);
    StrEncodes([0x78]);
    NumEncodes(0);
    BlobEncodes(NIL);
    BlobEncodes(Reverse(NIL));
    KeyedPlain(es);
    KeyedEncodes(es);
    PlainReads(Dict(es));
  }

  lemma TextFields()
    ensures var o := Dict(TextEntries());
      && Get(o, 1) == Ok(Str(CAMERA)) && Get(o, 2) == Ok(PHOTOS) && Get(o, 6) == Ok(Str([0x78]))
      && Get(o, 7) == Ok(Num(0)) && Get(o, 10) == Ok(Blob(NIL)) && Get(o, 11) == Ok(Blob(Reverse(NIL)))
      && Get(o, 12) == Ok(Blob(NIL))
  {
    hide Ascii, Reverse;
    var es := TextEntries();
    KeyedLookup(es, 0);
    KeyedLookup(es, 1);
    KeyedLookup(es, 2);
    KeyedLookup(es, 3);
    KeyedLookup(es, 4);
    KeyedLookup(es, 5);
    KeyedLookup(es, 6);
  }

  /** The verifier takes "x" times a thousand for a claim. */
  lemma TextReading(env: Env, b: Bundle)
    requires b.version == 2 && b.manifest == Some(PHOTOS)
    ensures ReadBlob(env, b, TheSession(), TextBlob())
         == Read(true, Str(CAMERA), Ok(Camera(true, Ok(Claim(Copies, Amount(0))))))
  {
    hide Loads, Get, Ascii, TextBlob, SameValue, Reverse, NtpContent;
    TextReads();
    TextFields();
    SameAsItself(PHOTOS);
    TypesDiffer();
  }

  /** What both blobs leave behind: an entry for the exchange, and a photograph seen. */
  ghost predicate BothIn(e: Evidence, key: DigestPair) {
    && e.flags == NOTHING_READ.flags.(sawCamera := true) && e.records == [] && e.unchecked == map[]
    && key in e.index && e.index[key] == Indexed(NTP, 0, Claim(Amount(EPOCH * PS), Amount(LOCAL_MARGIN_PS)))
  }

  lemma AbsorbExchange(suite: Suite, blob: bytes)
    ensures Absorb(suite, NOTHING_READ, blob,
                   Read(true, Str(NTP), Ok(Ntp(true, 0, Measure(EPOCH * PS, LOCAL_MARGIN_PS)))))
         == NOTHING_READ.(index := map[KeyOf(suite, blob)
              := Indexed(NTP, 0, Claim(Amount(EPOCH * PS), Amount(LOCAL_MARGIN_PS)))])
  {
    hide KeyOf, Ascii;
    TypesDiffer();
  }

  lemma AbsorbText(suite: Suite, e: Evidence, blob: bytes, key: DigestPair)
    requires e == NOTHING_READ.(index := map[key
               := Indexed(NTP, 0, Claim(Amount(EPOCH * PS), Amount(LOCAL_MARGIN_PS)))])
    requires KeyOf(suite, blob) != key
    ensures BothIn(Absorb(suite, e, blob, Read(true, Str(CAMERA), Ok(Camera(true, Ok(Claim(Copies, Amount(0))))))), key)
  {
    hide KeyOf, Ascii;
  }

  lemma BothRead(b: Bundle)
    requires b.version == 2 && b.manifest == Some(PHOTOS) && b.evidence == [TheBlob(), TextBlob()]
    ensures var env := World(TextBlob());
            BothIn(ReadAll(env, b, TheSession(), b.evidence, NOTHING_READ), KeyOf(env.base.suite, TheBlob()))
  {
    hide TheBlob, TextBlob, TheSession, TheExchange, ReadBlob, KeyOf, MeasureIn, World, EvidenceBlob, Honest,
         Absorb, BothIn, PHOTOS;
    var env := World(TextBlob());
    var s := TheSession();
    BlobMade();
    ExchangeHonest(TextBlob());
    ExchangeNumber();
    ExchangeMeasure();
    HonestReading(env, b, s, TheExchange(), TheBlob());
    TextReading(env, b);
    KeysApart(b);
    AbsorbExchange(env.base.suite, TheBlob());
    var first := Absorb(env.base.suite, NOTHING_READ, TheBlob(), ReadBlob(env, b, s, TheBlob()));
    AbsorbText(env.base.suite, first, TextBlob(), KeyOf(env.base.suite, TheBlob()));
    TwoRead(env, b, s, TheBlob(), TextBlob());
    assert b.evidence == [TheBlob(), TextBlob()];
  }

  lemma ExchangeNumber()
    ensures TheExchange().sequence == 0
  {
  }

  lemma TwoRead(env: Env, b: Bundle, s: Session, x: bytes, y: bytes)
    ensures ReadAll(env, b, s, [x, y], NOTHING_READ)
         == Absorb(env.base.suite, Absorb(env.base.suite, NOTHING_READ, x, ReadBlob(env, b, s, x)), y,
                   ReadBlob(env, b, s, y))
  {
    hide ReadBlob, Absorb;
    var blobs: seq<bytes> := [x, y];
    var none: seq<bytes> := [];
    var first := Absorb(env.base.suite, NOTHING_READ, x, ReadBlob(env, b, s, x));
    var second := Absorb(env.base.suite, first, y, ReadBlob(env, b, s, y));
    assert blobs[1..] == [y] && [y][1..] == none;
    assert ReadAll(env, b, s, none, second) == second;
    assert ReadAll(env, b, s, [y], first) == second;
  }

  /** The two blobs have different digests. */
  lemma KeysApart(b: Bundle)
    ensures KeyOf(World(TextBlob()).base.suite, TheBlob()) != KeyOf(World(TextBlob()).base.suite, TextBlob())
  {
    hide TheBlob, TextBlob, Framed;
    BlobsApart();
    assert NIL48[0] != ONES48[0];
    if Framed(DOM_EVIDENCE, TheBlob()) == Framed(DOM_EVIDENCE, TextBlob()) {
      FramedInjective(DOM_EVIDENCE, TheBlob(), DOM_EVIDENCE, TextBlob());
    }
  }

  lemma BlobsApart()
    ensures TheBlob() != TextBlob()
  {
    hide TheBlob, TextBlob, Loads, Get, Ascii, Records.Record, EvidenceBlob;
    BlobMade();
    BlobReads(TheExchange(), TheSession(), TheBlob());
    GetFields(NtpFields(TheExchange(), TheSession()));
    TextReads();
    TextFields();
    TypesDiffer();
  }

  /** There is a bundle that is SANDWICH_PASS although it holds a camera blob that nobody cites and that claims
      no number: two witnesses cite the other blob, and the counts agree. */
  lemma SomeUncited() returns (env: Env, b: Bundle, j: nat)
    ensures Judge(env, b).Ok? && Judge(env, b).value.verdict == SANDWICH_PASS
    ensures SessionOf(env, b).Ok? && j < |b.evidence|
    ensures var r := ReadBlob(env, b, SessionOf(env, b).value, b.evidence[j]);
            r.Read? && r.content.Ok? && r.content.value.Camera? && r.content.value.claim.Ok?
            && r.content.value.claim.value.claimed == Copies
    ensures !SandwichCounts.IsCited(env.base.suite, b.history, b.evidence[j]) && !SandwichCounts.CitedOnce(b.history)
  {
    hide World, TheBlob, TextBlob, TheSession, TheExchange, KeyOf, Header, Judge, Anchors, Predicts, Contiguous,
         MakeBlock, BundleHolds, Find, SessionOf, Observed, ReadBlob, EvidenceSound, Cited, PHOTOS;
    env := World(TextBlob());
    var key := KeyOf(env.base.suite, TheBlob());
    var h := [Testimony(NIL, key), Testimony(ONES, key)];
    var xs, payload;
    b, xs, payload := Making(TextBlob(), h, key, [TheBlob(), TextBlob()], 2, Some(PHOTOS));
    SessionIs(TextBlob(), b);
    AnchoredHolds(env, b, xs, payload, NIL, 0, BITS, 0, 0, Zeros(65));
    ExpectedAsPredicted(b, EPOCH);
    BothSound(b);
    PassIff(env, b);
    j := 1;
    TextReading(env, b);
    ObservedCites(NIL, key);
    ObservedCites(ONES, key);
    KeysApart(b);
    assert key in Cited(h[0].unsigned) && key in Cited(h[1].unsigned);
  }

  lemma BothSound(b: Bundle)
    requires b.b0 == Header() && b.session == NIL && b.version == 2 && b.manifest == Some(PHOTOS)
    requires b.evidence == [TheBlob(), TextBlob()]
    requires var key := KeyOf(World(TextBlob()).base.suite, TheBlob());
             b.history == [Testimony(NIL, key), Testimony(ONES, key)]
    ensures var f := Find(World(TextBlob()), b);
            f.Ok? && f.value.origin == Some(EPOCH) && EvidenceSound(b, f.value)
  {
    hide World, TheBlob, TextBlob, TheSession, TheExchange, KeyOf, Header, SessionOf, ReadAll, TallyAll, MeasureIn,
         FrameFor, FrameOrigin, PHOTOS, Repeats;
    var env, h := World(TextBlob()), b.history;
    var key := KeyOf(env.base.suite, TheBlob());
    SessionIs(TextBlob(), b);
    BothRead(b);
    var e := ReadAll(env, b, TheSession(), b.evidence, NOTHING_READ);
    DigitsParse(TextBlob());
    FrameRead(env.parseInt, DIGITS);
    ObservedRepeats(e, NIL, key);
    ObservedRepeats(e, ONES, key);
    AllRepeatsCount(env, e, EPOCH, h, NewTally(Some(EPOCH)));
  }

  lemma ObservedRepeats(e: Evidence, w: Hash256, key: DigestPair)
    requires key in e.index && e.index[key] == Indexed(NTP, 0, Claim(Amount(EPOCH * PS), Amount(LOCAL_MARGIN_PS)))
    ensures Repeats(e, EPOCH, Observed(w, key))
  {
    hide FrameFor, Ascii;
  }
}
