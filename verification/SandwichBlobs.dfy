/** What a blob of evidence has to say for a sandwich not to fail, on the fields of the blob and on the hashes
    (ctp/sandwich.py). */
module SandwichBlobs {
  import opened Wrappers
  import opened Bytes
  import opened Cbor
  import opened HashSuite
  import opened Records
  import opened Intervals
  import opened Model
  import opened Chains
  import opened Measurement
  import opened Sandwich
  import opened SandwichProofs
  import RoughtimeReply
  import Roughtime
  import Verify
  import opened Checklists

  // ---- what is asked of a blob ----

  /** `q` is the challenge of the bundle's session, `shown` the hash of B0 as it is displayed. */
  ghost predicate IsSession(env: Env, b: Bundle, q: Hash256, shown: bytes) {
    && |b.b0| >= 80 && |b.session| == 32
    && Backwards(shown, env.base.dsha(b.b0[..80]))
    && q == env.base.suite.sha256(DOM_SANDWICH_Q + [0] + shown + b.session)
  }

  ghost predicate NamesSession(o: Value, q: Hash256, shown: bytes, id: bytes) {
    Get(o, 10) == Ok(Blob(q)) && Get(o, 11) == Ok(Blob(shown)) && Get(o, 12) == Ok(Blob(id))
  }

  /** Request and response both carry the nonce of the exchange, and the response is a synchronised server's. */
  ghost predicate Echoes(s: Suite, q: Hash256, host: bytes, sequence: int, request: bytes, response: bytes) {
    && 0 <= sequence <= 0xFF && |request| >= 48 && |response| >= 48
    && request[40..48] == s.sha256(DOM_SANDWICH_NONCE + [0] + q + host + [sequence])[..8]
    && response[24..32] == s.sha256(DOM_SANDWICH_NONCE + [0] + q + host + [sequence])[..8]
    && response[0] % 8 == 4 && 1 <= response[1] <= 15
  }

  ghost predicate NtpFits(s: Suite, q: Hash256, o: Value) {
    && GetText(o, 2).Ok? && GetNumber(o, 9).Ok? && GetBytes(o, 4).Ok? && GetBytes(o, 5).Ok?
    && Echoes(s, q, GetText(o, 2).value, GetNumber(o, 9).value, GetBytes(o, 4).value, GetBytes(o, 5).value)
    && Get(o, 3).Ok? && GetNumber(o, 6).Ok? && GetNumber(o, 7).Ok? && Get(o, 8).Ok?
  }

  /** Anything but None and a dict. */
  ghost predicate Multiplies(o: Value, k: nat) {
    Get(o, k).Ok? && Get(o, k).value != Leaf(Null) && !Get(o, k).value.Dict?
  }

  /** The photographs are those that the bundle announces, and there are some. */
  ghost predicate CameraFits(b: Bundle, o: Value) {
    && b.version >= 2 && b.manifest.Some? && Get(o, 2).Ok?
    && SameValue(b.manifest.value, Get(o, 2).value) && Truthy(Get(o, 2).value)
    && Multiplies(o, 6) && Multiplies(o, 7)
  }

  /** The request carries the nonce. */
  ghost predicate Requests(request: bytes, nonce: bytes) {
    && RoughtimeReply.Unframe(request).Ok? && Roughtime.Decode(RoughtimeReply.Unframe(request).value).Ok?
    && var tags := Roughtime.Decode(RoughtimeReply.Unframe(request).value).value;
       RoughtimeReply.T_NONC in tags && tags[RoughtimeReply.T_NONC] == nonce
  }

  ghost predicate RoughtimeFits(env: Env, q: Hash256, o: Value) {
    && GetText(o, 2).Ok? && GetNumber(o, 9).Ok? && GetBytes(o, 4).Ok? && GetBytes(o, 5).Ok? && Get(o, 13).Ok?
    && 0 <= GetNumber(o, 9).value <= 0xFF
    && GetNumber(o, 6).Ok? && GetNumber(o, 7).Ok?
    && var nonce := env.sha512(DOM_RT_NONCE + [0] + q + GetText(o, 2).value + [GetNumber(o, 9).value]);
       && Requests(GetBytes(o, 4).value, nonce)
       && RoughtimeReply.Accepts(env.sha512, env.ed, GetBytes(o, 5).value, nonce, AsBytes(Get(o, 13).value))
  }

  /** The record names its system, and its tag is the digest that ties the system to the session. */
  ghost predicate ExternalFits(s: Suite, q: Hash256, o: Value) {
    && GetText(o, 2).Ok? && GetText(o, 2).value != []
    && Get(o, 4) == Ok(Blob(s.sha256(DOM_EXTBIND + [0] + q + GetText(o, 2).value)))
  }

  ghost predicate TypeFits(env: Env, b: Bundle, q: Hash256, o: Value) {
    && GetText(o, 1).Ok?
    && (GetText(o, 1).value == NTP ==> NtpFits(env.base.suite, q, o))
    && (GetText(o, 1).value == CAMERA ==> CameraFits(b, o))
    && (GetText(o, 1).value == ROUGHTIME ==> RoughtimeFits(env, q, o))
    && (GetText(o, 1).value == EXTERNAL ==> ExternalFits(env.base.suite, q, o))
  }

  /** The blob is bound to the session and is what its type demands. */
  ghost predicate Fits(env: Env, b: Bundle, blob: bytes) {
    && Loads(blob).Ok?
    && exists q: Hash256, shown: bytes ::
         && IsSession(env, b, q, shown) && NamesSession(Loads(blob).value, q, shown, b.session)
         && TypeFits(env, b, q, Loads(blob).value)
  }

  /** The verifier implements the blob's type, or an extension does. */
  ghost predicate TypeKnown(env: Env, blob: bytes) {
    && Loads(blob).Ok? && GetText(Loads(blob).value, 1).Ok?
    && var name := GetText(Loads(blob).value, 1).value;
       name in {NTP, CAMERA, ROUGHTIME, EXTERNAL} || name in env.extensions
  }

  // ---- one blob ----

  lemma SessionIff(env: Env, b: Bundle, q: Hash256, shown: bytes)
    ensures IsSession(env, b, q, shown)
       <==> SessionOf(env, b).Ok? && SessionOf(env, b).value == Session(q, shown, b.session)
  {
    hide Reverse, Backwards, Ascii;
    if |b.b0| >= 80 {
      assert Slice(b.b0, 0, 80) == b.b0[..80];
      ReverseIff(shown, env.base.dsha(b.b0[..80]));
    }
  }

  lemma BoundIff(o: Value, s: Session)
    ensures Bound(o, s) == Ok(true) <==> NamesSession(o, s.q, s.b0, s.id)
  {
    hide Get;
  }

  /** The verifier's own view of a content that it has nothing against. */
  predicate Sustained(c: Content) {
    match c
    case Ntp(echoed, _, _) => echoed
    case Camera(ok, claim) => ok && claim.Ok?
    case Signed(found) => found.Some?
    case External(ok) => ok
    case ForExtension(_) => true
    case Unknown(_) => true
    case NotText => false
  }

  lemma NtpIff(s: Suite, q: Hash256, o: Value)
    ensures NtpContent(s, q, o).Ok? && Sustained(NtpContent(s, q, o).value) <==> NtpFits(s, q, o)
  {
    hide GetText, GetNumber, Get, ExchangeNonce, MeasureOf, Ascii, Slice, FieldsOf, SentNonce, AsBytes, Echoes;
    if Get(o, 4).Ok? && GetBytes(o, 5).Ok? && GetText(o, 2).Ok? && GetNumber(o, 9).Ok? {
      EchoIff(s, q, GetText(o, 2).value, GetNumber(o, 9).value, Get(o, 4).value, GetBytes(o, 5).value);
    }
  }

  lemma EchoIff(s: Suite, q: Hash256, host: bytes, sequence: int, request: Value, response: bytes)
    ensures && SentNonce(request).Ok? && FieldsOf(response).Ok? && ExchangeNonce(s, q, host, sequence).Ok?
            && SentNonce(request).value == Some(ExchangeNonce(s, q, host, sequence).value)
            && Slice(response, 24, 32) == ExchangeNonce(s, q, host, sequence).value
            && FieldsOf(response).value.mode == 4 && 1 <= FieldsOf(response).value.stratum <= 15
       <==> AsBytes(request).Ok? && Echoes(s, q, host, sequence, AsBytes(request).value, response)
  {
    hide ExchangeNonce, Ascii, Slice, FieldsOf, SentNonce, AsBytes;
    NonceIs(s, q, host, sequence);
    ResponseIs(response);
    SentIff(request);
  }

  lemma NonceIs(s: Suite, q: Hash256, host: bytes, sequence: int)
    ensures ExchangeNonce(s, q, host, sequence).Ok? <==> 0 <= sequence <= 0xFF
    ensures 0 <= sequence <= 0xFF ==>
      && ExchangeNonce(s, q, host, sequence)
         == Ok(s.sha256(DOM_SANDWICH_NONCE + [0] + q + host + [sequence])[..8])
      && |s.sha256(DOM_SANDWICH_NONCE + [0] + q + host + [sequence])[..8]| == 8
  {
    hide Ascii;
  }

  lemma ResponseIs(resp: bytes)
    ensures FieldsOf(resp).Ok? <==> |resp| >= 48
    ensures |resp| >= 48 ==> FieldsOf(resp).value.mode == resp[0] % 8 && FieldsOf(resp).value.stratum == resp[1]
    ensures |resp| >= 48 ==> Slice(resp, 24, 32) == resp[24..32]
  {
    hide FromBE;
  }

  lemma SentIff(req: Value)
    ensures forall n | |n| == 8 :: SentNonce(req) == Ok(Some(n)) <==>
              AsBytes(req).Ok? && |AsBytes(req).value| >= 48 && AsBytes(req).value[40..48] == n
  {
  }

  lemma SameTruth(v: Value, w: Value)
    requires SameValue(v, w)
    ensures Truthy(v) <==> Truthy(w)
  {
  }

  lemma CameraIff(b: Bundle, o: Value)
    ensures CameraContent(b, o).Ok? && Sustained(CameraContent(b, o).value) <==> CameraFits(b, o)
  {
    hide Get, SameValue, Truthy;
    if Get(o, 2).Ok? { ManifestIff(b, Get(o, 2).value); }
  }

  lemma ManifestIff(b: Bundle, photos: Value)
    ensures SameValue(ManifestOf(b), photos) && Truthy(photos)
       <==> b.manifest.Some? && SameValue(b.manifest.value, photos) && Truthy(photos)
  {
    hide SameValue;
    NoPhotos();
    if SameValue(ManifestOf(b), photos) { SameTruth(ManifestOf(b), photos); }
    if b.manifest.Some? && SameValue(b.manifest.value, photos) { SameTruth(b.manifest.value, photos); }
  }

  lemma NoPhotos()
    ensures !Truthy(Dict([]))
  {
  }

  lemma SignedIff(env: Env, q: Hash256, o: Value)
    ensures SignedContent(env, q, o).Ok? && Sustained(SignedContent(env, q, o).value) <==> RoughtimeFits(env, q, o)
  {
    hide GetText, GetNumber, GetBytes, Get, AsBytes, RtNonce, RoughtimeReply.Unframe, Roughtime.Decode,
         RoughtimeReply.VerifyResponse, DeriveRtMeasurement, Ascii;
    if GetText(o, 2).Ok? && GetNumber(o, 9).Ok? { RtNonceIs(env, q, GetText(o, 2).value, GetNumber(o, 9).value); }
  }

  lemma RtNonceIs(env: Env, q: Hash256, host: bytes, sequence: int)
    ensures RtNonce(env.sha512, q, host, sequence).Ok? <==> 0 <= sequence <= 0xFF
    ensures 0 <= sequence <= 0xFF ==>
      RtNonce(env.sha512, q, host, sequence) == Ok(env.sha512(DOM_RT_NONCE + [0] + q + host + [sequence]))
  {
    hide Ascii;
  }

  lemma ExternalIff(s: Suite, q: Hash256, o: Value)
    ensures ExternalContent(s, q, o).Ok? && Sustained(ExternalContent(s, q, o).value) <==> ExternalFits(s, q, o)
  {
    hide GetText, Get, Ascii;
  }

  lemma ContentIff(env: Env, b: Bundle, q: Hash256, o: Value)
    requires Get(o, 1).Ok?
    ensures var c := ContentOf(env, b, q, o, Get(o, 1).value);
            c.Ok? && Sustained(c.value) <==> TypeFits(env, b, q, o)
  {
    hide NtpContent, CameraContent, SignedContent, ExternalContent, NtpFits, CameraFits, RoughtimeFits, ExternalFits,
         Get, Sustained, Ascii;
    TypesDiffer();
    NtpIff(env.base.suite, q, o);
    CameraIff(b, o);
    SignedIff(env, q, o);
    ExternalIff(env.base.suite, q, o);
    OthersSustained();
  }

  lemma OthersSustained()
    ensures forall name :: Sustained(ForExtension(name)) && Sustained(Unknown(name))
    ensures !Sustained(NotText)
  {
  }

  predicate Acceptable(r: Reading) {
    r.Read? && r.bound && r.content.Ok? && Sustained(r.content.value)
  }

  lemma ReadingIff(env: Env, b: Bundle, s: Session, blob: bytes)
    requires SessionOf(env, b) == Ok(s)
    ensures Acceptable(ReadBlob(env, b, s, blob)) <==> Fits(env, b, blob)
  {
    hide SessionOf, IsSession, Loads, Bound, NamesSession, TypeFits, ContentOf, Get, Sustained;
    SessionIff(env, b, s.q, s.b0);
    SessionId(env, b, s);
    if Loads(blob).Ok? {
      var o := Loads(blob).value;
      BoundIff(o, s);
      if Get(o, 1).Ok? { ContentIff(env, b, s.q, o); } else { Untyped(env, b, s.q, o); }
      forall q: Hash256, shown: bytes | IsSession(env, b, q, shown) ensures q == s.q && shown == s.b0 {
        SessionIff(env, b, q, shown);
      }
    }
  }

  lemma Untyped(env: Env, b: Bundle, q: Hash256, o: Value)
    requires Get(o, 1).Raised?
    ensures !TypeFits(env, b, q, o)
  {
    hide Get;
  }

  lemma SessionId(env: Env, b: Bundle, s: Session)
    requires SessionOf(env, b) == Ok(s)
    ensures s.id == b.session
  {
    hide Slice, Reverse;
  }

  // ---- all blobs ----

  predicate OfNobody(r: Reading) {
    r.Read? && r.content.Ok? && r.content.value.Unknown?
  }

  predicate GoodFlags(f: Flags) {
    f.nonce && f.bind && f.camera && f.signed && f.external
  }

  /** A flag about a type is only ever lowered by a blob of that type. */
  predicate FlagsSeen(f: Flags) {
    (f.camera || f.sawCamera) && (f.signed || f.sawSigned) && (f.external || f.sawExternal)
  }

  lemma SeenFacts(f: Flags, typ: Value)
    ensures GoodFlags(Seen(f, typ)) <==> GoodFlags(f)
    ensures FlagsSeen(f) ==> FlagsSeen(Seen(f, typ))
    ensures typ == Str(CAMERA) ==> Seen(f, typ).sawCamera
    ensures typ == Str(ROUGHTIME) ==> Seen(f, typ).sawSigned
    ensures typ == Str(EXTERNAL) ==> Seen(f, typ).sawExternal
  {
    hide Ascii, Seen;
    TypesDiffer();
    SeenCases(f, typ);
  }

  lemma FlagsGood(f: Flags, c: Content)
    ensures GoodFlags(FlagsAfter(f, c)) <==> GoodFlags(f) && Sustained(c)
    ensures && FlagsSeen(f) && (c.Camera? ==> f.sawCamera) && (c.Signed? ==> f.sawSigned)
            && (c.External? ==> f.sawExternal)
      ==> FlagsSeen(FlagsAfter(f, c))
  {
  }

  lemma BindGood(f: Flags, bound: bool)
    ensures GoodFlags(f.(bind := f.bind && bound)) <==> GoodFlags(f) && bound
    ensures FlagsSeen(f) ==> FlagsSeen(f.(bind := f.bind && bound))
  {
  }

  lemma FailedBad(f: Flags)
    ensures !GoodFlags(Failed(f)) && (FlagsSeen(f) ==> FlagsSeen(Failed(f)))
  {
  }

  lemma AbsorbFlags(env: Env, b: Bundle, s: Session, e: Evidence, blob: bytes)
    ensures var r := ReadBlob(env, b, s, blob);
            var e' := Absorb(env.base.suite, e, blob, r);
      && (GoodFlags(e'.flags) <==> GoodFlags(e.flags) && Acceptable(r))
      && (FlagsSeen(e.flags) ==> FlagsSeen(e'.flags))
      && (e'.unchecked == map[] <==> e.unchecked == map[] && !OfNobody(r))
  {
    hide ReadBlob, FlagsAfter, IndexAfter, PutRecord, KeyOf, Sustained, Seen, GoodFlags, FlagsSeen, Failed, Ascii;
    var r := ReadBlob(env, b, s, blob);
    ReadingTyped(env, b, s, blob);
    if r.Unreadable? {
      FailedBad(e.flags);
    } else {
      var bind := e.flags.(bind := e.flags.bind && r.bound);
      BindGood(e.flags, r.bound);
      SeenFacts(bind, r.typ);
      if r.content.Raised? {
        FailedBad(Seen(bind, r.typ));
      } else {
        FlagsGood(Seen(bind, r.typ), r.content.value);
        if r.content.value.Unknown? {
          assert KeyOf(env.base.suite, blob) in Absorb(env.base.suite, e, blob, r).unchecked;
        }
      }
    }
  }

  lemma {:induction false} ReadAllFlags(env: Env, b: Bundle, s: Session, blobs: seq<bytes>, e: Evidence)
    requires FlagsSeen(e.flags)
    ensures var e' := ReadAll(env, b, s, blobs, e);
      && FlagsSeen(e'.flags)
      && (GoodFlags(e'.flags)
          <==> GoodFlags(e.flags) && forall i | 0 <= i < |blobs| :: Acceptable(ReadBlob(env, b, s, blobs[i])))
      && (e'.unchecked == map[]
          <==> e.unchecked == map[] && forall i | 0 <= i < |blobs| :: !OfNobody(ReadBlob(env, b, s, blobs[i])))
    decreases blobs
  {
    hide Absorb, ReadBlob, GoodFlags, FlagsSeen, Acceptable;
    if blobs != [] {
      AbsorbFlags(env, b, s, e, blobs[0]);
      ReadAllFlags(env, b, s, blobs[1..], Absorb(env.base.suite, e, blobs[0], ReadBlob(env, b, s, blobs[0])));
      assert forall i | 0 <= i < |blobs[1..]| :: blobs[1..][i] == blobs[i + 1];
      assert forall i | 0 < i < |blobs| :: blobs[i] == blobs[1..][i - 1];
    }
  }

  lemma StartsGood()
    ensures GoodFlags(NOTHING_READ.flags) && FlagsSeen(NOTHING_READ.flags) && NOTHING_READ.unchecked == map[]
  {
  }

  lemma KnownIff(env: Env, b: Bundle, s: Session, blob: bytes)
    requires SessionOf(env, b) == Ok(s) && Fits(env, b, blob)
    ensures TypeKnown(env, blob) <==> !OfNobody(ReadBlob(env, b, s, blob))
  {
    hide SessionOf, IsSession, Loads, Bound, NamesSession, TypeFits, Fits, ContentOf, Sustained, GetText, Ascii;
    ReadingIff(env, b, s, blob);
    var o := Loads(blob).value;
    NameIs(o);
    KindIs(env, b, s.q, o);
  }

  lemma NameIs(o: Value)
    ensures forall name :: GetText(o, 1) == Ok(name) <==> Get(o, 1) == Ok(Str(name))
  {
    hide Get;
  }

  lemma KindIs(env: Env, b: Bundle, q: Hash256, o: Value)
    requires Get(o, 1).Ok? && ContentOf(env, b, q, o, Get(o, 1).value).Ok?
    requires Sustained(ContentOf(env, b, q, o, Get(o, 1).value).value)
    ensures GetText(o, 1).Ok?
    ensures ContentOf(env, b, q, o, Get(o, 1).value).value.Unknown? <==>
              GetText(o, 1).value !in {NTP, CAMERA, ROUGHTIME, EXTERNAL} && GetText(o, 1).value !in env.extensions
  {
    hide NtpContent, CameraContent, SignedContent, ExternalContent, Get, Ascii;
    ContentTyped(env, b, q, o, Get(o, 1).value);
  }

  lemma FlagsOf(env: Env, b: Bundle)
    requires Find(env, b).Ok?
    ensures FlagsSeen(Find(env, b).value.e.flags)
    ensures GoodFlags(Find(env, b).value.e.flags) <==> forall i | 0 <= i < |b.evidence| :: Fits(env, b, b.evidence[i])
    ensures (forall i | 0 <= i < |b.evidence| :: Fits(env, b, b.evidence[i])) ==>
              (Find(env, b).value.e.unchecked == map[]
               <==> forall i | 0 <= i < |b.evidence| :: TypeKnown(env, b.evidence[i]))
  {
    hide SessionOf, ReadAll, TallyAll, Origin, ReadBlob, GoodFlags, FlagsSeen, Acceptable, Fits, TypeKnown, OfNobody;
    var s := SessionOf(env, b).value;
    StartsGood();
    ReadAllFlags(env, b, s, b.evidence, NOTHING_READ);
    forall i | 0 <= i < |b.evidence|
      ensures Acceptable(ReadBlob(env, b, s, b.evidence[i])) <==> Fits(env, b, b.evidence[i])
      ensures Fits(env, b, b.evidence[i]) ==>
                (TypeKnown(env, b.evidence[i]) <==> !OfNobody(ReadBlob(env, b, s, b.evidence[i])))
    {
      ReadingIff(env, b, s, b.evidence[i]);
      if Fits(env, b, b.evidence[i]) { KnownIff(env, b, s, b.evidence[i]); }
    }
  }

  lemma FailuresSeen(b: Bundle, e: Evidence)
    requires FlagsSeen(e.flags) && EvidenceLacks(b, e, IsFailure)
    ensures GoodFlags(e.flags)
  {
  }

  lemma SurroundFailures(env: Env, b: Bundle, core: Verify.Checks)
    requires Surround(env, b, core).Ok? && Lacks(Surround(env, b, core).value.checks, IsFailure)
    ensures Find(env, b).Ok? && EvidenceLacks(b, Find(env, b).value.e, IsFailure)
  {
    hide HeaderPow, Walk, Slice, AllChecks, VerdictOf, Lacks, Find, EvidenceLacks, MatchLacks;
    var dsha, f := env.base.dsha, Find(env, b).value;
    var b0, c := Slice(b.b0, 0, 80), Slice(b.blockC, 0, 80);
    var end, top := Walk(dsha, dsha(b0), b.path).value, Walk(dsha, dsha(c), b.burial).value;
    LacksAll(b, HeaderPow(dsha, b0).value, f, core, end.Some? && Slice(c, 4, 36) == end.value, top.Some?, IsFailure);
  }

  /** verify_sandwich ends in a passing verdict. */
  predicate Passes(env: Env, b: Bundle) {
    Judge(env, b).Ok? && Passing(Judge(env, b).value.verdict)
  }

  lemma PassesIff(env: Env, b: Bundle)
    ensures Passes(env, b) <==> BundleHolds(env, b) && Sound(env, b)
  {
    hide Judge, Passing, BundleHolds, Sound;
    PassIff(env, b);
  }

  /** One blob that is not bound to the session, or not what its type demands, fails the whole bundle, unless
      the toolchain is missing. */
  lemma UnfitFails(env: Env, b: Bundle, i: nat)
    requires Judge(env, b).Ok? && i < |b.evidence| && !Fits(env, b, b.evidence[i])
    ensures Judge(env, b).value.verdict in {FAIL, INDETERMINATE_TOOLCHAIN}
  {
    hide Surround, CoreChecks, Find, Fits, Lacks, ToolchainMissing, GoodFlags, FlagsSeen, AnyUnchecked;
    Ranking(env, b);
    FlagsOf(env, b);
    var core := CoreChecks(env, b).value;
    if Lacks(Surround(env, b, core).value.checks, IsFailure) {
      SurroundFailures(env, b, core);
      FailuresSeen(b, Find(env, b).value.e);
    }
  }

  /** In a passing bundle every blob is bound to the session and what its type demands, and its type is known. */
  lemma PassingFits(env: Env, b: Bundle, i: nat)
    requires Passes(env, b) && i < |b.evidence|
    ensures Fits(env, b, b.evidence[i]) && TypeKnown(env, b.evidence[i])
  {
    hide Passes, BundleHolds, Contiguous, Find, Fits, TypeKnown, GoodFlags, FlagsSeen, Expected, Measured,
         CameraExpected;
    PassesIff(env, b);
    FlagsOf(env, b);
    SoundFlags(b, Find(env, b).value);
  }

  lemma SoundFlags(b: Bundle, f: Finding)
    requires EvidenceSound(b, f) && FlagsSeen(f.e.flags)
    ensures GoodFlags(f.e.flags) && f.e.unchecked == map[]
  {
  }

  lemma AbsorbSees(suite: Suite, e: Evidence, blob: bytes, r: Reading)
    ensures Absorb(suite, e, blob, r).flags.sawCamera ==> e.flags.sawCamera || (r.Read? && r.typ == Str(CAMERA))
  {
    hide KeyOf, IndexAfter, PutRecord, Seen, FlagsAfter, CAMERA;
    if r.Read? { SeenCamera(e.flags.(bind := e.flags.bind && r.bound), r.typ); }
    if r.Read? && r.content.Ok? { KeepsSeen(Seen(e.flags.(bind := e.flags.bind && r.bound), r.typ), r.content.value); }
  }

  lemma SeenCamera(f: Flags, typ: Value)
    ensures Seen(f, typ).sawCamera ==> f.sawCamera || typ == Str(CAMERA)
  {
    hide Ascii;
  }

  lemma KeepsSeen(f: Flags, c: Content)
    ensures FlagsAfter(f, c).sawCamera == f.sawCamera
  {
  }

  lemma {:induction false} ReadAllSees(env: Env, b: Bundle, s: Session, blobs: seq<bytes>, e: Evidence) returns (i: nat)
    requires ReadAll(env, b, s, blobs, e).flags.sawCamera && !e.flags.sawCamera
    ensures i < |blobs| && ReadBlob(env, b, s, blobs[i]).Read? && ReadBlob(env, b, s, blobs[i]).typ == Str(CAMERA)
    decreases blobs
  {
    hide Absorb, ReadBlob, CAMERA;
    i := 0;
    var e' := Absorb(env.base.suite, e, blobs[0], ReadBlob(env, b, s, blobs[0]));
    AbsorbSees(env.base.suite, e, blobs[0], ReadBlob(env, b, s, blobs[0]));
    if !e'.flags.sawCamera {
      var j := ReadAllSees(env, b, s, blobs[1..], e');
      i := j + 1;
      assert blobs[i] == blobs[1..][j];
    }
  }

  /** A passing bundle that announces photographs has a photograph. */
  lemma PhotographPresent(env: Env, b: Bundle) returns (i: nat)
    requires Passes(env, b) && b.version >= 2 && b.manifest.Some? && Truthy(b.manifest.value)
    ensures i < |b.evidence| && Loads(b.evidence[i]).Ok? && GetText(Loads(b.evidence[i]).value, 1) == Ok(CAMERA)
  {
    hide Passes, BundleHolds, Contiguous, SessionOf, ReadAll, TallyAll, Origin, ReadBlob, Loads, GetText, CAMERA,
         Measured, Expected;
    PassesIff(env, b);
    NoPhotos();
    var s := SessionOf(env, b).value;
    NotSeenYet();
    i := ReadAllSees(env, b, s, b.evidence, NOTHING_READ);
    TypeRead(env, b, s, b.evidence[i]);
  }

  lemma NotSeenYet()
    ensures !NOTHING_READ.flags.sawCamera
  {
  }

  lemma TypeRead(env: Env, b: Bundle, s: Session, blob: bytes)
    requires ReadBlob(env, b, s, blob).Read?
    ensures Loads(blob).Ok? && Get(Loads(blob).value, 1) == Ok(ReadBlob(env, b, s, blob).typ)
    ensures forall name :: ReadBlob(env, b, s, blob).typ == Str(name) ==> GetText(Loads(blob).value, 1) == Ok(name)
  {
    hide Loads, Bound, ContentOf, Get;
  }

  // ---- the observations ----

  /** Every observation declares the same frame, and the text in it stands for `origin`. */
  ghost predicate Declares(parseInt: bytes -> Result<int>, h: History, origin: int) {
    && h != []
    && exists digits ::
         && (forall i | 0 <= i < |h| :: h[i].unsigned.frame == FRAME_PREFIX + digits + FRAME_SUFFIX)
         && parseInt(digits) == Ok(origin)
  }

  lemma OriginIff(parseInt: bytes -> Result<int>, h: History, origin: int)
    ensures Origin(parseInt, h) == Some(origin) <==> Declares(parseInt, h, origin)
  {
    hide Ascii, FrameOrigin;
    if h != [] {
      var frame := h[0].unsigned.frame;
      forall digits | frame == FRAME_PREFIX + digits + FRAME_SUFFIX
        ensures FrameOrigin(parseInt, frame) == parseInt(digits)
      {
        FrameParts(parseInt, digits);
      }
      if FrameOrigin(parseInt, frame).Ok? { FrameSplits(parseInt, frame); }
    }
  }

  lemma FrameParts(parseInt: bytes -> Result<int>, digits: bytes)
    ensures FrameOrigin(parseInt, FRAME_PREFIX + digits + FRAME_SUFFIX) == parseInt(digits)
  {
    hide Ascii;
    Affixes();
    var frame := FRAME_PREFIX + digits + FRAME_SUFFIX;
    assert Slice(frame, 0, 14) == FRAME_PREFIX;
    assert frame[|frame| - 3..] == FRAME_SUFFIX;
    assert frame[14..|frame| - 3] == digits;
  }

  lemma FrameSplits(parseInt: bytes -> Result<int>, frame: bytes)
    requires FrameOrigin(parseInt, frame).Ok?
    ensures exists digits :: frame == FRAME_PREFIX + digits + FRAME_SUFFIX
  {
    hide Ascii;
    Affixes();
    assert frame == frame[..14] + frame[14..|frame| - 3] + frame[|frame| - 3..];
  }

  lemma Affixes()
    ensures |FRAME_PREFIX| == 14 && |FRAME_SUFFIX| == 3
  {
  }

  /** The fields of a blob hold, or make, this measurement: its type and number, the claimed instant and the
      uncertainty in picoseconds. */
  ghost predicate Measures(env: Env, q: Hash256, o: Value, typ: bytes, sequence: int, claimed: int, uncertainty: int) {
    && GetText(o, 1) == Ok(typ)
    && ((typ == NTP && NtpMeasures(o, sequence, Measure(claimed, uncertainty)))
        || (typ == CAMERA && sequence == 0 && Times(o, 6, claimed) && Times(o, 7, uncertainty))
        || (typ == ROUGHTIME && RtMeasures(env, q, o, sequence, Measure(claimed, uncertainty))))
  }

  ghost predicate NtpMeasures(o: Value, sequence: int, m: Measure) {
    && GetNumber(o, 9) == Ok(sequence) && GetBytes(o, 5).Ok? && GetNumber(o, 6).Ok? && GetNumber(o, 7).Ok?
    && DeriveMeasurement(GetBytes(o, 5).value, GetNumber(o, 6).value, GetNumber(o, 7).value) == Ok(m)
  }

  /** A camera blob states its claim in nanoseconds. */
  ghost predicate Times(o: Value, k: nat, ps: int) {
    GetNumber(o, k).Ok? && ps == GetNumber(o, k).value * 1000
  }

  ghost predicate RtMeasures(env: Env, q: Hash256, o: Value, sequence: int, m: Measure) {
    && GetNumber(o, 9) == Ok(sequence) && GetText(o, 2).Ok? && GetBytes(o, 5).Ok? && Get(o, 13).Ok?
    && GetNumber(o, 6).Ok? && GetNumber(o, 7).Ok? && 0 <= sequence <= 0xFF
    && var nonce := env.sha512(DOM_RT_NONCE + [0] + q + GetText(o, 2).value + [sequence]);
       var r := RoughtimeReply.VerifyResponse(env.sha512, env.ed, GetBytes(o, 5).value, nonce,
                                              AsBytes(Get(o, 13).value));
       r.Ok? && r.value.Some?
       && m == DeriveRtMeasurement(r.value.value, GetNumber(o, 6).value, GetNumber(o, 7).value)
  }

  lemma NtpEntry(s: Suite, q: Hash256, o: Value)
    ensures NtpContent(s, q, o).Ok? ==>
      var c := NtpContent(s, q, o).value;
      NtpMeasures(o, c.sequence, c.measure)
  {
    hide GetText, GetNumber, Get, ExchangeNonce, FieldsOf, MeasureOf, SentNonce, Slice, Ascii;
  }

  lemma CameraEntry(b: Bundle, o: Value)
    ensures CameraContent(b, o).Ok? && CameraContent(b, o).value.claim.Ok? ==>
      var claim := CameraContent(b, o).value.claim.value;
      && (claim.claimed.Amount? ==> Times(o, 6, claim.claimed.ps))
      && (claim.uncertainty.Amount? ==> Times(o, 7, claim.uncertainty.ps))
  {
    hide Get, SameValue, Truthy, ManifestOf;
  }

  lemma RtEntry(env: Env, q: Hash256, o: Value, sequence: int, m: Measure)
    requires SignedContent(env, q, o) == Ok(Signed(Some((sequence, m))))
    ensures RtMeasures(env, q, o, sequence, m)
  {
    hide GetText, GetNumber, GetBytes, Get, AsBytes, RtNonce, RoughtimeReply.Unframe, Roughtime.Decode,
         RoughtimeReply.VerifyResponse, DeriveRtMeasurement, Ascii;
    if GetText(o, 2).Ok? && GetNumber(o, 9).Ok? { RtNonceIs(env, q, GetText(o, 2).value, GetNumber(o, 9).value); }
  }

  lemma EntryMeasures(env: Env, b: Bundle, s: Session, blob: bytes, typ: bytes, sequence: int, claimed: int,
                      uncertainty: int)
    requires EntryRead(ReadBlob(env, b, s, blob))
          == Some(Indexed(typ, sequence, Claim(Amount(claimed), Amount(uncertainty))))
    ensures Loads(blob).Ok? && Measures(env, s.q, Loads(blob).value, typ, sequence, claimed, uncertainty)
  {
    hide Loads, Bound, Get, NtpContent, CameraContent, SignedContent, ExternalContent, NtpMeasures, RtMeasures, Times,
         Ascii;
    var o := Loads(blob).value;
    var v := Get(o, 1).value;
    ContentTyped(env, b, s.q, o, v);
    NameIs(o);
    NtpEntry(env.base.suite, s.q, o);
    CameraEntry(b, o);
    if typ == ROUGHTIME { RtEntry(env, s.q, o, sequence, Measure(claimed, uncertainty)); }
  }

  // ---- the extensions ----

  /** A blob of the type `name`, which no part of this verifier implements but an extension does. */
  ghost predicate OfExtension(env: Env, blob: bytes, name: bytes) {
    && Loads(blob).Ok? && GetText(Loads(blob).value, 1) == Ok(name)
    && name !in {NTP, CAMERA, ROUGHTIME, EXTERNAL} && name in env.extensions
  }

  /** The observation cites a blob of the bundle that an extension answers for. */
  ghost predicate CitesExtension(env: Env, b: Bundle, u: Observation) {
    exists k, name | 0 <= k < |b.evidence| ::
      OfExtension(env, b.evidence[k], name) && DigestOf(env.base.suite, b.evidence[k]) in Cited(u)
  }

  /** The digest under which sources cite a blob. */
  ghost function DigestOf(s: Suite, blob: bytes): DigestPair {
    DigestPair(s.sha256(DOM_EVIDENCE + [0] + blob), s.shake384(DOM_EVIDENCE + [0] + blob))
  }

  lemma ExtensionIff(env: Env, b: Bundle, s: Session, blob: bytes, name: bytes)
    requires SessionOf(env, b) == Ok(s) && Fits(env, b, blob)
    ensures OfExtension(env, blob, name) <==>
              ReadBlob(env, b, s, blob).Read? && ReadBlob(env, b, s, blob).content == Ok(ForExtension(name))
  {
    hide SessionOf, IsSession, Loads, Bound, NamesSession, TypeFits, Fits, ContentOf, Sustained, GetText, Ascii;
    ReadingIff(env, b, s, blob);
    var o := Loads(blob).value;
    NameIs(o);
    ExtensionKind(env, b, s.q, o, name);
  }

  lemma ExtensionKind(env: Env, b: Bundle, q: Hash256, o: Value, name: bytes)
    requires Get(o, 1).Ok? && ContentOf(env, b, q, o, Get(o, 1).value).Ok?
    ensures ContentOf(env, b, q, o, Get(o, 1).value).value == ForExtension(name) <==>
              && GetText(o, 1) == Ok(name) && name !in {NTP, CAMERA, ROUGHTIME, EXTERNAL}
              && name in env.extensions
  {
    hide NtpContent, CameraContent, SignedContent, ExternalContent, Get, Ascii;
    ContentTyped(env, b, q, o, Get(o, 1).value);
    NameIs(o);
  }

  /** Records are only ever added or replaced by others of the same digest. */
  lemma {:induction false} PutHas(records: seq<Record>, r: Record, key: DigestPair)
    ensures HasRecord(PutRecord(records, r), key) <==> HasRecord(records, key) || r.key == key
    decreases records
  {
    var after := PutRecord(records, r);
    if records == [] {
      assert after[0].key == r.key;
    } else {
      PutHas(records[1..], r, key);
      assert forall i | 0 < i < |records| :: records[i] == records[1..][i - 1];
      HasSplit(records, key);
      HasSplit(after, key);
      assert records[0].key != r.key ==> after[1..] == PutRecord(records[1..], r);
      assert records[0].key == r.key ==> after[1..] == records[1..];
    }
  }

  lemma HasSplit(records: seq<Record>, key: DigestPair)
    requires records != []
    ensures HasRecord(records, key) <==> records[0].key == key || HasRecord(records[1..], key)
  {
    if HasRecord(records[1..], key) {
      var i :| 0 <= i < |records[1..]| && records[1..][i].key == key;
      assert records[i + 1].key == key;
    }
    assert forall i | 0 < i < |records| :: records[i] == records[1..][i - 1];
  }

  lemma AbsorbRecords(suite: Suite, e: Evidence, blob: bytes, r: Reading, key: DigestPair)
    ensures HasRecord(Absorb(suite, e, blob, r).records, key)
       <==> HasRecord(e.records, key)
            || (r.Read? && r.content.Ok? && r.content.value.ForExtension? && KeyOf(suite, blob) == key)
  {
    hide KeyOf, PutRecord, FlagsAfter, IndexAfter, Seen, HasRecord;
    if r.Read? && r.content.Ok? && r.content.value.ForExtension? {
      PutHas(e.records, Record(KeyOf(suite, blob), r.content.value.name, blob), key);
    }
  }

  ghost predicate RecordedBy(env: Env, b: Bundle, s: Session, blob: bytes, key: DigestPair) {
    var r := ReadBlob(env, b, s, blob);
    r.Read? && r.content.Ok? && r.content.value.ForExtension? && KeyOf(env.base.suite, blob) == key
  }

  lemma {:induction false} ReadAllRecords(env: Env, b: Bundle, s: Session, blobs: seq<bytes>, e: Evidence,
                                          key: DigestPair)
    ensures HasRecord(ReadAll(env, b, s, blobs, e).records, key)
       <==> HasRecord(e.records, key) || exists k | 0 <= k < |blobs| :: RecordedBy(env, b, s, blobs[k], key)
    decreases blobs
  {
    hide Absorb, ReadBlob, HasRecord, KeyOf;
    if blobs != [] {
      var r := ReadBlob(env, b, s, blobs[0]);
      AbsorbRecords(env.base.suite, e, blobs[0], r, key);
      ReadAllRecords(env, b, s, blobs[1..], Absorb(env.base.suite, e, blobs[0], r), key);
      if k :| 0 <= k < |blobs[1..]| && RecordedBy(env, b, s, blobs[1..][k], key) {
        assert RecordedBy(env, b, s, blobs[k + 1], key);
      }
      assert forall i | 0 < i < |blobs| :: blobs[i] == blobs[1..][i - 1];
    }
  }

  lemma ForeignIff(env: Env, b: Bundle, u: Observation)
    requires Find(env, b).Ok? && Find(env, b).value.e.unchecked == map[]
    requires forall i | 0 <= i < |b.evidence| :: Fits(env, b, b.evidence[i])
    ensures Foreign(Find(env, b).value.e, u) <==> CitesExtension(env, b, u)
  {
    hide SessionOf, ReadAll, TallyAll, Origin, ReadBlob, Fits, HasRecord, OfExtension;
    var s, e := SessionOf(env, b).value, Find(env, b).value.e;
    NoneRecorded();
    forall key ensures HasRecord(e.records, key) <==>
      exists k, name | 0 <= k < |b.evidence| ::
        OfExtension(env, b.evidence[k], name) && DigestOf(env.base.suite, b.evidence[k]) == key
    {
      ReadAllRecords(env, b, s, b.evidence, NOTHING_READ, key);
      if k :| 0 <= k < |b.evidence| && RecordedBy(env, b, s, b.evidence[k], key) {
        var name := ReadBlob(env, b, s, b.evidence[k]).content.value.name;
        ExtensionIff(env, b, s, b.evidence[k], name);
      }
      if k, name :| 0 <= k < |b.evidence| && OfExtension(env, b.evidence[k], name)
                    && DigestOf(env.base.suite, b.evidence[k]) == key {
        ExtensionIff(env, b, s, b.evidence[k], name);
        assert RecordedBy(env, b, s, b.evidence[k], key);
      }
    }
  }

  lemma NoneRecorded()
    ensures forall key :: !HasRecord(NOTHING_READ.records, key)
  {
  }

  // ---- what a passing sandwich says of its observations ----

  lemma PassingForeign(env: Env, b: Bundle, u: Observation)
    requires Passes(env, b)
    ensures BundleHolds(env, b) && Sound(env, b) && SessionOf(env, b).Ok?
    ensures Foreign(Find(env, b).value.e, u) <==> CitesExtension(env, b, u)
  {
    hide Passes, BundleHolds, Contiguous, Find, Fits, TypeKnown, Foreign, CitesExtension, Expected, Measured,
         CameraExpected, FlagsSeen;
    PassesIff(env, b);
    forall i | 0 <= i < |b.evidence| ensures Fits(env, b, b.evidence[i]) { PassingFits(env, b, i); }
    FlagsOf(env, b);
    FindOk(env, b);
    SoundFlags(b, Find(env, b).value);
    ForeignIff(env, b, u);
  }

  /** In a passing bundle an observation that cites no extension's blob has exactly one source.  It cites a blob
      of the bundle; shifted to the declared origin, the instant it claims is the one the blob's fields hold, its
      uncertainty and its number are the blob's, and claim and uncertainty make up the whole interval. */
  lemma ObservationMeasured(env: Env, b: Bundle, i: nat)
    returns (j: nat, origin: int, q: Hash256, shown: bytes)
    requires Passes(env, b) && i < |b.history|
    requires !CitesExtension(env, b, b.history[i].unsigned)
    ensures IsSession(env, b, q, shown) && Declares(env.parseInt, b.history, origin)
    ensures
      var u := b.history[i].unsigned;
      && |u.sources| == 1 && j < |b.evidence|
      && var x, o := u.sources[0], Loads(b.evidence[j]);
         && x.evidence == DigestOf(env.base.suite, b.evidence[j])
         && o.Ok? && Measures(env, q, o.value, x.sourceType, u.sequence, x.claimed + origin * PS, x.uncertainty)
         && u.interval == Span(x.claimed - x.uncertainty, x.claimed + x.uncertainty)
  {
    hide Passes, BundleHolds, Sound, Find, SessionOf, Foreign, CitesExtension, ReadBlob, EntryRead, Declares,
         Measures, IsSession, Loads;
    var u := b.history[i].unsigned;
    PassingForeign(env, b, u);
    FindOk(env, b);
    j := ObservationResolved(env, b, i);
    var s := SessionOf(env, b).value;
    q, shown, origin := s.q, s.b0, Find(env, b).value.origin.value;
    SessionId(env, b, s);
    SessionIff(env, b, q, shown);
    FoundOrigin(env, b);
    OriginIff(env.parseInt, b.history, origin);
    var x := u.sources[0];
    EntryMeasures(env, b, s, b.evidence[j], x.sourceType, u.sequence, x.claimed + origin * PS, x.uncertainty);
  }

  lemma FoundOrigin(env: Env, b: Bundle)
    requires Find(env, b).Ok?
    ensures Find(env, b).value.origin == Origin(env.parseInt, b.history)
  {
    hide SessionOf, ReadAll, TallyAll, Origin;
  }

  lemma {:induction false} NamedBlobs(records: seq<Record>, name: bytes, x: bytes)
    ensures x in BlobsNamed(records, name) <==>
              exists i | 0 <= i < |records| :: records[i].name == name && records[i].blob == x
    decreases records
  {
    if records != [] {
      NamedBlobs(records[1..], name, x);
      assert forall i | 0 < i < |records| :: records[i] == records[1..][i - 1];
      if i :| 0 <= i < |records[1..]| && records[1..][i].name == name && records[1..][i].blob == x {
        assert records[i + 1].blob == x;
      }
    }
  }

  ghost predicate KeysDiffer(records: seq<Record>) {
    forall i, j | 0 <= i < j < |records| :: records[i].key != records[j].key
  }

  lemma {:induction false} PutDiffer(records: seq<Record>, r: Record)
    requires KeysDiffer(records)
    ensures KeysDiffer(PutRecord(records, r))
    decreases records
  {
    hide HasRecord;
    if records != [] && records[0].key != r.key {
      var rest := records[1..];
      forall i, j | 0 <= i < j < |rest| ensures rest[i].key != rest[j].key {
        assert records[i + 1].key != records[j + 1].key;
      }
      PutDiffer(rest, r);
      PutHas(rest, r, records[0].key);
      HeadDiffers(records);
      Prepended(records[0], PutRecord(rest, r));
    }
  }

  lemma HeadDiffers(records: seq<Record>)
    requires records != [] && KeysDiffer(records)
    ensures !HasRecord(records[1..], records[0].key)
  {
    forall i | 0 <= i < |records[1..]| ensures records[1..][i].key != records[0].key {
      assert records[0].key != records[i + 1].key;
    }
  }

  lemma Prepended(r: Record, rest: seq<Record>)
    requires KeysDiffer(rest) && !HasRecord(rest, r.key)
    ensures KeysDiffer([r] + rest)
  {
    var all := [r] + rest;
    forall i, j | 0 <= i < j < |all| ensures all[i].key != all[j].key {
      assert all[j] == rest[j - 1] && (i > 0 ==> all[i] == rest[i - 1]);
    }
  }

  lemma {:induction false} ReadAllDiffer(env: Env, b: Bundle, s: Session, blobs: seq<bytes>, e: Evidence)
    requires KeysDiffer(e.records)
    ensures KeysDiffer(ReadAll(env, b, s, blobs, e).records)
    decreases blobs
  {
    hide ReadBlob, KeysDiffer, KeyOf, PutRecord, FlagsAfter, IndexAfter, Seen;
    if blobs != [] {
      var r := ReadBlob(env, b, s, blobs[0]);
      if r.Read? && r.content.Ok? && r.content.value.ForExtension? {
        PutDiffer(e.records, Record(KeyOf(env.base.suite, blobs[0]), r.content.value.name, blobs[0]));
      }
      ReadAllDiffer(env, b, s, blobs[1..], Absorb(env.base.suite, e, blobs[0], r));
    }
  }

  lemma {:induction false} NamedOnce(records: seq<Record>, name: bytes)
    requires forall i, j | 0 <= i < j < |records| :: records[i].blob != records[j].blob
    ensures var xs := BlobsNamed(records, name); forall i, j | 0 <= i < j < |xs| :: xs[i] != xs[j]
    decreases records
  {
    if records != [] {
      var rest := records[1..];
      forall i, j | 0 <= i < j < |rest| ensures rest[i].blob != rest[j].blob {
        assert records[i + 1].blob != records[j + 1].blob;
      }
      NamedOnce(rest, name);
      NamedBlobs(rest, name, records[0].blob);
      forall i | 0 <= i < |rest| ensures rest[i].blob != records[0].blob {
        assert records[0].blob != records[i + 1].blob;
      }
    }
  }

  lemma EachOnce(env: Env, b: Bundle, name: bytes)
    requires Find(env, b).Ok?
    ensures var xs := BlobsNamed(Find(env, b).value.e.records, name); forall i, j | 0 <= i < j < |xs| :: xs[i] != xs[j]
  {
    hide SessionOf, ReadAll, TallyAll, Origin, BlobsNamed, KeyOf, ReadBlob;
    var s, records := SessionOf(env, b).value, Find(env, b).value.e.records;
    ReadAllDiffer(env, b, s, b.evidence, NOTHING_READ);
    AllRecordsKnown(env, b, s, b.evidence, b.evidence, NOTHING_READ);
    forall i, j | 0 <= i < j < |records| ensures records[i].blob != records[j].blob {
      assert RecordKnown(env, b, s, b.evidence, records[i]) && RecordKnown(env, b, s, b.evidence, records[j]);
    }
    NamedOnce(records, name);
  }

  /** In a passing bundle an observation that cites an extension's blob cites that blob alone, and the extension,
      asked about the observation, the blob and the blobs of the bundle of its type, each once, answered yes. */
  lemma ExtensionAsked(env: Env, b: Bundle, i: nat) returns (j: nat, name: bytes, same: seq<bytes>)
    requires Passes(env, b) && i < |b.history|
    requires CitesExtension(env, b, b.history[i].unsigned)
    ensures
      var u := b.history[i].unsigned;
      && j < |b.evidence| && OfExtension(env, b.evidence[j], name)
      && Cited(u) == {DigestOf(env.base.suite, b.evidence[j])}
      && env.extensions[name](u, b.evidence[j], same) == Yes
    ensures forall x | x in same :: x in b.evidence && OfExtension(env, x, name)
    ensures forall k, l | 0 <= k < l < |same| :: same[k] != same[l]
    ensures OneFamilyHolds(env.base.suite, EvidenceMessages(b.evidence)) ==>
              forall x | x in b.evidence && OfExtension(env, x, name) :: x in same
  {
    hide Passes, BundleHolds, Sound, Find, SessionOf, Foreign, CitesExtension, ReadBlob, BlobsNamed, Fits,
         OfExtension, OneFamilyHolds, EvidenceMessages;
    var u := b.history[i].unsigned;
    PassingForeign(env, b, u);
    FindOk(env, b);
    j, name := ExtensionAnswered(env, b, i);
    var s, e := SessionOf(env, b).value, Find(env, b).value.e;
    same := BlobsNamed(e.records, name);
    EachOnce(env, b, name);
    PassingFits(env, b, j);
    ExtensionIff(env, b, s, b.evidence[j], name);
    var key := DigestOf(env.base.suite, b.evidence[j]);
    forall x ensures x in Cited(u) <==> x == key {
      if x in Cited(u) { OnlyOne(Cited(u), x, key); }
    }
    forall x | x in same ensures x in b.evidence && OfExtension(env, x, name) { SameType(env, b, name, x); }
    if OneFamilyHolds(env.base.suite, EvidenceMessages(b.evidence)) {
      forall x | x in b.evidence && OfExtension(env, x, name) ensures x in same { AllOfType(env, b, name, x); }
    }
  }

  lemma SameType(env: Env, b: Bundle, name: bytes, x: bytes)
    requires Passes(env, b) && Find(env, b).Ok?
    requires x in BlobsNamed(Find(env, b).value.e.records, name)
    ensures x in b.evidence && OfExtension(env, x, name)
  {
    hide Passes, SessionOf, ReadAll, TallyAll, Origin, ReadBlob, BlobsNamed, Fits, OfExtension;
    var s, e := SessionOf(env, b).value, Find(env, b).value.e;
    NamedBlobs(e.records, name, x);
    var k :| 0 <= k < |e.records| && e.records[k].name == name && e.records[k].blob == x;
    AllRecordsKnown(env, b, s, b.evidence, b.evidence, NOTHING_READ);
    assert RecordKnown(env, b, s, b.evidence, e.records[k]);
    var n :| 0 <= n < |b.evidence| && b.evidence[n] == x;
    PassingFits(env, b, n);
    ExtensionIff(env, b, s, x, name);
  }

  lemma AllOfType(env: Env, b: Bundle, name: bytes, x: bytes)
    requires Passes(env, b) && Find(env, b).Ok?
    requires OneFamilyHolds(env.base.suite, EvidenceMessages(b.evidence))
    requires x in b.evidence && OfExtension(env, x, name)
    ensures x in BlobsNamed(Find(env, b).value.e.records, name)
  {
    hide Passes, SessionOf, ReadAll, TallyAll, Origin, ReadBlob, BlobsNamed, Fits, OfExtension, OneFamilyHolds,
         Framed;
    var s, e := SessionOf(env, b).value, Find(env, b).value.e;
    var n :| 0 <= n < |b.evidence| && b.evidence[n] == x;
    PassingFits(env, b, n);
    ExtensionIff(env, b, s, x, name);
    var key := KeyOf(env.base.suite, x);
    ReadAllRecords(env, b, s, b.evidence, NOTHING_READ, key);
    assert RecordedBy(env, b, s, b.evidence[n], key);
    var k :| 0 <= k < |e.records| && e.records[k].key == key;
    AllRecordsKnown(env, b, s, b.evidence, b.evidence, NOTHING_READ);
    assert RecordKnown(env, b, s, b.evidence, e.records[k]);
    var M, y := EvidenceMessages(b.evidence), e.records[k].blob;
    assert Framed(DOM_EVIDENCE, x) in M && Framed(DOM_EVIDENCE, y) in M;
    PairBinds(env.base.suite, M, DOM_EVIDENCE, x, DOM_EVIDENCE, y);
    NamedBlobs(e.records, name, x);
  }
}
