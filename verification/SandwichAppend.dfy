/** Appending a blob of an unknown type to a sandwich bundle (ctp/sandwich.py). */
module SandwichAppend {
  import opened Wrappers
  import opened Bytes
  import opened Cbor
  import opened HashSuite
  import opened Records
  import opened Model
  import opened Chains
  import opened Measurement
  import opened Sandwich
  import opened SandwichProofs
  import Verify
  import opened Checklists

  function With(b: Bundle, blob: bytes): Bundle {
    b.(evidence := b.evidence + [blob])
  }

  /** The verifier, its extensions included, does not know the blob's type. */
  predicate IsUnknown(r: Reading) {
    r.Read? && r.content.Ok? && r.content.value.Unknown?
  }

  predicate IsBound(r: Reading) {
    r.Read? && r.bound
  }

  lemma SameReading(env: Env, b: Bundle, blob: bytes, s: Session, x: bytes)
    ensures ReadBlob(env, With(b, blob), s, x) == ReadBlob(env, b, s, x)
  {
    hide Loads, Bound, Get, NtpContent, SignedContent, ExternalContent, CameraClaim, SameValue, Truthy;
  }

  lemma {:induction false} ReadAllAppend(env: Env, b: Bundle, s: Session, blobs: seq<bytes>, x: bytes, e: Evidence)
    ensures ReadAll(env, With(b, x), s, blobs + [x], e)
         == Absorb(env.base.suite, ReadAll(env, b, s, blobs, e), x, ReadBlob(env, b, s, x))
    decreases blobs
  {
    hide ReadBlob, Absorb;
    if blobs == [] {
      assert ([] + [x])[0] == x && ([] + [x])[1..] == [];
      SameReading(env, b, x, s, x);
    } else {
      assert (blobs + [x])[0] == blobs[0] && (blobs + [x])[1..] == blobs[1..] + [x];
      SameReading(env, b, x, s, blobs[0]);
      ReadAllAppend(env, b, s, blobs[1..], x, Absorb(env.base.suite, e, blobs[0], ReadBlob(env, b, s, blobs[0])));
    }
  }

  /** The evidence after an unknown blob: only the bindings and the unchecked blobs can change. */
  ghost predicate UnknownAdded(e: Evidence, e': Evidence, key: DigestPair, bound: bool) {
    && e'.flags == e.flags.(bind := e.flags.bind && bound)
    && e'.index == e.index && e'.records == e.records
    && (forall k :: k in e'.unchecked <==> k in e.unchecked || k == key)
  }

  lemma AbsorbUnknown(env: Env, b: Bundle, s: Session, e: Evidence, blob: bytes)
    requires IsUnknown(ReadBlob(env, b, s, blob))
    ensures UnknownAdded(e, Absorb(env.base.suite, e, blob, ReadBlob(env, b, s, blob)), KeyOf(env.base.suite, blob),
                         IsBound(ReadBlob(env, b, s, blob)))
  {
    hide ReadBlob, KeyOf, Ascii;
    ReadingTyped(env, b, s, blob);
  }

  // ---- extensions keep their answers ----

  /** The extension that answers for the observation, if one does, does not reject it. */
  predicate ExtensionOk(env: Env, e: Evidence, u: Observation) {
    Foreign(e, u) && |Cited(u)| == 1 && u.sources[0].evidence !in e.unchecked ==>
      (OneCited(e, u); Ask(env, e, u, RecordAt(e.records, u.sources[0].evidence)) in {Yes, NotSure})
  }

  lemma TallyOneExtension(env: Env, e: Evidence, origin: Option<int>, u: Observation, t: Tally)
    requires TallyOne(env, e, origin, u, t).Ok?
    ensures TallyOne(env, e, origin, u, t).value.ext == (t.ext && ExtensionOk(env, e, u))
  {
    hide Foreign, Ask, TallySources;
    if !Foreign(e, u) { SourcesKeepExtension(e, origin, u, u.sources, t); }
  }

  lemma {:induction false} SourcesKeepExtension(e: Evidence, origin: Option<int>, u: Observation, xs: seq<Source>,
                                                t: Tally)
    ensures TallySources(e, origin, u, xs, t).Ok? ==> TallySources(e, origin, u, xs, t).value.ext == t.ext
    decreases xs
  {
    if xs != [] {
      var t' := TallySource(e, origin, u, xs[0], t);
      if t'.Ok? { SourcesKeepExtension(e, origin, u, xs[1..], t'.value); }
    }
  }

  lemma ExtensionStays(env: Env, e: Evidence, e': Evidence, key: DigestPair, bound: bool, u: Observation)
    requires UnknownAdded(e, e', key, bound) && !HasRecord(e.records, key)
    ensures ExtensionOk(env, e', u) == ExtensionOk(env, e, u)
    ensures Foreign(e, u) ==> Foreign(e', u)
  {
    hide Ask, HasRecord, RecordAt;
    if |Cited(u)| == 1 {
      var x :| x in Cited(u);
      assert u.sources != [] && u.sources[0] in u.sources;
      var k := u.sources[0].evidence;
      forall y | y in u.sources ensures y.evidence == k { OnlyOne(Cited(u), y.evidence, k); }
      assert Foreign(e, u) <==> k in e.unchecked || HasRecord(e.records, k);
      assert Foreign(e', u) <==> k in e'.unchecked || HasRecord(e.records, k);
      AskSame(env, e, e', u, k);
    }
  }

  lemma AskSame(env: Env, e: Evidence, e': Evidence, u: Observation, k: DigestPair)
    requires e'.records == e.records
    ensures forall r :: Ask(env, e', u, r) == Ask(env, e, u, r)
  {
  }

  /** Whether the sources raise depends on the index, the origin and the observation alone. */
  lemma {:induction false} SourcesRaiseAlike(e: Evidence, e': Evidence, origin: Option<int>, u: Observation,
                                             xs: seq<Source>, t: Tally, t': Tally)
    requires e'.index == e.index
    ensures TallySources(e, origin, u, xs, t).Ok? <==> TallySources(e', origin, u, xs, t').Ok?
    decreases xs
  {
    if xs != [] {
      var r, r' := TallySource(e, origin, u, xs[0], t), TallySource(e', origin, u, xs[0], t');
      if r.Ok? { SourcesRaiseAlike(e, e', origin, u, xs[1..], r.value, r'.value); }
    }
  }

  lemma {:induction false} TallyAfterUnknown(env: Env, e: Evidence, e': Evidence, key: DigestPair, bound: bool,
                                             origin: Option<int>, h: History, t: Tally, t': Tally)
    requires UnknownAdded(e, e', key, bound) && !HasRecord(e.records, key) && t.ext == t'.ext
    requires TallyAll(env, e, origin, h, t).Ok?
    ensures TallyAll(env, e', origin, h, t').Ok?
    ensures TallyAll(env, e', origin, h, t').value.ext == TallyAll(env, e, origin, h, t).value.ext
    decreases h
  {
    hide TallyForeign, TallySources, Foreign, ExtensionOk, UnknownAdded, HasRecord;
    if h != [] {
      var u := h[0].unsigned;
      ExtensionStays(env, e, e', key, bound, u);
      IndexStays(e, e', key, bound);
      SourcesRaiseAlike(e, e', origin, u, u.sources, t, t');
      TallyOneExtension(env, e, origin, u, t);
      TallyOneExtension(env, e', origin, u, t');
      TallyAfterUnknown(env, e, e', key, bound, origin, h[1..], TallyOne(env, e, origin, u, t).value,
                        TallyOne(env, e', origin, u, t').value);
    }
  }

  lemma IndexStays(e: Evidence, e': Evidence, key: DigestPair, bound: bool)
    requires UnknownAdded(e, e', key, bound)
    ensures e'.index == e.index
  {
  }

  // ---- the count of matched observations ----

  /** The observation cites the appended blob and nothing else, and nobody had been named unchecked by it. */
  predicate Adopted(e: Evidence, key: DigestPair, u: Observation) {
    key !in e.unchecked && Cited(u) == {key}
  }

  /** The observations that the appended blob does not account for. */
  function Others(e: Evidence, key: DigestPair, h: History): (r: History)
    ensures |r| <= |h|
  {
    if h == [] then []
    else (if Adopted(e, key, h[0].unsigned) then [] else [h[0]]) + Others(e, key, h[1..])
  }

  /** Both tallies agree on the claims, and while they hold the second is ahead by `d` matches. */
  predicate Ahead(t: Tally, t': Tally, d: int) {
    t.meas == t'.meas && (t.meas ==> t'.matched == t.matched + d)
  }

  lemma {:induction false} SourcesAhead(e: Evidence, e': Evidence, origin: Option<int>, u: Observation,
                                        xs: seq<Source>, t: Tally, t': Tally, d: int)
    requires e'.index == e.index && Ahead(t, t', d) && TallySources(e, origin, u, xs, t).Ok?
    ensures TallySources(e', origin, u, xs, t').Ok?
    ensures Ahead(TallySources(e, origin, u, xs, t).value, TallySources(e', origin, u, xs, t').value, d)
    decreases xs
  {
    if xs != [] {
      var r, r' := TallySource(e, origin, u, xs[0], t), TallySource(e', origin, u, xs[0], t');
      SourcesAhead(e, e', origin, u, xs[1..], r.value, r'.value, d);
    }
  }

  lemma OnlyKey(u: Observation, key: DigestPair)
    requires key in Cited(u) && |Cited(u)| == 1
    ensures Cited(u) == {key}
  {
    forall x | x in Cited(u) ensures x == key { OnlyOne(Cited(u), x, key); }
  }

  /** An observation that the appended blob does not account for changes both tallies alike. */
  lemma OtherAhead(env: Env, e: Evidence, e': Evidence, key: DigestPair, bound: bool, origin: Option<int>,
                   u: Observation, t: Tally, t': Tally, d: int)
    requires UnknownAdded(e, e', key, bound) && !HasRecord(e.records, key) && key !in e.index
    requires !Adopted(e, key, u) && Ahead(t, t', d)
    requires TallyOne(env, e, origin, u, t).Ok? && TallyOne(env, e', origin, u, t').Ok?
    ensures Ahead(TallyOne(env, e, origin, u, t).value, TallyOne(env, e', origin, u, t').value, d)
  {
    hide TallyForeign, TallySources, Foreign, HasRecord;
    ForeignGrows(e, e', key, bound, u);
    if Foreign(e, u) {
      ForeignMatches(env, e, u, t);
      ForeignMatches(env, e', u, t');
    } else if Foreign(e', u) {
      if |Cited(u)| == 1 { OnlyKey(u, key); }
      ForeignMatches(env, e', u, t');
      var i :| 0 <= i < |u.sources| && u.sources[i].evidence == key;
      MissingSource(e, origin, u, i, t);
    } else {
      SourcesAhead(e, e', origin, u, u.sources, t, t', d);
    }
  }

  lemma MissingSource(e: Evidence, origin: Option<int>, u: Observation, i: nat, t: Tally)
    requires i < |u.sources| && u.sources[i].evidence !in e.index
    ensures TallySources(e, origin, u, u.sources, t).Ok? ==> !TallySources(e, origin, u, u.sources, t).value.meas
  {
    hide TallySources;
    var r := TallySources(e, origin, u, u.sources, t);
    if r.Ok? && r.value.meas { SourcesCount(e, origin, u, u.sources, t); }
  }

  lemma ForeignGrows(e: Evidence, e': Evidence, key: DigestPair, bound: bool, u: Observation)
    requires UnknownAdded(e, e', key, bound) && !HasRecord(e.records, key)
    ensures Foreign(e', u) <==> Foreign(e, u) || key in Cited(u)
    ensures Foreign(e', u) && !Foreign(e, u) ==> key !in e.unchecked
  {
    hide HasRecord;
    if key in Cited(u) {
      var x :| x in u.sources && x.evidence == key;
      assert x.evidence in e'.unchecked;
    }
  }

  lemma ForeignMatches(env: Env, e: Evidence, u: Observation, t: Tally)
    requires Foreign(e, u)
    ensures var r := TallyForeign(env, e, u, t);
      r.meas == (t.meas && |Cited(u)| == 1) && (|Cited(u)| == 1 ==> r.matched == t.matched + 1)
  {
    hide Foreign, Ask;
  }

  lemma {:induction false} OthersAhead(env: Env, e: Evidence, e': Evidence, key: DigestPair, bound: bool,
                                       origin: Option<int>, h: History, t: Tally, t': Tally, d: int)
    requires UnknownAdded(e, e', key, bound) && !HasRecord(e.records, key) && key !in e.index
    requires Ahead(t, t', d) && Countable(env, e, origin, h)
    ensures TallyAll(env, e, origin, Others(e, key, h), t).Ok? && TallyAll(env, e', origin, h, t').Ok?
    ensures Ahead(TallyAll(env, e, origin, Others(e, key, h), t).value, TallyAll(env, e', origin, h, t').value,
                  d + |h| - |Others(e, key, h)|)
    decreases h
  {
    hide TallyOne, UnknownAdded, HasRecord, Adopted, Ahead, OneCountable;
    if h != [] {
      var u, rest := h[0].unsigned, Others(e, key, h[1..]);
      assert OneCountable(env, e, origin, h[0].unsigned);
      assert forall i | 0 <= i < |h[1..]| :: h[1..][i] == h[i + 1];
      CountsAlike(env, e, e', key, bound, origin, u, t, t');
      var r' := TallyOne(env, e', origin, u, t').value;
      if Adopted(e, key, u) {
        AdoptedAhead(env, e, e', key, bound, origin, u, t, t', d);
        OthersAhead(env, e, e', key, bound, origin, h[1..], t, r', d + 1);
        assert Others(e, key, h) == rest;
      } else {
        OtherAhead(env, e, e', key, bound, origin, u, t, t', d);
        OthersAhead(env, e, e', key, bound, origin, h[1..], TallyOne(env, e, origin, u, t).value, r', d);
        assert Others(e, key, h) == [h[0]] + rest && Others(e, key, h)[1..] == rest;
      }
    }
  }

  lemma AdoptedAhead(env: Env, e: Evidence, e': Evidence, key: DigestPair, bound: bool, origin: Option<int>,
                     u: Observation, t: Tally, t': Tally, d: int)
    requires UnknownAdded(e, e', key, bound) && !HasRecord(e.records, key)
    requires Adopted(e, key, u) && Ahead(t, t', d) && TallyOne(env, e', origin, u, t').Ok?
    ensures Ahead(t, TallyOne(env, e', origin, u, t').value, d + 1)
  {
    hide TallyForeign, TallySources, Foreign, HasRecord;
    ForeignGrows(e, e', key, bound, u);
    ForeignMatches(env, e', u, t');
  }

  /** Tallying the observation raises from no tally, as it does from none if it does not from one. */
  ghost predicate OneCountable(env: Env, e: Evidence, origin: Option<int>, u: Observation) {
    exists t :: TallyOne(env, e, origin, u, t).Ok?
  }

  ghost predicate Countable(env: Env, e: Evidence, origin: Option<int>, h: History) {
    forall i | 0 <= i < |h| :: OneCountable(env, e, origin, h[i].unsigned)
  }

  lemma CountsAlike(env: Env, e: Evidence, e': Evidence, key: DigestPair, bound: bool, origin: Option<int>,
                    u: Observation, t: Tally, t': Tally)
    requires UnknownAdded(e, e', key, bound) && !HasRecord(e.records, key) && OneCountable(env, e, origin, u)
    ensures TallyOne(env, e, origin, u, t).Ok? && TallyOne(env, e', origin, u, t').Ok?
  {
    hide TallyForeign, TallySources, Foreign, HasRecord;
    ForeignGrows(e, e', key, bound, u);
    var w :| TallyOne(env, e, origin, u, w).Ok?;
    if !Foreign(e, u) {
      SourcesRaiseAlike(e, e, origin, u, u.sources, w, t);
      SourcesRaiseAlike(e, e', origin, u, u.sources, w, t');
    }
  }

  lemma {:induction false} TalliedCountable(env: Env, e: Evidence, origin: Option<int>, h: History, t: Tally)
    requires TallyAll(env, e, origin, h, t).Ok?
    ensures Countable(env, e, origin, h)
    decreases h
  {
    hide TallyOne;
    if h != [] {
      TalliedCountable(env, e, origin, h[1..], TallyOne(env, e, origin, h[0].unsigned, t).value);
      assert forall i | 0 < i < |h| :: h[i] == h[1..][i - 1];
    }
  }

  /** The appended blob and the observations citing it alone complete the bundle: every other observation
      was matched, and one blob was missing. */
  ghost predicate Completes(env: Env, b: Bundle, f: Finding, key: DigestPair) {
    var others := Others(f.e, key, b.history);
    var t := TallyAll(env, f.e, f.origin, others, NewTally(f.origin));
    && t.Ok? && t.value.meas && t.value.matched == |others|
    && |b.evidence| + 1 - f.e.flags.externals == |b.history|
  }

  // ---- no extension answers for the appended blob ----

  /** Without a collision the appended blob has no record: its type would have to be two things. */
  lemma NoRecord(env: Env, b: Bundle, s: Session, blob: bytes)
    requires IsUnknown(ReadBlob(env, b, s, blob))
    requires OneFamilyHolds(env.base.suite, EvidenceMessages(b.evidence + [blob]))
    ensures !HasRecord(ReadAll(env, b, s, b.evidence, NOTHING_READ).records, KeyOf(env.base.suite, blob))
  {
    hide ReadBlob, ReadAll, Framed, OneFamilyHolds;
    var e := ReadAll(env, b, s, b.evidence, NOTHING_READ);
    AllRecordsKnown(env, b, s, b.evidence, b.evidence, NOTHING_READ);
    var M := EvidenceMessages(b.evidence + [blob]);
    if HasRecord(e.records, KeyOf(env.base.suite, blob)) {
      var i :| 0 <= i < |e.records| && e.records[i].key == KeyOf(env.base.suite, blob);
      assert RecordKnown(env, b, s, b.evidence, e.records[i]);
      var x := e.records[i].blob;
      assert x in b.evidence + [blob] && blob in b.evidence + [blob];
      assert Framed(DOM_EVIDENCE, x) in M && Framed(DOM_EVIDENCE, blob) in M;
      PairBinds(env.base.suite, M, DOM_EVIDENCE, x, DOM_EVIDENCE, blob);
    }
  }

  /** Nor has it an entry in the index. */
  lemma NoEntry(env: Env, b: Bundle, s: Session, blob: bytes)
    requires IsUnknown(ReadBlob(env, b, s, blob))
    requires OneFamilyHolds(env.base.suite, EvidenceMessages(b.evidence + [blob]))
    ensures KeyOf(env.base.suite, blob) !in ReadAll(env, b, s, b.evidence, NOTHING_READ).index
  {
    hide ReadBlob, ReadAll, Framed, OneFamilyHolds;
    if KeyOf(env.base.suite, blob) in ReadAll(env, b, s, b.evidence, NOTHING_READ).index {
      var i := IndexedFrom(env, b, s, b.evidence, NOTHING_READ, KeyOf(env.base.suite, blob));
      var M, x := EvidenceMessages(b.evidence + [blob]), b.evidence[i];
      assert x in b.evidence + [blob] && blob in b.evidence + [blob];
      assert Framed(DOM_EVIDENCE, x) in M && Framed(DOM_EVIDENCE, blob) in M;
      PairBinds(env.base.suite, M, DOM_EVIDENCE, x, DOM_EVIDENCE, blob);
    }
  }

  // ---- the checks before and after ----

  /** A failure of any check but the count of matched evidence. */
  predicate FailsElsewhere(c: Check) {
    c.1 == Fail && c.0 != S_EVIDENCE_MEASUREMENT
  }

  predicate FailsMeasurement(c: Check) {
    c.1 == Fail && c.0 == S_EVIDENCE_MEASUREMENT
  }

  lemma FailuresSplit(checks: Checks)
    ensures Lacks(checks, IsFailure) <==> Lacks(checks, FailsElsewhere) && Lacks(checks, FailsMeasurement)
  {
    if Lacks(checks, FailsElsewhere) && Lacks(checks, FailsMeasurement) {
      forall i | 0 <= i < |checks| ensures !IsFailure(checks[i]) {
        assert !FailsElsewhere(checks[i]) && !FailsMeasurement(checks[i]);
      }
    }
  }

  lemma CoreMarks(core: Verify.Checks)
    ensures Lacks(FromCore(core), FailsMeasurement)
  {
  }

  lemma UncheckedNow(e: Evidence, e': Evidence, t': Tally, key: DigestPair, bound: bool)
    requires UnknownAdded(e, e', key, bound)
    ensures AnyUnchecked(e', t')
  {
    assert key in e'.unchecked;
  }

  lemma MeasurementAlone(b: Bundle, b0Pow: bool, f: Finding, core: Verify.Checks, linked: bool, buried: bool)
    ensures Lacks(AllChecks(b, b0Pow, f, core, linked, buried), FailsMeasurement) <==> Measured(b, f.e, f.t)
  {
    hide Lacks, AllChecks, Measured, ExpectationStatus, CameraExpected, AnyUnchecked;
    LacksAll(b, b0Pow, f, core, linked, buried, FailsMeasurement);
    CoreMarks(core);
  }

  lemma FailuresAfterUnknown(b: Bundle, blob: bytes, b0Pow: bool, f: Finding, f': Finding, core: Verify.Checks,
                             linked: bool, buried: bool, key: DigestPair, bound: bool)
    requires UnknownAdded(f.e, f'.e, key, bound) && f'.origin == f.origin && f'.t.ext == f.t.ext
    ensures var was, now := AllChecks(b, b0Pow, f, core, linked, buried),
                            AllChecks(With(b, blob), b0Pow, f', core, linked, buried);
      Lacks(now, FailsElsewhere) <==> Lacks(was, FailsElsewhere) && bound
  {
    hide Lacks, AllChecks, Measured, ExpectationStatus, EvidenceLacks, MatchLacks, UnknownAdded;
    var b' := With(b, blob);
    SameManifest(b, blob, f.origin);
    EvidenceFailures(b, blob, f.e, f'.e, key, bound);
    MatchFailures(b, blob, f, f', key, bound);
    LacksAll(b, b0Pow, f, core, linked, buried, FailsElsewhere);
    LacksAll(b', b0Pow, f', core, linked, buried, FailsElsewhere);
  }

  lemma EvidenceFailures(b: Bundle, blob: bytes, e: Evidence, e': Evidence, key: DigestPair, bound: bool)
    requires UnknownAdded(e, e', key, bound)
    ensures EvidenceLacks(With(b, blob), e', FailsElsewhere) <==> EvidenceLacks(b, e, FailsElsewhere) && bound
  {
    hide ManifestOf;
    SameManifest(b, blob, None);
  }

  lemma MatchFailures(b: Bundle, blob: bytes, f: Finding, f': Finding, key: DigestPair, bound: bool)
    requires UnknownAdded(f.e, f'.e, key, bound) && f'.t.ext == f.t.ext
    ensures MatchLacks(With(b, blob), f'.e, f'.t, FailsElsewhere) <==> MatchLacks(b, f.e, f.t, FailsElsewhere)
  {
    hide Measured, AnyUnchecked;
  }

  lemma SameManifest(b: Bundle, blob: bytes, origin: Option<int>)
    ensures ManifestOf(With(b, blob)) == ManifestOf(b)
    ensures ExpectationStatus(With(b, blob), origin) == ExpectationStatus(b, origin)
  {
    hide SameValue, EraObj, EraExpectation;
  }

  // ---- the theorem ----

  /** The finding after an unknown blob is appended. */
  lemma FindAfterUnknown(env: Env, b: Bundle, blob: bytes)
    requires Find(env, b).Ok? && IsUnknown(ReadBlob(env, b, SessionOf(env, b).value, blob))
    requires OneFamilyHolds(env.base.suite, EvidenceMessages(b.evidence + [blob]))
    ensures var f, f' := Find(env, b).value, Find(env, With(b, blob));
      && f'.Ok? && f'.value.origin == f.origin && f'.value.t.ext == f.t.ext
      && UnknownAdded(f.e, f'.value.e, KeyOf(env.base.suite, blob),
                      IsBound(ReadBlob(env, b, SessionOf(env, b).value, blob)))
      && (Measured(With(b, blob), f'.value.e, f'.value.t) <==> Completes(env, b, f, KeyOf(env.base.suite, blob)))
  {
    hide ReadBlob, ReadAll, TallyAll, Origin, KeyOf, UnknownAdded, OneFamilyHolds, IsUnknown, IsBound, Others,
         Ahead, Measured, Completes;
    var s := SessionOf(env, b).value;
    var e := ReadAll(env, b, s, b.evidence, NOTHING_READ);
    ReadAllAppend(env, b, s, b.evidence, blob, NOTHING_READ);
    AbsorbUnknown(env, b, s, e, blob);
    NoRecord(env, b, s, blob);
    NoEntry(env, b, s, blob);
    var origin := Origin(env.parseInt, b.history);
    var e' := ReadAll(env, With(b, blob), s, With(b, blob).evidence, NOTHING_READ);
    var key, bound := KeyOf(env.base.suite, blob), IsBound(ReadBlob(env, b, s, blob));
    TallyAfterUnknown(env, e, e', key, bound, origin, b.history, NewTally(origin), NewTally(origin));
    MeasuredAfterUnknown(env, b, blob, Find(env, b).value, e', key, bound);
  }

  lemma MeasuredAfterUnknown(env: Env, b: Bundle, blob: bytes, f: Finding, e': Evidence, key: DigestPair, bound: bool)
    requires UnknownAdded(f.e, e', key, bound) && !HasRecord(f.e.records, key) && key !in f.e.index
    requires TallyAll(env, f.e, f.origin, b.history, NewTally(f.origin)) == Ok(f.t)
    ensures var t' := TallyAll(env, e', f.origin, b.history, NewTally(f.origin));
            t'.Ok? && (Measured(With(b, blob), e', t'.value) <==> Completes(env, b, f, key))
  {
    hide TallyAll, HasRecord, Others, Countable;
    TalliedCountable(env, f.e, f.origin, b.history, NewTally(f.origin));
    OthersAhead(env, f.e, e', key, bound, f.origin, b.history, NewTally(f.origin), NewTally(f.origin), 0);
  }

  /** The verifier cannot tell whether the blob, read in the bundle's session, is sound. */
  predicate UnknownTo(env: Env, b: Bundle, blob: bytes) {
    SessionOf(env, b).Ok? && IsUnknown(ReadBlob(env, b, SessionOf(env, b).value, blob))
  }

  predicate BoundTo(env: Env, b: Bundle, blob: bytes) {
    SessionOf(env, b).Ok? && IsBound(ReadBlob(env, b, SessionOf(env, b).value, blob))
  }

  ghost predicate CompletedBy(env: Env, b: Bundle, blob: bytes) {
    Find(env, b).Ok? && Completes(env, b, Find(env, b).value, KeyOf(env.base.suite, blob))
  }

  /** Appending a blob of an unknown type, when the evidence digests do not collide: the result is never a
      pass; an unavailable toolchain stays that.  It is INDETERMINATE_UNCHECKED_EVIDENCE exactly when no check
      but S_EVIDENCE_MEASUREMENT failed before, the blob is bound to the session, and it completes the
      bundle; then the verdict before was FAIL.  In all other cases it is FAIL, after a pass too. */
  lemma UnknownBlob(env: Env, b: Bundle, blob: bytes)
    requires Judge(env, b).Ok? && UnknownTo(env, b, blob)
    requires OneFamilyHolds(env.base.suite, EvidenceMessages(b.evidence + [blob]))
    ensures Judge(env, With(b, blob)).Ok?
    ensures var was, now := Judge(env, b).value, Judge(env, With(b, blob)).value;
      && (now.verdict == INDETERMINATE_TOOLCHAIN <==> was.verdict == INDETERMINATE_TOOLCHAIN)
      && (now.verdict == INDETERMINATE_UNCHECKED_EVIDENCE <==>
            && was.verdict != INDETERMINATE_TOOLCHAIN && Lacks(was.checks, FailsElsewhere)
            && BoundTo(env, b, blob) && CompletedBy(env, b, blob))
      && (CompletedBy(env, b, blob) ==> was.verdict in {INDETERMINATE_TOOLCHAIN, FAIL})
      && now.verdict in {INDETERMINATE_TOOLCHAIN, INDETERMINATE_UNCHECKED_EVIDENCE, FAIL}
  {
    hide CoreChecks, Lacks, OneFamilyHolds, UnknownTo, BoundTo, CompletedBy, Surround;
    SameCore(env, b, blob);
    AfterUnknown(env, b, blob, CoreChecks(env, b).value);
  }

  /** A passing bundle has one measurable blob for every observation, so with one more blob it fails. */
  lemma PassTurned(env: Env, b: Bundle, blob: bytes)
    requires BundleHolds(env, b) && Sound(env, b) && UnknownTo(env, b, blob)
    requires OneFamilyHolds(env.base.suite, EvidenceMessages(b.evidence + [blob]))
    ensures Judge(env, With(b, blob)).Ok? && Judge(env, With(b, blob)).value.verdict == FAIL
  {
    hide Judge, BundleHolds, Sound, OneFamilyHolds, UnknownTo, BoundTo, CompletedBy, Lacks;
    PassIff(env, b);
    UnknownBlob(env, b, blob);
  }

  lemma SameCore(env: Env, b: Bundle, blob: bytes)
    ensures CoreChecks(env, With(b, blob)) == CoreChecks(env, b)
  {
    hide Verify.BundleChecks;
  }

  lemma AfterUnknown(env: Env, b: Bundle, blob: bytes, core: Verify.Checks)
    requires Surround(env, b, core).Ok? && UnknownTo(env, b, blob)
    requires OneFamilyHolds(env.base.suite, EvidenceMessages(b.evidence + [blob]))
    ensures Surround(env, With(b, blob), core).Ok?
    ensures var was, now := Surround(env, b, core).value, Surround(env, With(b, blob), core).value;
      && (now.verdict == INDETERMINATE_TOOLCHAIN <==> was.verdict == INDETERMINATE_TOOLCHAIN)
      && (now.verdict == INDETERMINATE_UNCHECKED_EVIDENCE <==>
            && was.verdict != INDETERMINATE_TOOLCHAIN && Lacks(was.checks, FailsElsewhere)
            && BoundTo(env, b, blob) && CompletedBy(env, b, blob))
      && (CompletedBy(env, b, blob) ==> was.verdict in {INDETERMINATE_TOOLCHAIN, FAIL})
      && now.verdict in {INDETERMINATE_TOOLCHAIN, INDETERMINATE_UNCHECKED_EVIDENCE, FAIL}
  {
    hide HeaderPow, Walk, Slice, AllChecks, VerdictOf, Lacks, Find, ReadBlob, KeyOf, UnknownAdded, OneFamilyHolds,
         IsUnknown, IsBound, Measured, Completes, AnyUnchecked;
    var dsha, b' := env.base.dsha, With(b, blob);
    var b0, c := Slice(b.b0, 0, 80), Slice(b.blockC, 0, 80);
    FindJudged(env, b, core);
    FindAfterUnknown(env, b, blob);
    var f, f' := Find(env, b).value, Find(env, b').value;
    var key, bound := KeyOf(env.base.suite, blob), IsBound(ReadBlob(env, b, SessionOf(env, b).value, blob));
    var b0Pow, end := HeaderPow(dsha, b0).value, Walk(dsha, dsha(b0), b.path).value;
    var top := Walk(dsha, dsha(c), b.burial).value;
    var linked := end.Some? && Slice(c, 4, 36) == end.value;
    var burial := if top.Some? then |b.burial| else 0;
    var timed := b.checkpoint.unsigned.interval.Some?;
    var was, now := AllChecks(b, b0Pow, f, core, linked, top.Some?), AllChecks(b', b0Pow, f', core, linked, top.Some?);
    MarksAll(b, b0Pow, f, core, linked, top.Some?);
    MarksAll(b', b0Pow, f', core, linked, top.Some?);
    UncheckedNow(f.e, f'.e, f'.t, key, bound);
    FailuresAfterUnknown(b, blob, b0Pow, f, f', core, linked, top.Some?, key, bound);
    MeasurementAlone(b, b0Pow, f, core, linked, top.Some?);
    MeasurementAlone(b', b0Pow, f', core, linked, top.Some?);
    FailuresSplit(was);
    FailuresSplit(now);
    VerdictIffs(was, timed, burial);
    VerdictIffs(now, timed, burial);
    UncheckedNotPassing(now, timed, burial);
    CompletedFailed(env, b, f, key);
    assert Surround(env, b', core).Ok?;
  }

  lemma UncheckedNotPassing(checks: Checks, timed: bool, burial: nat)
    requires !Lacks(checks, IsUncheckedMark)
    ensures VerdictOf(checks, timed, burial) in {INDETERMINATE_TOOLCHAIN, INDETERMINATE_UNCHECKED_EVIDENCE, FAIL}
  {
  }

  /** A bundle that one more blob completes has one too few. */
  lemma CompletedFailed(env: Env, b: Bundle, f: Finding, key: DigestPair)
    ensures Completes(env, b, f, key) ==> !Measured(b, f.e, f.t)
  {
    hide TallyAll, Others;
  }

  lemma FindJudged(env: Env, b: Bundle, core: Verify.Checks)
    requires Surround(env, b, core).Ok?
    ensures Find(env, b).Ok? && SessionOf(env, b).Ok?
  {
    hide HeaderPow, Walk, Slice, AllChecks, VerdictOf, SessionOf, ReadAll, TallyAll, Origin;
  }

  // ---- the failure that can be turned ----

  /** An evidence blob of a type "X": {1: "X", 10: q, 11: hash of B0, 12: session id}. */
  function BareEntries(s: Session): seq<Entry> {
    [Entry(Int(1), Str([0x58])), Entry(Int(10), Blob(s.q)), Entry(Int(11), Blob(s.b0)), Entry(Int(12), Blob(s.id))]
  }

  function BareBlob(s: Session): bytes {
    match Dumps(Dict(BareEntries(s))) case Ok(b) => b case Raised => []
  }

  lemma BareReads(s: Session)
    requires |s.b0| == 32 && |s.id| == 32
    ensures Loads(BareBlob(s)) == Ok(Dict(BareEntries(s)))
  {
    hide Dumps, Loads, Plain, Ascii;
    var es := BareEntries(s);
    AtomsPlain();
    StrEncodes([0x58]);
    BlobEncodes(s.q);
    BlobEncodes(s.b0);
    BlobEncodes(s.id);
    KeyedPlain(es);
    KeyedEncodes(es);
    PlainReads(Dict(es));
  }

  lemma BareUnknown(env: Env, b: Bundle, s: Session)
    requires |s.b0| == 32 && |s.id| == 32 && [0x58] !in env.extensions
    ensures IsUnknown(ReadBlob(env, b, s, BareBlob(s))) && IsBound(ReadBlob(env, b, s, BareBlob(s)))
  {
    hide Loads, BareBlob, NtpContent, CameraContent, SignedContent, ExternalContent;
    BareReads(s);
    BareFields(s);
    assert |NTP| > 1 && |CAMERA| > 1 && |ROUGHTIME| > 1 && |EXTERNAL| > 1;
  }

  lemma BareFields(s: Session)
    ensures var o := Dict(BareEntries(s));
      && Get(o, 1) == Ok(Str([0x58])) && Get(o, 10) == Ok(Blob(s.q))
      && Get(o, 11) == Ok(Blob(s.b0)) && Get(o, 12) == Ok(Blob(s.id))
  {
    var es := BareEntries(s);
    KeyedLookup(es, 0);
    KeyedLookup(es, 1);
    KeyedLookup(es, 2);
    KeyedLookup(es, 3);
  }

  /** The docstring's "can never turn a failure into anything else" does not hold of
      S_EVIDENCE_MEASUREMENT: a bundle of one observation and no evidence fails for that alone, and with the
      bare blob the observation cites appended it is INDETERMINATE_UNCHECKED_EVIDENCE. */
  lemma MeasurementFailureTurned(env: Env, b: Bundle)
    requires Judge(env, b).Ok? && SessionOf(env, b).Ok? && [0x58] !in env.extensions
    requires !ToolchainMissing(env, b) && Lacks(Judge(env, b).value.checks, FailsElsewhere)
    requires b.evidence == [] && |b.history| == 1 && Origin(env.parseInt, b.history).Some?
    requires Cited(b.history[0].unsigned) == {KeyOf(env.base.suite, BareBlob(SessionOf(env, b).value))}
    ensures Judge(env, b).value.verdict == FAIL
    ensures var now := Judge(env, With(b, BareBlob(SessionOf(env, b).value)));
            now.Ok? && now.value.verdict == INDETERMINATE_UNCHECKED_EVIDENCE
  {
    hide ReadBlob, Origin, KeyOf, BareBlob, Judge, SessionOf, ToolchainMissing, Lacks, OneFamilyHolds, Completes,
         Find, IsBound, IsUnknown;
    var s := SessionOf(env, b).value;
    var blob := BareBlob(s);
    ReverseLength(s, env, b);
    BareUnknown(env, b, s);
    assert UnknownTo(env, b, blob) && BoundTo(env, b, blob);
    SingleMessage(env.base.suite, blob);
    assert b.evidence + [blob] == [blob];
    UnknownBlob(env, b, blob);
    Ranking(env, b);
    OneMissing(env, b, KeyOf(env.base.suite, blob));
  }

  lemma SingleMessage(s: Suite, blob: bytes)
    ensures OneFamilyHolds(s, EvidenceMessages([blob]))
  {
    hide Framed;
    assert forall x | x in [blob] :: x == blob;
  }

  lemma OneMissing(env: Env, b: Bundle, key: DigestPair)
    requires Find(env, b).Ok? && b.evidence == [] && |b.history| == 1 && Origin(env.parseInt, b.history).Some?
    requires Cited(b.history[0].unsigned) == {key}
    ensures Completes(env, b, Find(env, b).value, key)
  {
    hide SessionOf, Origin, TallyOne;
    var f := Find(env, b).value;
    NoneRead(env, b, SessionOf(env, b).value);
    assert Adopted(f.e, key, b.history[0].unsigned);
    assert b.history[1..] == [] && Others(f.e, key, b.history) == [];
  }

  lemma NoneRead(env: Env, b: Bundle, s: Session)
    ensures ReadAll(env, b, s, [], NOTHING_READ) == NOTHING_READ
  {
  }

  lemma ReverseLength(s: Session, env: Env, b: Bundle)
    requires SessionOf(env, b) == Ok(s)
    ensures |s.b0| == 32 && |s.id| == 32
  {
    Reversed(env.base.dsha(Slice(b.b0, 0, 80)));
  }
}
