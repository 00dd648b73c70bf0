/** What a passing sandwich says of its evidence and its observations (ctp/sandwich.py). */
module SandwichProofs {
  import opened Wrappers
  import opened Bytes
  import opened Cbor
  import opened HashSuite
  import opened Records
  import opened Model
  import opened Chains
  import opened Measurement
  import opened Sandwich
  import BundleProofs
  import ChainProofs
  import opened Sorting
  import RoughtimeReply
  import Roughtime
  import Verify

  // ---- the kinds of content ----

  lemma TypesDiffer()
    ensures CAMERA != NTP && ROUGHTIME != NTP && EXTERNAL != NTP
    ensures CAMERA != ROUGHTIME && CAMERA != EXTERNAL && ROUGHTIME != EXTERNAL
  {
    assert NTP[0] == 'N' as int && CAMERA[0] == 'C' as int && ROUGHTIME[0] == 'R' as int && EXTERNAL[0] == 'E' as int;
  }

  /** The kind of a content follows from its type. */
  lemma ContentTyped(env: Env, b: Bundle, q: bytes, o: Value, typ: Value)
    requires ContentOf(env, b, q, o, typ).Ok?
    ensures var c := ContentOf(env, b, q, o, typ).value;
      && (c.Ntp? <==> typ == Str(NTP)) && (c.Camera? <==> typ == Str(CAMERA))
      && (c.Signed? <==> typ == Str(ROUGHTIME)) && (c.External? <==> typ == Str(EXTERNAL))
      && (c.ForExtension? ==> typ == Str(c.name) && c.name in env.extensions)
      && (c.Unknown? ==> typ == Str(c.name) && c.name !in env.extensions)
  {
    hide NtpContent, CameraContent, SignedContent, ExternalContent;
    TypesDiffer();
    if typ == Str(NTP) { NtpKind(env, b, q, o); }
    else if typ == Str(CAMERA) { CameraKind(b, o); }
    else if typ == Str(ROUGHTIME) { SignedKind(env, q, o); }
    else if typ == Str(EXTERNAL) { ExternalKind(env, q, o); }
  }

  lemma NtpKind(env: Env, b: Bundle, q: bytes, o: Value)
    ensures NtpContent(env.base.suite, q, o).Ok? ==> NtpContent(env.base.suite, q, o).value.Ntp?
  {
  }

  lemma CameraKind(b: Bundle, o: Value)
    ensures CameraContent(b, o).Ok? ==> CameraContent(b, o).value.Camera?
  {
  }

  lemma SignedKind(env: Env, q: bytes, o: Value)
    ensures SignedContent(env, q, o).Ok? ==> SignedContent(env, q, o).value.Signed?
  {
    hide GetText, GetNumber, GetBytes, RtNonce, RoughtimeReply.Unframe, Roughtime.Decode, RoughtimeReply.VerifyResponse,
         DeriveRtMeasurement, RoughtimeReply.Key;
  }

  lemma ExternalKind(env: Env, q: bytes, o: Value)
    ensures ExternalContent(env.base.suite, q, o).Ok? ==> ExternalContent(env.base.suite, q, o).value.External?
  {
  }

  lemma ReadingTyped(env: Env, b: Bundle, s: Session, blob: bytes)
    ensures var r := ReadBlob(env, b, s, blob);
      r.Unreadable? || r.content.Raised? ||
       (&& (r.content.value.Camera? ==> r.typ == Str(CAMERA)) && (r.content.value.Signed? ==> r.typ == Str(ROUGHTIME))
        && (r.content.value.External? <==> r.typ == Str(EXTERNAL))
        && (r.content.value.ForExtension? ==> r.content.value.name in env.extensions)
        && (r.content.value.Unknown? ==> r.content.value.name !in env.extensions)
        && (r.content.value.Unknown? ==> r.typ != Str(CAMERA) && r.typ != Str(ROUGHTIME) && r.typ != Str(EXTERNAL)))
  {
    hide ContentOf, Loads, Bound;
    var r := ReadBlob(env, b, s, blob);
    TypesDiffer();
    if r.Read? && r.content.Ok? {
      ContentTyped(env, b, s.q, Loads(blob).value, r.typ);
    }
  }

  // ---- where an indexed measurement comes from ----

  /** The entry a reading puts in the index. */
  function EntryRead(r: Reading): Option<Indexed> {
    if r.Unreadable? || r.content.Raised? then None else EntryOf(r.content.value)
  }

  lemma AbsorbIndexes(s: Suite, e: Evidence, blob: bytes, r: Reading, key: DigestPair)
    ensures var e' := Absorb(s, e, blob, r);
            key in e'.index ==>
              || (key in e.index && e'.index[key] == e.index[key])
              || (KeyOf(s, blob) == key && EntryRead(r) == Some(e'.index[key]))
  {
    hide KeyOf, FlagsAfter, PutRecord, EntryOf, Seen;
  }

  lemma {:induction false} IndexedFrom(env: Env, b: Bundle, s: Session, blobs: seq<bytes>, e: Evidence, key: DigestPair)
    returns (i: nat)
    requires key in ReadAll(env, b, s, blobs, e).index
    ensures (key in e.index && i == |blobs| && ReadAll(env, b, s, blobs, e).index[key] == e.index[key])
         || (i < |blobs| && KeyOf(env.base.suite, blobs[i]) == key
             && EntryRead(ReadBlob(env, b, s, blobs[i])) == Some(ReadAll(env, b, s, blobs, e).index[key]))
    decreases blobs
  {
    hide Absorb, ReadBlob, KeyOf, EntryRead;
    i := 0;
    if blobs != [] {
      var e' := Absorb(env.base.suite, e, blobs[0], ReadBlob(env, b, s, blobs[0]));
      var j := IndexedFrom(env, b, s, blobs[1..], e', key);
      AbsorbIndexes(env.base.suite, e, blobs[0], ReadBlob(env, b, s, blobs[0]), key);
      if j < |blobs| - 1 {
        i := j + 1;
        assert blobs[i] == blobs[1..][j];
      } else if key in e.index && e'.index[key] == e.index[key] {
        i := |blobs|;
      }
    }
  }

  // ---- every observation is matched by exactly one source ----

  /** The source repeats, in the common frame, a measurement the verifier derived itself. */
  predicate SourceGood(e: Evidence, origin: Option<int>, u: Observation, x: Source) {
    && x.evidence in e.index && origin.Some?
    && Agrees(e.index[x.evidence], origin.value, u, x)
    && u.interval == ClaimedSpan(x)
  }

  predicate Resolved(e: Evidence, origin: Option<int>, u: Observation) {
    if Foreign(e, u) then |Cited(u)| == 1
    else |u.sources| == 1 && SourceGood(e, origin, u, u.sources[0])
  }

  lemma {:induction false} SourcesCount(e: Evidence, origin: Option<int>, u: Observation, xs: seq<Source>, t: Tally)
    requires TallySources(e, origin, u, xs, t).Ok? && TallySources(e, origin, u, xs, t).value.meas
    ensures t.meas && TallySources(e, origin, u, xs, t).value.matched == t.matched + |xs|
    ensures forall i | 0 <= i < |xs| :: SourceGood(e, origin, u, xs[i])
    decreases xs
  {
    hide TallySource, SourceGood;
    if xs != [] {
      SourceCounts(e, origin, u, xs[0], t);
      SourcesCount(e, origin, u, xs[1..], TallySource(e, origin, u, xs[0], t).value);
      assert forall i | 0 < i < |xs| :: xs[i] == xs[1..][i - 1];
    }
  }

  lemma SourceCounts(e: Evidence, origin: Option<int>, u: Observation, x: Source, t: Tally)
    ensures var r := TallySource(e, origin, u, x, t);
            r.Ok? && r.value.meas ==> t.meas && r.value.matched == t.matched + 1 && SourceGood(e, origin, u, x)
  {
  }

  lemma ObservationCounts(env: Env, e: Evidence, origin: Option<int>, u: Observation, t: Tally)
    requires u.sources != [] && TallyOne(env, e, origin, u, t).Ok? && TallyOne(env, e, origin, u, t).value.meas
    ensures var t' := TallyOne(env, e, origin, u, t).value;
            && t.meas && t'.matched >= t.matched + 1
            && (t'.matched == t.matched + 1 ==> Resolved(e, origin, u))
  {
    hide Foreign, Ask, TallySources, SourceGood;
    if Foreign(e, u) {
      ForeignCounts(env, e, u, t);
    } else {
      SourcesCount(e, origin, u, u.sources, t);
    }
  }

  lemma ForeignCounts(env: Env, e: Evidence, u: Observation, t: Tally)
    requires Foreign(e, u)
    ensures var t' := TallyForeign(env, e, u, t);
            && (t'.meas ==> t.meas && |Cited(u)| == 1)
            && t'.matched == (if |Cited(u)| == 1 then t.matched + 1 else t.matched)
  {
    hide Foreign, Ask;
  }

  lemma {:induction false} AllCount(env: Env, e: Evidence, origin: Option<int>, h: History, t: Tally)
    requires forall i | 0 <= i < |h| :: h[i].unsigned.sources != []
    requires TallyAll(env, e, origin, h, t).Ok? && TallyAll(env, e, origin, h, t).value.meas
    ensures t.meas && TallyAll(env, e, origin, h, t).value.matched >= t.matched + |h|
    ensures TallyAll(env, e, origin, h, t).value.matched == t.matched + |h| ==>
              forall i | 0 <= i < |h| :: Resolved(e, origin, h[i].unsigned)
    decreases h
  {
    hide TallyOne, Resolved;
    if h != [] {
      var t' := TallyOne(env, e, origin, h[0].unsigned, t).value;
      assert forall i | 0 < i < |h| :: h[i] == h[1..][i - 1];
      AllCount(env, e, origin, h[1..], t');
      ObservationCounts(env, e, origin, h[0].unsigned, t);
    }
  }

  lemma SignedHaveSources(verify: Verify.Verifier, h: History, i: nat)
    requires Verify.HistorySigned(verify, h) && i < |h|
    ensures h[i].unsigned.sources != []
  {
    hide Dumps, Verify.AllGenuine;
    assert Verify.ObservationSigned(verify, h[i]);
  }

  /** In a passing bundle every observation that no extension answers for has exactly one source, and
      that source cites a blob of the bundle whose re-derived measurement is the signed claim and fixes
      the observation's whole interval. */
  lemma ObservationResolved(env: Env, b: Bundle, i: nat) returns (j: nat)
    requires Sound(env, b) && BundleHolds(env, b) && i < |b.history|
    requires !Foreign(Find(env, b).value.e, b.history[i].unsigned)
    ensures
      var f := Find(env, b).value;
      var u := b.history[i].unsigned;
      && |u.sources| == 1 && j < |b.evidence| && f.origin.Some?
      && KeyOf(env.base.suite, b.evidence[j]) == u.sources[0].evidence
      && EntryRead(ReadBlob(env, b, SessionOf(env, b).value, b.evidence[j])).Some?
      && var entry := EntryRead(ReadBlob(env, b, SessionOf(env, b).value, b.evidence[j])).value;
         Agrees(entry, f.origin.value, u, u.sources[0]) && u.interval == ClaimedSpan(u.sources[0])
  {
    hide ReadBlob, ReadAll, Find, SessionOf, Foreign, KeyOf, EntryRead, Sound, BundleHolds;
    EachResolved(env, b, i);
    FoundIn(env, b);
    var s := SessionOf(env, b).value;
    j := IndexedFrom(env, b, s, b.evidence, NOTHING_READ, b.history[i].unsigned.sources[0].evidence);
  }

  lemma FoundIn(env: Env, b: Bundle)
    requires Sound(env, b)
    ensures Find(env, b).Ok? && SessionOf(env, b).Ok?
    ensures Find(env, b).value.e == ReadAll(env, b, SessionOf(env, b).value, b.evidence, NOTHING_READ)
  {
    hide ReadAll, TallyAll, Origin, SessionOf, Contiguous, Expected, EvidenceSound;
  }

  lemma EachResolved(env: Env, b: Bundle, i: nat)
    requires Sound(env, b) && BundleHolds(env, b) && i < |b.history|
    ensures Resolved(Find(env, b).value.e, Find(env, b).value.origin, b.history[i].unsigned)
  {
    hide Find, TallyAll, Origin, Sound, BundleHolds, Resolved, Measured;
    MeasuredAll(env, b);
    var f := Find(env, b).value;
    forall k | 0 <= k < |b.history| ensures b.history[k].unsigned.sources != [] { HasSources(env, b, k); }
    AllCount(env, f.e, f.origin, b.history, NewTally(f.origin));
  }

  lemma MeasuredAll(env: Env, b: Bundle)
    requires Sound(env, b)
    ensures Find(env, b).Ok?
    ensures var f := Find(env, b).value;
      && TallyAll(env, f.e, f.origin, b.history, NewTally(f.origin)) == Ok(f.t)
      && f.t.meas && f.t.matched == |b.history|
  {
    hide ReadAll, SessionOf, TallyAll, Origin, Contiguous, Expected, CameraExpected, AnyUnchecked;
  }

  lemma HasSources(env: Env, b: Bundle, i: nat)
    requires BundleHolds(env, b) && i < |b.history|
    ensures b.history[i].unsigned.sources != []
  {
    hide Verify.HistorySigned, Verify.CheckpointHolds, Verify.Anchored, Verify.Worked;
    SignedHaveSources(env.base.verify, b.history, i);
  }

  // ---- where an extension's record comes from ----

  /** The record was made from a blob of the bundle that the extension it names answers for. */
  ghost predicate RecordKnown(env: Env, b: Bundle, s: Session, blobs: seq<bytes>, r: Record) {
    && r.blob in blobs && r.key == KeyOf(env.base.suite, r.blob) && ReadBlob(env, b, s, r.blob).Read?
    && ReadBlob(env, b, s, r.blob).content == Ok(ForExtension(r.name))
  }

  ghost predicate RecordsKnown(env: Env, b: Bundle, s: Session, blobs: seq<bytes>, records: seq<Record>) {
    forall i | 0 <= i < |records| :: RecordKnown(env, b, s, blobs, records[i])
  }

  lemma {:induction false} PutKnown(env: Env, b: Bundle, s: Session, blobs: seq<bytes>, records: seq<Record>, r: Record)
    requires RecordsKnown(env, b, s, blobs, records) && RecordKnown(env, b, s, blobs, r)
    ensures RecordsKnown(env, b, s, blobs, PutRecord(records, r))
    decreases records
  {
    hide RecordKnown;
    if records != [] {
      assert RecordKnown(env, b, s, blobs, records[0]);
      assert forall i | 0 <= i < |records[1..]| :: records[1..][i] == records[i + 1];
      PutKnown(env, b, s, blobs, records[1..], r);
    }
  }

  lemma {:induction false} AllRecordsKnown(env: Env, b: Bundle, s: Session, all: seq<bytes>, blobs: seq<bytes>,
                                           e: Evidence)
    requires RecordsKnown(env, b, s, all, e.records) && forall x | x in blobs :: x in all
    ensures RecordsKnown(env, b, s, all, ReadAll(env, b, s, blobs, e).records)
    decreases blobs
  {
    hide ReadBlob, RecordsKnown, KeyOf, PutRecord, FlagsAfter, IndexAfter, Seen;
    if blobs != [] {
      var x, r := blobs[0], ReadBlob(env, b, s, blobs[0]);
      if r.Read? && r.content.Ok? && r.content.value.ForExtension? {
        var record := Record(KeyOf(env.base.suite, x), r.content.value.name, x);
        assert RecordKnown(env, b, s, all, record);
        PutKnown(env, b, s, all, e.records, record);
      }
      AllRecordsKnown(env, b, s, all, blobs[1..], Absorb(env.base.suite, e, x, r));
    }
  }

  lemma {:induction false} RecordAtIn(records: seq<Record>, key: DigestPair)
    requires HasRecord(records, key)
    ensures RecordAt(records, key) in records && RecordAt(records, key).key == key
    decreases records
  {
    if records[0].key != key { RecordAtIn(records[1..], key); }
  }

  // ---- every extension said yes ----

  /** The extension that answers for the observation accepts it. */
  predicate Accepted(env: Env, e: Evidence, u: Observation) {
    && |Cited(u)| == 1 && Foreign(e, u) && u.sources[0].evidence !in e.unchecked
    && (OneCited(e, u); Ask(env, e, u, RecordAt(e.records, u.sources[0].evidence)) == Yes)
  }

  /** A tally that has nothing to complain of. */
  predicate Clean(t: Tally) {
    t.meas && t.ext && t.unchecked == 0
  }

  lemma TallyOneClean(env: Env, e: Evidence, origin: Option<int>, u: Observation, t: Tally)
    requires TallyOne(env, e, origin, u, t).Ok? && Clean(TallyOne(env, e, origin, u, t).value)
    ensures Clean(t) && (Foreign(e, u) ==> Accepted(env, e, u))
  {
    hide Foreign, Ask, TallySources, RecordAt, HasRecord;
    if !Foreign(e, u) { SourcesClean(e, origin, u, u.sources, t); }
  }

  lemma {:induction false} SourcesClean(e: Evidence, origin: Option<int>, u: Observation, xs: seq<Source>, t: Tally)
    requires TallySources(e, origin, u, xs, t).Ok? && Clean(TallySources(e, origin, u, xs, t).value)
    ensures Clean(t)
    decreases xs
  {
    if xs != [] { SourcesClean(e, origin, u, xs[1..], TallySource(e, origin, u, xs[0], t).value); }
  }

  lemma {:induction false} AllAccepted(env: Env, e: Evidence, origin: Option<int>, h: History, t: Tally)
    requires TallyAll(env, e, origin, h, t).Ok? && Clean(TallyAll(env, e, origin, h, t).value)
    ensures Clean(t)
    ensures forall i | 0 <= i < |h| && Foreign(e, h[i].unsigned) :: Accepted(env, e, h[i].unsigned)
    decreases h
  {
    hide TallyOne, Accepted, Clean, Foreign;
    if h != [] {
      AllAccepted(env, e, origin, h[1..], TallyOne(env, e, origin, h[0].unsigned, t).value);
      TallyOneClean(env, e, origin, h[0].unsigned, t);
      assert forall i | 0 < i < |h| :: h[i] == h[1..][i - 1];
    }
  }

  /** In a passing bundle every observation that cites an extension's blob cites that blob alone, and the
      extension, asked about the observation and the blob, answered yes. */
  lemma ExtensionAnswered(env: Env, b: Bundle, i: nat) returns (j: nat, name: bytes)
    requires Sound(env, b) && i < |b.history|
    requires Foreign(Find(env, b).value.e, b.history[i].unsigned)
    ensures
      var e := Find(env, b).value.e;
      var u := b.history[i].unsigned;
      && |Cited(u)| == 1 && j < |b.evidence| && KeyOf(env.base.suite, b.evidence[j]) in Cited(u)
      && ReadBlob(env, b, SessionOf(env, b).value, b.evidence[j]).Read?
      && ReadBlob(env, b, SessionOf(env, b).value, b.evidence[j]).content == Ok(ForExtension(name))
      && name in env.extensions
      && env.extensions[name](u, b.evidence[j], BlobsNamed(e.records, name)) == Yes
  {
    hide ReadBlob, ReadAll, TallyAll, Origin, Contiguous, KeyOf, Expected, Measured, RecordsKnown, BlobsNamed;
    var f, s, u := Find(env, b).value, SessionOf(env, b).value, b.history[i].unsigned;
    ForeignRecord(f.e, u);
    NothingUnchecked(b, f);
    AllAccepted(env, f.e, f.origin, b.history, NewTally(f.origin));
    assert Accepted(env, f.e, u);
    OneCited(f.e, u);
    var r := RecordAt(f.e.records, u.sources[0].evidence);
    RecordAtIn(f.e.records, u.sources[0].evidence);
    NoRecords(env, b, s);
    AllRecordsKnown(env, b, s, b.evidence, b.evidence, NOTHING_READ);
    RecordOf(env, b, s, f.e.records, r);
    j :| 0 <= j < |b.evidence| && b.evidence[j] == r.blob;
    name := r.name;
    assert u.sources[0] in u.sources;
  }

  lemma NoRecords(env: Env, b: Bundle, s: Session)
    ensures RecordsKnown(env, b, s, b.evidence, NOTHING_READ.records)
  {
  }

  lemma RecordOf(env: Env, b: Bundle, s: Session, records: seq<Record>, r: Record)
    requires RecordsKnown(env, b, s, b.evidence, records) && r in records
    ensures RecordKnown(env, b, s, b.evidence, r)
  {
    hide RecordKnown;
  }

  lemma ForeignRecord(e: Evidence, u: Observation)
    requires Foreign(e, u) && e.unchecked == map[]
    ensures e.records != []
  {
  }

  lemma NothingUnchecked(b: Bundle, f: Finding)
    requires EvidenceSound(b, f)
    ensures f.e.unchecked == map[] && (f.e.records != [] ==> Clean(f.t))
  {
  }

  // ---- what block C fixes ----

  /** What the bundle's evidence hashes to when it is indexed. */
  ghost function EvidenceMessages(blobs: seq<bytes>): set<bytes> {
    set x | x in blobs :: Framed(DOM_EVIDENCE, x)
  }

  lemma InOwnChain(h: History, i: nat) returns (k: nat)
    requires i < |h|
    ensures k < |Chain(h, h[i].unsigned.witnessId)| && Chain(h, h[i].unsigned.witnessId)[k] == h[i]
  {
    var w, r := h[i].unsigned.witnessId, h[i];
    RecordsOfMember(h, w, r);
    assert r in multiset(h);
    assert r in multiset(Chain(h, w));
    k :| 0 <= k < |Chain(h, w)| && Chain(h, w)[k] == r;
  }

  lemma FromChain(h: History, w: bytes, k: nat) returns (i: nat)
    requires k < |Chain(h, w)|
    ensures i < |h| && h[i] == Chain(h, w)[k]
  {
    var r := Chain(h, w)[k];
    assert r in multiset(Chain(h, w));
    RecordsOfMember(h, w, r);
    assert r in multiset(h);
    i :| 0 <= i < |h| && h[i] == r;
  }

  /** A record of another system, which no observation has to match. */
  predicate IsExternal(r: Reading) {
    r.Read? && r.typ == Str(EXTERNAL)
  }

  /** In a passing bundle every observation cites exactly one blob, and the bundle has it, with a measurement
      in it or with an extension to answer for it. */
  lemma BlobOf(env: Env, b: Bundle, i: nat) returns (j: nat)
    requires Sound(env, b) && BundleHolds(env, b) && i < |b.history|
    ensures j < |b.evidence| && Cited(b.history[i].unsigned) == {KeyOf(env.base.suite, b.evidence[j])}
    ensures SessionOf(env, b).Ok? && !IsExternal(ReadBlob(env, b, SessionOf(env, b).value, b.evidence[j]))
  {
    hide Sound, BundleHolds, Find, Foreign, ReadBlob, SessionOf, Ask, KeyOf, BlobsNamed, EXTERNAL;
    FindOk(env, b);
    var u := b.history[i].unsigned;
    if Foreign(Find(env, b).value.e, u) {
      var name;
      j, name := ExtensionAnswered(env, b, i);
      forall x | x in Cited(u) ensures x == KeyOf(env.base.suite, b.evidence[j]) {
        OnlyOne(Cited(u), x, KeyOf(env.base.suite, b.evidence[j]));
      }
    } else {
      j := ObservationResolved(env, b, i);
      assert u.sources == [u.sources[0]];
    }
    ReadingTyped(env, b, SessionOf(env, b).value, b.evidence[j]);
  }

  /** Two passing sandwiches around the same block C tell of the same observations, and the one evidence blob
      an observation cites is the same byte string in both: C fixes the acquired bytes. */
  lemma BlockFixesBlobs(env: Env, M: set<bytes>, b: Bundle, c: Bundle, i: nat) returns (k: nat, j: nat, j': nat)
    requires Sound(env, b) && BundleHolds(env, b) && Sound(env, c) && BundleHolds(env, c)
    requires b.blockC == c.blockC && i < |b.history|
    requires OneFamilyHolds(env.base.suite, M)
    requires BundleProofs.BundleMessages(env.base.suite, b.history, b.checkpoint)
             + BundleProofs.BundleMessages(env.base.suite, c.history, c.checkpoint) <= M
    requires EvidenceMessages(b.evidence) + EvidenceMessages(c.evidence) <= M
    ensures k < |c.history| && c.history[k].unsigned == b.history[i].unsigned
    ensures && j < |b.evidence| && j' < |c.evidence| && b.evidence[j] == c.evidence[j']
            && Cited(b.history[i].unsigned) == {KeyOf(env.base.suite, b.evidence[j])}
  {
    hide Sound, BundleHolds, OneFamilyHolds, BundleProofs.BundleMessages, Chain, Framed, Cited;
    var u := b.history[i].unsigned;
    var w := u.witnessId;
    SameChains(env, M, b, c, w);
    var n := InOwnChain(b.history, i);
    assert Map(ChainProofs.UnsignedOf, Chain(b.history, w))[n] == u;
    assert Map(ChainProofs.UnsignedOf, Chain(c.history, w))[n] == u;
    k := FromChain(c.history, w, n);
    j := BlobOf(env, b, i);
    j' := BlobOf(env, c, k);
    assert KeyOf(env.base.suite, b.evidence[j]) in Cited(u);
    assert Framed(DOM_EVIDENCE, b.evidence[j]) in EvidenceMessages(b.evidence);
    assert Framed(DOM_EVIDENCE, c.evidence[j']) in EvidenceMessages(c.evidence);
    PairBinds(env.base.suite, M, DOM_EVIDENCE, b.evidence[j], DOM_EVIDENCE, c.evidence[j']);
  }

  lemma FindOk(env: Env, b: Bundle)
    requires Sound(env, b)
    ensures Find(env, b).Ok? && SessionOf(env, b).Ok?
  {
  }

  lemma SameChains(env: Env, M: set<bytes>, b: Bundle, c: Bundle, w: bytes)
    requires BundleHolds(env, b) && BundleHolds(env, c) && b.blockC == c.blockC
    requires OneFamilyHolds(env.base.suite, M)
    requires BundleProofs.BundleMessages(env.base.suite, b.history, b.checkpoint)
             + BundleProofs.BundleMessages(env.base.suite, c.history, c.checkpoint) <= M
    ensures Map(ChainProofs.UnsignedOf, Chain(b.history, w)) == Map(ChainProofs.UnsignedOf, Chain(c.history, w))
  {
    hide Verify.EvidenceHolds, Verify.Anchored, Verify.Worked, OneFamilyHolds, BundleProofs.BundleMessages, Chain;
    BundleProofs.BlockFixesEvidence(env.base, M, b.history, b.checkpoint, c.history, c.checkpoint, b.blockC,
                                    None, None);
  }
}
