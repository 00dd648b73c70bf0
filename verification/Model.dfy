/** Observations, checkpoints and their canonical bytes (ctp/model.py). */
module Model {
  import opened Wrappers
  import opened Bytes
  import opened Sorting
  import opened Cbor
  import opened HashSuite
  import opened Records
  import opened Intervals

  datatype Signature = Signature(algorithm: bytes, publicKey: bytes, signature: bytes)

  datatype Source = Source(sourceType: bytes, claimed: int, uncertainty: int, authState: bytes, evidence: DigestPair)

  datatype Observation = Observation(
    version: int, witnessId: bytes, sequence: int, previous: Option<DigestPair>, monotonic: int, interval: Interval,
    frame: bytes, sources: seq<Source>, hardware: DigestPair, firmware: DigestPair, genesis: DigestPair)

  datatype SignedObservation = SignedObservation(unsigned: Observation, signatures: seq<Signature>)

  datatype Checkpoint = Checkpoint(
    version: int, epoch: int, previous: Option<DigestPair>, records: seq<DigestPair>, merkleRoot: DigestPair,
    witnessCount: int, f: int, q: int, verdict: bytes, interval: Option<Interval>, policy: bytes,
    genesis: DigestPair)

  datatype SignedCheckpoint = SignedCheckpoint(unsigned: Checkpoint, signatures: seq<Signature>)

  // ---- reading maps back ----

  function Lookup(es: seq<Entry>, k: nat): Result<Value> {
    if es == [] then Raised else if SameKey(es[0].key, Int(k)) then Ok(es[0].value) else Lookup(es[1..], k)
  }

  /** The k-th character of a text. */
  function CharAt(b: bytes, k: nat): Result<bytes>
    decreases |b|
  {
    var n := Utf8Length(b);
    if n == 0 then Raised else if k == 0 then Ok(b[..n]) else CharAt(b[n..], k - 1)
  }

  /** o[k], which also indexes a list, a byte string or a text. */
  function Get(o: Value, k: nat): Result<Value> {
    match o
    case Dict(es) => Lookup(es, k)
    case List(items) => if k < |items| then Ok(items[k]) else Raised
    case Leaf(Raw(b)) => if k < |b| then Ok(Num(b[k])) else Raised
    case Leaf(Text(b)) =>
      var c :- CharAt(b, k);
      Ok(Str(c))
    case _ => Raised
  }

  lemma {:induction false} LookupAt(es: seq<Entry>, first: nat, i: nat)
    requires i < |es| && forall j | 0 <= j < |es| :: es[j].key == Int(first + j)
    ensures Lookup(es, first + i) == Ok(es[i].value)
  {
    assert es[0].key == Int(first);
    if i > 0 {
      forall j | 0 <= j < |es[1..]| ensures es[1..][j].key == Int(first + 1 + j) {
        assert es[j + 1].key == Int(first + (j + 1));
      }
      LookupAt(es[1..], first + 1, i - 1);
    }
  }

  /** What stands under a key of a dict with increasing keys. */
  lemma {:induction false} KeyedLookup(es: seq<Entry>, i: nat)
    requires Keyed(es) && i < |es|
    ensures Lookup(es, es[i].key.n) == Ok(es[i].value)
  {
    if i > 0 {
      assert Keyed(es[1..]) && es[1..][i - 1] == es[i];
      KeyedLookup(es[1..], i - 1);
    }
  }

  lemma GetField(vs: seq<Value>, i: nat)
    requires i < |vs|
    ensures Get(Record(vs), i + 1) == Ok(vs[i])
  {
    hide Fields, Lookup;
    LookupAt(Fields(vs, 1), 1, i);
  }

  lemma GetFields(vs: seq<Value>)
    ensures |vs| >= 2 ==> Get(Record(vs), 1) == Ok(vs[0]) && Get(Record(vs), 2) == Ok(vs[1])
    ensures |vs| >= 3 ==> Get(Record(vs), 3) == Ok(vs[2])
    ensures |vs| >= 5 ==> Get(Record(vs), 4) == Ok(vs[3]) && Get(Record(vs), 5) == Ok(vs[4])
    ensures |vs| >= 12 ==>
      && Get(Record(vs), 6) == Ok(vs[5]) && Get(Record(vs), 7) == Ok(vs[6]) && Get(Record(vs), 8) == Ok(vs[7])
      && Get(Record(vs), 9) == Ok(vs[8]) && Get(Record(vs), 10) == Ok(vs[9]) && Get(Record(vs), 11) == Ok(vs[10])
      && Get(Record(vs), 12) == Ok(vs[11])
  {
    hide Get, Record;
    forall i: nat | i < |vs| ensures Get(Record(vs), i + 1) == Ok(vs[i]) { GetField(vs, i); }
    if |vs| >= 2 { assert Get(Record(vs), 0 + 1) == Ok(vs[0]) && Get(Record(vs), 1 + 1) == Ok(vs[1]); }
    if |vs| >= 3 { assert Get(Record(vs), 2 + 1) == Ok(vs[2]); }
    if |vs| >= 5 { assert Get(Record(vs), 3 + 1) == Ok(vs[3]) && Get(Record(vs), 4 + 1) == Ok(vs[4]); }
    if |vs| >= 12 {
      assert Get(Record(vs), 5 + 1) == Ok(vs[5]) && Get(Record(vs), 6 + 1) == Ok(vs[6]);
      assert Get(Record(vs), 7 + 1) == Ok(vs[7]) && Get(Record(vs), 8 + 1) == Ok(vs[8]);
      assert Get(Record(vs), 9 + 1) == Ok(vs[9]) && Get(Record(vs), 10 + 1) == Ok(vs[10]);
      assert Get(Record(vs), 11 + 1) == Ok(vs[11]);
    }
  }

  function AsInt(v: Value): Result<int> {
    if v.Leaf? && v.atom.Int? then Ok(v.atom.n) else Raised
  }

  function AsBytes(v: Value): Result<bytes> {
    if v.Leaf? && v.atom.Raw? then Ok(v.atom.raw) else Raised
  }

  function AsText(v: Value): Result<bytes> {
    if v.Leaf? && v.atom.Text? then Ok(v.atom.utf8) else Raised
  }

  function GetInt(o: Value, k: nat): Result<int> {
    var v :- Get(o, k);
    AsInt(v)
  }

  function GetBytes(o: Value, k: nat): Result<bytes> {
    var v :- Get(o, k);
    AsBytes(v)
  }

  function GetText(o: Value, k: nat): Result<bytes> {
    var v :- Get(o, k);
    AsText(v)
  }

  function GetPair(o: Value, k: nat): Result<DigestPair> {
    var v :- Get(o, k);
    PairFromObj(v)
  }

  function PairFromObj(o: Value): Result<DigestPair> {
    var a :- GetBytes(o, 1);
    var b :- GetBytes(o, 2);
    if |a| != 32 || |b| != 48 then Raised else Ok(DigestPair(a, b))
  }

  function GetPairOrNone(o: Value, k: nat): Result<Option<DigestPair>> {
    var v :- Get(o, k);
    if v == Leaf(Null) then Ok(None) else
    var p :- PairFromObj(v);
    Ok(Some(p))
  }

  // ---- as_obj ----

  function PairOrNull(p: Option<DigestPair>): Value {
    match p case None => Leaf(Null) case Some(d) => PairObj(d)
  }

  function SignatureObj(e: Signature): Value {
    Record([Str(e.algorithm), Blob(e.publicKey), Blob(e.signature)])
  }

  function SourceObj(c: Source): Value {
    Record([Str(c.sourceType), Num(c.claimed), Num(c.uncertainty), Str(c.authState), PairObj(c.evidence)])
  }

  function ObservationFields(o: Observation): seq<Value> {
    [Num(o.version), Blob(o.witnessId), Num(o.sequence), PairOrNull(o.previous), Num(o.monotonic),
     Num(o.interval.lower), Num(o.interval.upper), Str(o.frame), List(Map(SourceObj, o.sources)),
     PairObj(o.hardware), PairObj(o.firmware), PairObj(o.genesis)]
  }

  function ObservationObj(o: Observation): Value {
    Record(ObservationFields(o))
  }

  function SignedFields(unsigned: Value, signatures: seq<Signature>): seq<Value> {
    [unsigned, List(Map(SignatureObj, signatures))]
  }

  function SignedObservationObj(x: SignedObservation): Value {
    Record(SignedFields(ObservationObj(x.unsigned), x.signatures))
  }

  function IntervalOrNull(i: Option<Interval>): Value {
    match i case None => Leaf(Null) case Some(v) => List([Num(v.lower), Num(v.upper)])
  }

  function CheckpointFields(c: Checkpoint): seq<Value> {
    [Num(c.version), Num(c.epoch), PairOrNull(c.previous), List(Map(PairObj, c.records)), PairObj(c.merkleRoot),
     Num(c.witnessCount), Num(c.f), Num(c.q), Str(c.verdict), IntervalOrNull(c.interval),
     Str(c.policy), PairObj(c.genesis)]
  }

  function CheckpointObj(c: Checkpoint): Value {
    Record(CheckpointFields(c))
  }

  function SignedCheckpointObj(x: SignedCheckpoint): Value {
    Record(SignedFields(CheckpointObj(x.unsigned), x.signatures))
  }

  // ---- from_obj ----

  function FromAll<T>(read: Value -> Result<T>, vs: seq<Value>): Result<seq<T>> {
    if vs == [] then Ok([]) else
    var x :- read(vs[0]);
    var rest :- FromAll(read, vs[1..]);
    Ok([x] + rest)
  }

  function GetList(o: Value, k: nat): Result<seq<Value>> {
    var v :- Get(o, k);
    if v.List? then Ok(v.items) else Raised
  }

  function SignatureFromObj(o: Value): Result<Signature> {
    var a :- GetText(o, 1);
    var k :- GetBytes(o, 2);
    var g :- GetBytes(o, 3);
    Ok(Signature(a, k, g))
  }

  function SourceFromObj(o: Value): Result<Source> {
    var t :- GetText(o, 1);
    var c :- GetInt(o, 2);
    var u :- GetInt(o, 3);
    var a :- GetText(o, 4);
    var e :- GetPair(o, 5);
    Ok(Source(t, c, u, a, e))
  }

  function ObservationFromObj(o: Value): Result<Observation> {
    var version :- GetInt(o, 1);
    var wid :- GetBytes(o, 2);
    var sequence :- GetInt(o, 3);
    var previous :- GetPairOrNone(o, 4);
    var monotonic :- GetInt(o, 5);
    var lower :- GetInt(o, 6);
    var upper :- GetInt(o, 7);
    var frame :- GetText(o, 8);
    var items :- GetList(o, 9);
    var sources :- FromAll(SourceFromObj, items);
    var hardware :- GetPair(o, 10);
    var firmware :- GetPair(o, 11);
    var genesis :- GetPair(o, 12);
    if lower > upper then Raised
    else Ok(Observation(version, wid, sequence, previous, monotonic, Span(lower, upper), frame, sources,
                        hardware, firmware, genesis))
  }

  function IntervalFromObj(v: Value): Result<Option<Interval>> {
    if v == Leaf(Null) then Ok(None)
    else if v.List? && |v.items| >= 2 then
      var lower :- AsInt(v.items[0]);
      var upper :- AsInt(v.items[1]);
      if lower > upper then Raised else Ok(Some(Span(lower, upper)))
    else Raised
  }

  function CheckpointFromObj(o: Value): Result<Checkpoint> {
    var version :- GetInt(o, 1);
    var epoch :- GetInt(o, 2);
    var previous :- GetPairOrNone(o, 3);
    var items :- GetList(o, 4);
    var records :- FromAll(PairFromObj, items);
    var root :- GetPair(o, 5);
    var count :- GetInt(o, 6);
    var f :- GetInt(o, 7);
    var q :- GetInt(o, 8);
    var verdict :- GetText(o, 9);
    var obj :- Get(o, 10);
    var interval :- IntervalFromObj(obj);
    var policy :- GetText(o, 11);
    var genesis :- GetPair(o, 12);
    Ok(Checkpoint(version, epoch, previous, records, root, count, f, q, verdict, interval, policy, genesis))
  }

  function SignedObservationFromObj(o: Value): Result<SignedObservation> {
    var u :- Get(o, 1);
    var unsigned :- ObservationFromObj(u);
    var items :- GetList(o, 2);
    var signatures :- FromAll(SignatureFromObj, items);
    Ok(SignedObservation(unsigned, signatures))
  }

  function SignedCheckpointFromObj(o: Value): Result<SignedCheckpoint> {
    var u :- Get(o, 1);
    var unsigned :- CheckpointFromObj(u);
    var items :- GetList(o, 2);
    var signatures :- FromAll(SignatureFromObj, items);
    Ok(SignedCheckpoint(unsigned, signatures))
  }

  // ---- from_obj(as_obj(x)) == x ----

  lemma {:induction false} FromMap<T(!new)>(write: T -> Value, read: Value -> Result<T>, xs: seq<T>)
    requires forall x :: read(write(x)) == Ok(x)
    ensures FromAll(read, Map(write, xs)) == Ok(xs)
  {
    if xs != [] {
      FromMap(write, read, xs[1..]);
      assert xs == [xs[0]] + xs[1..];
    }
  }

  lemma PairRoundTrip(p: DigestPair)
    ensures PairFromObj(PairObj(p)) == Ok(p)
  {
    hide Get;
    GetFields([Blob(p.sha256), Blob(p.shake384)]);
  }

  lemma SignatureRoundTrip(e: Signature)
    ensures SignatureFromObj(SignatureObj(e)) == Ok(e)
  {
    hide Get;
    GetFields([Str(e.algorithm), Blob(e.publicKey), Blob(e.signature)]);
  }

  lemma SourceRoundTrip(c: Source)
    ensures SourceFromObj(SourceObj(c)) == Ok(c)
  {
    hide Get, PairFromObj, PairObj;
    GetFields([Str(c.sourceType), Num(c.claimed), Num(c.uncertainty), Str(c.authState), PairObj(c.evidence)]);
    PairRoundTrip(c.evidence);
  }

  lemma PairOrNullRoundTrip(p: Option<DigestPair>, o: Value, k: nat)
    requires Get(o, k) == Ok(PairOrNull(p))
    ensures GetPairOrNone(o, k) == Ok(p)
  {
    hide PairFromObj;
    if p.Some? { PairRoundTrip(p.value); }
  }

  lemma SourcesRoundTrip(xs: seq<Source>)
    ensures FromAll(SourceFromObj, Map(SourceObj, xs)) == Ok(xs)
  {
    hide SourceFromObj, SourceObj;
    forall x ensures SourceFromObj(SourceObj(x)) == Ok(x) { SourceRoundTrip(x); }
    FromMap(SourceObj, SourceFromObj, xs);
  }

  lemma SignaturesRoundTrip(xs: seq<Signature>)
    ensures FromAll(SignatureFromObj, Map(SignatureObj, xs)) == Ok(xs)
  {
    hide SignatureFromObj, SignatureObj;
    forall x ensures SignatureFromObj(SignatureObj(x)) == Ok(x) { SignatureRoundTrip(x); }
    FromMap(SignatureObj, SignatureFromObj, xs);
  }

  lemma PairsRoundTrip(xs: seq<DigestPair>)
    ensures FromAll(PairFromObj, Map(PairObj, xs)) == Ok(xs)
  {
    hide PairFromObj, PairObj;
    forall x ensures PairFromObj(PairObj(x)) == Ok(x) { PairRoundTrip(x); }
    FromMap(PairObj, PairFromObj, xs);
  }

  lemma ObservationRoundTrip(o: Observation)
    ensures ObservationFromObj(ObservationObj(o)) == Ok(o)
  {
    hide Get, PairFromObj, PairObj, PairOrNull, GetPairOrNone, FromAll, Map, SourceObj, SourceFromObj;
    GetFields(ObservationFields(o));
    PairOrNullRoundTrip(o.previous, ObservationObj(o), 4);
    SourcesRoundTrip(o.sources);
    PairRoundTrip(o.hardware);
    PairRoundTrip(o.firmware);
    PairRoundTrip(o.genesis);
  }

  lemma IntervalRoundTrip(i: Option<Interval>)
    ensures IntervalFromObj(IntervalOrNull(i)) == Ok(i)
  {
  }

  lemma CheckpointRoundTrip(c: Checkpoint)
    ensures CheckpointFromObj(CheckpointObj(c)) == Ok(c)
  {
    hide Get, PairFromObj, PairObj, PairOrNull, GetPairOrNone, FromAll, Map, IntervalFromObj;
    GetFields(CheckpointFields(c));
    PairOrNullRoundTrip(c.previous, CheckpointObj(c), 3);
    PairsRoundTrip(c.records);
    PairRoundTrip(c.merkleRoot);
    PairRoundTrip(c.genesis);
    IntervalRoundTrip(c.interval);
  }

  /** Reading back what was written: signed observations. */
  lemma SignedObservationRoundTrip(x: SignedObservation)
    ensures SignedObservationFromObj(SignedObservationObj(x)) == Ok(x)
  {
    hide Get, ObservationFromObj, ObservationObj, FromAll, Map;
    GetFields(SignedFields(ObservationObj(x.unsigned), x.signatures));
    ObservationRoundTrip(x.unsigned);
    SignaturesRoundTrip(x.signatures);
  }

  /** Reading back what was written: signed checkpoints. */
  lemma SignedCheckpointRoundTrip(x: SignedCheckpoint)
    ensures SignedCheckpointFromObj(SignedCheckpointObj(x)) == Ok(x)
  {
    hide Get, CheckpointFromObj, CheckpointObj, FromAll, Map;
    GetFields(SignedFields(CheckpointObj(x.unsigned), x.signatures));
    CheckpointRoundTrip(x.unsigned);
    SignaturesRoundTrip(x.signatures);
  }

  // ---- everything built by as_obj is plain ----

  lemma {:induction false} MapPlain<T(!new)>(write: T -> Value, xs: seq<T>)
    requires forall x :: Plain(write(x))
    ensures AllPlain(Map(write, xs)) && Plain(List(Map(write, xs)))
  {
    hide Plain;
    ListPlain(Map(write, xs));
  }

  lemma AtomsPlain()
    ensures forall n :: Plain(Num(n))
    ensures forall b :: Plain(Blob(b))
    ensures forall b :: Plain(Str(b))
    ensures Plain(Leaf(Null))
  {
  }

  lemma SignatureObjPlain(e: Signature)
    ensures Plain(SignatureObj(e))
  {
    hide Plain;
    AtomsPlain();
    RecordPlain([Str(e.algorithm), Blob(e.publicKey), Blob(e.signature)]);
  }

  lemma SourceObjPlain(c: Source)
    ensures Plain(SourceObj(c))
  {
    hide Plain, PairObj;
    AtomsPlain();
    PairObjPlain(c.evidence);
    RecordPlain([Str(c.sourceType), Num(c.claimed), Num(c.uncertainty), Str(c.authState), PairObj(c.evidence)]);
  }

  lemma PairOrNullPlain(p: Option<DigestPair>)
    ensures Plain(PairOrNull(p))
  {
    if p.Some? { PairObjPlain(p.value); }
  }

  lemma ObservationObjPlain(o: Observation)
    ensures Plain(ObservationObj(o))
  {
    hide Plain, PairObj, SourceObj, PairOrNull, Map;
    AtomsPlain();
    PairOrNullPlain(o.previous);
    forall x ensures Plain(SourceObj(x)) { SourceObjPlain(x); }
    MapPlain(SourceObj, o.sources);
    PairObjPlain(o.hardware);
    PairObjPlain(o.firmware);
    PairObjPlain(o.genesis);
    RecordPlain(ObservationFields(o));
  }

  lemma CheckpointObjPlain(c: Checkpoint)
    ensures Plain(CheckpointObj(c))
  {
    hide Plain, PairObj, PairOrNull, Map;
    AtomsPlain();
    PairOrNullPlain(c.previous);
    forall x ensures Plain(PairObj(x)) { PairObjPlain(x); }
    MapPlain(PairObj, c.records);
    PairObjPlain(c.merkleRoot);
    PairObjPlain(c.genesis);
    if c.interval.Some? {
      ListPlain([Num(c.interval.value.lower), Num(c.interval.value.upper)]);
    }
    RecordPlain(CheckpointFields(c));
  }

  lemma SignedPlain(unsigned: Value, signatures: seq<Signature>)
    requires Plain(unsigned)
    ensures Plain(Record(SignedFields(unsigned, signatures)))
  {
    hide Plain, SignatureObj, Map;
    forall x ensures Plain(SignatureObj(x)) { SignatureObjPlain(x); }
    MapPlain(SignatureObj, signatures);
    RecordPlain(SignedFields(unsigned, signatures));
  }
}
