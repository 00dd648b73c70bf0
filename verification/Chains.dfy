/** Witness hash chains: canonical(), lineage_id() and verify_witness_chains (ctp/model.py). */
module Chains {
  import opened Wrappers
  import opened Bytes
  import opened Sorting
  import opened Cbor
  import opened HashSuite
  import opened Records
  import opened Model

  // ---- canonical bytes and commitments ----

  function Canonical(o: Observation): Result<bytes> {
    if o.version != 1 || |o.witnessId| != 32 || o.sequence < 0 || o.sources == [] then Raised
    else Dumps(ObservationObj(o))
  }

  function Lineage(s: Suite, o: Observation): Result<DigestPair> {
    var b :- Canonical(o);
    Ok(DigestPairOf(s, DOM_OBS, b))
  }

  function RecordCommitment(s: Suite, x: SignedObservation): Result<DigestPair> {
    var b :- Dumps(SignedObservationObj(x));
    Ok(DigestPairOf(s, DOM_OBS_RECORD, b))
  }

  ghost function LineageMessage(o: Observation): bytes
    requires Canonical(o).Ok?
  {
    Framed(DOM_OBS, Canonical(o).value)
  }

  ghost function RecordMessage(x: SignedObservation): bytes
    requires Dumps(SignedObservationObj(x)).Ok?
  {
    Framed(DOM_OBS_RECORD, Dumps(SignedObservationObj(x)).value)
  }

  /** A lineage id fixes the whole unsigned observation. */
  lemma LineageBinds(s: Suite, M: set<bytes>, a: Observation, b: Observation)
    requires OneFamilyHolds(s, M) && Canonical(a).Ok? && Canonical(b).Ok?
    requires LineageMessage(a) in M && LineageMessage(b) in M
    requires Lineage(s, a) == Lineage(s, b)
    ensures a == b
  {
    hide OneFamilyHolds, Framed, DigestPairOf, ObservationObj, Dumps;
    PairBinds(s, M, DOM_OBS, Canonical(a).value, DOM_OBS, Canonical(b).value);
    ObservationObjPlain(a);
    ObservationObjPlain(b);
    EncodingBinds(ObservationObj(a), ObservationObj(b));
    ObservationRoundTrip(a);
    ObservationRoundTrip(b);
  }

  /** A record commitment fixes the signed observation. */
  lemma RecordBinds(s: Suite, M: set<bytes>, x: SignedObservation, y: SignedObservation)
    requires OneFamilyHolds(s, M) && Dumps(SignedObservationObj(x)).Ok? && Dumps(SignedObservationObj(y)).Ok?
    requires RecordMessage(x) in M && RecordMessage(y) in M
    requires RecordCommitment(s, x) == RecordCommitment(s, y)
    ensures x == y
  {
    hide OneFamilyHolds, Framed, DigestPairOf, ObservationObj, Dumps;
    PairBinds(s, M, DOM_OBS_RECORD, Dumps(SignedObservationObj(x)).value,
              DOM_OBS_RECORD, Dumps(SignedObservationObj(y)).value);
    ObservationObjPlain(x.unsigned);
    ObservationObjPlain(y.unsigned);
    SignedPlain(ObservationObj(x.unsigned), x.signatures);
    SignedPlain(ObservationObj(y.unsigned), y.signatures);
    EncodingBinds(SignedObservationObj(x), SignedObservationObj(y));
    SignedObservationRoundTrip(x);
    SignedObservationRoundTrip(y);
  }

  // ---- verify_witness_chains ----

  type History = seq<SignedObservation>

  /** The witnesses in order of first appearance: the keys of the dict `by`. */
  function WitnessesOf(h: History): (ws: seq<bytes>)
    ensures forall w :: w in ws <==> exists i | 0 <= i < |h| :: h[i].unsigned.witnessId == w
    ensures forall i, j | 0 <= i < j < |ws| :: ws[i] != ws[j]
  {
    if h == [] then [] else
    var ws := WitnessesOf(h[..|h| - 1]);
    var w := h[|h| - 1].unsigned.witnessId;
    assert forall i | 0 <= i < |h| - 1 :: h[i] == h[..|h| - 1][i];
    if w in ws then ws else ws + [w]
  }

  /** by[w] */
  function RecordsOf(h: History, w: bytes): History {
    if h == [] then [] else
    var last := h[|h| - 1];
    RecordsOf(h[..|h| - 1], w) + (if last.unsigned.witnessId == w then [last] else [])
  }

  predicate SequenceLeq(a: SignedObservation, b: SignedObservation) {
    a.unsigned.sequence <= b.unsigned.sequence
  }

  predicate WitnessLeq(a: SignedObservation, b: SignedObservation) {
    LexLeq(a.unsigned.witnessId, b.unsigned.witnessId)
  }

  function Chain(h: History, w: bytes): History {
    Sort(SequenceLeq, RecordsOf(h, w))
  }

  /** The checks on records[idx..], prev being the lineage id of the record before them. */
  function CheckFrom(s: Suite, records: History, idx: nat, prev: Option<DigestPair>): Result<bool>
    requires idx <= |records|
    decreases |records| - idx
  {
    if idx == |records| then Ok(true) else
    var u := records[idx].unsigned;
    if u.sequence != idx || u.previous != prev then Ok(false) else
    var id :- Lineage(s, u);
    CheckFrom(s, records, idx + 1, Some(id))
  }

  function CheckAll(s: Suite, h: History, ws: seq<bytes>): Result<Option<History>>
    requires forall w | w in ws :: RecordsOf(h, w) != []
  {
    if ws == [] then Ok(Some([])) else
    var records := Chain(h, ws[0]);
    var ok :- CheckFrom(s, records, 0, None);
    if !ok then Ok(None) else
    var rest :- CheckAll(s, h, ws[1..]);
    if rest.None? then Ok(None) else Ok(Some([records[|records| - 1]] + rest.value))
  }

  lemma {:induction false} RecordsOfMember(h: History, w: bytes, r: SignedObservation)
    ensures multiset(RecordsOf(h, w))[r] == if r.unsigned.witnessId == w then multiset(h)[r] else 0
  {
    if h != [] {
      RecordsOfMember(h[..|h| - 1], w, r);
      assert h == h[..|h| - 1] + [h[|h| - 1]];
    }
  }

  lemma MemberCount<T>(s: seq<T>, x: T)
    ensures x in s <==> multiset(s)[x] > 0
  {
    assert x in s <==> x in multiset(s);
  }

  lemma InRecordsOf(h: History, w: bytes, r: SignedObservation)
    ensures r in RecordsOf(h, w) <==> r in h && r.unsigned.witnessId == w
    ensures r in Chain(h, w) <==> r in h && r.unsigned.witnessId == w
  {
    RecordsOfMember(h, w, r);
    MemberCount(h, r);
    MemberCount(RecordsOf(h, w), r);
    SameElements(Chain(h, w), RecordsOf(h, w));
  }

  lemma WitnessesHaveRecords(h: History)
    ensures forall w | w in WitnessesOf(h) :: RecordsOf(h, w) != []
  {
    forall w | w in WitnessesOf(h) ensures RecordsOf(h, w) != [] {
      var i :| 0 <= i < |h| && h[i].unsigned.witnessId == w;
      InRecordsOf(h, w, h[i]);
    }
  }

  /** verify_witness_chains: Ok(None) is (False, []), Ok(Some(latest)) is (True, latest). */
  function VerifyChains(s: Suite, h: History): Result<Option<History>> {
    WitnessesHaveRecords(h);
    var r :- CheckAll(s, h, WitnessesOf(h));
    if r.None? then Ok(None) else Ok(Some(Sort(WitnessLeq, r.value)))
  }

  // ---- the loops ----

  lemma NoRecords(h: History)
    ensures forall w :: RecordsOf(h[..0], w) == []
  {
  }

  function GroupOf(groups: map<bytes, History>, w: bytes): History {
    if w in groups then groups[w] else []
  }

  ghost predicate Grouped(groups: map<bytes, History>, h: History) {
    forall w :: GroupOf(groups, w) == RecordsOf(h, w)
  }

  lemma GroupedMore(h: History, n: nat, groups: map<bytes, History>)
    requires n < |h| && Grouped(groups, h[..n])
    ensures var w := h[n].unsigned.witnessId;
            Grouped(groups[w := GroupOf(groups, w) + [h[n]]], h[..n + 1])
  {
    hide RecordsOf;
    var w := h[n].unsigned.witnessId;
    var more := groups[w := GroupOf(groups, w) + [h[n]]];
    forall v ensures GroupOf(more, v) == RecordsOf(h[..n + 1], v) {
      OneMoreRecord(h, n, v);
      assert GroupOf(groups, v) == RecordsOf(h[..n], v);
    }
  }

  lemma NothingGrouped(h: History)
    ensures Grouped(map[], h[..0])
  {
    NoRecords(h);
  }

  lemma OneMoreRecord(h: History, n: nat, w: bytes)
    requires n < |h|
    ensures RecordsOf(h[..n + 1], w) == RecordsOf(h[..n], w) + (if h[n].unsigned.witnessId == w then [h[n]] else [])
  {
    assert h[..n + 1][..n] == h[..n];
  }

  lemma GroupsAre(groups: map<bytes, History>, h: History)
    requires Grouped(groups, h)
    ensures forall w | w in groups :: groups[w] == RecordsOf(h, w)
  {
    hide RecordsOf;
    forall w | w in groups ensures groups[w] == RecordsOf(h, w) { assert GroupOf(groups, w) == RecordsOf(h, w); }
  }

  method GroupByWitness(h: History) returns (groups: map<bytes, History>, keys: seq<bytes>)
    ensures keys == WitnessesOf(h)
    ensures forall w :: w in groups <==> w in keys
    ensures forall w | w in groups :: groups[w] == RecordsOf(h, w)
  {
    hide RecordsOf, Grouped;
    groups, keys := map[], [];
    NothingGrouped(h);
    for n := 0 to |h|
      invariant keys == WitnessesOf(h[..n])
      invariant forall w :: w in groups <==> w in keys
      invariant Grouped(groups, h[..n])
    {
      var w := h[n].unsigned.witnessId;
      assert h[..n + 1][..n] == h[..n];
      ghost var was := groups;
      GroupedMore(h, n, groups);
      if w !in groups {
        groups, keys := groups[w := []], keys + [w];
      }
      groups := groups[w := groups[w] + [h[n]]];
      assert groups == was[w := GroupOf(was, w) + [h[n]]];
    }
    assert h[..|h|] == h;
    GroupsAre(groups, h);
  }

  method CheckRecords(s: Suite, records: History) returns (r: Result<bool>)
    requires records != []
    ensures r == CheckFrom(s, records, 0, None)
  {
    hide Lineage;
    if records[0].unsigned.sequence != 0 { return Ok(false); }
    var prev: Option<DigestPair> := None;
    var seen: set<int> := {};
    for idx := 0 to |records|
      invariant forall n :: n in seen <==> 0 <= n < idx
      invariant idx == 0 ==> prev == None
      invariant CheckFrom(s, records, 0, None) == CheckFrom(s, records, idx, prev)
    {
      var u := records[idx].unsigned;
      if u.sequence in seen || u.sequence != idx { return Ok(false); }
      seen := seen + {u.sequence};
      if idx == 0 {
        if u.previous != None { return Ok(false); }
      } else {
        if u.previous != prev { return Ok(false); }
      }
      var id := Lineage(s, u);
      if id.Raised? { return Raised; }
      prev := Some(id.value);
    }
    r := Ok(true);
  }

  function Before(acc: History, r: Result<Option<History>>): Result<Option<History>> {
    match r
    case Raised => Raised
    case Ok(None) => Ok(None)
    case Ok(Some(rest)) => Ok(Some(acc + rest))
  }

  lemma BeforeEnds(acc: History, r: Result<Option<History>>)
    ensures Before([], r) == r && Before(acc, Ok(Some([]))) == Ok(Some(acc))
  {
    if r.Ok? && r.value.Some? { assert [] + r.value.value == r.value.value; }
    assert acc + [] == acc;
  }

  lemma BeforeStep(acc: History, x: SignedObservation, r: Result<Option<History>>)
    ensures Before(acc, Before([x], r)) == Before(acc + [x], r)
  {
    if r.Ok? && r.value.Some? {
      var rest := r.value.value;
      assert acc + ([x] + rest) == acc + [x] + rest;
    }
  }

  method VerifyWitnessChains(s: Suite, h: History) returns (r: Result<Option<History>>)
    ensures r == VerifyChains(s, h)
  {
    hide CheckFrom, WitnessesOf, RecordsOf, Sort;
    var groups, keys := GroupByWitness(h);
    WitnessesHaveRecords(h);
    var latest: History := [];
    ghost var all := CheckAll(s, h, keys);
    assert keys[0..] == keys;
    BeforeEnds([], all);
    for i := 0 to |keys|
      invariant all == Before(latest, CheckAll(s, h, keys[i..]))
    {
      assert keys[i..][0] == keys[i] && keys[i..][1..] == keys[i + 1..];
      var records := Sort(SequenceLeq, groups[keys[i]]);
      assert records == Chain(h, keys[i]);
      var ok := CheckRecords(s, records);
      if ok.Raised? { return Raised; }
      if !ok.value { return Ok(None); }
      BeforeStep(latest, records[|records| - 1], CheckAll(s, h, keys[i + 1..]));
      latest := latest + [records[|records| - 1]];
    }
    BeforeEnds(latest, all);
    latest := Sort(WitnessLeq, latest);
    r := Ok(Some(latest));
  }
}
