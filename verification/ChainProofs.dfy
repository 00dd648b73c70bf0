/** What verify_witness_chains decides, and what an accepted chain fixes. */
module ChainProofs {
  import opened Wrappers
  import opened Bytes
  import opened Sorting
  import opened HashSuite
  import opened Intervals
  import opened Model
  import opened Chains

  // ---- the condition, without sorting or grouping ----

  /** r starts its witness's chain, or names the lineage id of the record just before it. */
  ghost predicate Follows(s: Suite, m: multiset<SignedObservation>, r: SignedObservation) {
    && Lineage(s, r.unsigned).Ok?
    && if r.unsigned.sequence == 0 then r.unsigned.previous == None
       else exists p :: p in m && Precedes(s, p, r)
  }

  ghost predicate Precedes(s: Suite, p: SignedObservation, r: SignedObservation) {
    && p.unsigned.witnessId == r.unsigned.witnessId
    && p.unsigned.sequence + 1 == r.unsigned.sequence
    && Lineage(s, p.unsigned).Ok?
    && r.unsigned.previous == Some(Lineage(s, p.unsigned).value)
  }

  ghost predicate SamePlace(a: SignedObservation, b: SignedObservation) {
    a.unsigned.witnessId == b.unsigned.witnessId && a.unsigned.sequence == b.unsigned.sequence
  }

  /** One record per witness and sequence number, each following its predecessor. */
  ghost predicate Linked(s: Suite, m: multiset<SignedObservation>) {
    && (forall r | r in m :: m[r] == 1 && Follows(s, m, r))
    && (forall a, b | a in m && b in m && SamePlace(a, b) :: a == b)
  }

  /** The lineage id of the record before c[i]; none before the first. */
  ghost function IdBefore(s: Suite, c: History, i: nat): Option<DigestPair>
    requires i <= |c|
  {
    if i == 0 then None else match Lineage(s, c[i - 1].unsigned) case Ok(d) => Some(d) case Raised => None
  }

  /** The records of one witness in order: sequences 0, 1, 2, ... linked by lineage ids. */
  ghost predicate IsChain(s: Suite, c: History) {
    forall i | 0 <= i < |c| ::
      && c[i].unsigned.sequence == i && Lineage(s, c[i].unsigned).Ok?
      && c[i].unsigned.previous == IdBefore(s, c, i)
  }

  lemma {:induction false} CheckFromIff(s: Suite, c: History, idx: nat, prev: Option<DigestPair>)
    requires idx <= |c|
    ensures CheckFrom(s, c, idx, prev) == Ok(true)
      <==> forall i | idx <= i < |c| ::
             && c[i].unsigned.sequence == i && Lineage(s, c[i].unsigned).Ok?
             && c[i].unsigned.previous == if i == idx then prev else IdBefore(s, c, i)
    decreases |c| - idx
  {
    hide Lineage;
    if idx < |c| && Lineage(s, c[idx].unsigned).Ok? {
      CheckFromIff(s, c, idx + 1, Some(Lineage(s, c[idx].unsigned).value));
    }
  }

  ghost predicate AllChains(s: Suite, h: History, ws: seq<bytes>) {
    forall w | w in ws :: IsChain(s, Chain(h, w))
  }

  function LastOf(h: History, w: bytes): SignedObservation
    requires Chain(h, w) != []
  {
    Chain(h, w)[|Chain(h, w)| - 1]
  }

  lemma {:induction false} CheckAllIff(s: Suite, h: History, ws: seq<bytes>)
    requires forall w | w in ws :: RecordsOf(h, w) != []
    ensures var r := CheckAll(s, h, ws);
      && (r.Ok? && r.value.Some? <==> AllChains(s, h, ws))
      && (r.Ok? && r.value.Some? ==>
            |r.value.value| == |ws| && forall i | 0 <= i < |ws| :: r.value.value[i] == LastOf(h, ws[i]))
  {
    hide IsChain, Chain, CheckFrom, RecordsOf;
    if ws != [] {
      ChainIff(s, Chain(h, ws[0]));
      CheckAllIff(s, h, ws[1..]);
      assert ws == [ws[0]] + ws[1..];
    }
  }

  lemma ChainIff(s: Suite, c: History)
    ensures CheckFrom(s, c, 0, None) == Ok(true) <==> IsChain(s, c)
  {
    hide Lineage, CheckFrom;
    CheckFromIff(s, c, 0, None);
  }

  // ---- accepted exactly when linked ----

  lemma CountedOnce<T>(s: seq<T>, i: nat)
    requires i < |s| && forall j | 0 <= j < |s| && j != i :: s[j] != s[i]
    ensures multiset(s)[s[i]] == 1
  {
    assert s == s[..i] + [s[i]] + s[i + 1..];
    MemberCount(s[..i], s[i]);
    MemberCount(s[i + 1..], s[i]);
  }

  lemma ChainCount(h: History, w: bytes, r: SignedObservation)
    ensures multiset(Chain(h, w))[r] == if r.unsigned.witnessId == w then multiset(h)[r] else 0
  {
    RecordsOfMember(h, w, r);
  }

  /** The place of a record in its witness's chain. */
  lemma PlaceOf(s: Suite, h: History, r: SignedObservation) returns (i: nat)
    requires r in h && IsChain(s, Chain(h, r.unsigned.witnessId))
    ensures i < |Chain(h, r.unsigned.witnessId)| && Chain(h, r.unsigned.witnessId)[i] == r
    ensures r.unsigned.sequence == i
  {
    hide Chain;
    var c := Chain(h, r.unsigned.witnessId);
    InRecordsOf(h, r.unsigned.witnessId, r);
    i :| 0 <= i < |c| && c[i] == r;
  }

  lemma WitnessKnown(h: History, r: SignedObservation)
    requires r in h
    ensures r.unsigned.witnessId in WitnessesOf(h)
  {
    var i :| 0 <= i < |h| && h[i] == r;
  }

  lemma ChainsAreLinked(s: Suite, h: History, r: SignedObservation)
    requires AllChains(s, h, WitnessesOf(h)) && r in h
    ensures multiset(h)[r] == 1 && Follows(s, multiset(h), r)
  {
    hide Chain, WitnessesOf, Lineage;
    WitnessKnown(h, r);
    var w := r.unsigned.witnessId;
    var c := Chain(h, w);
    assert IsChain(s, c);
    var i := PlaceOf(s, h, r);
    CountedOnce(c, i);
    ChainCount(h, w, r);
    if i > 0 {
      InRecordsOf(h, w, c[i - 1]);
      assert c[i - 1] in c;
      MemberCount(h, c[i - 1]);
      assert c[i].unsigned.previous == IdBefore(s, c, i);
      assert Precedes(s, c[i - 1], r);
    }
  }

  lemma OneRecordPerPlace(s: Suite, h: History, a: SignedObservation, b: SignedObservation)
    requires AllChains(s, h, WitnessesOf(h)) && a in h && b in h && SamePlace(a, b)
    ensures a == b
  {
    hide Chain, WitnessesOf, Lineage;
    WitnessKnown(h, a);
    var i := PlaceOf(s, h, a);
    var j := PlaceOf(s, h, b);
  }

  ghost predicate Increasing(c: History) {
    forall j, k | 0 <= j < k < |c| :: c[j].unsigned.sequence < c[k].unsigned.sequence
  }

  ghost predicate HasPredecessor(c: History, j: nat)
    requires j < |c|
  {
    exists k | 0 <= k < |c| :: c[k].unsigned.sequence + 1 == c[j].unsigned.sequence
  }

  /** Increasing naturals that are closed under predecessors are 0, 1, 2, ... */
  lemma {:induction false} Consecutive(c: History, i: nat)
    requires i < |c| && Increasing(c)
    requires forall j | 0 <= j < |c| :: c[j].unsigned.sequence >= 0
    requires forall j | 0 <= j < |c| && c[j].unsigned.sequence > 0 :: HasPredecessor(c, j)
    ensures c[i].unsigned.sequence == i
  {
    hide HasPredecessor;
    if i > 0 { Consecutive(c, i - 1); }
    if c[i].unsigned.sequence > 0 { NextInLine(c, i); }
  }

  lemma NextInLine(c: History, i: nat)
    requires i < |c| && Increasing(c) && HasPredecessor(c, i)
    requires forall j | 0 <= j < |c| :: c[j].unsigned.sequence >= 0
    ensures i > 0 && c[i].unsigned.sequence == c[i - 1].unsigned.sequence + 1
  {
    var k :| 0 <= k < |c| && c[k].unsigned.sequence + 1 == c[i].unsigned.sequence;
  }

  lemma LinkedChainIncreases(s: Suite, h: History, w: bytes)
    requires Linked(s, multiset(h))
    ensures Increasing(Chain(h, w))
  {
    hide Follows;
    var c := Chain(h, w);
    SortSorted(SequenceLeq, RecordsOf(h, w));
    hide Chain;
    forall j, k | 0 <= j < k < |c| ensures c[j].unsigned.sequence < c[k].unsigned.sequence {
      assert SequenceLeq(c[j], c[k]);
      if c[j].unsigned.sequence == c[k].unsigned.sequence {
        InHistory(h, w, j);
        InHistory(h, w, k);
        assert SamePlace(c[j], c[k]);
        CountedTwiceIn(c, j, k);
        ChainCount(h, w, c[j]);
      }
    }
  }

  lemma CountedTwiceIn(c: History, i: nat, j: nat)
    requires i < j < |c| && c[i] == c[j]
    ensures multiset(c)[c[i]] >= 2
  {
    assert c == c[..j] + c[j..];
    assert c[..j][i] == c[i] && c[j..][0] == c[i];
    MemberCount(c[..j], c[i]);
    MemberCount(c[j..], c[i]);
  }

  lemma InHistory(h: History, w: bytes, i: nat)
    requires i < |Chain(h, w)|
    ensures Chain(h, w)[i] in h && Chain(h, w)[i] in multiset(h) && Chain(h, w)[i].unsigned.witnessId == w
  {
    hide Chain;
    var r := Chain(h, w)[i];
    InRecordsOf(h, w, r);
    assert r in Chain(h, w);
    MemberCount(h, r);
  }

  lemma LinkedHasPredecessor(s: Suite, h: History, w: bytes, j: nat) returns (k: nat)
    requires Linked(s, multiset(h)) && j < |Chain(h, w)| && Chain(h, w)[j].unsigned.sequence != 0
    ensures k < |Chain(h, w)| && Precedes(s, Chain(h, w)[k], Chain(h, w)[j])
  {
    hide Chain, Precedes, Lineage;
    var c := Chain(h, w);
    InHistory(h, w, j);
    assert Follows(s, multiset(h), c[j]);
    var p :| p in multiset(h) && Precedes(s, p, c[j]);
    SameWitness(s, p, c[j]);
    MemberCount(h, p);
    InRecordsOf(h, w, p);
    k :| 0 <= k < |c| && c[k] == p;
  }

  lemma SameWitness(s: Suite, p: SignedObservation, r: SignedObservation)
    requires Precedes(s, p, r)
    ensures p.unsigned.witnessId == r.unsigned.witnessId && p.unsigned.sequence + 1 == r.unsigned.sequence
    ensures Lineage(s, p.unsigned).Ok? && r.unsigned.previous == Some(Lineage(s, p.unsigned).value)
  {
  }

  lemma SequenceNotNegative(s: Suite, o: Observation)
    requires Lineage(s, o).Ok?
    ensures o.sequence >= 0
  {
  }

  lemma LinkedRecord(s: Suite, h: History, w: bytes, j: nat)
    requires Linked(s, multiset(h)) && j < |Chain(h, w)|
    ensures var c := Chain(h, w);
      && c[j].unsigned.sequence >= 0 && Lineage(s, c[j].unsigned).Ok?
      && (c[j].unsigned.sequence == 0 ==> c[j].unsigned.previous == None)
      && (c[j].unsigned.sequence > 0 ==> HasPredecessor(c, j))
  {
    hide Chain, Precedes, Lineage, Linked;
    var c := Chain(h, w);
    InHistory(h, w, j);
    LinkedFollows(s, h, c[j]);
    SequenceNotNegative(s, c[j].unsigned);
    if c[j].unsigned.sequence > 0 {
      var k := LinkedHasPredecessor(s, h, w, j);
      SameWitness(s, c[k], c[j]);
    }
  }

  lemma LinkedIsChain(s: Suite, h: History, w: bytes)
    requires Linked(s, multiset(h))
    ensures IsChain(s, Chain(h, w))
  {
    hide Chain, Precedes, Lineage, Linked, HasPredecessor, Increasing;
    var c := Chain(h, w);
    LinkedChainIncreases(s, h, w);
    forall j | 0 <= j < |c|
      ensures c[j].unsigned.sequence >= 0 && (c[j].unsigned.sequence > 0 ==> HasPredecessor(c, j))
    {
      LinkedRecord(s, h, w, j);
    }
    forall i | 0 <= i < |c|
      ensures c[i].unsigned.sequence == i && Lineage(s, c[i].unsigned).Ok?
      ensures c[i].unsigned.previous == IdBefore(s, c, i)
    {
      LinkedRecord(s, h, w, i);
      Consecutive(c, i);
      if i > 0 {
        var k := LinkedHasPredecessor(s, h, w, i);
        SameWitness(s, c[k], c[i]);
        Consecutive(c, k);
      }
    }
  }

  lemma LinkedFollows(s: Suite, h: History, r: SignedObservation)
    requires Linked(s, multiset(h)) && r in multiset(h)
    ensures Follows(s, multiset(h), r)
  {
  }

  /** verify_witness_chains answers True exactly for linked histories: per witness one record for each of
      the sequence numbers 0 .. n-1, each naming its predecessor's lineage id. */
  lemma AcceptedIffLinked(s: Suite, h: History)
    ensures VerifyChains(s, h).Ok? && VerifyChains(s, h).value.Some? <==> Linked(s, multiset(h))
  {
    hide Chain, CheckAll, WitnessesOf, RecordsOf, Follows, IsChain;
    WitnessesHaveRecords(h);
    CheckAllIff(s, h, WitnessesOf(h));
    if AllChains(s, h, WitnessesOf(h)) {
      forall r | r in multiset(h) ensures multiset(h)[r] == 1 && Follows(s, multiset(h), r) {
        MemberCount(h, r);
        ChainsAreLinked(s, h, r);
      }
      forall a, b | a in multiset(h) && b in multiset(h) && SamePlace(a, b) ensures a == b {
        MemberCount(h, a);
        MemberCount(h, b);
        OneRecordPerPlace(s, h, a, b);
      }
    }
    if Linked(s, multiset(h)) {
      forall w | w in WitnessesOf(h) ensures IsChain(s, Chain(h, w)) { LinkedIsChain(s, h, w); }
    }
  }

  // ---- the latest records ----

  ghost predicate Newest(m: multiset<SignedObservation>, r: SignedObservation) {
    forall p | p in m && p.unsigned.witnessId == r.unsigned.witnessId :: p.unsigned.sequence <= r.unsigned.sequence
  }

  /** In increasing order of witness, byte by byte, no witness twice. */
  ghost predicate ByWitness(ls: History) {
    forall i, j | 0 <= i < j < |ls| :: Earlier(ls[i].unsigned.witnessId, ls[j].unsigned.witnessId)
  }

  /** The same in terms of the sort key. */
  ghost predicate InWitnessOrder(ls: History) {
    forall i, j | 0 <= i < j < |ls| ::
      WitnessLeq(ls[i], ls[j]) && ls[i].unsigned.witnessId != ls[j].unsigned.witnessId
  }

  lemma ByWitnessIff(ls: History)
    ensures ByWitness(ls) <==> InWitnessOrder(ls)
  {
    hide LexLeq, Earlier;
    forall i, j | 0 <= i < j < |ls|
      ensures Earlier(ls[i].unsigned.witnessId, ls[j].unsigned.witnessId)
         <==> WitnessLeq(ls[i], ls[j]) && ls[i].unsigned.witnessId != ls[j].unsigned.witnessId
    {
      EarlierIff(ls[i].unsigned.witnessId, ls[j].unsigned.witnessId);
    }
  }

  /** The newest record of every witness, ordered by witness. */
  ghost predicate IsLatest(m: multiset<SignedObservation>, ls: History) {
    ByWitness(ls) && forall r :: r in ls <==> r in m && Newest(m, r)
  }

  lemma WitnessLeqOrder()
    ensures TotalPreorder(WitnessLeq)
  {
    forall a, b ensures WitnessLeq(a, b) || WitnessLeq(b, a) { LexTotal(a.unsigned.witnessId, b.unsigned.witnessId); }
    forall a, b, c | WitnessLeq(a, b) && WitnessLeq(b, c) ensures WitnessLeq(a, c) {
      LexTransitive(a.unsigned.witnessId, b.unsigned.witnessId, c.unsigned.witnessId);
    }
  }

  lemma ByWitnessUnique(a: History, b: History)
    requires ByWitness(a) && ByWitness(b) && forall r :: r in a <==> r in b
    ensures a == b
  {
    hide ByWitness, InWitnessOrder;
    ByWitnessIff(a);
    ByWitnessIff(b);
    InOrderUnique(a, b);
  }

  lemma {:induction false} InOrderUnique(a: History, b: History)
    requires InWitnessOrder(a) && InWitnessOrder(b) && forall r :: r in a <==> r in b
    ensures a == b
  {
    if a == [] {
      if b != [] { HasFirst(b); }
    } else {
      FirstWitness(a, b);
      FirstWitness(b, a);
      LexAntisymmetric(a[0].unsigned.witnessId, b[0].unsigned.witnessId);
      SameFirst(a, b);
      forall r ensures r in a[1..] <==> r in b[1..] {
        LaterWitness(a, r);
        LaterWitness(b, r);
      }
      InOrderUnique(a[1..], b[1..]);
      assert a == [a[0]] + a[1..] && b == [b[0]] + b[1..];
    }
  }

  lemma HasFirst(b: History)
    requires b != []
    ensures b[0] in b
  {
  }

  lemma FirstWitness(a: History, b: History)
    requires a != [] && InWitnessOrder(b) && forall r :: r in a <==> r in b
    ensures b != [] && WitnessLeq(b[0], a[0])
  {
    assert a[0] in b;
    var j :| 0 <= j < |b| && b[j] == a[0];
    WitnessLeqOrder();
    assert WitnessLeq(b[0], b[0]);
  }

  lemma SameFirst(a: History, b: History)
    requires a != [] && b != [] && InWitnessOrder(b) && a[0] in b
    requires a[0].unsigned.witnessId == b[0].unsigned.witnessId
    ensures a[0] == b[0]
  {
    var j :| 0 <= j < |b| && b[j] == a[0];
    assert forall k | 0 < k < |b| :: b[0].unsigned.witnessId != b[k].unsigned.witnessId;
  }

  lemma LaterWitness(a: History, r: SignedObservation)
    requires a != [] && InWitnessOrder(a)
    ensures r in a[1..] <==> r in a && r != a[0]
  {
    assert a == [a[0]] + a[1..];
    if r in a[1..] {
      var i :| 0 <= i < |a[1..]| && a[1..][i] == r;
      assert a[0].unsigned.witnessId != a[i + 1].unsigned.witnessId;
    }
  }

  lemma LastIsNewest(s: Suite, h: History, w: bytes)
    requires IsChain(s, Chain(h, w)) && Chain(h, w) != []
    ensures var r := LastOf(h, w);
      && r in h && r.unsigned.witnessId == w && Newest(multiset(h), r)
      && forall q | q in h && q.unsigned.witnessId == w && Newest(multiset(h), q) :: q == r
  {
    hide Chain, Lineage, IdBefore, IsChain;
    var c := Chain(h, w);
    var r := c[|c| - 1];
    InHistory(h, w, |c| - 1);
    SequencesCount(s, c, |c| - 1);
    forall p | p in multiset(h) && p.unsigned.witnessId == w ensures p.unsigned.sequence <= r.unsigned.sequence {
      MemberCount(h, p);
      var i := PlaceOf(s, h, p);
    }
    forall q | q in h && q.unsigned.witnessId == w && Newest(multiset(h), q) ensures q == r {
      NewestReaches(h, q, r);
      var i := PlaceOf(s, h, q);
    }
  }

  lemma SequencesCount(s: Suite, c: History, i: nat)
    requires IsChain(s, c) && i < |c|
    ensures c[i].unsigned.sequence == i
  {
  }

  lemma NewestReaches(h: History, q: SignedObservation, r: SignedObservation)
    requires Newest(multiset(h), q) && r in multiset(h) && r.unsigned.witnessId == q.unsigned.witnessId
    ensures r.unsigned.sequence <= q.unsigned.sequence
  {
  }

  ghost predicate AreLasts(h: History, ws: seq<bytes>, rs: History) {
    && |rs| == |ws|
    && (forall i | 0 <= i < |ws| :: Chain(h, ws[i]) != [] && rs[i] == LastOf(h, ws[i]))
  }

  lemma LastsInOrder(s: Suite, h: History, ws: seq<bytes>, rs: History)
    requires AreLasts(h, ws, rs) && AllChains(s, h, ws) && forall i, j | 0 <= i < j < |ws| :: ws[i] != ws[j]
    ensures ByWitness(Sort(WitnessLeq, rs))
  {
    hide Chain, IsChain, WitnessLeq, Newest, ByWitness;
    forall i | 0 <= i < |rs| ensures rs[i].unsigned.witnessId == ws[i] { LastIsNewest(s, h, ws[i]); }
    WitnessLeqOrder();
    SortSorted(WitnessLeq, rs);
    hide Sort;
    var ls := Sort(WitnessLeq, rs);
    forall i, j | 0 <= i < j < |ls| ensures ls[i].unsigned.witnessId != ls[j].unsigned.witnessId {
      if ls[i].unsigned.witnessId == ls[j].unsigned.witnessId { NoRepeatedWitness(rs, ls, i, j); }
    }
    ByWitnessIff(ls);
  }

  lemma NoRepeatedWitness(rs: History, ls: History, i: nat, j: nat)
    requires multiset(rs) == multiset(ls) && i < j < |ls|
    requires forall k, l | 0 <= k < l < |rs| :: rs[k].unsigned.witnessId != rs[l].unsigned.witnessId
    ensures ls[i].unsigned.witnessId != ls[j].unsigned.witnessId
  {
    SameElements(ls, rs);
    assert ls[i] in rs && ls[j] in rs;
    var k :| 0 <= k < |rs| && rs[k] == ls[i];
    var l :| 0 <= l < |rs| && rs[l] == ls[j];
    if k == l {
      CountedTwiceIn(ls, i, j);
      CountedOnce(rs, k);
    }
  }

  /** On acceptance the returned list holds the newest record of every witness, once, in witness order. */
  lemma AcceptedLatest(s: Suite, h: History)
    requires VerifyChains(s, h).Ok? && VerifyChains(s, h).value.Some?
    ensures IsLatest(multiset(h), VerifyChains(s, h).value.value)
  {
    hide Chain, CheckAll, RecordsOf, IsChain, WitnessLeq, Newest, Sort, ByWitness;
    var ws := WitnessesOf(h);
    hide WitnessesOf;
    WitnessesHaveRecords(h);
    CheckAllIff(s, h, ws);
    var rs := CheckAll(s, h, ws).value.value;
    forall w | w in ws ensures Chain(h, w) != [] { ChainNotEmpty(h, w); }
    LastsInOrder(s, h, ws, rs);
    var ls := Sort(WitnessLeq, rs);
    SameElements(ls, rs);
    forall r ensures r in rs <==> r in multiset(h) && Newest(multiset(h), r) {
      MemberCount(h, r);
      if r in rs {
        var i :| 0 <= i < |rs| && rs[i] == r;
        assert IsChain(s, Chain(h, ws[i]));
        LastIsNewest(s, h, ws[i]);
      }
      if r in h && Newest(multiset(h), r) {
        WitnessKnown(h, r);
        var i :| 0 <= i < |ws| && ws[i] == r.unsigned.witnessId;
        LastIsNewest(s, h, ws[i]);
        assert rs[i] == r;
      }
    }
  }

  lemma ChainNotEmpty(h: History, w: bytes)
    requires RecordsOf(h, w) != []
    ensures Chain(h, w) != []
  {
  }

  // ---- independence of the order of the history ----

  /** Acceptance, and the latest records, do not depend on the order in which the history is given. */
  lemma AcceptanceForgetsOrder(s: Suite, h: History, g: History)
    requires multiset(h) == multiset(g)
    requires VerifyChains(s, h).Ok? && VerifyChains(s, h).value.Some?
    ensures VerifyChains(s, g) == VerifyChains(s, h)
  {
    hide VerifyChains, Linked, Newest, ByWitness;
    AcceptedIffLinked(s, h);
    AcceptedIffLinked(s, g);
    AcceptedLatest(s, h);
    AcceptedLatest(s, g);
    ByWitnessUnique(VerifyChains(s, h).value.value, VerifyChains(s, g).value.value);
  }

  // Two records of different witnesses: one without canonical bytes (it has no sources), one that does
  // not start its chain.

  const NO_DIGEST: DigestPair := DigestPair(Repeat(0, 32), Repeat(0, 48))

  function Sample(wid: byte, sequence: int): SignedObservation {
    SignedObservation(
      Observation(1, Repeat(wid, 32), sequence, None, 0, Span(0, 0), [], [], NO_DIGEST, NO_DIGEST, NO_DIGEST), [])
  }

  lemma SingleChain(h: History, w: bytes, r: SignedObservation)
    requires RecordsOf(h, w) == [r]
    ensures Chain(h, w) == [r]
  {
    assert [r][1..] == [];
  }

  lemma TwoWitnesses(a: SignedObservation, b: SignedObservation)
    requires a.unsigned.witnessId != b.unsigned.witnessId
    ensures WitnessesOf([a, b]) == [a.unsigned.witnessId, b.unsigned.witnessId]
    ensures RecordsOf([a, b], a.unsigned.witnessId) == [a] && RecordsOf([a, b], b.unsigned.witnessId) == [b]
  {
    var h := [a, b];
    OneRecord(a);
    assert h[..1] == [a];
    assert RecordsOf([a], b.unsigned.witnessId) + [b] == [b] && RecordsOf([a], a.unsigned.witnessId) + [] == [a];
  }

  lemma OneRecord(a: SignedObservation)
    ensures WitnessesOf([a]) == [a.unsigned.witnessId]
    ensures forall w :: RecordsOf([a], w) == if a.unsigned.witnessId == w then [a] else []
  {
    assert [a][..0] == [];
    assert [] + [a] == [a];
  }

  lemma FirstWitnessDecides(s: Suite, a: SignedObservation, b: SignedObservation)
    requires a.unsigned.witnessId != b.unsigned.witnessId
    ensures CheckFrom(s, [a], 0, None).Raised? ==> VerifyChains(s, [a, b]).Raised?
    ensures CheckFrom(s, [a], 0, None) == Ok(false) ==> VerifyChains(s, [a, b]) == Ok(None)
  {
    hide CheckFrom, WitnessesOf, RecordsOf, Chain;
    TwoWitnesses(a, b);
    SingleChain([a, b], a.unsigned.witnessId, a);
  }

  lemma NoSourcesRaises(s: Suite, r: SignedObservation)
    requires r.unsigned.sequence == 0 && r.unsigned.previous == None && r.unsigned.sources == []
    ensures CheckFrom(s, [r], 0, None).Raised?
  {
  }

  lemma WrongStartFails(s: Suite, r: SignedObservation)
    requires r.unsigned.sequence != 0
    ensures CheckFrom(s, [r], 0, None) == Ok(false)
  {
  }

  lemma SamplesDiffer(a: byte, b: byte, i: nat, j: nat)
    requires a != b
    ensures Sample(a, i).unsigned.witnessId != Sample(b, j).unsigned.witnessId
  {
    assert Sample(a, i).unsigned.witnessId[0] == a && Sample(b, j).unsigned.witnessId[0] == b;
  }

  /** Without canonical bytes the form of a rejection can depend on the order: one history is answered
      False, the same records the other way round raise. */
  lemma RejectionDependsOnOrder(s: Suite)
    ensures VerifyChains(s, [Sample(1, 0), Sample(2, 1)]).Raised?
    ensures VerifyChains(s, [Sample(2, 1), Sample(1, 0)]) == Ok(None)
  {
    hide CheckFrom, VerifyChains, Repeat;
    NoSourcesRaises(s, Sample(1, 0));
    WrongStartFails(s, Sample(2, 1));
    SamplesDiffer(1, 2, 0, 1);
    FirstWitnessDecides(s, Sample(1, 0), Sample(2, 1));
    FirstWitnessDecides(s, Sample(2, 1), Sample(1, 0));
  }

  // ---- what an accepted chain fixes ----

  function UnsignedOf(x: SignedObservation): Observation {
    x.unsigned
  }

  /** Every message hashed for a lineage id while a history is verified. */
  ghost function LineageMessages(h: History): set<bytes> {
    set r | r in h && Canonical(r.unsigned).Ok? :: LineageMessage(r.unsigned)
  }

  lemma LinkBefore(s: Suite, c: History, i: nat)
    requires IsChain(s, c) && 0 < i < |c|
    ensures Canonical(c[i - 1].unsigned).Ok? && c[i].unsigned.previous == Some(Lineage(s, c[i - 1].unsigned).value)
    ensures LineageMessage(c[i - 1].unsigned) in LineageMessages(c)
  {
    assert c[i - 1] in c && c[i].unsigned.previous == IdBefore(s, c, i);
    assert Lineage(s, c[i - 1].unsigned).Ok?;
  }

  lemma {:induction false} ChainBinds(s: Suite, M: set<bytes>, c: History, d: History, i: nat)
    requires OneFamilyHolds(s, M) && LineageMessages(c) <= M && LineageMessages(d) <= M
    requires IsChain(s, c) && IsChain(s, d) && i < |c| && i < |d|
    requires c[i].unsigned == d[i].unsigned
    ensures forall k | 0 <= k <= i :: c[k].unsigned == d[k].unsigned
  {
    hide OneFamilyHolds, Canonical, LineageMessage, LineageMessages, IsChain;
    if i > 0 {
      LinkBefore(s, c, i);
      LinkBefore(s, d, i);
      LineageBinds(s, M, c[i - 1].unsigned, d[i - 1].unsigned);
      ChainBinds(s, M, c, d, i - 1);
    }
  }

  lemma ChainMessages(h: History, w: bytes)
    ensures LineageMessages(Chain(h, w)) <= LineageMessages(h)
  {
    hide Canonical, LineageMessage, Chain;
    forall r | r in Chain(h, w) ensures r in h { InRecordsOf(h, w, r); }
  }

  /** With one hash family free of collisions, a record fixes every unsigned record before it: two linked
      histories that agree on one observation agree on its witness's whole past. */
  lemma RecordFixesItsPast(s: Suite, M: set<bytes>, h: History, g: History, r: SignedObservation, q: SignedObservation)
    requires OneFamilyHolds(s, M) && LineageMessages(h) + LineageMessages(g) <= M
    requires Linked(s, multiset(h)) && Linked(s, multiset(g))
    requires r in h && q in g && r.unsigned == q.unsigned
    ensures var n := r.unsigned.sequence; var w := r.unsigned.witnessId;
      && 0 <= n < |Chain(h, w)| && n < |Chain(g, w)|
      && Chain(h, w)[n] == r && Chain(g, w)[n] == q
      && forall k | 0 <= k <= n :: Chain(h, w)[k].unsigned == Chain(g, w)[k].unsigned
  {
    hide OneFamilyHolds, Linked, Chain, IsChain, LineageMessages;
    var w := r.unsigned.witnessId;
    LinkedIsChain(s, h, w);
    LinkedIsChain(s, g, w);
    var i := PlaceOf(s, h, r);
    var j := PlaceOf(s, g, q);
    ChainMessages(h, w);
    ChainMessages(g, w);
    ChainBinds(s, M, Chain(h, w), Chain(g, w), i);
  }

  /** Two accepted histories with the same latest records hold, witness by witness, the same unsigned
      observations. */
  lemma LatestFixesHistory(s: Suite, M: set<bytes>, h: History, g: History)
    requires OneFamilyHolds(s, M) && LineageMessages(h) + LineageMessages(g) <= M
    requires VerifyChains(s, h).Ok? && VerifyChains(s, h).value.Some? && VerifyChains(s, g) == VerifyChains(s, h)
    ensures forall w :: Map(UnsignedOf, Chain(h, w)) == Map(UnsignedOf, Chain(g, w))
  {
    hide OneFamilyHolds, Linked, Chain, IsChain, LineageMessages, VerifyChains, Newest, ByWitness;
    AcceptedIffLinked(s, h);
    AcceptedIffLinked(s, g);
    AcceptedLatest(s, h);
    AcceptedLatest(s, g);
    var ls := VerifyChains(s, h).value.value;
    forall w ensures Map(UnsignedOf, Chain(h, w)) == Map(UnsignedOf, Chain(g, w)) {
      LinkedIsChain(s, h, w);
      LinkedIsChain(s, g, w);
      SameChain(s, M, h, g, w, ls);
    }
  }

  lemma SameChain(s: Suite, M: set<bytes>, h: History, g: History, w: bytes, ls: History)
    requires OneFamilyHolds(s, M) && LineageMessages(h) + LineageMessages(g) <= M
    requires Linked(s, multiset(h)) && Linked(s, multiset(g))
    requires IsChain(s, Chain(h, w)) && IsChain(s, Chain(g, w))
    requires IsLatest(multiset(h), ls) && IsLatest(multiset(g), ls)
    ensures Map(UnsignedOf, Chain(h, w)) == Map(UnsignedOf, Chain(g, w))
  {
    hide OneFamilyHolds, Linked, Chain, IsChain, LineageMessages, Newest, ByWitness;
    var c, d := Chain(h, w), Chain(g, w);
    if c != [] { LastShared(s, h, g, w, ls); }
    if d != [] { LastShared(s, g, h, w, ls); }
    if c != [] && d != [] {
      SequencesCount(s, c, |c| - 1);
      SequencesCount(s, d, |d| - 1);
      RecordFixesItsPast(s, M, h, g, LastOf(h, w), LastOf(h, w));
      assert Map(UnsignedOf, c) == Map(UnsignedOf, d);
    }
  }

  /** The last record of w's chain in h is also the last of w's chain in g. */
  lemma LastShared(s: Suite, h: History, g: History, w: bytes, ls: History)
    requires IsChain(s, Chain(h, w)) && IsChain(s, Chain(g, w)) && Chain(h, w) != []
    requires IsLatest(multiset(h), ls) && IsLatest(multiset(g), ls)
    ensures Chain(g, w) != [] && LastOf(h, w) == LastOf(g, w)
    ensures LastOf(h, w) in h && LastOf(h, w) in g && LastOf(h, w).unsigned.witnessId == w
  {
    hide Chain, IsChain, Newest, ByWitness;
    var r := LastOf(h, w);
    LastIsNewest(s, h, w);
    MemberCount(h, r);
    assert r in ls;
    MemberCount(g, r);
    InRecordsOf(g, w, r);
    LastIsNewest(s, g, w);
  }
}
