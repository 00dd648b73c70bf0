/** When the form of a rejection depends on the order of a history (ctp/model.py). */
module ChainOrder {
  import opened Wrappers
  import opened Sorting
  import opened Bytes
  import opened HashSuite
  import opened Model
  import opened Chains
  import opened ChainProofs

  /** r is the k-th record of witness w in a history of these records. */
  predicate Numbered(m: multiset<SignedObservation>, w: bytes, k: int, r: SignedObservation) {
    r in m && r.unsigned.witnessId == w && r.unsigned.sequence == k
  }

  /** ... and no other record has that number. */
  ghost predicate OnlyNumbered(m: multiset<SignedObservation>, w: bytes, k: int, r: SignedObservation) {
    Numbered(m, w, k, r) && m[r] == 1 && forall q | Numbered(m, w, k, q) :: q == r
  }

  ghost predicate NoNegative(m: multiset<SignedObservation>, w: bytes) {
    forall q | q in m && q.unsigned.witnessId == w :: q.unsigned.sequence >= 0
  }

  /** The records 0 .. k-1 of w are there once each, linked and with canonical bytes; prev is the lineage id
      the next one has to name. */
  ghost predicate Ready(s: Suite, m: multiset<SignedObservation>, w: bytes, k: nat, prev: Option<DigestPair>)
    decreases k, 1
  {
    if k == 0 then prev == None else
    exists p :: ReadyBy(s, m, w, k, prev, p)
  }

  ghost predicate ReadyBy(s: Suite, m: multiset<SignedObservation>, w: bytes, k: nat, prev: Option<DigestPair>,
                          p: SignedObservation)
    requires k > 0
    decreases k, 0
  {
    && OnlyNumbered(m, w, k - 1, p) && Ready(s, m, w, k - 1, p.unsigned.previous)
    && Lineage(s, p.unsigned).Ok? && prev == Some(Lineage(s, p.unsigned).value)
  }

  /** Here the check goes on to a record that fits but has no canonical bytes. */
  ghost predicate RaisesAt(s: Suite, m: multiset<SignedObservation>, w: bytes, k: nat, prev: Option<DigestPair>,
                           r: SignedObservation)
  {
    && NoNegative(m, w) && Ready(s, m, w, k, prev) && Numbered(m, w, k, r)
    && r.unsigned.previous == prev && Lineage(s, r.unsigned).Raised?
  }

  /** Here the check meets a gap, a wrong link, or a number that is used again. */
  ghost predicate FailsAt(s: Suite, m: multiset<SignedObservation>, w: bytes, k: nat, prev: Option<DigestPair>,
                          r: SignedObservation)
  {
    && NoNegative(m, w) && Ready(s, m, w, k, prev) && r in m && r.unsigned.witnessId == w
    && if r.unsigned.sequence != k then r.unsigned.sequence > k && forall q :: !Numbered(m, w, k, q)
       else || r.unsigned.previous != prev
            || (Lineage(s, r.unsigned).Ok? && !OnlyNumbered(m, w, k, r))
  }

  ghost predicate SomeRaises(s: Suite, m: multiset<SignedObservation>) {
    exists w, k: nat, prev, r :: RaisesAt(s, m, w, k, prev, r)
  }

  ghost predicate Negative(m: multiset<SignedObservation>, r: SignedObservation) {
    r in m && r.unsigned.sequence < 0
  }

  ghost predicate SomeFails(s: Suite, m: multiset<SignedObservation>) {
    || (exists r :: Negative(m, r))
    || exists w, k: nat, prev, r :: FailsAt(s, m, w, k, prev, r)
  }

  // ---- what a check of one chain can come to ----

  /** c is the sorted chain of w in a history of the records m. */
  ghost predicate ChainOf(m: multiset<SignedObservation>, w: bytes, c: History) {
    && SortedBy(SequenceLeq, c)
    && forall x :: multiset(c)[x] == if x.unsigned.witnessId == w then m[x] else 0
  }

  lemma ChainIsChainOf(h: History, w: bytes)
    ensures ChainOf(multiset(h), w, Chain(h, w))
  {
    hide Chain, RecordsOf;
    SequenceOrder();
    SortedChain(h, w);
    forall x ensures multiset(Chain(h, w))[x] == if x.unsigned.witnessId == w then multiset(h)[x] else 0 {
      ChainCount(h, w, x);
    }
  }

  lemma SequenceOrder()
    ensures TotalPreorder(SequenceLeq)
  {
  }

  lemma SortedChain(h: History, w: bytes)
    ensures SortedBy(SequenceLeq, Chain(h, w))
  {
    hide RecordsOf;
    SequenceOrder();
    SortSorted(SequenceLeq, RecordsOf(h, w));
  }

  lemma InChain(m: multiset<SignedObservation>, w: bytes, c: History, r: SignedObservation)
    requires ChainOf(m, w, c)
    ensures r in c <==> r in m && r.unsigned.witnessId == w
  {
    MemberCount(c, r);
  }

  lemma NumberedAt(m: multiset<SignedObservation>, w: bytes, c: History, r: SignedObservation) returns (j: nat)
    requires ChainOf(m, w, c) && r in m && r.unsigned.witnessId == w
    ensures j < |c| && c[j] == r
  {
    InChain(m, w, c, r);
    j :| 0 <= j < |c| && c[j] == r;
  }

  /** Two positions of a chain with one number mean the number is not used once only. */
  lemma UsedTwice(m: multiset<SignedObservation>, w: bytes, c: History, i: nat, j: nat)
    requires ChainOf(m, w, c) && i < j < |c| && c[i].unsigned.sequence == c[j].unsigned.sequence
    ensures !OnlyNumbered(m, w, c[i].unsigned.sequence, c[i])
  {
    InChain(m, w, c, c[i]);
    InChain(m, w, c, c[j]);
    assert c[i] in c && c[j] in c;
    if c[i] == c[j] {
      CountedTwiceIn(c, i, j);
      assert m[c[i]] == multiset(c)[c[i]];
    } else {
      assert Numbered(m, w, c[i].unsigned.sequence, c[j]);
    }
  }

  /** A number used at one position of a chain only is used once only. */
  lemma UsedOnce(m: multiset<SignedObservation>, w: bytes, c: History, i: nat)
    requires ChainOf(m, w, c) && i < |c|
    requires forall j | 0 <= j < |c| && j != i :: c[j].unsigned.sequence != c[i].unsigned.sequence
    ensures OnlyNumbered(m, w, c[i].unsigned.sequence, c[i])
  {
    InChain(m, w, c, c[i]);
    CountedOnce(c, i);
    assert c[i] in c && multiset(c)[c[i]] == 1;
    assert c[i].unsigned.witnessId == w && m[c[i]] == 1;
    forall q | Numbered(m, w, c[i].unsigned.sequence, q) ensures q == c[i] {
      var j := NumberedAt(m, w, c, q);
      assert j == i;
    }
  }

  /** The first k records passed, each with its own position as its number. */
  ghost predicate Passed(s: Suite, c: History, k: nat) {
    && k <= |c|
    && forall i | 0 <= i < k :: PassedOne(s, c, i)
  }

  ghost predicate PassedOne(s: Suite, c: History, i: nat)
    requires i < |c|
  {
    c[i].unsigned.sequence == i && c[i].unsigned.previous == IdBefore(s, c, i) && Lineage(s, c[i].unsigned).Ok?
  }

  /** Passed, and no later record repeats one of the numbers: the records are ready. */
  lemma {:induction false} PassedReady(s: Suite, m: multiset<SignedObservation>, w: bytes, c: History, k: nat)
    requires ChainOf(m, w, c) && Passed(s, c, k) && (k < |c| ==> c[k].unsigned.sequence >= k)
    ensures Ready(s, m, w, k, IdBefore(s, c, k))
  {
    hide Lineage, Ready, OnlyNumbered, ChainOf;
    if k == 0 {
      ReadyNone(s, m, w);
    } else {
      var p := c[k - 1];
      assert PassedOne(s, c, k - 1);
      forall j | 0 <= j < k ensures c[j].unsigned.sequence == j { assert PassedOne(s, c, j); }
      Later(m, w, c, k - 1);
      UsedOnce(m, w, c, k - 1);
      PassedReady(s, m, w, c, k - 1);
      assert ReadyBy(s, m, w, k, IdBefore(s, c, k), p);
      ReadySome(s, m, w, k, IdBefore(s, c, k), p);
    }
  }

  lemma ReadyNone(s: Suite, m: multiset<SignedObservation>, w: bytes)
    ensures Ready(s, m, w, 0, None)
  {
  }

  lemma ReadySome(s: Suite, m: multiset<SignedObservation>, w: bytes, k: nat, prev: Option<DigestPair>,
                  p: SignedObservation)
    requires k > 0 && ReadyBy(s, m, w, k, prev, p)
    ensures Ready(s, m, w, k, prev)
  {
  }

  /** Positions after i + 1 hold no smaller number than position i + 1 does. */
  lemma Later(m: multiset<SignedObservation>, w: bytes, c: History, i: nat)
    requires ChainOf(m, w, c) && i < |c|
    requires forall j | 0 <= j <= i :: c[j].unsigned.sequence == j
    requires i + 1 < |c| ==> c[i + 1].unsigned.sequence >= i + 1
    ensures forall j | 0 <= j < |c| && j != i :: c[j].unsigned.sequence != c[i].unsigned.sequence
  {
    forall j | i + 1 < j < |c| ensures c[j].unsigned.sequence >= i + 1 {
      assert SequenceLeq(c[i + 1], c[j]);
    }
  }

  lemma ChainNoNegative(m: multiset<SignedObservation>, w: bytes, c: History)
    requires ChainOf(m, w, c) && c != [] && c[0].unsigned.sequence >= 0
    ensures NoNegative(m, w)
  {
    forall q | q in m && q.unsigned.witnessId == w ensures q.unsigned.sequence >= 0 {
      var j := NumberedAt(m, w, c, q);
      if j > 0 { assert SequenceLeq(c[0], c[j]); }
    }
  }

  lemma NoneNumbered(m: multiset<SignedObservation>, w: bytes, c: History, k: nat)
    requires ChainOf(m, w, c) && k < |c| && c[k].unsigned.sequence > k
    requires forall i | 0 <= i < k :: c[i].unsigned.sequence == i
    ensures forall q :: !Numbered(m, w, k, q)
  {
    forall i | k < i < |c| ensures c[i].unsigned.sequence > k { assert SequenceLeq(c[k], c[i]); }
    forall q ensures !Numbered(m, w, k, q) {
      if Numbered(m, w, k, q) { var j := NumberedAt(m, w, c, q); }
    }
  }

  lemma PassedNumbers(s: Suite, c: History, k: nat)
    requires Passed(s, c, k)
    ensures forall i | 0 <= i < k :: c[i].unsigned.sequence == i
  {
    hide Lineage;
    forall i | 0 <= i < k ensures c[i].unsigned.sequence == i { assert PassedOne(s, c, i); }
  }

  lemma PassedFewer(s: Suite, c: History, k: nat)
    requires Passed(s, c, k) && k > 0
    ensures Passed(s, c, k - 1) && PassedOne(s, c, k - 1)
  {
    hide PassedOne;
  }

  /** The check stops at record k, and what it stops for is there for every order to see. */
  lemma StopsAt(s: Suite, m: multiset<SignedObservation>, w: bytes, c: History, k: nat)
    requires ChainOf(m, w, c) && Passed(s, c, k) && k < |c| && !PassedOne(s, c, k)
    ensures CheckFrom(s, c, k, IdBefore(s, c, k)).Raised? ==> SomeRaises(s, m)
    ensures CheckFrom(s, c, k, IdBefore(s, c, k)) == Ok(false) ==> SomeFails(s, m)
  {
    hide Lineage, Ready, OnlyNumbered, ChainOf;
    var r, prev := c[k], IdBefore(s, c, k);
    InChain(m, w, c, r);
    PassedNumbers(s, c, k);
    if r.unsigned.sequence < 0 {
      assert Negative(m, r);
    } else {
      if k > 0 { InOrder(m, w, c, k - 1); }
      ChainNoNegative(m, w, c);
      if r.unsigned.sequence >= k {
        PassedReady(s, m, w, c, k);
        if r.unsigned.sequence > k {
          NoneNumbered(m, w, c, k);
          assert FailsAt(s, m, w, k, prev, r);
        } else if r.unsigned.previous != prev {
          assert FailsAt(s, m, w, k, prev, r);
        } else {
          assert RaisesAt(s, m, w, k, prev, r);
        }
      } else {
        PassedFewer(s, c, k);
        InChain(m, w, c, c[k - 1]);
        PassedReady(s, m, w, c, k - 1);
        UsedTwice(m, w, c, k - 1, k);
        assert FailsAt(s, m, w, k - 1, IdBefore(s, c, k - 1), c[k - 1]);
      }
    }
  }

  lemma InOrder(m: multiset<SignedObservation>, w: bytes, c: History, i: nat)
    requires ChainOf(m, w, c) && i + 1 < |c|
    ensures c[i].unsigned.sequence <= c[i + 1].unsigned.sequence
  {
    assert SequenceLeq(c[i], c[i + 1]);
  }

  lemma {:induction false} CheckOutcome(s: Suite, m: multiset<SignedObservation>, w: bytes, c: History, k: nat)
    requires ChainOf(m, w, c) && Passed(s, c, k)
    ensures CheckFrom(s, c, k, IdBefore(s, c, k)).Raised? ==> SomeRaises(s, m)
    ensures CheckFrom(s, c, k, IdBefore(s, c, k)) == Ok(false) ==> SomeFails(s, m)
    decreases |c| - k
  {
    hide Lineage, ChainOf, SomeRaises, SomeFails;
    if k < |c| {
      if PassedOne(s, c, k) { CheckOutcome(s, m, w, c, k + 1); } else { StopsAt(s, m, w, c, k); }
    }
  }

  /** If a history is answered by an exception, some record raises; if by False, something fails. */
  lemma {:induction false} AllOutcome(s: Suite, h: History, ws: seq<bytes>)
    requires forall w | w in ws :: RecordsOf(h, w) != []
    ensures CheckAll(s, h, ws).Raised? ==> SomeRaises(s, multiset(h))
    ensures CheckAll(s, h, ws) == Ok(None) ==> SomeFails(s, multiset(h))
  {
    hide Chain, RecordsOf, CheckFrom, SomeRaises, SomeFails, ChainOf;
    if ws != [] {
      ChainIsChainOf(h, ws[0]);
      CheckOutcome(s, multiset(h), ws[0], Chain(h, ws[0]), 0);
      AllOutcome(s, h, ws[1..]);
    }
  }

  lemma Outcome(s: Suite, h: History)
    ensures VerifyChains(s, h).Raised? ==> SomeRaises(s, multiset(h))
    ensures VerifyChains(s, h) == Ok(None) ==> SomeFails(s, multiset(h))
  {
    hide SomeRaises, SomeFails, CheckAll, WitnessesOf, RecordsOf;
    WitnessesHaveRecords(h);
    AllOutcome(s, h, WitnessesOf(h));
  }

  // ---- and every such outcome is reached by some order ----

  /** The history with its i-th record first. */
  function Front(h: History, i: nat): (g: History)
    requires i < |h|
    ensures multiset(g) == multiset(h) && g != [] && g[0] == h[i]
  {
    assert h == h[..i] + [h[i]] + h[i + 1..];
    [h[i]] + (h[..i] + h[i + 1..])
  }

  lemma {:induction false} FirstInLine(g: History)
    requires g != []
    ensures WitnessesOf(g) != [] && WitnessesOf(g)[0] == g[0].unsigned.witnessId
    decreases |g|
  {
    var n := |g| - 1;
    if n == 0 {
      assert g[..0] == [];
      assert WitnessesOf(g[..0]) == [];
    } else {
      assert g[..n][0] == g[0];
      FirstInLine(g[..n]);
    }
  }

  lemma {:induction false} RecordsFront(r: SignedObservation, rest: History)
    ensures RecordsOf([r] + rest, r.unsigned.witnessId) == [r] + RecordsOf(rest, r.unsigned.witnessId)
    decreases |rest|
  {
    var g, w, n := [r] + rest, r.unsigned.witnessId, |rest|;
    if n == 0 {
      assert g == [r] && g[..0] == [];
      assert RecordsOf(g[..0], w) == [];
    } else {
      assert g[..|g| - 1] == [r] + rest[..n - 1];
      RecordsFront(r, rest[..n - 1]);
    }
  }

  /** r stands before every other record of its number. */
  ghost predicate FirstOfTies(c: History, r: SignedObservation) {
    exists j :: LeadsAt(c, r, j)
  }

  ghost predicate LeadsAt(c: History, r: SignedObservation, j: int) {
    0 <= j < |c| && c[j] == r && forall i | 0 <= i < j :: c[i].unsigned.sequence < r.unsigned.sequence
  }

  lemma {:induction false} InsertLeads(r: SignedObservation, t: History) returns (j: nat)
    ensures LeadsAt(Insert(SequenceLeq, r, t), r, j)
  {
    if t == [] || SequenceLeq(r, t[0]) {
      j := 0;
    } else {
      var i := InsertLeads(r, t[1..]);
      j := i + 1;
      var c := Insert(SequenceLeq, r, t[1..]);
      assert Insert(SequenceLeq, r, t) == [t[0]] + c;
    }
  }

  /** With a record moved to the front its witness is checked first, and it comes before its ties. */
  lemma FrontLeads(h: History, i: nat)
    requires i < |h|
    ensures var g, w := Front(h, i), h[i].unsigned.witnessId;
      && WitnessesOf(g) != [] && WitnessesOf(g)[0] == w && FirstOfTies(Chain(g, w), h[i])
  {
    hide WitnessesOf, RecordsOf, Insert;
    var g, r := Front(h, i), h[i];
    FirstInLine(g);
    RecordsFront(r, g[1..]);
    assert g == [r] + g[1..];
    var rest := RecordsOf(g[1..], r.unsigned.witnessId);
    assert ([r] + rest)[1..] == rest;
    var j := InsertLeads(r, Sort(SequenceLeq, rest));
  }

  /** What the first witness's chain comes to is what the history comes to. */
  lemma FirstChainDecides(s: Suite, g: History)
    requires WitnessesOf(g) != []
    ensures var c := CheckFrom(s, Chain(g, WitnessesOf(g)[0]), 0, None);
      (c.Raised? ==> VerifyChains(s, g).Raised?) && (c == Ok(false) ==> VerifyChains(s, g) == Ok(None))
  {
    hide WitnessesOf, RecordsOf, Chain, CheckFrom;
    WitnessesHaveRecords(g);
  }

  lemma {:induction false} CheckSkips(s: Suite, c: History, k: nat)
    requires Passed(s, c, k)
    ensures CheckFrom(s, c, 0, None) == CheckFrom(s, c, k, IdBefore(s, c, k))
    decreases k
  {
    hide Lineage;
    if k > 0 {
      PassedFewer(s, c, k);
      CheckSkips(s, c, k - 1);
    }
  }

  ghost predicate AloneAt(c: History, i: nat) {
    forall j | 0 <= j < |c| && j != i :: c[j].unsigned.sequence != i
  }

  /** In every order the ready records come first, each at its own place. */
  lemma {:induction false} ReadyPassed(s: Suite, m: multiset<SignedObservation>, w: bytes, c: History, k: nat,
                                       prev: Option<DigestPair>)
    requires ChainOf(m, w, c) && NoNegative(m, w) && Ready(s, m, w, k, prev)
    ensures Passed(s, c, k) && prev == IdBefore(s, c, k)
    ensures forall i | 0 <= i < k :: AloneAt(c, i)
    decreases k
  {
    hide Lineage, ChainOf, OnlyNumbered;
    if k > 0 {
      var p :| ReadyBy(s, m, w, k, prev, p);
      ReadyPassed(s, m, w, c, k - 1, p.unsigned.previous);
      PlacedAt(s, m, w, c, k - 1, p);
      assert PassedOne(s, c, k - 1);
    }
  }

  lemma PlacedAt(s: Suite, m: multiset<SignedObservation>, w: bytes, c: History, k: nat, p: SignedObservation)
    requires ChainOf(m, w, c) && NoNegative(m, w) && Passed(s, c, k) && OnlyNumbered(m, w, k, p)
    requires forall i | 0 <= i < k :: AloneAt(c, i)
    ensures k < |c| && c[k] == p && p.unsigned.sequence == k && AloneAt(c, k)
  {
    hide Lineage;
    PassedNumbers(s, c, k);
    var j := NumberedAt(m, w, c, p);
    NextNumber(s, m, w, c, k, j);
    InChain(m, w, c, c[k]);
    assert Numbered(m, w, k, c[k]);
    forall i | 0 <= i < |c| && i != k ensures c[i].unsigned.sequence != k {
      if k < i && c[i].unsigned.sequence == k { UsedTwice(m, w, c, k, i); }
    }
  }

  /** Behind k settled records a record of number at least k stands at k or later, and record k has at
      least that number. */
  lemma NextNumber(s: Suite, m: multiset<SignedObservation>, w: bytes, c: History, k: nat, j: nat)
    requires ChainOf(m, w, c) && NoNegative(m, w) && Passed(s, c, k) && j < |c| && c[j].unsigned.sequence >= k
    requires forall i | 0 <= i < k :: AloneAt(c, i)
    ensures k <= j && k <= c[k].unsigned.sequence <= c[j].unsigned.sequence
  {
    hide Lineage;
    PassedNumbers(s, c, k);
    InChain(m, w, c, c[k]);
    if j > k { assert SequenceLeq(c[k], c[j]); }
    var n := c[k].unsigned.sequence;
    assert 0 <= n < k ==> AloneAt(c, n);
  }

  lemma LeaderPlaced(s: Suite, m: multiset<SignedObservation>, w: bytes, c: History, k: nat, r: SignedObservation)
    requires ChainOf(m, w, c) && NoNegative(m, w) && Passed(s, c, k) && FirstOfTies(c, r) && r.unsigned.sequence == k
    requires forall i | 0 <= i < k :: AloneAt(c, i)
    ensures k < |c| && c[k] == r
  {
    hide Lineage, ChainOf;
    var j :| LeadsAt(c, r, j);
    NextNumber(s, m, w, c, k, j);
  }

  lemma RaiseReached(s: Suite, m: multiset<SignedObservation>, w: bytes, c: History, k: nat, prev: Option<DigestPair>,
                     r: SignedObservation)
    requires ChainOf(m, w, c) && FirstOfTies(c, r) && RaisesAt(s, m, w, k, prev, r)
    ensures CheckFrom(s, c, 0, None).Raised?
  {
    hide Lineage, ChainOf, FirstOfTies, Ready;
    ReadyPassed(s, m, w, c, k, prev);
    LeaderPlaced(s, m, w, c, k, r);
    CheckSkips(s, c, k);
  }

  lemma FailReached(s: Suite, m: multiset<SignedObservation>, w: bytes, c: History, k: nat, prev: Option<DigestPair>,
                    r: SignedObservation)
    requires ChainOf(m, w, c) && FirstOfTies(c, r) && FailsAt(s, m, w, k, prev, r)
    ensures CheckFrom(s, c, 0, None) == Ok(false)
  {
    hide Lineage, ChainOf, FirstOfTies, Ready, OnlyNumbered;
    ReadyPassed(s, m, w, c, k, prev);
    CheckSkips(s, c, k);
    var j := NumberedAt(m, w, c, r);
    NextNumber(s, m, w, c, k, j);
    InChain(m, w, c, c[k]);
    if r.unsigned.sequence != k {
      assert !Numbered(m, w, k, c[k]);
    } else {
      LeaderPlaced(s, m, w, c, k, r);
      if r.unsigned.previous == prev { TieFails(s, m, w, c, k); }
    }
  }

  lemma TieFails(s: Suite, m: multiset<SignedObservation>, w: bytes, c: History, k: nat)
    requires ChainOf(m, w, c) && Passed(s, c, k) && k < |c| && PassedOne(s, c, k) && !OnlyNumbered(m, w, k, c[k])
    ensures CheckFrom(s, c, k, IdBefore(s, c, k)) == Ok(false)
  {
    hide Lineage, OnlyNumbered;
    PassedNumbers(s, c, k);
    if forall j | 0 <= j < |c| && j != k :: c[j].unsigned.sequence != k { UsedOnce(m, w, c, k); }
    var j :| 0 <= j < |c| && j != k && c[j].unsigned.sequence == k;
    if j > k + 1 { assert SequenceLeq(c[k + 1], c[j]); }
    assert SequenceLeq(c[k], c[k + 1]);
  }

  lemma NegativeReached(s: Suite, m: multiset<SignedObservation>, w: bytes, c: History, r: SignedObservation)
    requires ChainOf(m, w, c) && Negative(m, r) && r.unsigned.witnessId == w
    ensures CheckFrom(s, c, 0, None) == Ok(false)
  {
    var j := NumberedAt(m, w, c, r);
    if j > 0 { assert SequenceLeq(c[0], c[j]); }
  }

  // ---- the exact condition ----

  lemma RaisesSomewhere(s: Suite, h: History) returns (g: History)
    requires SomeRaises(s, multiset(h))
    ensures multiset(g) == multiset(h) && VerifyChains(s, g).Raised?
  {
    hide Chain, CheckFrom, VerifyChains, WitnessesOf, RaisesAt, FirstOfTies, ChainOf, Front;
    var w, k: nat, prev, r :| RaisesAt(s, multiset(h), w, k, prev, r);
    RaiserIn(s, multiset(h), w, k, prev, r);
    var i :| 0 <= i < |h| && h[i] == r;
    g := Front(h, i);
    FrontLeads(h, i);
    ChainIsChainOf(g, w);
    RaiseReached(s, multiset(g), w, Chain(g, w), k, prev, r);
    FirstChainDecides(s, g);
  }

  lemma RaiserIn(s: Suite, m: multiset<SignedObservation>, w: bytes, k: nat, prev: Option<DigestPair>,
                 r: SignedObservation)
    requires RaisesAt(s, m, w, k, prev, r) || FailsAt(s, m, w, k, prev, r)
    ensures r in m && r.unsigned.witnessId == w
  {
  }

  lemma FailsSomewhere(s: Suite, h: History) returns (g: History)
    requires SomeFails(s, multiset(h))
    ensures multiset(g) == multiset(h) && VerifyChains(s, g) == Ok(None)
  {
    hide Chain, CheckFrom, VerifyChains, WitnessesOf, FailsAt, FirstOfTies, ChainOf, Front;
    if r :| Negative(multiset(h), r) {
      var i :| 0 <= i < |h| && h[i] == r;
      var w := r.unsigned.witnessId;
      g := Front(h, i);
      FrontLeads(h, i);
      ChainIsChainOf(g, w);
      NegativeReached(s, multiset(g), w, Chain(g, w), r);
    } else {
      var w, k: nat, prev, r :| FailsAt(s, multiset(h), w, k, prev, r);
      RaiserIn(s, multiset(h), w, k, prev, r);
      var i :| 0 <= i < |h| && h[i] == r;
      g := Front(h, i);
      FrontLeads(h, i);
      ChainIsChainOf(g, w);
      FailReached(s, multiset(g), w, Chain(g, w), k, prev, r);
    }
    FirstChainDecides(s, g);
  }

  ghost predicate SameForAllOrders(s: Suite, h: History) {
    forall g: History | multiset(g) == multiset(h) :: VerifyChains(s, g) == VerifyChains(s, h)
  }

  /** The whole answer, exceptions included, is independent of the order of the history exactly when the
      records do not hold both: one that the check of its chain comes to and that has no canonical bytes,
      and a gap, wrong link or repeated number that the check of a chain comes to. */
  lemma AnswerForgetsOrderIff(s: Suite, h: History)
    ensures SameForAllOrders(s, h) <==> !(SomeRaises(s, multiset(h)) && SomeFails(s, multiset(h)))
  {
    hide VerifyChains, SomeRaises, SomeFails;
    if SomeRaises(s, multiset(h)) && SomeFails(s, multiset(h)) {
      var a := RaisesSomewhere(s, h);
      var b := FailsSomewhere(s, h);
      assert VerifyChains(s, a) != VerifyChains(s, b);
    } else {
      forall g: History | multiset(g) == multiset(h) ensures VerifyChains(s, g) == VerifyChains(s, h) {
        Outcome(s, g);
        Outcome(s, h);
        Accepted(s, g, h);
        Accepted(s, h, g);
      }
    }
  }

  lemma Accepted(s: Suite, g: History, h: History)
    requires multiset(g) == multiset(h)
    ensures VerifyChains(s, g).Ok? && VerifyChains(s, g).value.Some? ==> VerifyChains(s, h) == VerifyChains(s, g)
  {
    hide VerifyChains;
    if VerifyChains(s, g).Ok? && VerifyChains(s, g).value.Some? { AcceptanceForgetsOrder(s, g, h); }
  }

  /** In particular it is whenever every record has canonical bytes. */
  lemma CanonicalForgetsOrder(s: Suite, h: History)
    requires forall r | r in h :: Canonical(r.unsigned).Ok?
    ensures SameForAllOrders(s, h)
  {
    hide SomeFails, Canonical, VerifyChains, SameForAllOrders;
    AnswerForgetsOrderIff(s, h);
    if SomeRaises(s, multiset(h)) {
      var w, k: nat, prev, r :| RaisesAt(s, multiset(h), w, k, prev, r);
      MemberCount(h, r);
    }
  }
}
