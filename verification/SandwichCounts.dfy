/** How the observations and the blobs of a passing sandwich bundle pair up (ctp/sandwich.py). */
module SandwichCounts {
  import opened Bytes
  import opened Sorting
  import opened Cbor
  import opened HashSuite
  import opened Records
  import opened Model
  import opened Chains
  import ChainProofs
  import opened Sandwich
  import opened SandwichProofs

  // ---- counting without repetition ----

  ghost predicate NoRepeats<T>(s: seq<T>) {
    forall i, j | 0 <= i < j < |s| :: s[i] != s[j]
  }

  function Members<T>(s: seq<T>): set<T> {
    set x | x in s
  }

  /** A list has as many members as places exactly when nothing in it is repeated. */
  lemma {:induction false} MembersCount<T>(s: seq<T>)
    ensures |Members(s)| <= |s|
    ensures |Members(s)| == |s| <==> NoRepeats(s)
  {
    if s != [] {
      var n := |s| - 1;
      var front, last := s[..n], s[n];
      MembersCount(front);
      assert s == front + [last];
      assert Members(s) == Members(front) + {last};
      if NoRepeats(front) && last !in front { assert NoRepeats(s); }
      if NoRepeats(s) {
        assert forall i | 0 <= i < n :: front[i] == s[i];
        assert last !in front;
      }
    }
  }

  lemma SubsetOfSameSize<T>(a: set<T>, b: set<T>)
    requires a <= b
    ensures |a| <= |b|
    ensures |a| == |b| ==> a == b
  {
    assert b == a + (b - a);
  }

  /** Of two lists of one length, the first drawn from the second, the first is without repetition exactly
      when the second is and is used up. */
  lemma Pigeonhole<T>(c: seq<T>, k: seq<T>)
    requires |c| == |k| && Members(c) <= Members(k)
    ensures NoRepeats(c) <==> NoRepeats(k) && Members(k) <= Members(c)
  {
    hide NoRepeats, Members;
    MembersCount(c);
    MembersCount(k);
    SubsetOfSameSize(Members(c), Members(k));
    if Members(k) <= Members(c) { assert Members(k) == Members(c); }
  }

  // ---- the blobs that are counted ----

  /** The blobs that an observation should cite, in order. */
  function Measurable(env: Env, b: Bundle, s: Session, blobs: seq<bytes>): seq<bytes> {
    if blobs == [] then []
    else (if IsExternal(ReadBlob(env, b, s, blobs[0])) then [] else [blobs[0]]) + Measurable(env, b, s, blobs[1..])
  }

  lemma {:induction false} MeasurableIff(env: Env, b: Bundle, s: Session, blobs: seq<bytes>, x: bytes)
    ensures x in Measurable(env, b, s, blobs) <==> x in blobs && !IsExternal(ReadBlob(env, b, s, x))
    decreases blobs
  {
    hide ReadBlob, IsExternal;
    if blobs != [] {
      MeasurableIff(env, b, s, blobs[1..], x);
      assert blobs == [blobs[0]] + blobs[1..];
    }
  }

  lemma AbsorbCounts(env: Env, b: Bundle, s: Session, e: Evidence, blob: bytes)
    ensures Absorb(env.base.suite, e, blob, ReadBlob(env, b, s, blob)).flags.externals
         == e.flags.externals + (if IsExternal(ReadBlob(env, b, s, blob)) then 1 else 0)
  {
    hide ReadBlob, KeyOf, IndexAfter, PutRecord, FlagsAfter, Seen, EXTERNAL;
    var r := ReadBlob(env, b, s, blob);
    if r.Read? {
      var seen := Seen(e.flags.(bind := e.flags.bind && r.bound), r.typ);
      SeenCounts(e.flags.(bind := e.flags.bind && r.bound), r.typ);
      if r.content.Ok? { FlagsKeepCount(seen, r.content.value); }
    }
  }

  lemma SeenCounts(f: Flags, typ: Value)
    ensures Seen(f, typ).externals == f.externals + (if typ == Str(EXTERNAL) then 1 else 0)
  {
    hide Ascii, Seen;
    if typ == Str(CAMERA) || typ == Str(ROUGHTIME) { TypesDiffer(); }
    SeenKeeps(f, typ);
  }

  lemma SeenKeeps(f: Flags, typ: Value)
    ensures typ == Str(CAMERA) || typ == Str(ROUGHTIME) ==> Seen(f, typ).externals == f.externals
    ensures typ != Str(CAMERA) && typ != Str(ROUGHTIME) ==>
      Seen(f, typ).externals == f.externals + (if typ == Str(EXTERNAL) then 1 else 0)
  {
    hide Ascii;
  }

  lemma FlagsKeepCount(f: Flags, c: Content)
    ensures FlagsAfter(f, c).externals == f.externals
  {
    if c.Ntp? {
    } else if c.Camera? {
    } else if c.Signed? {
    } else if c.External? {
    } else if c.NotText? {
    }
  }

  lemma {:induction false} ExternalsCounted(env: Env, b: Bundle, s: Session, blobs: seq<bytes>, e: Evidence)
    ensures ReadAll(env, b, s, blobs, e).flags.externals + |Measurable(env, b, s, blobs)| == e.flags.externals + |blobs|
    decreases blobs
  {
    hide ReadBlob, Absorb, IsExternal;
    if blobs != [] {
      AbsorbCounts(env, b, s, e, blobs[0]);
      ExternalsCounted(env, b, s, blobs[1..], Absorb(env.base.suite, e, blobs[0], ReadBlob(env, b, s, blobs[0])));
    }
  }

  // ---- citations ----

  ghost predicate CitedOnce(h: History) {
    forall i, j | 0 <= i < j < |h| :: Cited(h[i].unsigned) !! Cited(h[j].unsigned)
  }

  ghost predicate IsCited(s: Suite, h: History, blob: bytes) {
    exists i :: 0 <= i < |h| && KeyOf(s, blob) in Cited(h[i].unsigned)
  }

  ghost predicate AllCited(s: Suite, h: History, blobs: seq<bytes>) {
    forall x | x in blobs :: IsCited(s, h, x)
  }

  /** The digest an observation's first source cites. */
  function FirstCited(o: SignedObservation): DigestPair {
    if o.unsigned.sources == [] then ChainProofs.NO_DIGEST else o.unsigned.sources[0].evidence
  }

  ghost predicate CiteOne(h: History) {
    forall i | 0 <= i < |h| :: Cited(h[i].unsigned) == {FirstCited(h[i])}
  }

  lemma OneKey(o: SignedObservation, key: DigestPair)
    requires Cited(o.unsigned) == {key}
    ensures FirstCited(o) == key
  {
    var x :| x in o.unsigned.sources;
    assert o.unsigned.sources[0] in o.unsigned.sources;
    assert o.unsigned.sources[0].evidence in Cited(o.unsigned);
  }

  lemma CitedOnceIff(h: History)
    requires CiteOne(h)
    ensures CitedOnce(h) <==> NoRepeats(Map(FirstCited, h))
  {
    hide Cited;
    var c := Map(FirstCited, h);
    if CitedOnce(h) {
      forall i, j | 0 <= i < j < |c| ensures c[i] != c[j] {
        assert Cited(h[i].unsigned) !! Cited(h[j].unsigned) && c[i] in Cited(h[i].unsigned);
      }
    }
    if NoRepeats(c) {
      forall i, j | 0 <= i < j < |h| ensures Cited(h[i].unsigned) !! Cited(h[j].unsigned) {
        assert c[i] != c[j];
      }
    }
  }

  lemma AllCitedIff(s: Suite, h: History, blobs: seq<bytes>, key: bytes -> DigestPair)
    requires CiteOne(h) && forall x :: key(x) == KeyOf(s, x)
    ensures AllCited(s, h, blobs) <==> Members(Map(key, blobs)) <= Members(Map(FirstCited, h))
  {
    hide Cited, KeyOf;
    var c, k := Map(FirstCited, h), Map(key, blobs);
    if AllCited(s, h, blobs) {
      forall x | x in k ensures x in c {
        var i :| 0 <= i < |k| && k[i] == x;
        assert IsCited(s, h, blobs[i]);
        var n :| 0 <= n < |h| && KeyOf(s, blobs[i]) in Cited(h[n].unsigned);
        assert c[n] == x;
      }
    }
    if Members(k) <= Members(c) {
      forall x | x in blobs ensures IsCited(s, h, x) {
        var i :| 0 <= i < |blobs| && blobs[i] == x;
        assert k[i] in Members(k) && k[i] in c;
        var n :| 0 <= n < |c| && c[n] == k[i];
        assert KeyOf(s, x) in Cited(h[n].unsigned);
      }
    }
  }

  lemma KeysDiffer(s: Suite, all: seq<bytes>, blobs: seq<bytes>, key: bytes -> DigestPair)
    requires OneFamilyHolds(s, EvidenceMessages(all)) && (forall x | x in blobs :: x in all)
    requires forall x :: key(x) == KeyOf(s, x)
    ensures NoRepeats(Map(key, blobs)) <==> NoRepeats(blobs)
  {
    hide OneFamilyHolds, Framed;
    var k := Map(key, blobs);
    if NoRepeats(blobs) {
      forall i, j | 0 <= i < j < |k| ensures k[i] != k[j] {
        assert blobs[i] in all && blobs[j] in all && blobs[i] != blobs[j];
        var M := EvidenceMessages(all);
        assert Framed(DOM_EVIDENCE, blobs[i]) in M && Framed(DOM_EVIDENCE, blobs[j]) in M;
        if k[i] == k[j] { PairBinds(s, M, DOM_EVIDENCE, blobs[i], DOM_EVIDENCE, blobs[j]); }
      }
    }
    if NoRepeats(k) {
      forall i, j | 0 <= i < j < |blobs| ensures blobs[i] != blobs[j] { assert k[i] != k[j]; }
    }
  }

  /** The counts of a passing bundle compare numbers only.  Exactly when no two observations cite one blob
      do they pair observations and blobs up: every blob with a measurement, or with an extension to answer
      for it, is cited, and none is repeated. */
  lemma PairedIff(env: Env, b: Bundle)
    requires Sound(env, b) && BundleHolds(env, b)
    requires OneFamilyHolds(env.base.suite, EvidenceMessages(b.evidence))
    ensures SessionOf(env, b).Ok?
    ensures var blobs := Measurable(env, b, SessionOf(env, b).value, b.evidence);
      && |blobs| == |b.history|
      && (CitedOnce(b.history) <==> AllCited(env.base.suite, b.history, blobs) && NoRepeats(blobs))
  {
    hide Sound, BundleHolds, OneFamilyHolds, SessionOf, ReadBlob, Find, CitedOnce, AllCited, NoRepeats, Measurable,
         Cited, IsExternal, KeyOf, EvidenceMessages;
    FindOk(env, b);
    var s, h := SessionOf(env, b).value, b.history;
    var blobs := Measurable(env, b, s, b.evidence);
    var key := x => KeyOf(env.base.suite, x);
    CountsAgree(env, b);
    forall x ensures x in blobs <==> x in b.evidence && !IsExternal(ReadBlob(env, b, s, x)) {
      MeasurableIff(env, b, s, b.evidence, x);
    }
    var c, k := Map(FirstCited, h), Map(key, blobs);
    forall i | 0 <= i < |h|
      ensures Cited(h[i].unsigned) == {FirstCited(h[i])} && c[i] in k
    {
      var j := BlobOf(env, b, i);
      OneKey(h[i], KeyOf(env.base.suite, b.evidence[j]));
      assert b.evidence[j] in blobs;
      var n :| 0 <= n < |blobs| && blobs[n] == b.evidence[j];
      assert k[n] == c[i];
    }
    CitedOnceIff(h);
    AllCitedIff(env.base.suite, h, blobs, key);
    KeysDiffer(env.base.suite, b.evidence, blobs, key);
    Pigeonhole(c, k);
  }

  lemma CountsAgree(env: Env, b: Bundle)
    requires Sound(env, b) && SessionOf(env, b).Ok?
    ensures |Measurable(env, b, SessionOf(env, b).value, b.evidence)| == |b.history|
  {
    hide ReadBlob, ReadAll, TallyAll, Origin, Contiguous, Expected, Measurable, IsExternal, SessionOf;
    ExternalsCounted(env, b, SessionOf(env, b).value, b.evidence, NOTHING_READ);
  }
}
