/** Quorum-supported regions over integer picoseconds and the consensus rule (ctp/interval.py). */
module Intervals {
  import opened Wrappers
  import opened Sorting

  datatype Span = Span(lower: int, upper: int) {
    predicate Contains(t: int) {
      lower <= t <= upper
    }
  }

  /** An Interval cannot be constructed with lower > upper. */
  type Interval = s: Span | s.lower <= s.upper witness Span(0, 0)

  /** How many of the intervals contain t. */
  function Support(ivs: seq<Interval>, t: int): (n: nat)
    ensures n <= |ivs|
  {
    if ivs == [] then 0 else (if ivs[0].Contains(t) then 1 else 0) + Support(ivs[1..], t)
  }

  // ---- what the regions are ----

  ghost predicate InRuns(runs: seq<Interval>, t: int) {
    exists i | 0 <= i < |runs| :: runs[i].Contains(t)
  }

  /** In increasing order, with at least one integer between a run and the next. */
  ghost predicate Separated(runs: seq<Interval>) {
    forall i, j | 0 <= i < j < |runs| :: runs[i].upper + 1 < runs[j].lower
  }

  /** The maximal integer runs of { t | Support(t) >= q }. */
  ghost predicate AreRegions(ivs: seq<Interval>, q: int, runs: seq<Interval>) {
    Separated(runs) && forall t :: InRuns(runs, t) <==> Support(ivs, t) >= q
  }

  /** A set of integers is cut into maximal runs in one way only. */
  lemma {:induction false} RunsUnique(a: seq<Interval>, b: seq<Interval>)
    requires Separated(a) && Separated(b) && forall t :: InRuns(a, t) <==> InRuns(b, t)
    ensures a == b
  {
    if a == [] {
      if b != [] { assert b[0].Contains(b[0].lower) && InRuns(b, b[0].lower); }
    } else {
      FirstRunNotLater(a, b);
      FirstRunNotLater(b, a);
      FirstRunNotShorter(a, b);
      FirstRunNotShorter(b, a);
      forall t ensures InRuns(a[1..], t) <==> InRuns(b[1..], t) {
        LaterRuns(a, t);
        LaterRuns(b, t);
      }
      RunsUnique(a[1..], b[1..]);
      assert a == [a[0]] + a[1..] && b == [b[0]] + b[1..];
    }
  }

  lemma FirstRunNotLater(a: seq<Interval>, b: seq<Interval>)
    requires a != [] && Separated(b) && forall t :: InRuns(a, t) <==> InRuns(b, t)
    ensures b != [] && b[0].lower <= a[0].lower
  {
    var t := a[0].lower;
    assert a[0].Contains(t) && InRuns(a, t);
    var i :| 0 <= i < |b| && b[i].Contains(t);
  }

  lemma FirstRunNotShorter(a: seq<Interval>, b: seq<Interval>)
    requires a != [] && b != [] && a[0].lower == b[0].lower
    requires Separated(a) && forall t :: InRuns(a, t) <==> InRuns(b, t)
    ensures a[0].upper >= b[0].upper
  {
    var t := a[0].upper + 1;
    assert !InRuns(a, t);
    assert b[0].upper >= t ==> b[0].Contains(t);
  }

  lemma LaterRuns(a: seq<Interval>, t: int)
    requires a != [] && Separated(a)
    ensures InRuns(a[1..], t) <==> InRuns(a, t) && t > a[0].upper
  {
    if InRuns(a[1..], t) {
      var i :| 0 <= i < |a[1..]| && a[1..][i].Contains(t);
      assert a[i + 1].Contains(t);
    }
    if InRuns(a, t) && t > a[0].upper {
      var i :| 0 <= i < |a| && a[i].Contains(t);
      assert a[1..][i - 1].Contains(t);
    }
  }

  // ---- the reference: look at every integer ----

  /** The runs of supported integers in [lo, hi), found by visiting each of them. */
  function Scan(ivs: seq<Interval>, q: int, lo: int, hi: int): (runs: seq<Interval>)
    ensures forall i | 0 <= i < |runs| :: lo <= runs[i].lower && runs[i].upper < hi
    decreases hi - lo
  {
    if hi <= lo then [] else
    var before := Scan(ivs, q, lo, hi - 1);
    if Support(ivs, hi - 1) < q then before
    else if before != [] && before[|before| - 1].upper == hi - 2 then
      before[..|before| - 1] + [Span(before[|before| - 1].lower, hi - 1)]
    else before + [Span(hi - 1, hi - 1)]
  }

  function Lowest(ivs: seq<Interval>): (lo: int)
    ensures forall i | 0 <= i < |ivs| :: lo <= ivs[i].lower
  {
    if ivs == [] then 0
    else if |ivs| > 1 && Lowest(ivs[1..]) < ivs[0].lower then Lowest(ivs[1..])
    else ivs[0].lower
  }

  function Highest(ivs: seq<Interval>): (hi: int)
    ensures forall i | 0 <= i < |ivs| :: ivs[i].upper <= hi
  {
    if ivs == [] then 0
    else if |ivs| > 1 && Highest(ivs[1..]) > ivs[0].upper then Highest(ivs[1..])
    else ivs[0].upper
  }

  function Regions(ivs: seq<Interval>, q: int): seq<Interval> {
    Scan(ivs, q, Lowest(ivs), Highest(ivs) + 1)
  }

  lemma InRunsAppend(runs: seq<Interval>, r: Interval, t: int)
    ensures InRuns(runs + [r], t) <==> InRuns(runs, t) || r.Contains(t)
  {
    var all := runs + [r];
    if InRuns(runs, t) {
      var i :| 0 <= i < |runs| && runs[i].Contains(t);
      assert all[i].Contains(t);
    }
    assert all[|runs|] == r;
  }

  /** The last run grows by its next integer. */
  lemma InRunsExtend(runs: seq<Interval>, r: Interval, t: int)
    requires runs != [] && r == Span(runs[|runs| - 1].lower, runs[|runs| - 1].upper + 1)
    ensures InRuns(runs[..|runs| - 1] + [r], t) <==> InRuns(runs, t) || t == r.upper
  {
    var front, last := runs[..|runs| - 1], runs[|runs| - 1];
    assert runs == front + [last];
    InRunsAppend(front, last, t);
    InRunsAppend(front, r, t);
  }

  lemma SeparatedPush(runs: seq<Interval>, r: Interval)
    requires Separated(runs) && (runs == [] || runs[|runs| - 1].upper + 1 < r.lower)
    ensures Separated(runs + [r])
  {
    var all := runs + [r];
    forall i, j | 0 <= i < j < |all| ensures all[i].upper + 1 < all[j].lower {
      if j == |runs| && i < |runs| - 1 { assert runs[i].upper + 1 < runs[|runs| - 1].lower; }
    }
  }

  lemma {:induction false} ScanSeparated(ivs: seq<Interval>, q: int, lo: int, hi: int)
    ensures Separated(Scan(ivs, q, lo, hi))
    decreases hi - lo
  {
    if lo < hi {
      ScanSeparated(ivs, q, lo, hi - 1);
      var before := Scan(ivs, q, lo, hi - 1);
      if Support(ivs, hi - 1) >= q {
        hide Separated, Support;
        if before != [] && before[|before| - 1].upper == hi - 2 {
          SeparatedExtend(before, Span(before[|before| - 1].lower, hi - 1));
        } else {
          SeparatedPush(before, Span(hi - 1, hi - 1));
        }
      }
    }
  }

  lemma SeparatedExtend(runs: seq<Interval>, r: Interval)
    requires Separated(runs) && runs != [] && r.lower == runs[|runs| - 1].lower
    ensures Separated(runs[..|runs| - 1] + [r])
  {
    assert |runs| > 1 ==> runs[|runs| - 2].upper + 1 < r.lower;
    SeparatedPush(runs[..|runs| - 1], r);
  }

  lemma {:induction false} ScanExact(ivs: seq<Interval>, q: int, lo: int, hi: int)
    requires lo <= hi
    ensures forall t :: InRuns(Scan(ivs, q, lo, hi), t) <==> lo <= t < hi && Support(ivs, t) >= q
    decreases hi - lo
  {
    hide InRuns, Support;
    if lo < hi {
      ScanExact(ivs, q, lo, hi - 1);
      forall t ensures InRuns(Scan(ivs, q, lo, hi), t) <==> lo <= t < hi && Support(ivs, t) >= q {
        ScanStep(ivs, q, lo, hi, t);
      }
    } else {
      NoRuns();
    }
  }

  lemma NoRuns()
    ensures forall t :: !InRuns([], t)
  {
  }

  lemma ScanStep(ivs: seq<Interval>, q: int, lo: int, hi: int, t: int)
    requires lo < hi
    ensures InRuns(Scan(ivs, q, lo, hi), t)
       <==> InRuns(Scan(ivs, q, lo, hi - 1), t) || (t == hi - 1 && Support(ivs, hi - 1) >= q)
  {
    hide InRuns, Support;
    var before := Scan(ivs, q, lo, hi - 1);
    if before != [] && before[|before| - 1].upper == hi - 2 {
      InRunsExtend(before, Span(before[|before| - 1].lower, hi - 1), t);
    } else {
      InRunsAppend(before, Span(hi - 1, hi - 1), t);
    }
  }

  lemma {:induction false} NoSupportOutside(ivs: seq<Interval>, t: int)
    requires forall i | 0 <= i < |ivs| :: t < ivs[i].lower || ivs[i].upper < t
    ensures Support(ivs, t) == 0
  {
    if ivs != [] { NoSupportOutside(ivs[1..], t); }
  }

  /** Visiting every integer between the lowest and the highest endpoint finds the regions. */
  lemma RegionsExact(ivs: seq<Interval>, q: int)
    requires q > 0
    ensures AreRegions(ivs, q, Regions(ivs, q))
  {
    var lo, hi := Lowest(ivs), Highest(ivs) + 1;
    if ivs == [] {
      assert Regions(ivs, q) == [];
    } else {
      assert lo <= ivs[0].lower <= ivs[0].upper < hi;
      ScanSeparated(ivs, q, lo, hi);
      ScanExact(ivs, q, lo, hi);
      forall t | t < lo || hi <= t ensures Support(ivs, t) == 0 { NoSupportOutside(ivs, t); }
    }
  }

  // ---- the sweep ----

  /** events[p]: how many intervals open at p less how many end just before p. */
  function Delta(ivs: seq<Interval>, p: int): int {
    if ivs == [] then 0 else
    (if ivs[0].lower == p then 1 else 0) - (if ivs[0].upper + 1 == p then 1 else 0) + Delta(ivs[1..], p)
  }

  lemma {:induction false} SupportStep(ivs: seq<Interval>, p: int)
    ensures Support(ivs, p) == Support(ivs, p - 1) + Delta(ivs, p)
  {
    if ivs != [] { SupportStep(ivs[1..], p); }
  }

  lemma {:induction false} DeltaAppend(ivs: seq<Interval>, i: Interval, p: int)
    ensures Delta(ivs + [i], p) == Delta(ivs, p) + Delta([i], p)
  {
    if ivs == [] {
      assert ivs + [i] == [i];
    } else {
      assert (ivs + [i])[1..] == ivs[1..] + [i];
      DeltaAppend(ivs[1..], i, p);
    }
  }

  /** Support is constant where no interval opens or ends. */
  lemma {:induction false} SupportFlat(ivs: seq<Interval>, a: int, b: int)
    requires a <= b && forall p | a < p <= b :: Delta(ivs, p) == 0
    ensures Support(ivs, b) == Support(ivs, a)
    decreases b - a
  {
    if a < b {
      SupportFlat(ivs, a, b - 1);
      assert Delta(ivs, b) == 0;
      SupportStep(ivs, b);
    }
  }

  predicate IntLeq(a: int, b: int) {
    a <= b
  }

  /** A Python dict with integer keys: its values and its keys in insertion order. */
  datatype Events = Events(value: map<int, int>, keys: seq<int>) {
    function Get(p: int): int {
      if p in value then value[p] else 0
    }

    function Put(p: int, v: int): Events {
      Events(value[p := v], if p in value then keys else keys + [p])
    }

    ghost predicate Valid() {
      forall p :: multiset(keys)[p] == if p in value then 1 else 0
    }

    lemma PutValid(p: int, v: int)
      requires Valid()
      ensures Put(p, v).Valid()
    {
    }
  }

  ghost predicate IsEndpoint(ivs: seq<Interval>, p: int) {
    exists k | 0 <= k < |ivs| :: p == ivs[k].lower || p == ivs[k].upper + 1
  }

  lemma IsEndpointAppend(ivs: seq<Interval>, i: Interval, p: int)
    ensures IsEndpoint(ivs + [i], p) <==> IsEndpoint(ivs, p) || p == i.lower || p == i.upper + 1
  {
    var all := ivs + [i];
    if IsEndpoint(ivs, p) {
      var k :| 0 <= k < |ivs| && (p == ivs[k].lower || p == ivs[k].upper + 1);
      assert p == all[k].lower || p == all[k].upper + 1;
    }
    assert all[|ivs|] == i;
  }

  ghost predicate Collected(events: Events, ivs: seq<Interval>) {
    && events.Valid()
    && (forall p :: events.Get(p) == Delta(ivs, p))
    && (forall p :: p in events.value <==> IsEndpoint(ivs, p))
  }

  function AddInterval(events: Events, i: Interval): Events {
    var begun := events.Put(i.lower, events.Get(i.lower) + 1);
    begun.Put(i.upper + 1, begun.Get(i.upper + 1) - 1)
  }

  lemma AddIntervalCollects(events: Events, ivs: seq<Interval>, i: Interval)
    requires Collected(events, ivs)
    ensures Collected(AddInterval(events, i), ivs + [i])
  {
    hide IsEndpoint, Delta;
    var begun := events.Put(i.lower, events.Get(i.lower) + 1);
    var after := AddInterval(events, i);
    events.PutValid(i.lower, events.Get(i.lower) + 1);
    begun.PutValid(i.upper + 1, begun.Get(i.upper + 1) - 1);
    forall p
      ensures after.Get(p) == Delta(ivs + [i], p)
      ensures p in after.value <==> IsEndpoint(ivs + [i], p)
    {
      DeltaAppend(ivs, i, p);
      DeltaOne(i, p);
      IsEndpointAppend(ivs, i, p);
    }
  }

  lemma DeltaOne(i: Interval, p: int)
    ensures Delta([i], p) == (if i.lower == p then 1 else 0) - (if i.upper + 1 == p then 1 else 0)
  {
    assert Delta([i][1..], p) == 0;
  }

  lemma NothingCollected()
    ensures Collected(Events(map[], []), [])
  {
  }

  method CollectEvents(ivs: seq<Interval>) returns (events: Events)
    ensures Collected(events, ivs)
  {
    hide Collected;
    events := Events(map[], []);
    NothingCollected();
    assert ivs[..0] == [];
    for n := 0 to |ivs|
      invariant Collected(events, ivs[..n])
    {
      AddIntervalCollects(events, ivs[..n], ivs[n]);
      assert ivs[..n + 1] == ivs[..n] + [ivs[n]];
      events := events.Put(ivs[n].lower, events.Get(ivs[n].lower) + 1);
      events := events.Put(ivs[n].upper + 1, events.Get(ivs[n].upper + 1) - 1);
    }
    assert ivs[..|ivs|] == ivs;
  }

  ghost predicate StrictlyIncreasing(points: seq<int>) {
    forall i, j | 0 <= i < j < |points| :: points[i] < points[j]
  }

  lemma CountedTwice(s: seq<int>, i: nat, j: nat)
    requires i < j < |s| && s[i] == s[j]
    ensures multiset(s)[s[i]] >= 2
  {
    assert s == s[..j] + s[j..];
    assert s[..j][i] == s[i] && s[j..][0] == s[i];
    assert s[i] in multiset(s[..j]) && s[i] in multiset(s[j..]);
  }

  lemma SortedPoints(events: Events)
    requires events.Valid()
    ensures StrictlyIncreasing(Sort(IntLeq, events.keys))
    ensures forall p :: p in Sort(IntLeq, events.keys) <==> p in events.value
  {
    var points := Sort(IntLeq, events.keys);
    SortSorted(IntLeq, events.keys);
    hide Sort;
    forall i, j | 0 <= i < j < |points| ensures points[i] < points[j] {
      if points[i] == points[j] { CountedTwice(points, i, j); }
    }
    forall p ensures p in points <==> p in events.value {
      assert p in points <==> p in multiset(points);
    }
  }

  // Where the sweep stands before it looks at points[idx]: everything below `from` is settled, and
  // when a region is open it has been supported ever since `from`.
  ghost predicate Settled(ivs: seq<Interval>, q: int, out: seq<Interval>, from: int) {
    && Separated(out)
    && (forall i | 0 <= i < |out| :: out[i].upper + 1 < from)
    && (forall t | t < from :: InRuns(out, t) <==> Support(ivs, t) >= q)
  }

  /** Closing the open region [from, p) settles everything up to p. */
  lemma CloseRegion(ivs: seq<Interval>, q: int, out: seq<Interval>, from: int, p: int)
    requires Settled(ivs, q, out, from) && from < p
    requires forall t | from <= t < p :: Support(ivs, t) >= q
    requires Support(ivs, p) < q
    ensures Settled(ivs, q, out + [Span(from, p - 1)], p + 1)
  {
    hide InRuns, Support;
    forall t | t < p + 1 ensures InRuns(out + [Span(from, p - 1)], t) <==> Support(ivs, t) >= q {
      InRunsAppend(out, Span(from, p - 1), t);
      NotYet(out, t, from);
    }
  }

  lemma NotYet(out: seq<Interval>, t: int, from: int)
    requires forall i | 0 <= i < |out| :: out[i].upper + 1 < from
    ensures InRuns(out, t) ==> t < from
  {
  }

  /** Without an open region, unsupported integers change nothing. */
  lemma SkipTo(ivs: seq<Interval>, q: int, out: seq<Interval>, from: int, p: int)
    requires Settled(ivs, q, out, from) && from <= p
    requires forall t | from <= t < p :: Support(ivs, t) < q
    ensures Settled(ivs, q, out, p)
  {
    hide InRuns, Support;
    forall t | t < p ensures InRuns(out, t) <==> Support(ivs, t) >= q { NotYet(out, t, from); }
  }

  /** Between two event points, and outside all of them, the support does not change. */
  lemma Between(ivs: seq<Interval>, events: Events, a: int, b: int)
    requires Collected(events, ivs) && a <= b
    requires forall p | a < p <= b :: p !in events.value
    ensures forall t | a <= t <= b :: Support(ivs, t) == Support(ivs, a)
  {
    forall t | a <= t <= b ensures Support(ivs, t) == Support(ivs, a) {
      forall p | a < p <= t ensures Delta(ivs, p) == 0 { assert events.Get(p) == Delta(ivs, p); }
      SupportFlat(ivs, a, t);
    }
  }

  lemma BeforeFirst(ivs: seq<Interval>, events: Events, first: int, t: int)
    requires Collected(events, ivs) && t < first && forall p | p in events.value :: first <= p
    ensures Support(ivs, t) == 0
  {
    forall k | 0 <= k < |ivs| ensures t < ivs[k].lower {
      assert IsEndpoint(ivs, ivs[k].lower);
    }
    NoSupportOutside(ivs, t);
  }

  lemma AfterLast(ivs: seq<Interval>, events: Events, last: int, t: int)
    requires Collected(events, ivs) && last <= t && forall p | p in events.value :: p <= last
    ensures Support(ivs, t) == 0
  {
    forall k | 0 <= k < |ivs| ensures ivs[k].upper < t {
      assert IsEndpoint(ivs, ivs[k].upper + 1);
    }
    NoSupportOutside(ivs, t);
  }

  ghost predicate PointsOf(points: seq<int>, events: Events) {
    points != [] && StrictlyIncreasing(points) && forall p :: p in points <==> p in events.value
  }

  lemma SortedEventPoints(ivs: seq<Interval>, events: Events)
    requires Collected(events, ivs) && ivs != []
    ensures PointsOf(Sort(IntLeq, events.keys), events)
  {
    hide Sort;
    SortedPoints(events);
    assert IsEndpoint(ivs, ivs[0].lower);
  }

  lemma NextPoint(points: seq<int>, idx: nat, e: int)
    requires StrictlyIncreasing(points) && 0 < idx < |points| && e in points && points[idx - 1] < e
    ensures points[idx] <= e
  {
    var j :| 0 <= j < |points| && points[j] == e;
    assert idx <= j;
  }

  /** What one step of the sweep learns. */
  lemma Advance(ivs: seq<Interval>, events: Events, points: seq<int>, idx: nat)
    requires Collected(events, ivs) && PointsOf(points, events) && idx < |points|
    ensures Support(ivs, points[idx])
         == (if idx == 0 then 0 else Support(ivs, points[idx - 1])) + events.Get(points[idx])
    ensures idx > 0 ==> points[idx - 1] < points[idx]
    ensures idx > 0 ==>
      forall t | points[idx - 1] <= t < points[idx] :: Support(ivs, t) == Support(ivs, points[idx - 1])
  {
    hide Support, Delta, IsEndpoint;
    var p := points[idx];
    SupportStep(ivs, p);
    assert events.Get(p) == Delta(ivs, p);
    if idx == 0 {
      forall e | e in events.value ensures p <= e { var j :| 0 <= j < |points| && points[j] == e; }
      BeforeFirst(ivs, events, p, p - 1);
    } else {
      var a := points[idx - 1];
      forall e | e in events.value && a < e ensures p <= e { NextPoint(points, idx, e); }
      Between(ivs, events, a, p - 1);
    }
  }

  lemma StartSettled(ivs: seq<Interval>, q: int, events: Events, points: seq<int>)
    requires Collected(events, ivs) && PointsOf(points, events) && q > 0
    ensures Settled(ivs, q, [], points[0])
  {
    hide Support;
    forall e | e in events.value ensures points[0] <= e { var j :| 0 <= j < |points| && points[j] == e; }
    forall t | t < points[0] ensures Support(ivs, t) == 0 { BeforeFirst(ivs, events, points[0], t); }
  }

  lemma AfterLastPoint(ivs: seq<Interval>, events: Events, points: seq<int>, t: int)
    requires Collected(events, ivs) && PointsOf(points, events) && points[|points| - 1] <= t
    ensures Support(ivs, t) == 0
  {
    forall e | e in events.value ensures e <= points[|points| - 1] { var j :| 0 <= j < |points| && points[j] == e; }
    AfterLast(ivs, events, points[|points| - 1], t);
  }

  lemma EndSettled(ivs: seq<Interval>, q: int, out: seq<Interval>, events: Events, points: seq<int>)
    requires Collected(events, ivs) && PointsOf(points, events) && q > 0
    requires Settled(ivs, q, out, points[|points| - 1] + 1)
    ensures AreRegions(ivs, q, out)
  {
    hide Support, InRuns;
    var last := points[|points| - 1];
    forall t ensures InRuns(out, t) <==> Support(ivs, t) >= q {
      NotYet(out, t, last + 1);
      if t > last { AfterLastPoint(ivs, events, points, t); }
    }
  }

  lemma TooFewIntervals(ivs: seq<Interval>, q: int)
    requires q > |ivs|
    ensures AreRegions(ivs, q, [])
  {
  }

  /** quorum_regions: the sweep returns exactly the maximal runs of supported integers.  The branch
      for a region still open at the last event point is dead. */
  method QuorumRegions(ivs: seq<Interval>, q: int) returns (r: Result<seq<Interval>>)
    ensures q <= 0 <==> r.Raised?
    ensures r.Ok? ==> AreRegions(ivs, q, r.value) && r.value == Regions(ivs, q)
  {
    if q <= 0 { return Raised; }
    RegionsExact(ivs, q);
    if ivs == [] || q > |ivs| {
      TooFewIntervals(ivs, q);
      RunsUnique([], Regions(ivs, q));
      return Ok([]);
    }
    var out := Sweep(ivs, q);
    RunsUnique(out, Regions(ivs, q));
    r := Ok(out);
  }

  method Sweep(ivs: seq<Interval>, q: int) returns (out: seq<Interval>)
    requires ivs != [] && q > 0
    ensures AreRegions(ivs, q, out)
  {
    hide Support, Settled, Collected, AreRegions, Sort;
    var events := CollectEvents(ivs);
    var points := Sort(IntLeq, events.keys);
    SortedEventPoints(ivs, events);
    assert points != [] by { assert PointsOf(points, events); }
    var support := 0;
    var openStart: Option<int> := None;
    out := [];
    ghost var from := points[0];
    StartSettled(ivs, q, events, points);
    for idx := 0 to |points|
      invariant support == (if idx == 0 then 0 else Support(ivs, points[idx - 1]))
      invariant openStart.Some? ==> openStart.value == from && idx > 0 && from <= points[idx - 1] && support >= q
      invariant openStart.Some? ==> forall t | from <= t <= points[idx - 1] :: Support(ivs, t) >= q
      invariant openStart.None? ==> from == (if idx == 0 then points[0] else points[idx - 1] + 1) && support < q
      invariant idx == |points| ==> openStart.None?
      invariant Settled(ivs, q, out, from)
    {
      var p := points[idx];
      support := support + events.Get(p);
      Advance(ivs, events, points, idx);
      if openStart.None? {
        if idx > 0 { SkipTo(ivs, q, out, from, p); }
        from := p;
      }
      if support >= q && openStart.None? {
        openStart := Some(p);
      }
      if support < q && openStart.Some? {
        CloseRegion(ivs, q, out, from, p);
        out := out + [Span(openStart.value, p - 1)];
        openStart := None;
        from := p + 1;
      } else if support < q {
        SkipTo(ivs, q, out, p, p + 1);
        from := p + 1;
      }
      if idx + 1 == |points| {
        AfterLastPoint(ivs, events, points, p);
        if openStart.Some? {
          assert false;
        }
      }
    }
    EndSettled(ivs, q, out, events, points);
  }

  // ---- consensus ----

  datatype Verdict = Consensus | TimeConflict

  datatype Outcome = Outcome(verdict: Verdict, q: int, interval: Option<Interval>, regions: seq<Interval>)

  /** consensus(intervals, f) in terms of the regions. */
  function ConsensusOf(ivs: seq<Interval>, f: int): Result<Outcome> {
    if f < 0 || |ivs| < 3 * f + 1 then Raised else
    var q := 2 * f + 1;
    var regions := Regions(ivs, q);
    if |regions| != 1 then Ok(Outcome(TimeConflict, q, None, regions))
    else Ok(Outcome(Consensus, q, Some(regions[0]), regions))
  }

  method RunConsensus(ivs: seq<Interval>, f: int) returns (r: Result<Outcome>)
    ensures r == ConsensusOf(ivs, f)
    ensures r.Ok? <==> f >= 0 && |ivs| >= 3 * f + 1
    ensures r.Ok? && r.value.interval.Some? ==>
      forall t :: r.value.interval.value.Contains(t) <==> |Holders(ivs, t)| >= 2 * f + 1
    ensures r.Ok? ==> (r.value.interval.Some? <==> r.value.verdict.Consensus?)
  {
    AgreedInterval(ivs, f);
    if f < 0 || |ivs| < 3 * f + 1 { return Raised; }
    var q := 2 * f + 1;
    var regions := QuorumRegions(ivs, q);
    if |regions.value| != 1 {
      r := Ok(Outcome(TimeConflict, q, None, regions.value));
    } else {
      r := Ok(Outcome(Consensus, q, Some(regions.value[0]), regions.value));
    }
  }

  lemma {:induction false} SupportConcat(a: seq<Interval>, b: seq<Interval>, t: int)
    ensures Support(a + b, t) == Support(a, t) + Support(b, t)
  {
    if a == [] {
      assert a + b == b;
    } else {
      assert (a + b)[1..] == a[1..] + b;
      SupportConcat(a[1..], b, t);
    }
  }

  lemma {:induction false} SupportForgetsOrder(a: seq<Interval>, b: seq<Interval>, t: int)
    requires multiset(a) == multiset(b)
    ensures Support(a, t) == Support(b, t)
  {
    if a == [] {
      SameElements(a, b);
    } else {
      var l, r := Around(a, b);
      SupportForgetsOrder(a[1..], l + r, t);
      SupportConcat(l, r, t);
      SupportConcat(l, [a[0]] + r, t);
    }
  }

  /** The regions do not depend on the order of the intervals. */
  lemma RegionsForgetOrder(a: seq<Interval>, b: seq<Interval>, q: int)
    requires multiset(a) == multiset(b) && q > 0
    ensures Regions(a, q) == Regions(b, q)
  {
    RegionsExact(a, q);
    RegionsExact(b, q);
    forall t ensures InRuns(Regions(a, q), t) <==> InRuns(Regions(b, q), t) {
      SupportForgetsOrder(a, b, t);
      assert InRuns(Regions(a, q), t) <==> Support(a, t) >= q;
      assert InRuns(Regions(b, q), t) <==> Support(b, t) >= q;
    }
    RunsUnique(Regions(a, q), Regions(b, q));
  }

  /** Neither does the consensus. */
  lemma ConsensusForgetsOrder(a: seq<Interval>, b: seq<Interval>, f: int)
    requires multiset(a) == multiset(b)
    ensures ConsensusOf(a, f) == ConsensusOf(b, f)
  {
    SameElements(a, b);
    if f >= 0 { RegionsForgetOrder(a, b, 2 * f + 1); }
  }

  /** The places of the intervals that contain t. */
  ghost function Holders(ivs: seq<Interval>, t: int): set<nat> {
    set i: nat | i < |ivs| && ivs[i].Contains(t)
  }

  ghost function Below(n: nat): (r: set<nat>)
    ensures |r| == n && forall i: nat :: i in r <==> i < n
  {
    if n == 0 then {} else Below(n - 1) + {n - 1}
  }

  /** The support of an instant is the number of intervals that contain it. */
  lemma {:induction false} SupportCounts(ivs: seq<Interval>, t: int)
    ensures Support(ivs, t) == |Holders(ivs, t)|
  {
    if ivs != [] {
      var n := |ivs| - 1;
      var front, last := ivs[..n], ivs[n..];
      SupportCounts(front, t);
      SupportConcat(front, last, t);
      assert ivs == front + last;
      LastSupport(last, t);
      assert Holders(ivs, t) == Holders(front, t) + (if ivs[n].Contains(t) then {n} else {});
    }
  }

  lemma LastSupport(one: seq<Interval>, t: int)
    requires |one| == 1
    ensures Support(one, t) == if one[0].Contains(t) then 1 else 0
  {
    assert one[1..] == [];
  }

  lemma CommonCount(a: set<nat>, b: set<nat>, n: nat)
    requires a <= Below(n) && b <= Below(n)
    ensures |a * b| + n >= |a| + |b|
  {
    assert |a + b| == |a| + |b| - |a * b|;
    assert Below(n) == (a + b) + (Below(n) - (a + b));
  }

  function Distance(p: int, t: int): nat {
    if p <= t then t - p else p - t
  }

  /** At least f + 1 intervals hold both p and t, each at least as wide as they are apart. */
  ghost predicate Vouched(ivs: seq<Interval>, f: nat, p: int, t: int) {
    var both := Holders(ivs, p) * Holders(ivs, t);
    |both| >= f + 1 && forall i | i in both :: ivs[i].upper - ivs[i].lower >= Distance(p, t)
  }

  /** Byzantine accuracy.  Of n >= 3f + 1 intervals let at most f miss the true time t.  Then t has a
      quorum, so the regions are not empty; a consensus interval contains t; and every point p of any
      region, and so of the consensus interval, shares at least f + 1 correct intervals with t, each at
      least |p - t| wide. */
  lemma ByzantineAccuracy(ivs: seq<Interval>, f: nat, t: int)
    requires |ivs| >= 3 * f + 1 && |Holders(ivs, t)| + f >= |ivs|
    ensures ConsensusOf(ivs, f).Ok?
    ensures var c := ConsensusOf(ivs, f).value;
      && c.regions != [] && InRuns(c.regions, t)
      && (c.verdict.Consensus? ==> c.interval.Some? && c.interval.value.Contains(t))
      && (forall p | InRuns(c.regions, p) :: Vouched(ivs, f, p, t))
      && (forall p | c.interval.Some? && c.interval.value.Contains(p) :: Vouched(ivs, f, p, t))
  {
    hide Regions;
    var c := ConsensusOf(ivs, f).value;
    RegionsExact(ivs, c.q);
    SupportCounts(ivs, t);
    assert InRuns(c.regions, t);
    forall p | Support(ivs, p) >= c.q ensures Vouched(ivs, f, p, t) {
      SupportCounts(ivs, p);
      CommonCount(Holders(ivs, p), Holders(ivs, t), |ivs|);
    }
    forall p | c.interval.Some? && c.interval.value.Contains(p) ensures Vouched(ivs, f, p, t) {
      assert c.regions[0].Contains(p) && InRuns(c.regions, p);
    }
  }

  /** The agreed interval is the quorum set itself: it holds exactly the instants that at least 2f + 1
      intervals contain.  Without agreement there is none. */
  lemma AgreedInterval(ivs: seq<Interval>, f: int)
    ensures ConsensusOf(ivs, f).Ok? <==> f >= 0 && |ivs| >= 3 * f + 1
    ensures ConsensusOf(ivs, f).Ok? ==>
      var c := ConsensusOf(ivs, f).value;
      && c.q == 2 * f + 1 && (c.interval.Some? <==> c.verdict.Consensus?)
      && (c.interval.Some? ==>
            forall t :: c.interval.value.Contains(t) <==> |Holders(ivs, t)| >= 2 * f + 1)
  {
    hide Regions;
    if ConsensusOf(ivs, f).Ok? {
      var c := ConsensusOf(ivs, f).value;
      RegionsExact(ivs, c.q);
      if c.interval.Some? {
        forall t ensures c.interval.value.Contains(t) <==> |Holders(ivs, t)| >= 2 * f + 1 {
          SupportCounts(ivs, t);
          assert c.regions[0].Contains(t) <==> InRuns(c.regions, t);
        }
      }
    }
  }

  /** No integer without quorum q lies between two that have it. */
  ghost predicate Unbroken(ivs: seq<Interval>, q: int) {
    forall a, b, c | a <= b <= c && Support(ivs, a) >= q && Support(ivs, c) >= q :: Support(ivs, b) >= q
  }

  ghost predicate Reached(ivs: seq<Interval>, q: int) {
    exists t :: Support(ivs, t) >= q
  }

  /** CONSENSUS is reported exactly when some instant has a quorum and no instant without one lies
      between two that have one. */
  lemma ConsensusIff(ivs: seq<Interval>, f: nat)
    requires |ivs| >= 3 * f + 1
    ensures ConsensusOf(ivs, f).value.verdict.Consensus?
      <==> Reached(ivs, 2 * f + 1) && Unbroken(ivs, 2 * f + 1)
  {
    hide Regions;
    var q := 2 * f + 1;
    var runs := Regions(ivs, q);
    RegionsExact(ivs, q);
    if |runs| == 1 {
      assert runs[0].Contains(runs[0].lower) && InRuns(runs, runs[0].lower);
      var first := runs[0].lower;
      assert Support(ivs, first) >= q && Reached(ivs, q);
      forall a, b, c | a <= b <= c && Support(ivs, a) >= q && Support(ivs, c) >= q ensures Support(ivs, b) >= q {
        assert InRuns(runs, a) && InRuns(runs, c);
        assert runs[0].Contains(b) && InRuns(runs, b);
      }
    } else if |runs| > 1 {
      TwoRuns(runs);
      var a, b, c := runs[0].lower, runs[0].upper + 1, runs[1].lower;
      assert a <= b <= c && Support(ivs, a) >= q && Support(ivs, c) >= q && Support(ivs, b) < q;
      assert !Unbroken(ivs, q);
    } else {
      NoRuns();
    }
  }

  lemma TwoRuns(runs: seq<Interval>)
    requires Separated(runs) && |runs| > 1
    ensures InRuns(runs, runs[0].lower) && InRuns(runs, runs[1].lower) && !InRuns(runs, runs[0].upper + 1)
    ensures runs[0].lower <= runs[0].upper + 1 <= runs[1].lower
  {
    assert runs[0].Contains(runs[0].lower) && runs[1].Contains(runs[1].lower);
    assert runs[0].upper + 1 < runs[1].lower;
  }
}
