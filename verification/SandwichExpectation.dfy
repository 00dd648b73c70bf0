/** What the expectation in a sandwich bundle has to say (ctp/sandwich.py). */
module SandwichExpectation {
  import opened Wrappers
  import opened Bytes
  import opened Cbor
  import opened HashSuite
  import opened Records
  import opened Intervals
  import opened Model
  import opened Measurement
  import opened Sandwich

  const ERA_MODEL: bytes := Ascii("ERA-IAU2000/v1")
  const NO_EVIDENCE: bytes := Ascii("EXPECTATION_NOT_EVIDENCE")

  /** The value under key k equals `v`, as Python compares. */
  ghost predicate Is(o: Value, k: nat, v: Value) {
    Get(o, k).Ok? && SameValue(v, Get(o, k).value)
  }

  /** A map of seven entries: the model's name, the origin, the middle of the agreed interval, the angle there and
      its uncertainty in nano-turns, the bound on UT1 - UTC, and that this is no evidence. */
  ghost predicate SaysEra(o: Value, origin: int, mid: int) {
    && o.Dict? && |o.entries| == 7
    && Is(o, 1, Str(ERA_MODEL)) && Is(o, 2, Num(origin)) && Is(o, 3, Num(mid))
    && Is(o, 4, Num((779057273 + 100273781191135448 * ((origin - 946728000) * PS + mid)
                                 / 8_640_000_000_000_000_000_000_000) % 1_000_000_000))
    && Is(o, 5, Num(10446)) && Is(o, 6, Num(900_000_000_000))
    && Is(o, 7, Str(NO_EVIDENCE))
  }

  lemma {:induction false} LookupIff(es: seq<Entry>, k: nat, v: Value)
    requires DistinctKeys(es)
    ensures HasEqual(Entry(Int(k), v), es) <==> Lookup(es, k).Ok? && SameValue(v, Lookup(es, k).value)
    decreases es
  {
    hide SameValue;
    if es != [] {
      assert forall i | 0 <= i < |es[1..]| :: es[1..][i] == es[i + 1];
      LookupIff(es[1..], k, v);
      EqualSplit(Entry(Int(k), v), es);
      if SameKey(es[0].key, Int(k)) { OnlyFirst(es, k, v); }
    }
  }

  lemma EqualSplit(e: Entry, es: seq<Entry>)
    requires es != []
    ensures HasEqual(e, es) <==> (SameKey(e.key, es[0].key) && SameValue(e.value, es[0].value)) || HasEqual(e, es[1..])
  {
    hide SameValue, SameKey;
    if i :| 0 <= i < |es[1..]| && SameKey(e.key, es[1..][i].key) && SameValue(e.value, es[1..][i].value) {
      assert SameKey(e.key, es[i + 1].key) && SameValue(e.value, es[i + 1].value);
    }
    if HasEqual(e, es) {
      var i :| 0 <= i < |es| && SameKey(e.key, es[i].key) && SameValue(e.value, es[i].value);
      if i > 0 { assert es[1..][i - 1] == es[i]; }
    }
  }

  lemma OnlyFirst(es: seq<Entry>, k: nat, v: Value)
    requires es != [] && DistinctKeys(es) && SameKey(es[0].key, Int(k))
    ensures !HasEqual(Entry(Int(k), v), es[1..])
  {
    hide SameValue;
    forall i | 0 <= i < |es[1..]| ensures !SameKey(Int(k), es[1..][i].key) {
      assert !SameKey(es[0].key, es[i + 1].key);
    }
  }

  /** The expectation of a bundle is right exactly when it says this of the declared origin and the middle of the
      agreed interval. */
  lemma ExpectedIff(b: Bundle, origin: int, i: Interval)
    requires Valid(b.expectation)
    ensures Expected(b, Some(origin), i) <==> SaysEra(b.expectation, origin, (i.lower + i.upper) / 2)
  {
    hide SameValue, Lookup, Valid, HasEqual, Ascii;
    var mid := (i.lower + i.upper) / 2;
    var era := EraExpectation(origin, mid);
    EraFields(origin, mid);
    if b.expectation.Dict? {
      DictIsValid(b.expectation);
      var es := b.expectation.entries;
      var vs := [Str(ERA_MODEL), Num(era.origin), Num(era.mid), Num(era.nano), Num(era.uncertainty),
                 Num(DUT1_BOUND_PS), Str(NO_EVIDENCE)];
      SameRecord(vs, es);
      forall k: nat, v ensures HasEqual(Entry(Int(k), v), es) <==> Is(b.expectation, k, v) { LookupIff(es, k, v); }
    } else {
      NotSame(era, b.expectation);
    }
  }

  lemma DictIsValid(v: Value)
    requires Valid(v) && v.Dict?
    ensures DistinctKeys(v.entries)
  {
  }

  lemma NotSame(era: Era, v: Value)
    requires !v.Dict?
    ensures !SameValue(EraObj(era), v)
  {
    hide Ascii;
  }

  lemma SameRecord(vs: seq<Value>, es: seq<Entry>)
    requires |vs| == 7
    ensures SameValue(Records.Record(vs), Dict(es)) <==>
              && |es| == 7 && HasEqual(Entry(Int(1), vs[0]), es) && HasEqual(Entry(Int(2), vs[1]), es)
              && HasEqual(Entry(Int(3), vs[2]), es) && HasEqual(Entry(Int(4), vs[3]), es)
              && HasEqual(Entry(Int(5), vs[4]), es) && HasEqual(Entry(Int(6), vs[5]), es)
              && HasEqual(Entry(Int(7), vs[6]), es)
  {
    hide HasEqual, Records.Fields;
    var fs := Records.Fields(vs, 1);
    assert forall i | 0 <= i < 7 :: fs[i] == Entry(Int(1 + i), vs[i]);
    assert fs[0] == Entry(Int(1), vs[0]) && fs[1] == Entry(Int(2), vs[1]) && fs[2] == Entry(Int(3), vs[2]);
    assert fs[3] == Entry(Int(4), vs[3]) && fs[4] == Entry(Int(5), vs[4]) && fs[5] == Entry(Int(6), vs[5]);
    assert fs[6] == Entry(Int(7), vs[6]);
    assert SameValue(Dict(fs), Dict(es)) <==> |es| == 7 && forall i | 0 <= i < 7 :: HasEqual(fs[i], es);
  }

  lemma EraFields(origin: int, mid: int)
    ensures var era := EraExpectation(origin, mid);
      && era.origin == origin && era.mid == mid && era.uncertainty == 10446
      && era.nano == (779057273 + 100273781191135448 * ((origin - 946728000) * PS + mid)
                                  / 8_640_000_000_000_000_000_000_000) % 1_000_000_000
  {
    UncertaintyValue(origin, mid);
  }
}
