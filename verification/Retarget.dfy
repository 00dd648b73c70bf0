/** The 2009 difficulty rule and compact targets (live/capture_retarget.py). */
module Retarget {
  import opened Wrappers
  import opened Bytes

  const TARGET_TIMESPAN := 14 * 24 * 60 * 60
  const INTERVAL := 2016
  const LIMIT_BITS := 0x1D00FFFF

  // ---- compact targets ----

  /** int.bit_length() */
  function BitLength(t: nat): nat {
    if t == 0 then 0 else 1 + BitLength(t / 2)
  }

  function Size(t: nat): nat {
    (BitLength(t) + 7) / 8
  }

  function Times(a: nat, b: nat): nat {
    a * b
  }

  function Over(a: nat, b: nat): nat
    requires b > 0
  {
    a / b
  }

  /** n << 8 * k */
  function ShiftLeft(n: nat, k: nat): nat {
    Times(n, Pow256(k))
  }

  /** n >> 8 * k */
  function ShiftRight(n: nat, k: nat): nat {
    Over(n, Pow256(k))
  }

  /** bits_to_target */
  function BitsToTarget(bits: nat): nat {
    var size, word := bits / 0x100_0000, bits % 0x80_0000;
    if size <= 3 then ShiftRight(word, 3 - size) else ShiftLeft(word, size - 3)
  }

  function Mantissa(t: nat): nat {
    if Size(t) <= 3 then ShiftLeft(t, 3 - Size(t)) else ShiftRight(t, Size(t) - 3)
  }

  /** target_to_bits.  The size is or-ed in above a mantissa that fits below it, see CompactFits. */
  function TargetToBits(t: nat): nat {
    var size, compact := Size(t), Mantissa(t);
    if compact / 0x80_0000 % 2 != 0
    then compact / 0x100 + (size + 1) * 0x100_0000
    else compact + size * 0x100_0000
  }

  /** target_to_bits, shifting the mantissa and the size in place. */
  method CompactOf(target: nat) returns (bits: nat)
    ensures bits == TargetToBits(target)
  {
    hide BitLength, ShiftLeft, ShiftRight;
    var size := (BitLength(target) + 7) / 8;
    var compact: nat;
    if size <= 3 {
      compact := ShiftLeft(target, 3 - size);
    } else {
      compact := ShiftRight(target, size - 3);
    }
    if compact / 0x80_0000 % 2 != 0 {
      compact := compact / 0x100;
      size := size + 1;
    }
    bits := compact + size * 0x100_0000;
  }

  lemma {:induction false} BitLengthBounds(t: nat)
    requires t > 0
    ensures BitLength(t) > 0 && Pow2(BitLength(t) - 1) <= t < Pow2(BitLength(t))
  {
    if t > 1 { BitLengthBounds(t / 2); }
  }

  lemma {:induction false} Pow2Monotonic(a: nat, b: nat)
    requires a <= b
    ensures Pow2(a) <= Pow2(b)
  {
    if a < b { Pow2Monotonic(a, b - 1); }
  }

  lemma {:induction false} PowersAgree(k: nat)
    ensures Pow2(8 * k) == Pow256(k)
  {
    if k > 0 {
      PowersAgree(k - 1);
      assert Pow2(8 * k) == 4 * Pow2(8 * k - 2) == 16 * Pow2(8 * k - 4);
      assert Pow2(8 * k - 4) == 4 * Pow2(8 * k - 6) == 16 * Pow2(8 * k - 8);
    }
  }

  /** The size is the number of bytes the target needs. */
  lemma SizeBounds(t: nat)
    ensures if t == 0 then Size(t) == 0 else Size(t) > 0 && Pow256(Size(t) - 1) <= t < Pow256(Size(t))
  {
    if t > 0 {
      hide Pow256;
      BitLengthBounds(t);
      Pow2Monotonic(8 * (Size(t) - 1), BitLength(t) - 1);
      Pow2Monotonic(BitLength(t), 8 * Size(t));
      PowersAgree(Size(t) - 1);
      PowersAgree(Size(t));
    }
  }

  lemma {:induction false} Pow256Monotonic(a: nat, b: nat)
    requires a <= b
    ensures Pow256(a) <= Pow256(b)
    decreases b
  {
    if a < b { Pow256Monotonic(a, b - 1); }
  }

  lemma SizeIs(t: nat, k: nat)
    requires k > 0 && Pow256(k - 1) <= t < Pow256(k)
    ensures Size(t) == k
  {
    hide Size, Pow256;
    SizeBounds(t);
    if Size(t) < k { Pow256Monotonic(Size(t), k - 1); }
    if Size(t) > k { Pow256Monotonic(k, Size(t) - 1); }
  }

  /** How many low bytes of a target its compact form cannot carry. */
  function Excess(t: nat): nat {
    if Size(t) < 3 then 0
    else if Mantissa(t) < 0x80_0000 then Size(t) - 3
    else Size(t) - 2
  }

  /** The mantissa leaves the sign bit and the size byte free, so that the or is a sum. */
  lemma CompactFits(t: nat)
    ensures Mantissa(t) < 0x100_0000
    ensures Size(t) > 3 ==> 0x1_0000 <= Mantissa(t)
    ensures Size(t) > 3 ==> Mantissa(t) * Pow256(Size(t) - 3) <= t < (Mantissa(t) + 1) * Pow256(Size(t) - 3)
    ensures Size(t) <= 3 ==> t < 0x100_0000
  {
    SizeBounds(t);
    var s := Size(t);
    if s > 3 {
      var u := Pow256(s - 3);
      assert Pow256(s - 1) == 0x1_0000 * u && Pow256(s) == 0x100_0000 * u;
      Divides(t, u, 0x1_0000, 0x100_0000);
    } else {
      Small();
      hide Size;
    }
  }

  lemma Small()
    ensures Pow256(0) == 1 && Pow256(1) == 0x100 && Pow256(2) == 0x1_0000 && Pow256(3) == 0x100_0000
  {
  }

  lemma Divides(t: nat, u: nat, lo: nat, hi: nat)
    requires u > 0 && lo * u <= t < hi * u
    ensures lo <= t / u < hi
    ensures t / u * u <= t < (t / u + 1) * u
  {
    var q := t / u;
    assert t == q * u + t % u;
    TimesOrder(q, lo, u);
    TimesOrder(hi, q, u);
  }

  lemma Fields(size: nat, word: nat)
    requires word < 0x80_0000
    ensures var bits := word + size * 0x100_0000;
            bits / 0x100_0000 == size && bits % 0x80_0000 == word
  {
  }

  /** What a compact target stands for: the target with its Excess low bytes cleared, at least
      fifteen significant bits being left of it. */
  lemma CompactFloor(t: nat)
    ensures var u := Pow256(Excess(t));
            && BitsToTarget(TargetToBits(t)) == t / u * u
            && t < 0x80_0000 * u
            && (Excess(t) > 0 ==> 0x8000 * u <= t)
  {
    if Size(t) <= 3 { SmallFloor(t); } else { LargeFloor(t); }
  }

  lemma SmallShifts(n: nat)
    ensures ShiftLeft(n, 0) == n == ShiftRight(n, 0)
    ensures ShiftLeft(n, 1) == 0x100 * n && ShiftRight(n, 1) == n / 0x100
    ensures ShiftLeft(n, 2) == 0x1_0000 * n && ShiftRight(n, 2) == n / 0x1_0000
    ensures ShiftLeft(n, 3) == 0x100_0000 * n && ShiftRight(n, 3) == n / 0x100_0000
  {
    Small();
  }

  lemma SmallFloor(t: nat)
    requires Size(t) <= 3
    ensures var u := Pow256(Excess(t));
            && BitsToTarget(TargetToBits(t)) == t / u * u
            && t < 0x80_0000 * u
            && (Excess(t) > 0 ==> 0x8000 * u <= t)
  {
    hide Size, Pow256, ShiftLeft, ShiftRight, BitsToTarget, TargetToBits;
    Small();
    SmallDecodes(t);
    SizeBounds(t);
    SmallShifts(t);
  }

  lemma SmallDecodes(t: nat)
    requires Size(t) <= 3
    ensures BitsToTarget(TargetToBits(t)) == if Size(t) == 3 && t >= 0x80_0000 then t / 0x100 * 0x100 else t
    ensures Size(t) < 3 ==> t < 0x1_0000
    ensures t < 0x100_0000
  {
    hide Size, Pow256, ShiftLeft, ShiftRight;
    Small();
    SizeBounds(t);
    SmallShifts(t);
    var c := Mantissa(t);
    if c < 0x80_0000 {
      Fields(Size(t), c);
      SmallShifts(c);
    } else {
      Fields(Size(t) + 1, c / 0x100);
      SmallShifts(c / 0x100);
    }
  }

  lemma LargeFloor(t: nat)
    requires Size(t) > 3
    ensures var u := Pow256(Excess(t));
            && BitsToTarget(TargetToBits(t)) == t / u * u
            && t < 0x80_0000 * u
            && (Excess(t) > 0 ==> 0x8000 * u <= t)
  {
    hide Size, Mantissa;
    CompactFits(t);
    var s, c, u := Size(t), Mantissa(t), Pow256(Size(t) - 3);
    if c < 0x80_0000 {
      Fields(s, c);
      QuotientIs(t, u, c);
      Scale(c, 0x1_0000, 0x80_0000, u);
    } else {
      Fields(s + 1, c / 0x100);
      assert Pow256(s - 2) == 0x100 * u;
      Coarser(t, u, c);
      Scale(c, 0x80_0000, 0x100_0000, u);
    }
  }

  lemma Scale(c: nat, lo: nat, hi: nat, u: nat)
    requires lo <= c < hi
    ensures lo * u <= c * u && (c + 1) * u <= hi * u
  {
  }

  lemma Regroup(q: nat, u: nat)
    ensures q * (0x100 * u) == 0x100 * q * u
  {
  }

  lemma Coarser(t: nat, u: nat, c: nat)
    requires u > 0 && c * u <= t < (c + 1) * u
    ensures t / (0x100 * u) == c / 0x100
  {
    var q := c / 0x100;
    TimesOrder(0x100 * q, c, u);
    TimesOrder(c + 1, 0x100 * (q + 1), u);
    Regroup(q, u);
    Regroup(q + 1, u);
    QuotientIs(t, 0x100 * u, q);
  }

  /** Rounding a target to its compact form never raises it, and loses at most 1/32768 of it. */
  lemma CompactLoss(t: nat)
    ensures var t' := BitsToTarget(TargetToBits(t));
            t' <= t && (t - t') * 0x8000 <= t
  {
    hide Excess, BitsToTarget, TargetToBits;
    CompactFloor(t);
    var u := Pow256(Excess(t));
    assert t == t / u * u + t % u;
    if Excess(t) == 0 { assert u == 1; }
  }

  /** No compact target lies between a target and its rounding: it is the best one from below. */
  lemma LargestCompactBelow(t: nat, bits: nat)
    requires BitsToTarget(bits) <= t
    ensures BitsToTarget(bits) <= BitsToTarget(TargetToBits(t))
  {
    hide Excess, TargetToBits, BitsToTarget, Pow256;
    CompactFloor(t);
    var e, u := Excess(t), Pow256(Excess(t));
    if e == 0 {
      assert u == 1 by { Small(); }
    } else if bits / 0x100_0000 >= e + 3 {
      var k := MultipleOfUnit(bits, e);
      MultiplesBelow(k, t, u);
    } else {
      BelowUnit(bits, e);
      MultiplesBelow(0x8000, t, u);
    }
  }

  /** A multiple of u that is at most t is at most the last multiple of u up to t. */
  lemma MultiplesBelow(k: nat, t: nat, u: nat)
    requires u > 0 && k * u <= t
    ensures k * u <= t / u * u
  {
    assert t == t / u * u + t % u;
    TimesOrder(t / u, k, u);
    TimesOrder(k, t / u, u);
  }

  lemma MultipleOfUnit(bits: nat, e: nat) returns (k: nat)
    requires e > 0 && bits / 0x100_0000 >= e + 3
    ensures BitsToTarget(bits) == k * Pow256(e)
  {
    hide Pow256;
    var size, word := bits / 0x100_0000, bits % 0x80_0000;
    PowSum(e, size - 3 - e);
    k := Times(word, Pow256(size - 3 - e));
    Associate(word, Pow256(size - 3 - e), Pow256(e));
  }

  lemma BelowUnit(bits: nat, e: nat)
    requires e > 0 && bits / 0x100_0000 < e + 3
    ensures BitsToTarget(bits) <= 0x8000 * Pow256(e)
  {
    var size, word := bits / 0x100_0000, bits % 0x80_0000;
    var p := Pow256(e - 1);
    Pow256Monotonic(0, e - 1);
    if size <= 3 {
      hide Pow256;
      Smaller(word, Pow256(3 - size));
    } else {
      Pow256Monotonic(size - 3, e - 1);
      hide Pow256;
      var q := Pow256(size - 3);
      TimesOrder(word, 0x80_0000, q);
    }
  }

  lemma Smaller(a: nat, b: nat)
    requires b > 0
    ensures a / b <= a
  {
    TimesOrder(1, b, a / b);
  }

  lemma Associate(a: nat, b: nat, c: nat)
    ensures a * (b * c) == a * b * c && a * (c * b) == a * b * c
  {
  }

  lemma {:induction false} PowSum(a: nat, b: nat)
    ensures Pow256(a + b) == Pow256(a) * Pow256(b)
    decreases b
  {
    if b > 0 {
      PowSum(a, b - 1);
      assert Pow256(a + b) == 256 * (Pow256(a) * Pow256(b - 1)) == Pow256(a) * (256 * Pow256(b - 1));
    }
  }

  // ---- the rule ----

  datatype Header = Header(nTime: nat, nBits: nat)

  datatype Detail =
    | Unchanged
    | PastGenesis
    | Retargeted(firstHeight: nat, span: int, bounded: nat, atLimit: bool)

  datatype Next = Next(bits: Option<nat>, detail: Detail)

  function Bounded(span: int): nat {
    if span < TARGET_TIMESPAN / 4 then TARGET_TIMESPAN / 4
    else if span > TARGET_TIMESPAN * 4 then TARGET_TIMESPAN * 4
    else span
  }

  function Limit(): nat {
    BitsToTarget(LIMIT_BITS)
  }

  /** The target a period of the given span asks for, before the limit. */
  function ScaledTarget(bits: nat, span: int): nat {
    Times(BitsToTarget(bits), Bounded(span)) / TARGET_TIMESPAN
  }

  /** next_work_required, for headers indexed by height; a height beyond them is an IndexError. */
  function NextWork(headers: seq<Header>, height: nat): Result<Next> {
    if height >= |headers| then Raised
    else if (height + 1) % INTERVAL != 0 then Ok(Next(Some(headers[height].nBits), Unchanged))
    else
      var first := height - (INTERVAL - 1);
      if !(0 <= first < |headers|) then Ok(Next(None, PastGenesis)) else
      var span := headers[height].nTime - headers[first].nTime;
      var scaled := ScaledTarget(headers[height].nBits, span);
      Ok(Next(Some(TargetToBits(Min(scaled, Limit()))),
              Retargeted(first, span, Bounded(span), scaled > Limit())))
  }

  /** A chain whose every block carries the bits the rule asks for. */
  ghost predicate Obeys(headers: seq<Header>) {
    && headers != []
    && headers[0].nBits == LIMIT_BITS
    && forall h | 0 <= h < |headers| - 1 :: Follows(headers, h)
  }

  ghost predicate Follows(headers: seq<Header>, h: nat)
    requires h + 1 < |headers|
  {
    NextWork(headers, h).value.bits == Some(headers[h + 1].nBits)
  }

  lemma ScaleBounds(t: nat, c: nat)
    requires TARGET_TIMESPAN / 4 <= c <= TARGET_TIMESPAN * 4
    ensures t / 4 <= t * c / TARGET_TIMESPAN <= 4 * t
    ensures c >= TARGET_TIMESPAN ==> t <= t * c / TARGET_TIMESPAN
    ensures c < TARGET_TIMESPAN && t > 0 ==> t * c / TARGET_TIMESPAN < t
  {
    TimesOrder(TARGET_TIMESPAN / 4, c, t);
    TimesOrder(c, TARGET_TIMESPAN * 4, t);
    TimesOrder(TARGET_TIMESPAN, c, t);
    TimesOrder(c, TARGET_TIMESPAN, t);
  }

  /** At every height the rule gives an answer, the walk back reaching the first block of the same
      period and never past the genesis; a retarget changes the target at most fourfold either way
      (up to rounding) and leaves it at most the limit. */
  lemma RetargetBounds(headers: seq<Header>, height: nat)
    requires height < |headers| && BitsToTarget(headers[height].nBits) <= Limit()
    ensures var r := NextWork(headers, height);
            && r.Ok? && r.value.bits.Some?
            && (r.value.detail.Unchanged? <==> (height + 1) % INTERVAL != 0)
            && (r.value.detail.Retargeted? ==>
                  && r.value.detail.firstHeight % INTERVAL == 0
                  && r.value.detail.firstHeight / INTERVAL == height / INTERVAL)
            && var t, t' := BitsToTarget(headers[height].nBits), BitsToTarget(r.value.bits.value);
               && t' <= Limit() && t' <= 4 * t
               && t / 4 * 0x7fff <= t' * 0x8000
  {
    hide BitsToTarget, TargetToBits;
    var t := BitsToTarget(headers[height].nBits);
    if (height + 1) % INTERVAL == 0 {
      var first := height - (INTERVAL - 1);
      var bounded := Bounded(headers[height].nTime - headers[first].nTime);
      ScaleBounds(t, bounded);
      var target := Min(t * bounded / TARGET_TIMESPAN, Limit());
      CompactLoss(target);
    }
  }

  lemma LimitValue()
    ensures Limit() == 0xFFFF * Pow256(26)
  {
    hide Pow256;
    assert LIMIT_BITS / 0x100_0000 == 29 && LIMIT_BITS % 0x80_0000 == 0xFFFF;
  }

  /** What a period of this span asks for: the old target scaled by span over two weeks, the span counted as no
      less than a quarter and no more than four times that. */
  function Wanted(t: nat, span: int): nat {
    if span < 302400 then t / 4 else if span > 4838400 then 4 * t else t * span / 1209600
  }

  /** The largest target with a compact form that is at most `t`. */
  ghost predicate IsLargestCompact(bits: nat, t: nat) {
    && BitsToTarget(bits) <= t
    && forall other: nat :: BitsToTarget(other) <= t ==> BitsToTarget(other) <= BitsToTarget(bits)
  }

  lemma WantedIs(bits: nat, span: int)
    ensures ScaledTarget(bits, span) == Wanted(BitsToTarget(bits), span)
  {
    hide BitsToTarget;
    var t := BitsToTarget(bits);
    if span < 302400 {
      QuarterOf(t);
    } else if span > 4838400 {
      FourTimes(t);
    }
  }

  lemma QuarterOf(t: nat)
    ensures t * 302400 / 1209600 == t / 4
  {
    var q := t / 4;
    assert t == 4 * q + t % 4;
    QuotientIs(t * 302400, 1209600, q);
  }

  lemma FourTimes(t: nat)
    ensures t * 4838400 / 1209600 == 4 * t
  {
    QuotientIs(t * 4838400, 1209600, 4 * t);
  }

  /** At the end of a period the new target is exactly the largest compact one that is at most the target asked
      for and at most the limit. */
  lemma RetargetExact(headers: seq<Header>, height: nat)
    requires height < |headers| && (height + 1) % 2016 == 0
    ensures height >= 2015 && NextWork(headers, height).Ok? && NextWork(headers, height).value.bits.Some?
    ensures IsLargestCompact(
              NextWork(headers, height).value.bits.value,
              Min(Wanted(BitsToTarget(headers[height].nBits), headers[height].nTime - headers[height - 2015].nTime),
                  0xFFFF * Pow256(26)))
  {
    hide BitsToTarget, TargetToBits, ScaledTarget, Wanted, Limit, Pow256;
    LimitValue();
    var span := headers[height].nTime - headers[height - 2015].nTime;
    WantedIs(headers[height].nBits, span);
    var t := Min(Wanted(BitsToTarget(headers[height].nBits), span), Limit());
    CompactLoss(t);
    forall other: nat | BitsToTarget(other) <= t ensures BitsToTarget(other) <= BitsToTarget(TargetToBits(t)) {
      LargestCompactBelow(t, other);
    }
  }

  /** next_work_required: an answer for every block there is, the bits kept inside a period, and at its end the
      largest compact target that is at most the scaled one and at most the limit. */
  method NextWorkRequired(headers: seq<Header>, height: nat) returns (r: Result<Next>)
    ensures r == NextWork(headers, height)
    ensures r.Raised? <==> height >= |headers|
    ensures r.Ok? ==> r.value.bits.Some?
    ensures r.Ok? && (height + 1) % INTERVAL != 0 ==> r.value.bits.value == headers[height].nBits
    ensures r.Ok? && (height + 1) % INTERVAL == 0 ==>
      && height >= 2015
      && IsLargestCompact(
           r.value.bits.value,
           Min(Wanted(BitsToTarget(headers[height].nBits), headers[height].nTime - headers[height - 2015].nTime),
               0xFFFF * Pow256(26)))
  {
    hide BitsToTarget, TargetToBits, IsLargestCompact, Wanted, Pow256;
    if height < |headers| && (height + 1) % INTERVAL == 0 { RetargetExact(headers, height); }
    if height >= |headers| { return Raised; }
    var last := headers[height];
    if (height + 1) % INTERVAL != 0 { return Ok(Next(Some(last.nBits), Unchanged)); }
    var first := height - (INTERVAL - 1);
    if first < 0 { return Ok(Next(None, PastGenesis)); }
    var span := last.nTime - headers[first].nTime;
    var bounded := Bounded(span);
    var target: nat := Times(BitsToTarget(last.nBits), bounded) / TARGET_TIMESPAN;
    var atLimit := target > Limit();
    if atLimit {
      target := Limit();
    }
    var bits := CompactOf(target);
    r := Ok(Next(Some(bits), Retargeted(first, span, bounded, atLimit)));
  }

  /** The target never exceeds the limit, anywhere on an obeying chain. */
  lemma {:induction false} NeverAboveLimit(headers: seq<Header>, h: nat)
    requires Obeys(headers) && h < |headers|
    ensures BitsToTarget(headers[h].nBits) <= Limit()
  {
    hide BitsToTarget, NextWork;
    if h > 0 {
      NeverAboveLimit(headers, h - 1);
      RetargetBounds(headers, h - 1);
      assert Follows(headers, h - 1);
    }
  }

  /** Blocks of one 2016-block period all carry the same bits. */
  lemma {:induction false} ConstantWithinPeriod(headers: seq<Header>, g: nat, h: nat)
    requires Obeys(headers) && g <= h < |headers| && g / INTERVAL == h / INTERVAL
    ensures headers[g].nBits == headers[h].nBits
    decreases h
  {
    hide BitsToTarget, TargetToBits;
    if g < h {
      assert Follows(headers, h - 1);
      ConstantWithinPeriod(headers, g, h - 1);
    }
  }

  lemma LimitBits()
    ensures Limit() == 0xFFFF * Pow256(26) && TargetToBits(Limit()) == LIMIT_BITS
  {
    hide Size, Limit, Pow256;
    LimitValue();
    var u := Pow256(25);
    PowSum(25, 1);
    PowSum(25, 2);
    PowSum(25, 3);
    Small();
    SizeIs(Limit(), 28);
    QuotientIs(Limit(), u, 0xFFFF00);
  }

  /** A retarget from the limit, at the end of any period, changes nothing exactly when the measured span,
      which covers 2015 block intervals, is at least the two weeks meant for 2016. */
  lemma AtLimitUnchangedIff(headers: seq<Header>, period: nat)
    requires INTERVAL * period + 2015 < |headers| && headers[INTERVAL * period + 2015].nBits == LIMIT_BITS
    ensures var first, last := INTERVAL * period, INTERVAL * period + 2015;
            NextWork(headers, last).Ok?
            && (NextWork(headers, last).value.bits == Some(LIMIT_BITS)
                <==> headers[last].nTime - headers[first].nTime >= TARGET_TIMESPAN)
  {
    hide TargetToBits, Limit, ScaledTarget;
    var first, last := INTERVAL * period, INTERVAL * period + 2015;
    assert (last + 1) % INTERVAL == 0;
    FromLimit(headers[last].nTime - headers[first].nTime);
  }

  lemma FromLimit(span: int)
    ensures TargetToBits(Min(ScaledTarget(LIMIT_BITS, span), Limit())) == LIMIT_BITS <==> span >= TARGET_TIMESPAN
  {
    hide BitsToTarget, TargetToBits, Pow256;
    LimitBits();
    ScaleBounds(Limit(), Bounded(span));
    CompactLoss(ScaledTarget(LIMIT_BITS, span));
  }

  /** The published prediction: the first retarget leaves the bits alone if and only if the span
      from the genesis to block 2015 is at least two weeks. */
  lemma FirstRetarget(headers: seq<Header>)
    requires Obeys(headers) && |headers| > INTERVAL
    ensures headers[INTERVAL].nBits == LIMIT_BITS <==> headers[INTERVAL - 1].nTime - headers[0].nTime >= TARGET_TIMESPAN
  {
    hide NextWork;
    ConstantWithinPeriod(headers, 0, INTERVAL - 1);
    AtLimitUnchangedIff(headers, 0);
    assert Follows(headers, INTERVAL - 1);
  }

  ghost predicate SameBoundaryTimes(a: seq<Header>, b: seq<Header>)
    requires |a| == |b|
  {
    forall h | 0 <= h < |a| && (h % INTERVAL == 0 || h % INTERVAL == INTERVAL - 1) :: a[h].nTime == b[h].nTime
  }

  /** Only the first and last timestamps of each period matter: they fix the bits of every block. */
  lemma {:induction false} BoundaryTimesFixBits(a: seq<Header>, b: seq<Header>, h: nat)
    requires |a| == |b| && Obeys(a) && Obeys(b) && SameBoundaryTimes(a, b) && h < |a|
    ensures a[h].nBits == b[h].nBits
  {
    hide BitsToTarget, TargetToBits;
    if h > 0 {
      BoundaryTimesFixBits(a, b, h - 1);
      assert Follows(a, h - 1) && Follows(b, h - 1);
      if h % INTERVAL == 0 {
        assert (h - 1) % INTERVAL == INTERVAL - 1 && (h - INTERVAL) % INTERVAL == 0;
      }
    }
  }
}
