/** What an acquired exchange says about true time, and the Earth rotation model
    (ctp/sandwich.py, ctp/roughtime.py). */
module Measurement {
  import opened Wrappers
  import opened Bytes
  import opened RoughtimeReply

  const NTP_UNIX_DELTA := 2208988800
  const PS := 1_000_000_000_000
  const LOCAL_MARGIN_PS := 2 * PS / 1000

  // ---- NTP (RFC 5905 sections 6 and 8) ----

  /** A timestamp of 32 bits of seconds and 32 of fraction, in picoseconds of Unix time. */
  function TimestampPs(secs: nat, frac: nat): int {
    (secs - NTP_UNIX_DELTA) * PS + frac * PS / 0x1_0000_0000
  }

  /** A short of 16 bits of seconds and 16 of fraction. */
  function ShortPs(secs: nat, frac: nat): nat {
    secs * PS + frac * PS / 0x1_0000
  }

  function ReadBE(b: bytes, pos: nat, k: nat): Result<nat> {
    var w := Slice(b, pos, pos + k);
    if |w| != k then Raised else Ok(FromBE(w))
  }

  /** The four instants and two bounds an exchange carries, as fields of its response. */
  datatype Fields = Fields(mode: nat, stratum: nat, delaySecs: nat, delayFrac: nat, dispSecs: nat, dispFrac: nat,
                           receiveSecs: nat, receiveFrac: nat, transmitSecs: nat, transmitFrac: nat)

  function FieldsOf(resp: bytes): Result<Fields> {
    if |resp| < 2 then Raised else
    var a :- ReadBE(resp, 4, 2);
    var b :- ReadBE(resp, 6, 2);
    var c :- ReadBE(resp, 8, 2);
    var d :- ReadBE(resp, 10, 2);
    var e :- ReadBE(resp, 32, 4);
    var f :- ReadBE(resp, 36, 4);
    var g :- ReadBE(resp, 40, 4);
    var h :- ReadBE(resp, 44, 4);
    Ok(Fields(resp[0] % 8, resp[1], a, b, c, d, e, f, g, h))
  }

  /** The response's header as RFC 5905 section 7.3 lays it out: mode and stratum, root delay, root dispersion,
      receive and transmit timestamp. */
  ghost predicate LaidOut(resp: bytes, f: Fields) {
    && |resp| >= 48 && f.mode == resp[0] % 8 && f.stratum == resp[1]
    && f.delaySecs == FromBE(resp[4..6]) && f.delayFrac == FromBE(resp[6..8])
    && f.dispSecs == FromBE(resp[8..10]) && f.dispFrac == FromBE(resp[10..12])
    && f.receiveSecs == FromBE(resp[32..36]) && f.receiveFrac == FromBE(resp[36..40])
    && f.transmitSecs == FromBE(resp[40..44]) && f.transmitFrac == FromBE(resp[44..48])
  }

  lemma FieldsIff(resp: bytes, f: Fields)
    ensures FieldsOf(resp) == Ok(f) <==> LaidOut(resp, f)
    ensures |resp| >= 48 ==> FieldsOf(resp).Ok?
  {
    hide FromBE;
  }

  datatype Measure = Measure(claimed: int, uncertainty: int)

  function Max(a: int, b: int): int {
    if a >= b then a else b
  }

  function MeasureOf(f: Fields, t1: int, t4: int): Measure {
    var received, sent := TimestampPs(f.receiveSecs, f.receiveFrac), TimestampPs(f.transmitSecs, f.transmitFrac);
    var path := Max((t4 - t1) * 1000 - (sent - received), 0);
    Measure(sent + path / 2,
            path / 2 + ShortPs(f.dispSecs, f.dispFrac) + ShortPs(f.delaySecs, f.delayFrac) / 2 + LOCAL_MARGIN_PS)
  }

  /** derive_measurement, for local monotonic readings in nanoseconds. */
  function DeriveMeasurement(resp: bytes, t1: int, t4: int): Result<Measure> {
    var f :- FieldsOf(resp);
    Ok(MeasureOf(f, t1, t4))
  }

  /** The exact instants the fixed-point fields stand for. */
  ghost function ExactTimestamp(secs: nat, frac: nat): real {
    ((secs - 2208988800) as real + frac as real / 4294967296.0) * PS as real
  }

  ghost function ExactShort(secs: nat, frac: nat): real {
    (secs as real + frac as real / 65536.0) * PS as real
  }

  ghost function Abs(x: real): real {
    if x < 0.0 then -x else x
  }

  lemma FloorOf(n: nat, d: nat)
    requires d > 0
    ensures (n / d) as real <= n as real / d as real < (n / d) as real + 1.0
  {
    var q, r := n / d, n % d;
    assert n == q * d + r;
    assert n as real == q as real * d as real + r as real;
    RealQuotient(n as real, d as real, q as real, r as real);
  }

  lemma RealQuotient(n: real, d: real, q: real, r: real)
    requires d > 0.0 && n == q * d + r && 0.0 <= r < d
    ensures q <= n / d < q + 1.0
  {
    var x := n / d;
    assert x * d == n;
    if x < q {
      RealOrder(x, q, d);
    } else if q + 1.0 <= x {
      RealOrder(q + 1.0, x, d);
      assert (q + 1.0) * d == q * d + d;
    }
  }

  lemma RealOrder(a: real, b: real, d: real)
    requires d > 0.0
    ensures a < b ==> a * d < b * d
    ensures a <= b ==> a * d <= b * d
  {
    if a < b { assert b * d == a * d + (b - a) * d && (b - a) * d > 0.0; }
  }

  lemma TimestampRounds(secs: nat, frac: nat)
    ensures TimestampPs(secs, frac) as real <= ExactTimestamp(secs, frac) < TimestampPs(secs, frac) as real + 1.0
  {
    FloorOf(frac * PS, 0x1_0000_0000);
    assert (frac * PS) as real == frac as real * PS as real;
    assert frac as real / 4294967296.0 * PS as real == frac as real * PS as real / 4294967296.0;
  }

  lemma ShortRounds(secs: nat, frac: nat)
    ensures ShortPs(secs, frac) as real <= ExactShort(secs, frac) < ShortPs(secs, frac) as real + 1.0
  {
    FloorOf(frac * PS, 0x1_0000);
    assert (frac * PS) as real == frac as real * PS as real;
    assert frac as real / 65536.0 * PS as real == frac as real * PS as real / 65536.0;
  }

  /** How an exchange can go: the server's clock is off by `offset`, no more than its root dispersion
      plus half its root delay, and the round trip without the server's own time is split in any way
      into a way out and a way back. */
  ghost predicate Possible(f: Fields, t1: int, t4: int, offset: real, out: real, back: real) {
    var received := ExactTimestamp(f.receiveSecs, f.receiveFrac);
    var sent := ExactTimestamp(f.transmitSecs, f.transmitFrac);
    && Abs(offset) <= ExactShort(f.dispSecs, f.dispFrac) + ExactShort(f.delaySecs, f.delayFrac) / 2.0
    && out >= 0.0 && back >= 0.0
    && out + back == ((t4 - t1) * 1000) as real - (sent - received)
  }

  /** True time when the response arrives. */
  ghost function TrueReceipt(f: Fields, offset: real, back: real): real {
    ExactTimestamp(f.transmitSecs, f.transmitFrac) + offset + back
  }

  /** True time at receipt lies within the stated uncertainty of the claim; the fixed margin for local
      timestamping is hardly touched, all the rounding together costs less than 4 ps of it. */
  lemma ReceiptCovered(resp: bytes, t1: int, t4: int, offset: real, out: real, back: real)
    requires FieldsOf(resp).Ok? && Possible(FieldsOf(resp).value, t1, t4, offset, out, back)
    ensures DeriveMeasurement(resp, t1, t4).Ok?
    ensures var m := DeriveMeasurement(resp, t1, t4).value;
            Abs(TrueReceipt(FieldsOf(resp).value, offset, back) - m.claimed as real)
              <= (m.uncertainty - 2_000_000_000) as real + 4.0
  {
    hide FieldsOf, TimestampPs, ShortPs, ExactTimestamp, ExactShort;
    var f := FieldsOf(resp).value;
    TimestampRounds(f.receiveSecs, f.receiveFrac);
    TimestampRounds(f.transmitSecs, f.transmitFrac);
    ShortRounds(f.dispSecs, f.dispFrac);
    ShortRounds(f.delaySecs, f.delayFrac);
    var received, sent := TimestampPs(f.receiveSecs, f.receiveFrac), TimestampPs(f.transmitSecs, f.transmitFrac);
    var path := Max((t4 - t1) * 1000 - (sent - received), 0);
    HalfOf(path);
    HalfOf(ShortPs(f.delaySecs, f.delayFrac));
  }

  /** An exchange whose server kept the packet no longer than the round trip took. */
  ghost predicate Consistent(f: Fields, t1: int, t4: int) {
    ExactTimestamp(f.transmitSecs, f.transmitFrac) - ExactTimestamp(f.receiveSecs, f.receiveFrac)
      <= ((t4 - t1) * 1000) as real
  }

  /** Nor is the claim wider than it has to be.  Some possible course of the exchange puts true time at receipt as
      late, and another as early, as the stated uncertainty without the margin allows, up to 4 ps. */
  lemma ReceiptTight(resp: bytes, t1: int, t4: int) returns (offset: real, way: real)
    requires FieldsOf(resp).Ok? && Consistent(FieldsOf(resp).value, t1, t4)
    ensures DeriveMeasurement(resp, t1, t4).Ok?
    ensures var f, m := FieldsOf(resp).value, DeriveMeasurement(resp, t1, t4).value;
      && Possible(f, t1, t4, offset, 0.0, way)
      && TrueReceipt(f, offset, way) - m.claimed as real >= (m.uncertainty - 2_000_000_000) as real - 4.0
      && Possible(f, t1, t4, -offset, way, 0.0)
      && m.claimed as real - TrueReceipt(f, -offset, 0.0) >= (m.uncertainty - 2_000_000_000) as real - 4.0
  {
    hide FieldsOf, TimestampPs, ShortPs, ExactTimestamp, ExactShort;
    var f := FieldsOf(resp).value;
    TimestampRounds(f.receiveSecs, f.receiveFrac);
    TimestampRounds(f.transmitSecs, f.transmitFrac);
    ShortRounds(f.dispSecs, f.dispFrac);
    ShortRounds(f.delaySecs, f.delayFrac);
    var received, sent := TimestampPs(f.receiveSecs, f.receiveFrac), TimestampPs(f.transmitSecs, f.transmitFrac);
    var path := Max((t4 - t1) * 1000 - (sent - received), 0);
    HalfOf(path);
    HalfOf(ShortPs(f.delaySecs, f.delayFrac));
    offset := ExactShort(f.dispSecs, f.dispFrac) + ExactShort(f.delaySecs, f.delayFrac) / 2.0;
    way := ((t4 - t1) * 1000) as real
           - (ExactTimestamp(f.transmitSecs, f.transmitFrac) - ExactTimestamp(f.receiveSecs, f.receiveFrac));
  }

  lemma HalfOf(n: int)
    ensures n as real / 2.0 - 0.5 <= (n / 2) as real <= n as real / 2.0
  {
  }

  // ---- Roughtime ----

  /** derive_rt_measurement */
  function DeriveRtMeasurement(m: Midpoint, t1: int, t4: int): Measure {
    var rtt := (t4 - t1) * 1000;
    Measure(m.midp * PS + PS / 2, (m.radi + 1) * PS + rtt / 2 + 2 * (PS / 1000))
  }

  /** The server answered at a true time within its radius of the second it names. */
  ghost predicate ServerRight(m: Midpoint, served: real) {
    ((m.midp - m.radi) * PS) as real <= served < ((m.midp + 1 + m.radi) * PS) as real
  }

  /** The claim covers true time half way through the exchange, however the delay is split. */
  lemma RtMiddleCovered(m: Midpoint, t1: int, t4: int, served: real, out: real, back: real)
    requires ServerRight(m, served) && out >= 0.0 && back >= 0.0 && out + back == ((t4 - t1) * 1000) as real
    ensures var d := DeriveRtMeasurement(m, t1, t4);
            Abs(served + back - (out + back) / 2.0 - d.claimed as real) <= d.uncertainty as real
  {
    HalfOf((t4 - t1) * 1000);
    Scaled(m);
  }

  /** Half a second and the margin are all that the claim is wider than it has to be. */
  lemma RtMiddleTight(m: Midpoint, t1: int, t4: int) returns (early: real, late: real)
    requires t1 <= t4
    ensures ServerRight(m, early) && ServerRight(m, late)
    ensures var d, rtt := DeriveRtMeasurement(m, t1, t4), ((t4 - t1) * 1000) as real;
      && d.claimed as real - (early - rtt / 2.0) >= (d.uncertainty - 502_000_000_000) as real - 2.0
      && late + rtt / 2.0 - d.claimed as real >= (d.uncertainty - 502_000_000_000) as real - 2.0
  {
    HalfOf((t4 - t1) * 1000);
    Scaled(m);
    early, late := ((m.midp - m.radi) * PS) as real, ((m.midp + 1 + m.radi) * PS) as real - 1.0;
  }

  lemma Scaled(m: Midpoint)
    ensures ((m.midp - m.radi) * PS) as real == m.midp as real * PS as real - m.radi as real * PS as real
    ensures ((m.midp + 1 + m.radi) * PS) as real
         == m.midp as real * PS as real + PS as real + m.radi as real * PS as real
    ensures (m.midp * PS) as real == m.midp as real * PS as real
    ensures ((m.radi + 1) * PS) as real == m.radi as real * PS as real + PS as real
  {
  }

  ghost predicate RtPossible(m: Midpoint, t1: int, t4: int, served: real, back: real) {
    ServerRight(m, served) && 0.0 <= back <= ((t4 - t1) * 1000) as real
  }

  ghost predicate RtReceiptAlwaysCovered(m: Midpoint, t1: int, t4: int) {
    var d := DeriveRtMeasurement(m, t1, t4);
    forall served, back | RtPossible(m, t1, t4, served, back) ::
      Abs(served + back - d.claimed as real) <= d.uncertainty as real
  }

  /** It covers true time at receipt for every possible split exactly when the round trip is short
      enough, about a second: unlike the NTP claim it is not moved by half the path. */
  lemma RtReceiptCoveredIff(m: Midpoint, t1: int, t4: int)
    requires t1 <= t4
    ensures var rtt := (t4 - t1) * 1000;
            RtReceiptAlwaysCovered(m, t1, t4) <==> rtt - rtt / 2 <= PS / 2 + 2 * (PS / 1000)
  {
    var rtt := (t4 - t1) * 1000;
    var d := DeriveRtMeasurement(m, t1, t4);
    HalfOf(rtt);
    Scaled(m);
    if rtt - rtt / 2 > PS / 2 + 2 * (PS / 1000) {
      var served, back := ((m.midp + 1 + m.radi) * PS) as real - 0.5, rtt as real;
      assert RtPossible(m, t1, t4, served, back);
      assert Abs(served + back - d.claimed as real) > d.uncertainty as real;
    }
  }

  // ---- the Earth rotation angle ----

  const ERA_A_NANO := 779057273
  const ERA_B_SCALED := 100273781191135448
  const DUT1_BOUND_PS := 900_000_000_000
  /** A day in picoseconds, times 10^8. */
  const ERA_DEN := 8_640_000_000_000_000_000_000_000
  const TURN := 1_000_000_000
  const J2000_UNIX_S := 946728000

  datatype Era = Era(origin: int, mid: int, nano: int, uncertainty: int)

  /** Nano-turns since the epoch, whole turns included. */
  function TotalNano(dt: int): int {
    ERA_A_NANO + ERA_B_SCALED * dt / ERA_DEN
  }

  function SinceJ2000(origin: int, mid: int): int {
    origin * PS + mid - J2000_UNIX_S * PS
  }

  /** The computed fields of era_expectation; // and % of Python round towards minus infinity, as the
      Euclidean operators do for a positive divisor. */
  function EraExpectation(origin: int, mid: int): Era {
    Era(origin, mid, TotalNano(SinceJ2000(origin, mid)) % TURN, ERA_B_SCALED * DUT1_BOUND_PS / ERA_DEN + 1)
  }

  lemma UncertaintyValue(origin: int, mid: int)
    ensures EraExpectation(origin, mid).uncertainty == 10446
  {
    assert ERA_B_SCALED * DUT1_BOUND_PS / ERA_DEN == 10445;
  }

  /** Moving the instant by |UT1 - UTC| <= 0.9 s moves the angle by no more than the stated uncertainty,
      counting round the circle. */
  lemma EraWithinUncertainty(origin: int, mid: int, dut1: int) returns (moved: int)
    requires -DUT1_BOUND_PS <= dut1 <= DUT1_BOUND_PS
    ensures var e := EraExpectation(origin, mid);
            && -e.uncertainty <= moved <= e.uncertainty
            && EraExpectation(origin, mid + dut1).nano == (e.nano + moved) % TURN
  {
    var dt := SinceJ2000(origin, mid);
    moved := TotalNano(dt + dut1) - TotalNano(dt);
    FloorMoves(ERA_B_SCALED * dt, ERA_B_SCALED * dut1, ERA_DEN, ERA_B_SCALED * DUT1_BOUND_PS);
    TurnsCancel(TotalNano(dt), moved);
  }

  lemma TurnsCancel(total: int, moved: int)
    ensures (total + moved) % TURN == (total % TURN + moved) % TURN
  {
  }

  lemma FloorMoves(x: int, y: int, d: int, bound: int)
    requires d > 0 && -bound <= y <= bound
    ensures -(bound / d + 1) <= (x + y) / d - x / d <= bound / d + 1
  {
    var p, q, b := x / d, (x + y) / d, bound / d;
    var r, s, t := x % d, (x + y) % d, bound % d;
    assert x == p * d + r && x + y == q * d + s && bound == b * d + t;
    Spread(p, q, b, d, r, s, t);
  }

  lemma Spread(p: int, q: int, b: int, d: int, r: int, s: int, t: int)
    requires 0 <= r < d && 0 <= s < d && 0 <= t < d
    requires -(b * d + t) <= q * d + s - (p * d + r) <= b * d + t
    ensures -(b + 1) <= q - p <= b + 1
  {
    assert q * d - p * d == (q - p) * d;
    FactorOrder(b + 2, q - p, d);
    FactorOrder(q - p, -(b + 2), d);
    assert (b + 2) * d == b * d + 2 * d && -(b + 2) * d == -(b * d) - 2 * d;
  }

  lemma FactorOrder(a: int, b: int, d: int)
    requires d > 0
    ensures a <= b ==> a * d <= b * d
  {
    if a <= b { assert b * d == a * d + (b - a) * d && (b - a) * d >= 0; }
  }

  /** The angle the IAU 2000 formula gives, before the constants are rounded. */
  ghost function ExactNano(dt: real): real {
    779057273.264 + ERA_B_SCALED as real * dt / ERA_DEN as real
  }

  /** The angle is within `margin` of the computed one, counting round the circle. */
  ghost predicate Near(e: Era, angle: real, margin: real) {
    exists turns: int :: NearBy(e, angle, margin, turns)
  }

  ghost predicate NearBy(e: Era, angle: real, margin: real, turns: int) {
    Abs(angle - (e.nano + turns * TURN) as real) <= margin
  }

  /** The exact angle at the true UT1, which is off from UTC by dut1. */
  ghost function TrueAngle(origin: int, mid: int, dut1: real): real {
    ExactNano(SinceJ2000(origin, mid) as real + dut1)
  }

  ghost predicate InBound(dut1: real) {
    -DUT1_BOUND_PS as real <= dut1 <= DUT1_BOUND_PS as real
  }

  ghost predicate CoveredAt(origin: int, mid: int, dut1: real) {
    var e := EraExpectation(origin, mid);
    InBound(dut1) ==> Near(e, TrueAngle(origin, mid, dut1), e.uncertainty as real)
  }

  /** What the division by ERA_DEN drops may be this much: (10446 - 0.264) * ERA_DEN less the step in UT1. */
  const ERA_SLACK := 4_755_967_978_096_800_000_000_000

  ghost function Dropped(origin: int, mid: int): int {
    ERA_B_SCALED * SinceJ2000(origin, mid) % ERA_DEN
  }

  /** Where the exact angle lies from the computed one: the rounding of A, what the division dropped, and
      the step in UT1. */
  lemma ExactOffset(origin: int, mid: int, dut1: real) returns (turns: int)
    ensures TrueAngle(origin, mid, dut1) - (EraExpectation(origin, mid).nano + turns * TURN) as real
         == 0.264 + (Dropped(origin, mid) as real + ERA_B_SCALED as real * dut1) / ERA_DEN as real
  {
    var dt := SinceJ2000(origin, mid);
    var n, total := ERA_B_SCALED * dt, TotalNano(dt);
    turns := total / TURN;
    assert total == turns * TURN + total % TURN;
    assert n == n / ERA_DEN * ERA_DEN + n % ERA_DEN;
    assert ERA_B_SCALED as real * (dt as real + dut1) == n as real + ERA_B_SCALED as real * dut1;
  }

  lemma OffsetBounds(dropped: int, dut1: real)
    requires 0 <= dropped < ERA_DEN && InBound(dut1)
    ensures var offset := 0.264 + (dropped as real + ERA_B_SCALED as real * dut1) / ERA_DEN as real;
      && -10445.5 < offset < 10446.5 && (dropped <= ERA_SLACK ==> offset <= 10446.0)
      && (dut1 == DUT1_BOUND_PS as real && dropped > ERA_SLACK ==> offset > 10446.0)
  {
  }

  /** The stated uncertainty covers the exact formula at every UT1 within its bound exactly when what the
      division dropped leaves room for the rounding of the constants. */
  lemma UncertaintyHoldsIff(origin: int, mid: int)
    ensures (forall dut1 :: CoveredAt(origin, mid, dut1)) <==> Dropped(origin, mid) <= ERA_SLACK
  {
    var e, dropped := EraExpectation(origin, mid), Dropped(origin, mid);
    UncertaintyValue(origin, mid);
    if dropped <= ERA_SLACK {
      forall dut1 ensures CoveredAt(origin, mid, dut1) {
        if InBound(dut1) {
          var turns := ExactOffset(origin, mid, dut1);
          OffsetBounds(dropped, dut1);
          assert NearBy(e, TrueAngle(origin, mid, dut1), e.uncertainty as real, turns);
        }
      }
    } else {
      UncoveredAtBound(origin, mid);
    }
  }

  lemma UncoveredAtBound(origin: int, mid: int)
    requires Dropped(origin, mid) > ERA_SLACK
    ensures !CoveredAt(origin, mid, DUT1_BOUND_PS as real)
  {
    var e, dut1 := EraExpectation(origin, mid), DUT1_BOUND_PS as real;
    var angle := TrueAngle(origin, mid, dut1);
    UncertaintyValue(origin, mid);
    var turns := ExactOffset(origin, mid, dut1);
    OffsetBounds(Dropped(origin, mid), dut1);
    var margin := e.uncertainty as real;
    forall other ensures !NearBy(e, angle, margin, other) {
      OtherTurn(angle - (e.nano + turns * TURN) as real, turns - other);
      assert (e.nano + other * TURN) as real == (e.nano + turns * TURN) as real - ((turns - other) * TURN) as real;
    }
  }

  /** An offset just above the uncertainty stays above it however many turns are added. */
  lemma OtherTurn(offset: real, turns: int)
    requires 10446.0 < offset < 10446.5
    ensures Abs(offset + (turns * TURN) as real) > 10446.0
  {
    if turns > 0 { assert turns * TURN >= TURN; }
    if turns < 0 { assert turns * TURN <= -TURN; }
  }

  /** It is never short by more than half a nano-turn. */
  lemma ExactWithin(origin: int, mid: int, dut1: real)
    requires InBound(dut1)
    ensures var e := EraExpectation(origin, mid); Near(e, TrueAngle(origin, mid, dut1), e.uncertainty as real + 0.5)
  {
    var e := EraExpectation(origin, mid);
    UncertaintyValue(origin, mid);
    var turns := ExactOffset(origin, mid, dut1);
    OffsetBounds(Dropped(origin, mid), dut1);
    assert NearBy(e, TrueAngle(origin, mid, dut1), e.uncertainty as real + 0.5, turns);
  }

  /** And it can be short: an instant of the day of J2000 at which it does not cover UT1 - UTC = 0.9 s. */
  lemma ExactNotWithinUncertainty()
    ensures !CoveredAt(J2000_UNIX_S, 86164098, DUT1_BOUND_PS as real)
  {
    assert Dropped(J2000_UNIX_S, 86164098) == 8_639_999_909_383_551_472_745_904;
    UncoveredAtBound(J2000_UNIX_S, 86164098);
  }
}
