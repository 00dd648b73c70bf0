/** Exactly when one pass of a block is enough, and when two deliver nothing else (ctp/radio.py). */
module RadioPasses {
  import opened Wrappers
  import opened Bytes
  import opened Radio
  import opened RadioProofs

  /** frags[i] parses as the i-th part of the block. */
  ghost predicate AreFragments(frags: seq<bytes>, b: Block) {
    |frags| == |b.chunks| && forall i: nat | i < |frags| :: ParseFragment(frags[i]) == Some(b.Part(i))
  }

  /** Every packet is one of the fragments, and every fragment is among the packets. */
  ghost predicate Covers(packets: seq<bytes>, frags: seq<bytes>) {
    (forall p | p in packets :: p in frags) && (forall f | f in frags :: f in packets)
  }

  lemma FragmentsAdmitted(packets: seq<bytes>, frags: seq<bytes>, b: Block)
    requires AreFragments(frags, b) && forall p | p in packets :: p in frags
    ensures b.AdmitsAll(packets)
  {
    hide ParseFragment;
    forall j | 0 <= j < |packets| ensures b.Admits(packets[j]) {
      assert packets[j] in frags;
      var i: nat :| i < |frags| && frags[i] == packets[j];
      assert ParseFragment(packets[j]) == Some(b.Part(i));
    }
  }

  lemma CoversCarries(packets: seq<bytes>, frags: seq<bytes>, b: Block)
    requires AreFragments(frags, b) && Covers(packets, frags) && b.chunks != []
    ensures CarriesAll(packets, b)
  {
    hide ParseFragment, Block.Admits;
    FragmentsAdmitted(packets, frags, b);
    forall i: nat | i < |b.chunks| ensures b.Fed(packets, i) {
      assert frags[i] in packets;
      var j :| 0 <= j < |packets| && packets[j] == frags[i];
      assert ParseFragment(packets[j]) == Some(b.Part(i));
    }
  }

  // ---- a part that is never heard ----

  lemma StoredOver(st: State, b: Block, i: nat)
    requires i < |b.chunks|
    ensures Stored(st, b.Part(i)) == Slot(|b.chunks|, StaleParts(st, b)[i := b.chunks[i]])
  {
  }

  lemma MissingStep(st: State, packet: bytes, validate: bytes -> bool, b: Block, m: nat)
    requires Valid(st) && b.Admits(packet) && m < |b.chunks| && ParseFragment(packet) != Some(b.Part(m))
    requires b.ident !in st.seen && !b.Holds(st, m)
    ensures var next := Step(st, packet, validate).0; b.ident !in next.seen && !b.Holds(next, m)
  {
    hide ParseFragment, Step, Flatten, InOrder, Valid;
    var r := ParseFragment(packet);
    if r.Some? && r.value.ident == b.ident {
      var i := r.value.index;
      OwnFragment(st, packet, validate, b, i);
      StoredOver(st, b, i);
      assert m !in Stored(st, b.Part(i)).parts;
    } else {
      OtherIdent(st, packet, validate, b.ident);
    }
  }

  /** Without its m-th part a block is not delivered. */
  lemma {:induction false} MissingRun(st: State, packets: seq<bytes>, validate: bytes -> bool, b: Block, m: nat)
    requires Valid(st) && b.AdmitsAll(packets) && m < |b.chunks| && !b.Fed(packets, m)
    requires b.ident !in st.seen && !b.Holds(st, m)
    ensures var next := Run(st, packets, validate).state; b.ident !in next.seen && !b.Holds(next, m)
    decreases |packets|
  {
    hide ParseFragment, Step, Valid, Block.Admits;
    if packets != [] {
      var front, packet := packets[..|packets| - 1], packets[|packets| - 1];
      assert packets == front + [packet];
      assert forall j | 0 <= j < |front| :: front[j] == packets[j];
      FedMore(b, front, packet, m);
      MissingRun(st, front, validate, b, m);
      MissingStep(Run(st, front, validate).state, packet, validate, b, m);
    }
  }

  // ---- feeding a chosen set of fragments ----

  /** The fragments below k whose index is chosen, in order. */
  function Pick(frags: seq<bytes>, chosen: set<nat>, k: nat): seq<bytes>
    requires k <= |frags|
  {
    if k == 0 then [] else Pick(frags, chosen, k - 1) + (if k - 1 in chosen then [frags[k - 1]] else [])
  }

  lemma {:induction false} PickedFrom(frags: seq<bytes>, chosen: set<nat>, k: nat)
    requires k <= |frags|
    ensures forall p | p in Pick(frags, chosen, k) :: exists i: nat :: i < k && i in chosen && p == frags[i]
    ensures forall i: nat | i < k && i in chosen :: frags[i] in Pick(frags, chosen, k)
  {
    if k > 0 { PickedFrom(frags, chosen, k - 1); }
  }

  lemma PickAdmitted(frags: seq<bytes>, chosen: set<nat>, k: nat, b: Block, m: nat)
    requires AreFragments(frags, b) && k <= |frags| && m < |b.chunks| && m !in chosen
    ensures b.AdmitsAll(Pick(frags, chosen, k)) && !b.Fed(Pick(frags, chosen, k), m)
  {
    hide ParseFragment, Block.Admits, Pick;
    var packets := Pick(frags, chosen, k);
    PickedFrom(frags, chosen, k);
    FragmentsAdmitted(packets, frags, b);
    forall j | 0 <= j < |packets| ensures ParseFragment(packets[j]) != Some(b.Part(m)) {
      assert packets[j] in packets;
      var i: nat :| i < k && i in chosen && packets[j] == frags[i];
      assert b.Part(i).index != b.Part(m).index;
    }
  }

  /** The parts held before, with the chosen ones below k replaced by the block's own. */
  function Overlay(stale: map<nat, bytes>, b: Block, chosen: set<nat>, k: nat): map<nat, bytes>
    requires k <= |b.chunks|
  {
    if k == 0 then stale
    else if k - 1 in chosen then Overlay(stale, b, chosen, k - 1)[k - 1 := b.chunks[k - 1]]
    else Overlay(stale, b, chosen, k - 1)
  }

  lemma {:induction false} OverlayAt(stale: map<nat, bytes>, b: Block, chosen: set<nat>, k: nat)
    requires k <= |b.chunks|
    ensures forall i: nat :: i in Overlay(stale, b, chosen, k) <==> i in stale || (i < k && i in chosen)
    ensures forall i | i in Overlay(stale, b, chosen, k) ::
      Overlay(stale, b, chosen, k)[i] == if i < k && i in chosen then b.chunks[i] else stale[i]
  {
    if k > 0 { OverlayAt(stale, b, chosen, k - 1); }
  }

  /** As long as one part is missing, the parts fed stand over the parts held before. */
  lemma {:induction false} PickRun(st: State, frags: seq<bytes>, chosen: set<nat>, k: nat, validate: bytes -> bool,
                                   b: Block, m: nat)
    requires Valid(st) && AreFragments(frags, b) && k <= |frags| && m < |b.chunks| && m !in chosen
    requires b.ident !in st.seen && !b.Holds(st, m)
    ensures var next := Run(st, Pick(frags, chosen, k), validate).state;
      && b.ident !in next.seen && !b.Holds(next, m)
      && StaleParts(next, b) == Overlay(StaleParts(st, b), b, chosen, k)
  {
    hide ParseFragment, Step, Valid, StaleParts;
    PickAdmitted(frags, chosen, k, b, m);
    MissingRun(st, Pick(frags, chosen, k), validate, b, m);
    if k > 0 {
      var front := Pick(frags, chosen, k - 1);
      PickRun(st, frags, chosen, k - 1, validate, b, m);
      if k - 1 in chosen {
        assert Pick(frags, chosen, k)[..|front|] == front;
        PickStep(Run(st, front, validate).state, frags[k - 1], validate, b, k - 1, m);
      } else {
        assert Pick(frags, chosen, k) == front;
      }
    }
  }

  lemma PickStep(st: State, packet: bytes, validate: bytes -> bool, b: Block, i: nat, m: nat)
    requires Valid(st) && i < |b.chunks| && ParseFragment(packet) == Some(b.Part(i)) && i != m < |b.chunks|
    requires b.ident !in st.seen && !b.Holds(st, m)
    ensures StaleParts(Step(st, packet, validate).0, b) == StaleParts(st, b)[i := b.chunks[i]]
  {
    hide ParseFragment, Step, Flatten, InOrder, Valid;
    OwnFragment(st, packet, validate, b, i);
    StoredOver(st, b, i);
    assert m !in Stored(st, b.Part(i)).parts;
  }

  // ---- every mixture is reached by some pass ----

  /** The indices at which a mixture has the block's own chunk. */
  ghost function OwnIn(b: Block, parts: seq<bytes>): set<nat>
    requires |parts| == |b.chunks|
  {
    set i: nat | i < |parts| && parts[i] == b.chunks[i]
  }

  ghost function OthersIn(b: Block, parts: seq<bytes>): set<nat>
    requires |parts| == |b.chunks|
  {
    set i: nat | i < |parts| && parts[i] != b.chunks[i]
  }

  /** The mixture's own chunks are fed but for one that is held from nowhere, and then that one: what is
      complete then is the mixture. */
  lemma MixCompletes(st: State, b: Block, frags: seq<bytes>, parts: seq<bytes>, validate: bytes -> bool, m: nat)
    requires Valid(st) && b.ident !in st.seen && AreFragments(frags, b) && IsMix(b, StaleParts(st, b), parts)
    requires m < |b.chunks| && !b.Holds(st, m)
    ensures var mid := Run(st, Pick(frags, OwnIn(b, parts) - {m}, |frags|), validate).state;
      var slot := Stored(mid, b.Part(m));
      && b.ident !in mid.seen && |slot.parts| == |b.chunks|
      && (forall i: nat | i < |b.chunks| :: i in slot.parts && slot.parts[i] == parts[i])
      && m in OwnIn(b, parts)
  {
    hide ParseFragment, Run, Valid;
    var own, stale := OwnIn(b, parts) - {m}, StaleParts(st, b);
    assert FromEither(b, stale, m, parts[m]);
    PickRun(st, frags, own, |frags|, validate, b, m);
    OverlayAt(stale, b, own, |frags|);
    var mid := Run(st, Pick(frags, own, |frags|), validate).state;
    StoredOver(mid, b, m);
    StoredOk(mid, b.Part(m));
    var slot := Stored(mid, b.Part(m));
    forall i: nat | i < |b.chunks| ensures i in slot.parts && slot.parts[i] == parts[i] {
      assert FromEither(b, stale, i, parts[i]);
    }
    Complete(slot.parts, |b.chunks|);
  }

  lemma SameParts(parts: map<nat, bytes>, want: seq<bytes>)
    requires forall i: nat | i < |want| :: i in parts && parts[i] == want[i]
    ensures InOrder(parts, |want|) == want
  {
  }

  /** The completing fragment delivers the mixture or throws it away. */
  lemma MixDecided(mid: State, packet: bytes, b: Block, parts: seq<bytes>, validate: bytes -> bool, m: nat)
    requires Valid(mid) && b.ident !in mid.seen && m < |b.chunks| == |parts| && ParseFragment(packet) == Some(b.Part(m))
    requires var slot := Stored(mid, b.Part(m));
      |slot.parts| == |parts| && forall i: nat | i < |parts| :: i in slot.parts && slot.parts[i] == parts[i]
    ensures var o := Run(mid, [packet], validate);
      && (validate(Flatten(parts)) ==> o.delivered == [Delivery(b.ident, Flatten(parts))])
      && (!validate(Flatten(parts)) ==> b.ident !in o.state.seen && forall i: nat | i < |parts| :: !b.Holds(o.state, i))
  {
    hide ParseFragment, Flatten, InOrder, Step, Valid;
    OwnFragment(mid, packet, validate, b, m);
    SameParts(Stored(mid, b.Part(m)).parts, parts);
    DeliveryMarksSeen(mid, packet, validate);
    var none: seq<bytes> := [];
    assert [packet][..0] == none;
    assert Run(mid, [packet][..0], validate) == Outcome(mid, []);
  }

  lemma PassCovers(frags: seq<bytes>, b: Block, parts: seq<bytes>, m: nat)
    requires |frags| == |b.chunks| == |parts| && m < |frags|
    ensures Covers(Pick(frags, OwnIn(b, parts) - {m}, |frags|) + [frags[m]]
                   + Pick(frags, OthersIn(b, parts), |frags|), frags)
  {
    hide Pick;
    PickedFrom(frags, OwnIn(b, parts) - {m}, |frags|);
    PickedFrom(frags, OthersIn(b, parts), |frags|);
  }

  lemma MixLength(b: Block, stale: map<nat, bytes>, parts: seq<bytes>)
    requires IsMix(b, stale, parts)
    ensures |parts| == |b.chunks|
  {
  }

  /** For every mixture there is a pass, each fragment of the block once, whose first completion is that
      mixture: it is delivered if the validator accepts it, and otherwise nothing is. */
  lemma MixReached(st: State, b: Block, frags: seq<bytes>, parts: seq<bytes>, validate: bytes -> bool)
    returns (pass: seq<bytes>)
    requires Valid(st) && b.ident !in st.seen && b.chunks != [] && AreFragments(frags, b)
    requires IsMix(b, StaleParts(st, b), parts)
    ensures Covers(pass, frags)
    ensures validate(Flatten(parts)) ==> Delivery(b.ident, Flatten(parts)) in Run(st, pass, validate).delivered
    ensures !validate(Flatten(parts)) ==> b.ident !in Run(st, pass, validate).state.seen
  {
    hide ParseFragment, Flatten, Run, Valid, Pick, Covers, IsMix, OwnIn, OthersIn, Block.Holds;
    MixLength(b, StaleParts(st, b), parts);
    NeverFull(st, b);
    var m: nat :| m < |b.chunks| && !b.Holds(st, m);
    var front, rest := Pick(frags, OwnIn(b, parts) - {m}, |frags|), Pick(frags, OthersIn(b, parts), |frags|);
    pass := front + [frags[m]] + rest;
    PassCovers(frags, b, parts, m);
    MixCompletes(st, b, frags, parts, validate, m);
    MixDecided(Run(st, front, validate).state, frags[m], b, parts, validate, m);
    RunConcat(st, front, [frags[m]], validate);
    RunConcat(st, front + [frags[m]], rest, validate);
    if !validate(Flatten(parts)) {
      OwnNotOther(b, parts, m);
      PickRun(Run(st, front + [frags[m]], validate).state, frags, OthersIn(b, parts), |frags|, validate, b, m);
    }
  }

  lemma OwnNotOther(b: Block, parts: seq<bytes>, m: nat)
    requires |parts| == |b.chunks| && m in OwnIn(b, parts)
    ensures m !in OthersIn(b, parts)
  {
  }

  // ---- exactly when one pass is enough ----

  ghost predicate EveryPassDelivers(st: State, b: Block, validate: bytes -> bool)
    requires Valid(st)
  {
    forall packets | CarriesAll(packets, b) :: b.ident in Run(st, packets, validate).state.seen
  }

  /** From a state that has not delivered the block, every complete pass delivers something under its id
      exactly when the validator accepts every mixture of the block's chunks with the parts held before. */
  lemma OnePassIff(st: State, b: Block, frags: seq<bytes>, validate: bytes -> bool)
    requires Valid(st) && b.ident !in st.seen && b.chunks != [] && AreFragments(frags, b)
    ensures EveryPassDelivers(st, b, validate) <==> AcceptsAllMixes(validate, b, StaleParts(st, b))
  {
    hide ParseFragment, Flatten, Run, Valid, Covers, IsMix, CarriesAll, StaleParts;
    if AcceptsAllMixes(validate, b, StaleParts(st, b)) {
      forall packets | CarriesAll(packets, b) ensures b.ident in Run(st, packets, validate).state.seen {
        OnePassSuffices(st, packets, validate, b);
      }
    } else {
      var parts: seq<bytes> :| IsMix(b, StaleParts(st, b), parts) && !validate(Flatten(parts));
      var pass := MixReached(st, b, frags, parts, validate);
      CoversCarries(pass, frags, b);
    }
  }

  /** One packet from nothing: an incomplete slot holding its payload. */
  lemma OneForged(forged: bytes, p: Packet, validate: bytes -> bool)
    requires ParseFragment(forged) == Some(p) && p.count >= 2
    ensures Run(EMPTY, [forged], validate)
         == Outcome(State(map[p.ident := Slot(p.count, map[p.index := p.payload])], {}), [])
  {
    hide ParseFragment, Flatten, InOrder;
    var none: seq<bytes> := [];
    assert [forged][..0] == none;
    assert Run(EMPTY, [forged][..0], validate) == Outcome(EMPTY, []);
    assert |map[p.index := p.payload]| == 1;
  }

  lemma OneReplaced(b: Block, j: nat, x: bytes)
    requires j < |b.chunks|
    ensures IsMix(b, map[j := x], b.chunks[j := x])
  {
    var parts := b.chunks[j := x];
    forall i: nat | i < |parts| ensures FromEither(b, map[j := x], i, parts[i]) {}
  }

  /** One pass is not always enough: one forged part heard before it, out of whatever block, and there is an
      order of the block's own fragments that leaves it undelivered. */
  lemma OnePassMayFail(b: Block, frags: seq<bytes>, forged: bytes, j: nat, x: bytes, validate: bytes -> bool)
    returns (pass: seq<bytes>)
    requires |b.chunks| >= 2 && AreFragments(frags, b) && j < |b.chunks|
    requires ParseFragment(forged) == Some(Packet(b.ident, j, |b.chunks|, x))
    requires !validate(Flatten(b.chunks[j := x]))
    ensures CarriesAll(pass, b) && b.ident !in Run(EMPTY, [forged] + pass, validate).state.seen
  {
    hide ParseFragment, Flatten, Run, Covers, IsMix, CarriesAll;
    OneForged(forged, Packet(b.ident, j, |b.chunks|, x), validate);
    OneReplaced(b, j, x);
    var st := Run(EMPTY, [forged], validate).state;
    pass := MixReached(st, b, frags, b.chunks[j := x], validate);
    CoversCarries(pass, frags, b);
    RunConcat(EMPTY, [forged], pass, validate);
  }

  // ---- exactly when two passes deliver the block and nothing else ----

  ghost predicate DeliversOnly(st: State, validate: bytes -> bool, packets: seq<bytes>, d: Delivery)
    requires Valid(st)
  {
    var ds := Run(st, packets, validate).delivered;
    d in ds && forall e | e in ds && e.ident == d.ident :: e == d
  }

  ghost predicate EveryTwoPassesDeliverOnly(st: State, validate: bytes -> bool, frags: seq<bytes>, d: Delivery)
    requires Valid(st)
  {
    forall first, second | IsPass(first, d.ident, frags) && IsPass(second, d.ident, frags) ::
      DeliversOnly(st, validate, first + second, d)
  }

  /** Two passes deliver the block, and nothing else under its id, whatever their order and the traffic
      between, exactly when the validator accepts no other mixture of its chunks with parts held before. */
  lemma TwoPassDeliversBlockIff(st: State, validate: bytes -> bool, dsha: bytes -> Hash256, raw: bytes, mtu: int)
    requires Valid(st) && Fragment(dsha, raw, mtu).Ok? && validate(raw) && IdentOf(dsha, raw) !in st.seen
    requires mtu > HEADER_LEN
    ensures
      EveryTwoPassesDeliverOnly(st, validate, Fragment(dsha, raw, mtu).value, Delivery(IdentOf(dsha, raw), raw))
      <==> AcceptsOnly(validate, BlockOf(dsha, raw, mtu), StaleParts(st, BlockOf(dsha, raw, mtu)), raw)
  {
    FragmentsParse(dsha, raw, mtu);
    PassIdent(dsha, raw, mtu);
    hide ParseFragment, Fragment, BlockOf, Flatten, Run, IsPass, IsMix, StaleParts, Valid, Covers, IdentOf;
    var b, frags := BlockOf(dsha, raw, mtu), Fragment(dsha, raw, mtu).value;
    var d := Delivery(b.ident, raw);
    if AcceptsOnly(validate, b, StaleParts(st, b), raw) {
      forall first, second | IsPass(first, d.ident, frags) && IsPass(second, d.ident, frags)
        ensures DeliversOnly(st, validate, first + second, d)
      {
        TwoPassDeliversBlock(st, validate, dsha, raw, mtu, first, second);
      }
    } else {
      var parts: seq<bytes> :| IsMix(b, StaleParts(st, b), parts) && validate(Flatten(parts)) && Flatten(parts) != raw;
      var pass := MixReached(st, b, frags, parts, validate);
      CoversIsPass(pass, b.ident, frags);
      RunConcat(st, pass, pass, validate);
      assert Delivery(b.ident, Flatten(parts)) in Run(st, pass + pass, validate).delivered;
      assert !DeliversOnly(st, validate, pass + pass, d);
    }
  }

  lemma CoversIsPass(packets: seq<bytes>, ident: bytes, frags: seq<bytes>)
    requires Covers(packets, frags)
    ensures IsPass(packets, ident, frags)
  {
    hide ParseFragment;
  }

  // ---- the default validator ----

  lemma {:induction false} FlattenLast(chunks: seq<bytes>, x: bytes)
    ensures Flatten(chunks + [x]) == Flatten(chunks) + x
  {
    if chunks == [] {
      assert [] + [x] == [x] && [x][1..] == [];
    } else {
      FlattenLast(chunks[1..], x);
      assert (chunks + [x])[1..] == chunks[1..] + [x];
    }
  }

  /** The block with its last chunk replaced: the same first 80 bytes, other bytes behind them. */
  lemma OtherTail(raw: bytes, body: nat, x: bytes)
    requires body >= 80 && |Chunks(raw, body)| >= 2
    requires x != Chunks(raw, body)[|Chunks(raw, body)| - 1]
    ensures var chunks := Chunks(raw, body); var other := Flatten(chunks[|chunks| - 1 := x]);
      && |raw| >= 80 && |other| >= 80 && other[..80] == raw[..80] && other != raw
  {
    var chunks := Chunks(raw, body);
    var n := |chunks| - 1;
    var front := chunks[..n];
    assert chunks == front + [chunks[n]] && chunks[n := x] == front + [x];
    FlattenLast(front, chunks[n]);
    FlattenLast(front, x);
    assert front[0] == chunks[0] == raw[..Min(body, |raw|)] && |front[0]| >= 80 by { FirstChunk(raw, body); }
    assert Flatten(front) == front[0] + Flatten(front[1..]);
    var other := Flatten(front) + x;
    assert other[..80] == front[0][..80] && raw[..80] == front[0][..80];
    TailDecides(Flatten(front), x, chunks[n]);
  }

  lemma TailDecides(a: bytes, x: bytes, y: bytes)
    ensures a + x == a + y <==> x == y
  {
    assert (a + x)[|a|..] == x && (a + y)[|a|..] == y;
  }

  lemma ShortChunks(raw: bytes, body: nat)
    requires body > 0
    ensures |raw| <= body ==> |Chunks(raw, body)| <= 1
  {
    assert raw[|raw|..] == [];
  }

  lemma FirstChunk(raw: bytes, body: nat)
    requires body > 0 && |Chunks(raw, body)| >= 2
    ensures |raw| > body && Chunks(raw, body)[0] == raw[..body]
  {
    ShortChunks(raw, body);
  }

  /** With the default validator two receivers can end up with different blocks: for every accepted block of at
      least two fragments whose header fits the first, a forged last fragment heard first and one pass of the
      block's own fragments deliver, from the empty state, other bytes behind the same header. */
  lemma PowDeliversOther(dsha: bytes -> Hash256, raw: bytes, mtu: int, x: bytes)
    returns (pass: seq<bytes>, other: bytes)
    requires Fragment(dsha, raw, mtu).Ok? && PowValid(dsha, raw)
    requires mtu - HEADER_LEN >= 80 && |Chunks(raw, mtu - HEADER_LEN)| >= 2
    requires x != Chunks(raw, mtu - HEADER_LEN)[|Chunks(raw, mtu - HEADER_LEN)| - 1]
    ensures IsPass(pass, IdentOf(dsha, raw), Fragment(dsha, raw, mtu).value)
    ensures other != raw && |other| >= 80 && other[..80] == raw[..80]
    ensures
      var n := |Chunks(raw, mtu - HEADER_LEN)|;
      var forged := Encode(IdentOf(dsha, raw), n - 1, n, x);
      Delivery(IdentOf(dsha, raw), other) in Run(EMPTY, [forged] + pass, r => PowValid(dsha, r)).delivered
  {
    FragmentsParse(dsha, raw, mtu);
    PassIdent(dsha, raw, mtu);
    var b, frags, n := BlockOf(dsha, raw, mtu), Fragment(dsha, raw, mtu).value, |Chunks(raw, mtu - HEADER_LEN)|;
    assert b.chunks == Chunks(raw, mtu - HEADER_LEN);
    var forged := Encode(b.ident, n - 1, n, x);
    var validate := r => PowValid(dsha, r);
    OtherTail(raw, mtu - HEADER_LEN, x);
    other := Flatten(b.chunks[n - 1 := x]);
    hide ParseFragment, Fragment, BlockOf, Flatten, Run, IsPass, IsMix, Covers, Encode, PowValid, IdentOf, Chunks;
    PowIgnoresTail(dsha, raw, other[80..]);
    assert raw[..80] + other[80..] == other;
    ParseEncoded(b.ident, n - 1, n, x);
    OneForged(forged, Packet(b.ident, n - 1, n, x), validate);
    OneReplaced(b, n - 1, x);
    pass := MixReached(Run(EMPTY, [forged], validate).state, b, frags, b.chunks[n - 1 := x], validate);
    CoversIsPass(pass, b.ident, frags);
    RunConcat(EMPTY, [forged], pass, validate);
  }
}
