/** What every run of the reassembler keeps, and what repeating a transmission recovers. */
module RadioProofs {
  import opened Wrappers
  import opened Bytes
  import opened Jan09
  import opened Radio

  // ---- safety over any packet sequence ----

  /** The packet sequence contains this fragment. */
  ghost predicate Heard(packets: seq<bytes>, p: Packet) {
    exists j | 0 <= j < |packets| :: ParseFragment(packets[j]) == Some(p)
  }

  ghost predicate HeardAll(packets: seq<bytes>, ident: bytes, parts: seq<bytes>) {
    forall i | 0 <= i < |parts| :: Heard(packets, Packet(ident, i, |parts|, parts[i]))
  }

  /** Every stored part was received under its own id, index and count. */
  ghost predicate StoredHeard(st: State, packets: seq<bytes>) {
    forall id, i | id in st.partial && i in st.partial[id].parts ::
      Heard(packets, Packet(id, i, st.partial[id].count, st.partial[id].parts[i]))
  }

  /** raw is the index-order concatenation of a complete set of received parts. */
  ghost predicate Assembled(packets: seq<bytes>, d: Delivery) {
    exists parts: seq<bytes> :: parts != [] && d.raw == Flatten(parts) && HeardAll(packets, d.ident, parts)
  }

  lemma HeardMore(packets: seq<bytes>, packet: bytes, p: Packet)
    ensures Heard(packets + [packet], p) <==> Heard(packets, p) || ParseFragment(packet) == Some(p)
  {
    hide ParseFragment;
    var all := packets + [packet];
    if Heard(packets, p) {
      var j :| 0 <= j < |packets| && ParseFragment(packets[j]) == Some(p);
      assert all[j] == packets[j];
    }
    assert all[|packets|] == packet;
  }

  lemma AssembledMore(packets: seq<bytes>, packet: bytes, d: Delivery)
    requires Assembled(packets, d)
    ensures Assembled(packets + [packet], d)
  {
    hide Flatten, Heard;
    var parts: seq<bytes> :| parts != [] && d.raw == Flatten(parts) && HeardAll(packets, d.ident, parts);
    forall i | 0 <= i < |parts| ensures Heard(packets + [packet], Packet(d.ident, i, |parts|, parts[i])) {
      HeardMore(packets, packet, Packet(d.ident, i, |parts|, parts[i]));
    }
    assert HeardAll(packets + [packet], d.ident, parts);
  }

  ghost predicate WasDelivered(ds: seq<Delivery>, id: bytes) {
    exists k | 0 <= k < |ds| :: ds[k].ident == id
  }

  lemma WasDeliveredMore(ds: seq<Delivery>, d: Delivery, id: bytes)
    ensures WasDelivered(ds + [d], id) <==> WasDelivered(ds, id) || d.ident == id
  {
    var all := ds + [d];
    if WasDelivered(ds, id) {
      var k :| 0 <= k < |ds| && ds[k].ident == id;
      assert all[k].ident == id;
    }
    assert all[|ds|] == d;
  }

  ghost predicate Safe(packets: seq<bytes>, o: Outcome, validate: bytes -> bool) {
    && StoredHeard(o.state, packets)
    && (forall id :: id in o.state.seen <==> WasDelivered(o.delivered, id))
    && (forall j, k | 0 <= j < k < |o.delivered| :: o.delivered[j].ident != o.delivered[k].ident)
    && (forall k | 0 <= k < |o.delivered| :: validate(o.delivered[k].raw) && Assembled(packets, o.delivered[k]))
  }

  lemma StoredHeardStep(st: State, packets: seq<bytes>, packet: bytes, p: Packet)
    requires Valid(st) && StoredHeard(st, packets) && ParseFragment(packet) == Some(p)
    ensures forall i | i in Stored(st, p).parts ::
      Heard(packets + [packet], Packet(p.ident, i, p.count, Stored(st, p).parts[i]))
  {
    hide ParseFragment, Heard;
    var slot := Stored(st, p);
    forall i | i in slot.parts ensures Heard(packets + [packet], Packet(p.ident, i, p.count, slot.parts[i])) {
      HeardMore(packets, packet, Packet(p.ident, i, p.count, slot.parts[i]));
      if i != p.index {
        assert p.ident in st.partial && i in st.partial[p.ident].parts;
      }
    }
  }

  lemma KeepStored(st: State, packets: seq<bytes>, packet: bytes)
    requires StoredHeard(st, packets)
    ensures StoredHeard(st, packets + [packet])
  {
    hide Heard;
    forall id, i | id in st.partial && i in st.partial[id].parts
      ensures Heard(packets + [packet], Packet(id, i, st.partial[id].count, st.partial[id].parts[i]))
    {
      HeardMore(packets, packet, Packet(id, i, st.partial[id].count, st.partial[id].parts[i]));
    }
  }

  lemma StepSafe(st: State, packets: seq<bytes>, packet: bytes, validate: bytes -> bool)
    requires Valid(st) && StoredHeard(st, packets)
    ensures var (next, d) := Step(st, packet, validate);
      && StoredHeard(next, packets + [packet])
      && (d.None? ==> next.seen == st.seen)
      && (d.Some? ==>
            && ParseFragment(packet).Some? && validate(d.value)
            && var id := ParseFragment(packet).value.ident;
               id !in st.seen && next.seen == st.seen + {id} && Assembled(packets + [packet], Delivery(id, d.value)))
  {
    hide ParseFragment, Heard, Flatten;
    KeepStored(st, packets, packet);
    var r := ParseFragment(packet);
    if r.Some? && r.value.ident !in st.seen {
      var p := r.value;
      IndexBelowCount(packet);
      StoredHeardStep(st, packets, packet, p);
      StoredOk(st, p);
      var slot := Stored(st, p);
      if |slot.parts| == p.count {
        var parts := InOrder(slot.parts, p.count);
        assert HeardAll(packets + [packet], p.ident, parts);
        assert Assembled(packets + [packet], Delivery(p.ident, Flatten(parts)));
      }
    }
  }

  lemma IndexBelowCount(packet: bytes)
    ensures ParseFragment(packet).Some? ==> ParseFragment(packet).value.index < ParseFragment(packet).value.count
  {
  }

  /** Over any packet sequence, however lossy, duplicated, reordered or corrupted: every id is delivered at
      most once, `seen` holds exactly the delivered ids, and whatever is delivered was accepted by the
      validator and is the index-order concatenation of parts 0 .. count - 1, each received under that id
      and count.  (That no stored slot is ever complete is part of Valid, which Run keeps.) */
  lemma {:induction false} RunSafe(packets: seq<bytes>, validate: bytes -> bool)
    ensures Safe(packets, Run(EMPTY, packets, validate), validate)
    decreases |packets|
  {
    hide Step, Assembled, StoredHeard;
    if packets == [] {
      NothingStored(packets);
    } else {
      var front, packet := packets[..|packets| - 1], packets[|packets| - 1];
      assert packets == front + [packet];
      RunSafe(front, validate);
      var before := Run(EMPTY, front, validate);
      StepSafe(before.state, front, packet, validate);
      forall k | 0 <= k < |before.delivered| ensures Assembled(packets, before.delivered[k]) {
        AssembledMore(front, packet, before.delivered[k]);
      }
      var (next, d) := Step(before.state, packet, validate);
      if d.Some? {
        var delivery := Delivery(ParseFragment(packet).value.ident, d.value);
        forall id ensures id in next.seen <==> WasDelivered(before.delivered + [delivery], id) {
          WasDeliveredMore(before.delivered, delivery, id);
        }
        assert forall k | 0 <= k < |before.delivered| :: WasDelivered(before.delivered, before.delivered[k].ident);
      } else {
        assert before.delivered + [] == before.delivered;
      }
    }
  }

  lemma NothingStored(packets: seq<bytes>)
    ensures StoredHeard(EMPTY, packets)
  {
  }

  // ---- recovery by repetition ----

  /** A run over a + b is a run over b from where the run over a ended. */
  lemma {:induction false} RunConcat(st: State, a: seq<bytes>, b: seq<bytes>, validate: bytes -> bool)
    requires Valid(st)
    ensures var o := Run(st, a, validate);
      && Run(st, a + b, validate).state == Run(o.state, b, validate).state
      && Run(st, a + b, validate).delivered == o.delivered + Run(o.state, b, validate).delivered
    decreases |b|
  {
    hide Step, Valid;
    var o := Run(st, a, validate);
    if b == [] {
      assert a + b == a && o.delivered + [] == o.delivered;
    } else {
      var front := b[..|b| - 1];
      assert (a + b)[..|a + b| - 1] == a + front;
      RunConcat(st, a, front, validate);
    }
  }

  /** The transmission of one block: its id and its chunks, which a receiver hopes to collect. */
  datatype Block = Block(ident: bytes, chunks: seq<bytes>) {
    /** The i-th fragment, as parsed. */
    function Part(i: nat): Packet
      requires i < |chunks|
    {
      Packet(ident, i, |chunks|, chunks[i])
    }

    /** The packet is this block's, if it claims this block's id at all. */
    ghost predicate Admits(packet: bytes) {
      var r := ParseFragment(packet);
      r.Some? && r.value.ident == ident ==> r.value.index < |chunks| && r.value == Part(r.value.index)
    }

    ghost predicate Fed(packets: seq<bytes>, i: nat)
      requires i < |chunks|
    {
      Heard(packets, Part(i))
    }

    /** Whatever is stored under the id is this block's. */
    ghost predicate Genuine(st: State) {
      ident in st.partial ==>
        && st.partial[ident].count == |chunks|
        && forall i | i in st.partial[ident].parts :: i < |chunks| && st.partial[ident].parts[i] == chunks[i]
    }

    ghost predicate Holds(st: State, i: nat)
      requires i < |chunks|
    {
      ident in st.partial && st.partial[ident].count == |chunks| && i in st.partial[ident].parts
    }

    ghost predicate HoldsGenuine(st: State, i: nat)
      requires i < |chunks|
    {
      Holds(st, i) && st.partial[ident].parts[i] == chunks[i]
    }

    /** In the first pass: done, or rid of stale parts, or every part fed so far is in place. */
    ghost predicate FirstPass(st: State, packets: seq<bytes>) {
      ident in st.seen || Genuine(st) || forall i: nat | i < |chunks| && Fed(packets, i) :: HoldsGenuine(st, i)
    }

    /** Done, or every part fed so far is in place, whatever else is. */
    ghost predicate Collecting(st: State, packets: seq<bytes>) {
      ident in st.seen || forall i: nat | i < |chunks| && Fed(packets, i) :: Holds(st, i)
    }

    ghost predicate AdmitsAll(packets: seq<bytes>) {
      forall j | 0 <= j < |packets| :: Admits(packets[j])
    }
  }

  /** A slot can never hold all parts of a block. */
  lemma NeverFull(st: State, b: Block)
    requires Valid(st) && b.chunks != []
    ensures exists i: nat :: i < |b.chunks| && !b.Holds(st, i)
  {
    if forall i: nat | i < |b.chunks| :: b.Holds(st, i) {
      assert b.Holds(st, 0);
      var slot := st.partial[b.ident];
      assert SlotOk(slot);
      Complete(slot.parts, slot.count);
      var i: nat :| i < slot.count && i !in slot.parts;
      assert b.Holds(st, i);
    }
  }

  lemma OtherIdent(st: State, packet: bytes, validate: bytes -> bool, id: bytes)
    requires Valid(st)
    requires ParseFragment(packet).None? || ParseFragment(packet).value.ident != id || id in st.seen
    ensures var next := Step(st, packet, validate).0;
      && (id in next.seen <==> id in st.seen)
      && (id in next.partial <==> id in st.partial)
      && (id in st.partial ==> next.partial[id] == st.partial[id])
  {
    hide Flatten, InOrder;
    IndexBelowCount(packet);
    if ParseFragment(packet).Some? { StoredOk(st, ParseFragment(packet).value); }
  }

  /** Feeding the i-th fragment of a block that is not yet delivered. */
  lemma OwnFragment(st: State, packet: bytes, validate: bytes -> bool, b: Block, i: nat)
    requires Valid(st) && i < |b.chunks| && ParseFragment(packet) == Some(b.Part(i)) && b.ident !in st.seen
    ensures var (next, d) := Step(st, packet, validate); var slot := Stored(st, b.Part(i));
      if |slot.parts| != |b.chunks| then
        next.seen == st.seen && b.ident in next.partial && next.partial[b.ident] == slot && d == None
      else
        && b.ident !in next.partial && (forall k: nat | k < |b.chunks| :: k in slot.parts)
        && (d.Some? ==> d.value == Flatten(InOrder(slot.parts, |b.chunks|)) && validate(d.value))
        && (b.ident in next.seen <==> validate(Flatten(InOrder(slot.parts, |b.chunks|))))
  {
    hide Flatten, InOrder, ParseFragment;
    StoredOk(st, b.Part(i));
  }

  lemma FedMore(b: Block, packets: seq<bytes>, packet: bytes, i: nat)
    requires i < |b.chunks|
    ensures b.Fed(packets + [packet], i) <==> b.Fed(packets, i) || ParseFragment(packet) == Some(b.Part(i))
  {
    HeardMore(packets, packet, b.Part(i));
  }

  lemma FirstPassStep(st: State, packets: seq<bytes>, packet: bytes, validate: bytes -> bool, b: Block)
    requires Valid(st) && b.FirstPass(st, packets) && b.Admits(packet)
    ensures b.FirstPass(Step(st, packet, validate).0, packets + [packet])
  {
    hide ParseFragment, Step, Heard, Flatten;
    var next := Step(st, packet, validate).0;
    forall i: nat | i < |b.chunks|
      ensures b.Fed(packets + [packet], i) <==> b.Fed(packets, i) || ParseFragment(packet) == Some(b.Part(i))
    {
      FedMore(b, packets, packet, i);
    }
    var r := ParseFragment(packet);
    if r.Some? && r.value.ident == b.ident && b.ident !in st.seen {
      OwnFragment(st, packet, validate, b, r.value.index);
    } else {
      OtherIdent(st, packet, validate, b.ident);
    }
  }

  lemma NothingFed(st: State, b: Block)
    ensures b.FirstPass(st, []) && b.Collecting(st, [])
  {
    hide ParseFragment;
  }

  lemma {:induction false} FirstPassRun(st: State, packets: seq<bytes>, validate: bytes -> bool, b: Block)
    requires Valid(st) && b.AdmitsAll(packets)
    ensures b.FirstPass(Run(st, packets, validate).state, packets)
    decreases |packets|
  {
    hide Step, ParseFragment, Valid, Block.FirstPass, Block.Admits;
    NothingFed(st, b);
    if packets != [] {
      var front, packet := packets[..|packets| - 1], packets[|packets| - 1];
      assert packets == front + [packet];
      assert forall j | 0 <= j < |front| :: front[j] == packets[j];
      FirstPassRun(st, front, validate, b);
      FirstPassStep(Run(st, front, validate).state, front, packet, validate, b);
    }
  }

  ghost predicate CarriesAll(packets: seq<bytes>, b: Block) {
    b.chunks != [] && b.AdmitsAll(packets) && forall i: nat | i < |b.chunks| :: b.Fed(packets, i)
  }

  // ---- the parts a completion can be made of ----

  /** A complete set of parts for the block, each its own or left over from before. */
  ghost predicate IsMix(b: Block, stale: map<nat, bytes>, parts: seq<bytes>) {
    |parts| == |b.chunks| && forall i: nat | i < |parts| :: FromEither(b, stale, i, parts[i])
  }

  ghost predicate FromEither(b: Block, stale: map<nat, bytes>, i: nat, part: bytes) {
    i < |b.chunks| && (part == b.chunks[i] || (i in stale && part == stale[i]))
  }

  /** The parts a state holds under the block's id and count. */
  function StaleParts(st: State, b: Block): map<nat, bytes> {
    if b.ident in st.partial && st.partial[b.ident].count == |b.chunks| then st.partial[b.ident].parts else map[]
  }

  ghost predicate HoldsMix(st: State, b: Block, stale: map<nat, bytes>) {
    forall i | i in StaleParts(st, b) :: FromEither(b, stale, i, StaleParts(st, b)[i])
  }

  ghost predicate MixDelivered(ds: seq<Delivery>, b: Block, stale: map<nat, bytes>, validate: bytes -> bool) {
    forall k | 0 <= k < |ds| && ds[k].ident == b.ident :: validate(ds[k].raw) && IsMixed(b, stale, ds[k].raw)
  }

  ghost predicate IsMixed(b: Block, stale: map<nat, bytes>, raw: bytes) {
    exists parts: seq<bytes> :: raw == Flatten(parts) && IsMix(b, stale, parts)
  }

  lemma StoredMix(st: State, b: Block, stale: map<nat, bytes>, i: nat)
    requires HoldsMix(st, b, stale) && i < |b.chunks|
    ensures var slot := Stored(st, b.Part(i));
      slot.count == |b.chunks| && forall k | k in slot.parts :: FromEither(b, stale, k, slot.parts[k])
  {
    var slot := Stored(st, b.Part(i));
    forall k | k in slot.parts ensures FromEither(b, stale, k, slot.parts[k]) {
      if k != i { assert k in StaleParts(st, b); }
    }
  }

  lemma SeenNotDelivered(st: State, packet: bytes, validate: bytes -> bool)
    requires Valid(st)
    ensures Step(st, packet, validate).1.Some? ==>
      ParseFragment(packet).Some? && ParseFragment(packet).value.ident !in st.seen
  {
  }

  lemma MixStep(st: State, packet: bytes, validate: bytes -> bool, b: Block, stale: map<nat, bytes>)
    requires Valid(st) && HoldsMix(st, b, stale) && b.Admits(packet)
    ensures var (next, d) := Step(st, packet, validate);
      && HoldsMix(next, b, stale)
      && (d.Some? && ParseFragment(packet).value.ident == b.ident ==> validate(d.value) && IsMixed(b, stale, d.value))
  {
    hide ParseFragment, Flatten, Step, FromEither, Valid;
    var r := ParseFragment(packet);
    if r.Some? && r.value.ident == b.ident && b.ident !in st.seen {
      var i := r.value.index;
      OwnFragment(st, packet, validate, b, i);
      StoredMix(st, b, stale, i);
      var slot := Stored(st, b.Part(i));
      if |slot.parts| == |b.chunks| {
        assert IsMix(b, stale, InOrder(slot.parts, |b.chunks|));
      }
    } else {
      OtherIdent(st, packet, validate, b.ident);
      SeenNotDelivered(st, packet, validate);
      assert StaleParts(Step(st, packet, validate).0, b) == StaleParts(st, b);
    }
  }

  lemma {:induction false} MixRun(st: State, packets: seq<bytes>, validate: bytes -> bool, b: Block)
    requires Valid(st) && b.AdmitsAll(packets)
    ensures HoldsMix(Run(st, packets, validate).state, b, StaleParts(st, b))
    ensures MixDelivered(Run(st, packets, validate).delivered, b, StaleParts(st, b), validate)
    decreases |packets|
  {
    hide Step, ParseFragment, Valid, IsMixed;
    if packets == [] {
      StaleIsMix(st, b);
    } else {
      var front, packet := packets[..|packets| - 1], packets[|packets| - 1];
      assert forall j | 0 <= j < |front| :: front[j] == packets[j];
      MixRun(st, front, validate, b);
      MixStep(Run(st, front, validate).state, packet, validate, b, StaleParts(st, b));
    }
  }

  lemma StaleIsMix(st: State, b: Block)
    requires Valid(st)
    ensures HoldsMix(st, b, StaleParts(st, b))
  {
  }

  // ---- one pass ----

  /** The validator accepts whatever the block's chunks and the parts left from before can be mixed to. */
  ghost predicate AcceptsAllMixes(validate: bytes -> bool, b: Block, stale: map<nat, bytes>) {
    forall parts: seq<bytes> | IsMix(b, stale, parts) :: validate(Flatten(parts))
  }

  lemma CollectingStep(st: State, packets: seq<bytes>, packet: bytes, validate: bytes -> bool, b: Block,
                       stale: map<nat, bytes>)
    requires Valid(st) && HoldsMix(st, b, stale) && b.Collecting(st, packets) && b.Admits(packet)
    requires AcceptsAllMixes(validate, b, stale)
    ensures b.Collecting(Step(st, packet, validate).0, packets + [packet])
  {
    hide ParseFragment, Step, Heard, Flatten, FromEither, Valid;
    forall i: nat | i < |b.chunks|
      ensures b.Fed(packets + [packet], i) <==> b.Fed(packets, i) || ParseFragment(packet) == Some(b.Part(i))
    {
      FedMore(b, packets, packet, i);
    }
    var r := ParseFragment(packet);
    if r.Some? && r.value.ident == b.ident && b.ident !in st.seen {
      var i := r.value.index;
      OwnFragment(st, packet, validate, b, i);
      StoredMix(st, b, stale, i);
      var slot := Stored(st, b.Part(i));
      if |slot.parts| == |b.chunks| { assert IsMix(b, stale, InOrder(slot.parts, |b.chunks|)); }
    } else {
      OtherIdent(st, packet, validate, b.ident);
    }
  }

  lemma {:induction false} CollectingRun(st: State, packets: seq<bytes>, validate: bytes -> bool, b: Block)
    requires Valid(st) && b.AdmitsAll(packets) && AcceptsAllMixes(validate, b, StaleParts(st, b))
    ensures b.Collecting(Run(st, packets, validate).state, packets)
    decreases |packets|
  {
    hide Step, ParseFragment, Valid, Block.Collecting, Block.Admits, AcceptsAllMixes;
    NothingFed(st, b);
    if packets != [] {
      var front, packet := packets[..|packets| - 1], packets[|packets| - 1];
      assert packets == front + [packet];
      assert forall j | 0 <= j < |front| :: front[j] == packets[j];
      CollectingRun(st, front, validate, b);
      MixRun(st, front, validate, b);
      CollectingStep(Run(st, front, validate).state, front, packet, validate, b, StaleParts(st, b));
    }
  }

  /** One pass is enough whenever the validator accepts every mixture with what is left from before. */
  lemma OnePassSuffices(st: State, packets: seq<bytes>, validate: bytes -> bool, b: Block)
    requires Valid(st) && CarriesAll(packets, b) && AcceptsAllMixes(validate, b, StaleParts(st, b))
    ensures b.ident in Run(st, packets, validate).state.seen
  {
    hide Run, AcceptsAllMixes, StaleParts;
    CollectingRun(st, packets, validate, b);
    NeverFull(Run(st, packets, validate).state, b);
  }

  /** So it is for a receiver that holds nothing false under the id. */
  lemma OnePassRecovers(st: State, packets: seq<bytes>, validate: bytes -> bool, b: Block)
    requires Valid(st) && CarriesAll(packets, b) && validate(Flatten(b.chunks))
    requires b.ident in st.seen || b.Genuine(st)
    ensures b.ident in Run(st, packets, validate).state.seen
  {
    hide Flatten, Run, Valid, CarriesAll;
    if b.ident in st.seen {
      SeenMeansDelivered(st, packets, validate, b.ident);
    } else {
      forall parts: seq<bytes> | IsMix(b, StaleParts(st, b), parts) ensures validate(Flatten(parts)) {
        forall i: nat | i < |parts| ensures parts[i] == b.chunks[i] {
          assert FromEither(b, StaleParts(st, b), i, parts[i]);
        }
        assert parts == b.chunks;
      }
      OnePassSuffices(st, packets, validate, b);
    }
  }

  /** After one pass nothing stale is left. */
  lemma OnePassCleans(st: State, packets: seq<bytes>, validate: bytes -> bool, b: Block)
    requires Valid(st) && CarriesAll(packets, b)
    ensures var next := Run(st, packets, validate).state; b.ident in next.seen || b.Genuine(next)
  {
    hide Run;
    var next := Run(st, packets, validate).state;
    FirstPassRun(st, packets, validate, b);
    NeverFull(next, b);
    var i: nat :| i < |b.chunks| && !b.Holds(next, i);
    assert b.Fed(packets, i) && !b.HoldsGenuine(next, i);
  }

  // ---- the sender's side ----

  /** Every packet that claims the block's id is one of its fragments, and every fragment is heard; order,
      repetition and other traffic are arbitrary. */
  ghost predicate IsPass(packets: seq<bytes>, ident: bytes, frags: seq<bytes>) {
    && (forall j | 0 <= j < |packets| ::
          var r := ParseFragment(packets[j]); r.Some? && r.value.ident == ident ==> packets[j] in frags)
    && (forall f | f in frags :: f in packets)
  }

  function BlockOf(dsha: bytes -> Hash256, raw: bytes, mtu: int): Block
    requires mtu > HEADER_LEN
  {
    Block(IdentOf(dsha, raw), Chunks(raw, mtu - HEADER_LEN))
  }

  /** The i-th fragment parses as the i-th part of the block, and the parts join to the block. */
  lemma FragmentsParse(dsha: bytes -> Hash256, raw: bytes, mtu: int)
    requires Fragment(dsha, raw, mtu).Ok?
    ensures mtu > HEADER_LEN
    ensures var b := BlockOf(dsha, raw, mtu); var frags := Fragment(dsha, raw, mtu).value;
      && b.chunks != [] && |frags| == |b.chunks| && Flatten(b.chunks) == raw
      && forall i: nat | i < |frags| :: ParseFragment(frags[i]) == Some(b.Part(i))
  {
    hide ParseFragment, Encode, Chunks;
    var b, frags := BlockOf(dsha, raw, mtu), Fragment(dsha, raw, mtu).value;
    forall i: nat | i < |frags| ensures ParseFragment(frags[i]) == Some(b.Part(i)) {
      ParseEncoded(b.ident, i, |b.chunks|, b.chunks[i]);
      assert frags[i - 0] == Encode(b.ident, i, |b.chunks|, b.chunks[i]);
    }
  }

  lemma PassCarriesAll(packets: seq<bytes>, dsha: bytes -> Hash256, raw: bytes, mtu: int)
    requires Fragment(dsha, raw, mtu).Ok? && IsPass(packets, IdentOf(dsha, raw), Fragment(dsha, raw, mtu).value)
    ensures mtu > HEADER_LEN && CarriesAll(packets, BlockOf(dsha, raw, mtu))
  {
    FragmentsParse(dsha, raw, mtu);
    hide ParseFragment, Fragment, BlockOf, Flatten;
    var b, frags := BlockOf(dsha, raw, mtu), Fragment(dsha, raw, mtu).value;
    PassIdent(dsha, raw, mtu);
    forall j | 0 <= j < |packets| ensures b.Admits(packets[j]) {
      var r := ParseFragment(packets[j]);
      if r.Some? && r.value.ident == b.ident {
        var i :| 0 <= i < |frags| && frags[i] == packets[j];
        assert r == Some(b.Part(i));
      }
    }
    forall i: nat | i < |b.chunks| ensures b.Fed(packets, i) {
      assert frags[i] in packets;
      var j :| 0 <= j < |packets| && packets[j] == frags[i];
      assert ParseFragment(packets[j]) == Some(b.Part(i));
    }
  }

  lemma PassIdent(dsha: bytes -> Hash256, raw: bytes, mtu: int)
    requires mtu > HEADER_LEN
    ensures BlockOf(dsha, raw, mtu).ident == IdentOf(dsha, raw)
  {
  }

  /** Two passes always suffice.  From any reachable state, whatever was lost or forged before, a block the
      validator accepts is delivered (or already was) after its transmission has been repeated twice: each
      pass may be reordered, duplicated and interleaved with any other traffic. */
  lemma TwoPassRecovery(st: State, validate: bytes -> bool, dsha: bytes -> Hash256, raw: bytes, mtu: int,
                        first: seq<bytes>, second: seq<bytes>)
    requires Valid(st) && Fragment(dsha, raw, mtu).Ok? && validate(raw)
    requires IsPass(first, IdentOf(dsha, raw), Fragment(dsha, raw, mtu).value)
    requires IsPass(second, IdentOf(dsha, raw), Fragment(dsha, raw, mtu).value)
    ensures IdentOf(dsha, raw) in Run(st, first + second, validate).state.seen
  {
    FragmentsParse(dsha, raw, mtu);
    PassIdent(dsha, raw, mtu);
    PassCarriesAll(first, dsha, raw, mtu);
    PassCarriesAll(second, dsha, raw, mtu);
    hide Fragment, BlockOf, Flatten, Run, IsPass, CarriesAll, Block.Genuine;
    var b := BlockOf(dsha, raw, mtu);
    OnePassCleans(st, first, validate, b);
    OnePassRecovers(Run(st, first, validate).state, second, validate, b);
    RunConcat(st, first, second, validate);
  }

  // ---- what is delivered ----

  /** Once an id is seen it was seen before or has been delivered. */
  lemma {:induction false} SeenMeansDelivered(st: State, packets: seq<bytes>, validate: bytes -> bool, id: bytes)
    requires Valid(st)
    ensures id in Run(st, packets, validate).state.seen
       <==> id in st.seen || WasDelivered(Run(st, packets, validate).delivered, id)
    decreases |packets|
  {
    hide ParseFragment, Flatten, InOrder, Valid;
    if packets != [] {
      var front, packet := packets[..|packets| - 1], packets[|packets| - 1];
      SeenMeansDelivered(st, front, validate, id);
      var before := Run(st, front, validate);
      DeliveryMarksSeen(before.state, packet, validate);
      var (next, d) := Step(before.state, packet, validate);
      if d.Some? {
        WasDeliveredMore(before.delivered, Delivery(ParseFragment(packet).value.ident, d.value), id);
      } else {
        assert before.delivered + [] == before.delivered;
      }
    }
  }

  lemma DeliveryMarksSeen(st: State, packet: bytes, validate: bytes -> bool)
    requires Valid(st)
    ensures var (next, d) := Step(st, packet, validate);
      next.seen == if d.Some? then st.seen + {ParseFragment(packet).value.ident} else st.seen
    ensures Step(st, packet, validate).1.Some? ==> ParseFragment(packet).Some?
  {
  }

  /** The validator accepts no other mixture of this block's chunks with parts left from before. */
  ghost predicate AcceptsOnly(validate: bytes -> bool, b: Block, stale: map<nat, bytes>, raw: bytes) {
    forall parts: seq<bytes> | IsMix(b, stale, parts) && validate(Flatten(parts)) :: Flatten(parts) == raw
  }

  /** If the id was not seen before and the validator accepts no other mixture, what two passes deliver under
      the id is the block itself. */
  lemma TwoPassDeliversBlock(st: State, validate: bytes -> bool, dsha: bytes -> Hash256, raw: bytes, mtu: int,
                             first: seq<bytes>, second: seq<bytes>)
    requires Valid(st) && Fragment(dsha, raw, mtu).Ok? && validate(raw) && IdentOf(dsha, raw) !in st.seen
    requires IsPass(first, IdentOf(dsha, raw), Fragment(dsha, raw, mtu).value)
    requires IsPass(second, IdentOf(dsha, raw), Fragment(dsha, raw, mtu).value)
    requires mtu > HEADER_LEN
    requires AcceptsOnly(validate, BlockOf(dsha, raw, mtu), StaleParts(st, BlockOf(dsha, raw, mtu)), raw)
    ensures Delivery(IdentOf(dsha, raw), raw) in Run(st, first + second, validate).delivered
    ensures forall d | d in Run(st, first + second, validate).delivered && d.ident == IdentOf(dsha, raw) :: d.raw == raw
  {
    TwoPassRecovery(st, validate, dsha, raw, mtu, first, second);
    PassIdent(dsha, raw, mtu);
    PassCarriesAll(first, dsha, raw, mtu);
    PassCarriesAll(second, dsha, raw, mtu);
    hide Fragment, BlockOf, Flatten, Run, IsPass, IsMix, StaleParts, Valid, Block.Admits;
    var b, packets := BlockOf(dsha, raw, mtu), first + second;
    var ds := Run(st, packets, validate).delivered;
    assert b.AdmitsAll(packets);
    MixRun(st, packets, validate, b);
    SeenMeansDelivered(st, packets, validate, b.ident);
    var k :| 0 <= k < |ds| && ds[k].ident == b.ident;
    assert ds[k] == Delivery(b.ident, raw);
  }

  // ---- the default validator ----

  /** The self-authenticating check: the header meets its own target. */
  predicate PowValid(dsha: bytes -> Hash256, raw: bytes) {
    |raw| >= 80
    && TargetFromBits(FromLE(raw[72..76])).Ok?
    && Work(dsha, raw[..80]) <= TargetFromBits(FromLE(raw[72..76])).value
  }

  /** It looks at the first 80 bytes only, so it accepts any tail behind an accepted header.  RadioPasses shows a
      run in which it therefore delivers other bytes than the block that was sent. */
  lemma PowIgnoresTail(dsha: bytes -> Hash256, raw: bytes, tail: bytes)
    requires |raw| >= 80
    ensures PowValid(dsha, raw[..80] + tail) <==> PowValid(dsha, raw)
  {
    var other := raw[..80] + tail;
    assert other[..80] == raw[..80] && other[72..76] == raw[..80][72..76] == raw[72..76];
  }
}
