/** Block relay over a lossy broadcast link (ctp/radio.py). */
module Radio {
  import opened Wrappers
  import opened Bytes

  const MAGIC: bytes := [0x43, 0x48, 0x52, 0x42]
  const VERSION: byte := 1
  const HEADER_LEN := 11
  const MAX_FRAGMENTS := 255

  // ---- fragments ----

  function IdentOf(dsha: bytes -> Hash256, raw: bytes): (ident: bytes)
    ensures |ident| == 4
  {
    dsha(Slice(raw, 0, 80))[..4]
  }

  function Encode(ident: bytes, index: byte, count: byte, chunk: bytes): bytes {
    MAGIC + [VERSION] + ident + [index, count] + chunk
  }

  function EncodeFrom(ident: bytes, chunks: seq<bytes>, i: nat): (out: seq<bytes>)
    requires i <= |chunks| <= MAX_FRAGMENTS
    ensures |out| == |chunks| - i
    ensures forall k | i <= k < |chunks| :: out[k - i] == Encode(ident, k, |chunks|, chunks[k])
    decreases |chunks| - i
  {
    if i == |chunks| then [] else [Encode(ident, i, |chunks|, chunks[i])] + EncodeFrom(ident, chunks, i + 1)
  }

  function Fragment(dsha: bytes -> Hash256, raw: bytes, mtu: int): Result<seq<bytes>> {
    if raw == [] || mtu - HEADER_LEN <= 0 then Raised else
    var chunks := Chunks(raw, mtu - HEADER_LEN);
    if |chunks| > MAX_FRAGMENTS then Raised else Ok(EncodeFrom(IdentOf(dsha, raw), chunks, 0))
  }

  method FragmentLoop(dsha: bytes -> Hash256, raw: bytes, mtu: int) returns (r: Result<seq<bytes>>)
    ensures r == Fragment(dsha, raw, mtu)
  {
    hide Encode, Chunks, IdentOf;
    if raw == [] { return Raised; }
    var body := mtu - HEADER_LEN;
    if body <= 0 { return Raised; }
    var chunks := Chunks(raw, body);
    if |chunks| > MAX_FRAGMENTS { return Raised; }
    var ident := IdentOf(dsha, raw);
    var out: seq<bytes> := [];
    for i := 0 to |chunks|
      invariant |out| == i && forall k | 0 <= k < i :: out[k] == Encode(ident, k, |chunks|, chunks[k])
    {
      out := out + [Encode(ident, i, |chunks|, chunks[i])];
    }
    assert out == EncodeFrom(ident, chunks, 0);
    r := Ok(out);
  }

  datatype Packet = Packet(ident: bytes, index: nat, count: nat, payload: bytes)

  /** None for anything that is not a fragment; otherwise index < count. */
  function ParseFragment(packet: bytes): (r: Option<Packet>)
    ensures r.Some? ==> r.value.index < r.value.count <= MAX_FRAGMENTS
  {
    if |packet| < HEADER_LEN || packet[..4] != MAGIC || packet[4] != VERSION then None else
    var index, count := packet[9], packet[10];
    if count == 0 || index >= count then None
    else Some(Packet(packet[5..9], index, count, packet[HEADER_LEN..]))
  }

  lemma ParseEncoded(ident: bytes, index: byte, count: byte, chunk: bytes)
    requires |ident| == 4 && index < count
    ensures ParseFragment(Encode(ident, index, count, chunk)) == Some(Packet(ident, index, count, chunk))
  {
    var p := Encode(ident, index, count, chunk);
    assert p[..4] == MAGIC && p[4] == VERSION && p[5..9] == ident && p[9] == index && p[10] == count;
    assert p[HEADER_LEN..] == chunk;
  }

  // ---- the reassembler ----

  datatype Slot = Slot(count: nat, parts: map<nat, bytes>)

  datatype State = State(partial: map<bytes, Slot>, seen: set<bytes>)

  const EMPTY := State(map[], {})

  /** An unfinished transmission: some, but not all, of the parts 0 .. count - 1. */
  ghost predicate SlotOk(slot: Slot) {
    |slot.parts| < slot.count && forall i | i in slot.parts :: i < slot.count
  }

  /** What holds in every reachable state: no stored slot is complete, and nothing delivered is kept. */
  ghost predicate Valid(st: State) {
    forall id | id in st.partial :: SlotOk(st.partial[id]) && id !in st.seen
  }

  ghost function Range(n: nat): (r: set<nat>)
    ensures |r| == n && forall i: nat :: i in r <==> i < n
  {
    if n == 0 then {} else Range(n - 1) + {n - 1}
  }

  /** Parts below count that are count in number are exactly 0 .. count - 1. */
  lemma Complete(parts: map<nat, bytes>, count: nat)
    requires forall i | i in parts :: i < count
    ensures |parts| <= count
    ensures |parts| == count <==> forall i: nat | i < count :: i in parts
  {
    var all := Range(count);
    assert parts.Keys <= all;
    assert parts.Keys + (all - parts.Keys) == all;
    if |parts| == count {
      assert |all - parts.Keys| == 0;
      assert parts.Keys == all;
    }
    if forall i: nat | i < count :: i in parts {
      assert parts.Keys == all;
    }
  }

  /** The parts in index order. */
  function InOrder(parts: map<nat, bytes>, count: nat): (r: seq<bytes>)
    requires forall i: nat | i < count :: i in parts
    ensures |r| == count && forall i: nat | i < count :: r[i] == parts[i]
  {
    if count == 0 then [] else InOrder(parts, count - 1) + [parts[count - 1]]
  }

  /** The slot a packet lands in, after its payload is stored. */
  function Stored(st: State, p: Packet): Slot {
    var slot := if p.ident in st.partial && st.partial[p.ident].count == p.count then st.partial[p.ident]
                else Slot(p.count, map[]);
    slot.(parts := slot.parts[p.index := p.payload])
  }

  lemma StoredOk(st: State, p: Packet)
    requires Valid(st) && p.index < p.count
    ensures var slot := Stored(st, p);
      && slot.count == p.count && (forall i | i in slot.parts :: i < p.count) && |slot.parts| <= p.count
      && (|slot.parts| == p.count ==> forall i: nat | i < p.count :: i in slot.parts)
  {
    Complete(Stored(st, p).parts, p.count);
  }

  /** One call of feed: the next state and what is delivered. */
  function Step(st: State, packet: bytes, validate: bytes -> bool): (r: (State, Option<bytes>))
    requires Valid(st)
  {
    match ParseFragment(packet)
    case None => (st, None)
    case Some(p) =>
      if p.ident in st.seen then (st, None) else
      var slot := Stored(st, p);
      StoredOk(st, p);
      if |slot.parts| != p.count then (st.(partial := st.partial[p.ident := slot]), None) else
      var raw := Flatten(InOrder(slot.parts, p.count));
      var dropped := st.(partial := st.partial - {p.ident});
      if !validate(raw) then (dropped, None) else (dropped.(seen := st.seen + {p.ident}), Some(raw))
  }

  lemma StepValid(st: State, packet: bytes, validate: bytes -> bool)
    requires Valid(st)
    ensures Valid(Step(st, packet, validate).0)
  {
    var r := ParseFragment(packet);
    if r.Some? { StoredOk(st, r.value); }
  }

  lemma Overwritten<K, V>(m: map<K, V>, k: K, a: V, b: V)
    ensures m[k := a][k := b] == m[k := b] && m[k := b] - {k} == m - {k}
  {
  }

  /** class Reassembler, its two fields, and feed() on them. */
  class Reassembler {
    var partial: map<bytes, Slot>
    var seen: set<bytes>

    function Current(): State
      reads this
    {
      State(partial, seen)
    }

    constructor ()
      ensures Current() == EMPTY && Valid(Current())
    {
      partial, seen := map[], {};
    }

    method Feed(packet: bytes, validate: bytes -> bool) returns (r: Option<bytes>)
      requires Valid(Current())
      modifies this
      ensures Valid(Current())
      ensures (Current(), r) == Step(old(Current()), packet, validate)
    {
      hide ParseFragment, Flatten, InOrder, Valid;
      ghost var st := Current();
      StepValid(st, packet, validate);
      var parsed := ParseFragment(packet);
      if parsed.None? { return None; }
      var Packet(ident, index, count, payload) := parsed.value;
      if ident in seen { return None; }
      if ident !in partial {
        partial := partial[ident := Slot(count, map[])];
      }
      Overwritten(st.partial, ident, partial[ident], Stored(st, parsed.value));
      var slot := partial[ident];
      if slot.count != count {
        slot := Slot(count, map[]);
        partial := partial[ident := slot];
      }
      slot := slot.(parts := slot.parts[index := payload]);
      partial := partial[ident := slot];
      assert slot == Stored(st, parsed.value);
      assert partial == st.partial[ident := slot];
      StoredOk(st, parsed.value);
      if |slot.parts| != count { return None; }
      var raw := Flatten(InOrder(slot.parts, count));
      partial := partial - {ident};
      if !validate(raw) { return None; }
      seen := seen + {ident};
      r := Some(raw);
    }
  }

  // ---- runs ----

  datatype Delivery = Delivery(ident: bytes, raw: bytes)

  datatype Outcome = Outcome(state: State, delivered: seq<Delivery>)

  /** Feeding packets one after another, the last one last. */
  function Run(st: State, packets: seq<bytes>, validate: bytes -> bool): (r: Outcome)
    requires Valid(st)
    ensures Valid(r.state)
    decreases |packets|
  {
    if packets == [] then Outcome(st, []) else
    var before := Run(st, packets[..|packets| - 1], validate);
    var packet := packets[|packets| - 1];
    var (next, d) := Step(before.state, packet, validate);
    StepValid(before.state, packet, validate);
    Outcome(next, before.delivered + (if d.Some? then [Delivery(ParseFragment(packet).value.ident, d.value)] else []))
  }
}
