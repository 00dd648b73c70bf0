/** The fragments of a block, byte by byte (ctp/radio.py). */
module RadioWire {
  import opened Wrappers
  import opened Bytes
  import opened Radio
  import opened Jan09
  import RadioProofs

  // ---- one fragment ----

  /** "CHRB", 1, four bytes of identity, the fragment's number and how many there are. */
  ghost predicate Headed(packet: bytes, ident: bytes, index: nat, count: nat) {
    && |packet| >= 11 && packet[..4] == [0x43, 0x48, 0x52, 0x42] && packet[4] == 1
    && packet[5..9] == ident && packet[9] == index && packet[10] == count
  }

  ghost predicate IsFragment(packet: bytes, ident: bytes, index: nat, count: nat, piece: bytes) {
    Headed(packet, ident, index, count) && packet[11..] == piece
  }

  lemma ParseIff(packet: bytes, p: Packet)
    ensures ParseFragment(packet) == Some(p) <==>
              IsFragment(packet, p.ident, p.index, p.count, p.payload) && p.index < p.count
  {
  }

  lemma EncodedIff(packet: bytes, ident: bytes, index: byte, count: byte, chunk: bytes)
    requires |ident| == 4
    ensures packet == Encode(ident, index, count, chunk)
       <==> IsFragment(packet, ident, index, count, chunk)
  {
    var e := Encode(ident, index, count, chunk);
    assert e[..4] == [0x43, 0x48, 0x52, 0x42] && e[5..9] == ident && e[11..] == chunk;
    if Headed(packet, ident, index, count) && packet[11..] == chunk {
      assert packet == packet[..4] + [packet[4]] + packet[5..9] + [packet[9], packet[10]] + packet[11..];
    }
  }

  // ---- all fragments ----

  /** The fragments of a block: as many as pieces of mtu - 11 bytes are needed, each with its number, their count
      and the same four first bytes of the block's hash in front of its piece. */
  ghost predicate AreFragments(dsha: bytes -> Hash256, raw: bytes, mtu: int, out: seq<bytes>) {
    && raw != [] && mtu > 11 && |out| == Pieces(|raw|, mtu - 11) <= 255
    && forall k | 0 <= k < |out| ::
         IsFragment(out[k], dsha(raw[..Min(80, |raw|)])[..4], k, |out|,
                    Slice(raw, k * (mtu - 11), (k + 1) * (mtu - 11)))
  }

  /** Fragmenting succeeds exactly when 255 fragments are enough, and gives exactly these. */
  lemma FragmentIff(dsha: bytes -> Hash256, raw: bytes, mtu: int, out: seq<bytes>)
    ensures Fragment(dsha, raw, mtu) == Ok(out) <==> AreFragments(dsha, raw, mtu, out)
  {
    hide Encode, Chunks, Pieces, IsFragment, IdentOf, EncodeFrom;
    if raw != [] && mtu > 11 {
      PiecesOf(raw, mtu - 11);
      IdentIs(dsha, raw);
      var ident, chunks := IdentOf(dsha, raw), Chunks(raw, mtu - 11);
      if |out| == |chunks| <= 255 {
        EncodedFrom(ident, chunks);
        forall k | 0 <= k < |out|
          ensures out[k] == Encode(ident, k, |chunks|, chunks[k]) <==>
                    IsFragment(out[k], ident, k, |out|, Slice(raw, k * (mtu - 11), (k + 1) * (mtu - 11)))
        {
          EncodedIff(out[k], ident, k, |chunks|, chunks[k]);
        }
        if AreFragments(dsha, raw, mtu, out) { assert out == EncodeFrom(ident, chunks, 0); }
      }
    }
  }

  lemma EncodedFrom(ident: bytes, chunks: seq<bytes>)
    requires |chunks| <= MAX_FRAGMENTS
    ensures forall k | 0 <= k < |chunks| :: EncodeFrom(ident, chunks, 0)[k] == Encode(ident, k, |chunks|, chunks[k])
  {
    hide Encode;
    var out := EncodeFrom(ident, chunks, 0);
    forall k | 0 <= k < |chunks| ensures out[k] == Encode(ident, k, |chunks|, chunks[k]) {
      assert out[k - 0] == Encode(ident, k, |chunks|, chunks[k]);
    }
  }

  lemma IdentIs(dsha: bytes -> Hash256, raw: bytes)
    ensures IdentOf(dsha, raw) == dsha(raw[..Min(80, |raw|)])[..4]
  {
    assert Slice(raw, 0, 80) == raw[..Min(80, |raw|)];
  }

  /** The default validator asks for a header that meets its own target, and for nothing else. */
  lemma PowValidIff(dsha: bytes -> Hash256, raw: bytes)
    ensures RadioProofs.PowValid(dsha, raw) <==> |raw| >= 80 && ProvesWork(dsha, raw[..80])
  {
    hide TargetFromBits, FromLE, Work, ProvesWork;
    if |raw| >= 80 {
      assert raw[..80][72..76] == raw[72..76];
      WorkIff(dsha, raw[..80]);
    }
  }
}
