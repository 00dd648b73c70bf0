/** What makes a signed Roughtime response acceptable, on its fields, the signatures and the hash
    (ctp/roughtime.py). */
module RoughtimeChecks {
  import opened Wrappers
  import opened Bytes
  import opened Sorting
  import opened HashSuite
  import opened Roughtime
  import opened RoughtimeReply

  // ---- one message ----

  /** A message of n tags starts with n, then the starts of all values but the first, then the tags, each in four
      bytes; behind these 8n bytes stand the values. */
  function WordAt(b: bytes, pos: nat): nat {
    FromLE(Slice(b, pos, pos + 4))
  }

  function StartOf(b: bytes, k: nat): nat {
    if k == 0 then 0 else WordAt(b, 4 * k)
  }

  function TagOf(b: bytes, n: nat, k: nat): nat {
    WordAt(b, 4 * n + 4 * k)
  }

  function ValueOf(b: bytes, n: nat, k: nat): bytes {
    Slice(b, 8 * n + StartOf(b, k), if k + 1 < n then 8 * n + StartOf(b, k + 1) else |b|)
  }

  /** The tag has a value, the one at its last place. */
  ghost predicate LastAt(b: bytes, n: nat, tag: nat, value: bytes, k: nat) {
    && k < n && TagOf(b, n, k) == tag && value == ValueOf(b, n, k)
    && forall l | k < l < n :: TagOf(b, n, l) != tag
  }

  ghost predicate IsMessage(b: bytes, tags: map<nat, bytes>) {
    && |b| >= 4 && |b| >= 8 * WordAt(b, 0)
    && (forall k | 0 <= k < WordAt(b, 0) :: TagOf(b, WordAt(b, 0), k) in tags)
    && forall tag | tag in tags :: exists k: nat :: LastAt(b, WordAt(b, 0), tag, tags[tag], k)
  }

  lemma WordIff(b: bytes, pos: nat)
    ensures ReadWord(b, pos).Ok? <==> pos + 4 <= |b|
    ensures ReadWord(b, pos).Ok? ==> ReadWord(b, pos).value == WordAt(b, pos)
  {
    hide FromLE;
  }

  lemma {:induction false} WordsIff(b: bytes, pos: nat, n: nat)
    ensures ReadWords(b, pos, n).Ok? <==> n == 0 || pos + 4 * n <= |b|
    ensures ReadWords(b, pos, n).Ok? ==>
              forall k | 0 <= k < n :: ReadWords(b, pos, n).value[k] == WordAt(b, pos + 4 * k)
    decreases n
  {
    hide ReadWord, WordAt;
    if n > 0 {
      WordIff(b, pos);
      WordsIff(b, pos + 4, n - 1);
      if ReadWords(b, pos, n).Ok? {
        var rest := ReadWords(b, pos + 4, n - 1).value;
        forall k | 0 <= k < n ensures ReadWords(b, pos, n).value[k] == WordAt(b, pos + 4 * k) {
          if k > 0 { assert rest[k - 1] == WordAt(b, pos + 4 + 4 * (k - 1)); }
        }
      }
    }
  }

  lemma {:induction false} ValuesAt(b: bytes, base: nat, offsets: seq<nat>, k: nat)
    requires k < |offsets|
    ensures Values(b, base, offsets)[k]
         == Slice(b, base + offsets[k], if k + 1 < |offsets| then base + offsets[k + 1] else |b|)
    decreases |offsets|
  {
    hide Slice;
    if k > 0 { ValuesAt(b, base, offsets[1..], k - 1); }
  }

  /** The value at the tag's last place in the lists. */
  ghost predicate LastIn(tags: seq<nat>, values: seq<bytes>, tag: nat, value: bytes, k: nat)
    requires |tags| == |values|
  {
    k < |tags| && tags[k] == tag && values[k] == value && forall l | k < l < |tags| :: tags[l] != tag
  }

  lemma {:induction false} DictOfAt(tags: seq<nat>, values: seq<bytes>)
    requires |tags| == |values|
    ensures forall k | 0 <= k < |tags| :: tags[k] in DictOf(tags, values)
    ensures forall tag | tag in DictOf(tags, values) ::
              exists k: nat :: LastIn(tags, values, tag, DictOf(tags, values)[tag], k)
    decreases |tags|
  {
    if tags != [] {
      var ts, vs := tags[1..], values[1..];
      DictOfAt(ts, vs);
      var m, all := DictOf(ts, vs), DictOf(tags, values);
      forall k | 0 <= k < |tags| ensures tags[k] in all {
        if k > 0 { assert ts[k - 1] in m; }
      }
      forall tag | tag in all ensures exists k: nat :: LastIn(tags, values, tag, all[tag], k) {
        if tag in m {
          var k: nat :| LastIn(ts, vs, tag, m[tag], k);
          assert forall l | k + 1 < l < |tags| :: tags[l] == ts[l - 1];
          assert LastIn(tags, values, tag, all[tag], k + 1);
        } else {
          assert forall l | 0 < l < |tags| :: tags[l] == ts[l - 1] && ts[l - 1] in m;
          assert LastIn(tags, values, tag, all[tag], 0);
        }
      }
    }
  }

  /** decode_message reads exactly this. */
  lemma DecodeIff(b: bytes, m: map<nat, bytes>)
    ensures Decode(b) == Ok(m) <==> IsMessage(b, m)
  {
    hide FromLE, ReadWords, Values, DictOf, Slice, WordAt, ValueOf;
    WordIff(b, 0);
    if |b| >= 4 {
      var n := WordAt(b, 0);
      WordsIff(b, 4, if n == 0 then 0 else n - 1);
      WordsIff(b, 4 * n, n);
      if |b| >= 8 * n { ListsIff(b, n, m); }
    }
  }

  lemma DictOfIff(tags: seq<nat>, values: seq<bytes>, m: map<nat, bytes>)
    requires |tags| == |values|
    ensures m == DictOf(tags, values) <==>
              && (forall k | 0 <= k < |tags| :: tags[k] in m)
              && forall tag | tag in m :: exists k: nat :: LastIn(tags, values, tag, m[tag], k)
  {
    hide DictOf;
    DictOfAt(tags, values);
    var d := DictOf(tags, values);
    if (forall k | 0 <= k < |tags| :: tags[k] in m)
       && forall tag | tag in m :: exists k: nat :: LastIn(tags, values, tag, m[tag], k) {
      forall tag | tag in d ensures tag in m {
        var k: nat :| LastIn(tags, values, tag, d[tag], k);
      }
      forall tag | tag in m ensures tag in d && m[tag] == d[tag] {
        var k: nat :| LastIn(tags, values, tag, m[tag], k);
        assert tags[k] in d;
        var l: nat :| LastIn(tags, values, tag, d[tag], l);
      }
      assert m == d;
    }
  }

  lemma ListsIff(b: bytes, n: nat, m: map<nat, bytes>)
    requires |b| >= 4 && n == WordAt(b, 0) && |b| >= 8 * n
    ensures Decode(b) == Ok(m) <==> IsMessage(b, m)
  {
    hide Decode, Values, DictOf, WordAt, StartOf, TagOf, ValueOf, LastAt, LastIn;
    var tags, starts := DecodedLists(b, n);
    var values := Values(b, 8 * n, starts);
    DictOfIff(tags, values, m);
    forall tag, value, k: nat ensures LastIn(tags, values, tag, value, k) <==> LastAt(b, n, tag, value, k) {
      SamePlace(b, n, starts, tags, values, tag, value, k);
    }
  }

  lemma DecodedLists(b: bytes, n: nat) returns (tags: seq<nat>, starts: seq<nat>)
    requires |b| >= 4 && n == WordAt(b, 0) && |b| >= 8 * n
    ensures |tags| == |starts| == n
    ensures Decode(b) == Ok(DictOf(tags, Values(b, 8 * n, starts)))
    ensures forall k | 0 <= k < n :: tags[k] == TagOf(b, n, k) && starts[k] == StartOf(b, k)
  {
    hide ReadWord, ReadWords, Values, DictOf, WordAt, StartOf;
    WordIff(b, 0);
    WordsIff(b, 4, if n == 0 then 0 else n - 1);
    WordsIff(b, 4 * n, n);
    tags := ReadWords(b, 4 * n, n).value;
    starts := if n == 0 then [] else [0] + ReadWords(b, 4, n - 1).value;
    StartsAre(b, n, starts);
  }

  lemma StartsAre(b: bytes, n: nat, starts: seq<nat>)
    requires |b| >= 8 * n && (n > 0 ==> ReadWords(b, 4, n - 1).Ok?)
    requires starts == if n == 0 then [] else [0] + ReadWords(b, 4, n - 1).value
    ensures |starts| == n && forall k | 0 <= k < n :: starts[k] == StartOf(b, k)
  {
    hide FromLE, ReadWords, WordAt;
    if n > 0 {
      WordsIff(b, 4, n - 1);
      forall k | 0 <= k < n ensures starts[k] == StartOf(b, k) {
        if k > 0 { assert ReadWords(b, 4, n - 1).value[k - 1] == WordAt(b, 4 + 4 * (k - 1)); }
      }
    }
  }

  lemma SamePlace(b: bytes, n: nat, starts: seq<nat>, tags: seq<nat>, values: seq<bytes>, tag: nat, value: bytes,
                  k: nat)
    requires |starts| == |tags| == |values| == n && values == Values(b, 8 * n, starts)
    requires forall l | 0 <= l < n :: tags[l] == TagOf(b, n, l)
    requires forall l | 0 <= l < n :: starts[l] == StartOf(b, l)
    ensures LastIn(tags, values, tag, value, k) <==> LastAt(b, n, tag, value, k)
  {
    hide FromLE, TagOf, StartOf, Slice, Values;
    if k < n {
      ValuesAt(b, 8 * n, starts, k);
      assert starts[k] == StartOf(b, k) && (k + 1 < n ==> starts[k + 1] == StartOf(b, k + 1));
      assert values[k] == ValueOf(b, n, k);
      assert tags[k] == TagOf(b, n, k);
      if forall l | k < l < n :: TagOf(b, n, l) != tag {
        forall l | k < l < n ensures tags[l] != tag { assert tags[l] == TagOf(b, n, l); }
      }
    }
  }

  /** encode_message writes exactly the given tags and values, the tags ascending. */
  lemma EncodedLayout(tags: seq<Item>) returns (items: seq<Item>)
    requires Encode(tags).Ok?
    ensures multiset(items) == multiset(tags) && |items| == |tags|
    ensures forall i, j | 0 <= i < j < |items| :: items[i].0 <= items[j].0
    ensures var b, n := Encode(tags).value, |tags|;
      && |b| >= 4 && WordAt(b, 0) == n
      && forall k | 0 <= k < n :: TagOf(b, n, k) == items[k].0 && ValueOf(b, n, k) == items[k].1
  {
    hide Words, ReadWord, ReadWords, Values, Starts, Sort, Offsets, Flatten, At, WordAt, Slice, FromLE;
    items := Sort(ItemLeq, tags);
    SortSorted(ItemLeq, tags);
    var n, values, names := |items|, Map(Body, items), Map(Tag, items);
    var b := Encode(tags).value;
    var offsets := Offsets(values);
    assert b == Words([n]).value + (Words(offsets).value + (Words(names).value + Flatten(values)));
    FourParts(b, Words([n]).value, Words(offsets).value, Words(names).value, Flatten(values));
    CountReadsBack(b, n);
    WordIff(b, 0);
    ListsReadBack(b, offsets, names);
    OffsetsCount(values);
    if n > 0 {
      ValuesReadBack(b, 8 * n, values, 0);
      ReadAsWritten(b, n, offsets, names, values);
    }
  }

  /** Lists that are read back stand where the message has them. */
  lemma ReadAsWritten(b: bytes, n: nat, offsets: seq<nat>, names: seq<nat>, values: seq<bytes>)
    requires n > 0 && |names| == |values| == n && |b| >= 8 * n
    requires ReadWords(b, 4, n - 1) == Ok(offsets) && ReadWords(b, 4 * n, n) == Ok(names)
    requires Values(b, 8 * n, [0] + offsets) == values
    ensures forall k | 0 <= k < n :: TagOf(b, n, k) == names[k] && ValueOf(b, n, k) == values[k]
  {
    hide ReadWords, Values, WordAt, StartOf, Slice;
    var starts := [0] + offsets;
    WordsIff(b, 4 * n, n);
    StartsAre(b, n, starts);
    forall k | 0 <= k < n ensures TagOf(b, n, k) == names[k] && ValueOf(b, n, k) == values[k] {
      ValuesAt(b, 8 * n, starts, k);
      assert starts[k] == StartOf(b, k) && (k + 1 < n ==> starts[k + 1] == StartOf(b, k + 1));
    }
  }

  // ---- the nested messages ----

  ghost predicate HasField(tags: map<nat, bytes>, tag: nat, k: nat) {
    tag in tags && |tags[tag]| == k
  }

  /** Response, signed part, certificate and delegation, each read from a field of the one around it. */
  ghost predicate Nested(response: bytes, p: Parts) {
    && Unframe(response).Ok? && Decode(Unframe(response).value) == Ok(p.whole)
    && T_SREP in p.whole && p.signedRaw == p.whole[T_SREP] && Decode(p.signedRaw) == Ok(p.signed)
    && T_CERT in p.whole && Decode(p.whole[T_CERT]) == Ok(p.cert)
    && T_DELE in p.cert && p.delegationRaw == p.cert[T_DELE] && Decode(p.delegationRaw) == Ok(p.delegation)
  }

  lemma NestedIff(response: bytes, p: Parts)
    ensures PartsOf(response) == Ok(p) <==> Nested(response, p)
  {
    hide Unframe, Decode;
  }

  // ---- the path ----

  /** Bit k of the index says on which side the k-th sibling stands. */
  ghost predicate GoesUp(sha: bytes -> Hash256, h: Hash256, idx: nat, k: nat, sibling: bytes, up: Hash256) {
    up == if idx / Pow2(k) % 2 == 1 then sha([1] + sibling + h) else sha([1] + h + sibling)
  }

  /** The hashes on the way from the nonce up to the root. */
  ghost predicate IsWay(sha: bytes -> Hash256, nonce: bytes, idx: nat, siblings: seq<bytes>, hs: seq<Hash256>) {
    && |hs| == |siblings| + 1 && hs[0] == sha([0] + nonce)
    && forall k | 0 <= k < |siblings| :: GoesUp(sha, hs[k], idx, k, siblings[k], hs[k + 1])
  }

  ghost predicate LeadsTo(sha: bytes -> Hash256, nonce: bytes, idx: nat, siblings: seq<bytes>, root: bytes) {
    exists hs: seq<Hash256> :: IsWay(sha, nonce, idx, siblings, hs) && hs[|siblings|] == root
  }

  /** The path in pieces of 32 bytes; the last may be shorter. */
  ghost predicate AreSiblings(path: bytes, siblings: seq<bytes>) {
    && |siblings| == (|path| + 31) / 32
    && forall k | 0 <= k < |siblings| :: siblings[k] == Slice(path, 32 * k, 32 * k + 32)
  }

  lemma SiblingsIff(path: bytes, siblings: seq<bytes>)
    ensures siblings == Chunks(path, 32) <==> AreSiblings(path, siblings)
  {
    hide Chunks, Slice;
    PiecesOf(path, 32);
    var chunks := Chunks(path, 32);
    assert |chunks| == (|path| + 31) / 32;
    forall k | 0 <= k < |chunks| ensures chunks[k] == Slice(path, 32 * k, 32 * k + 32) {
      assert chunks[k] == Piece(path, 32, k);
    }
  }

  lemma {:induction false} ClimbIff(sha: bytes -> Hash256, nonce: bytes, idx: nat, siblings: seq<bytes>, root: bytes)
    ensures Climb(sha, sha(LeafMessage(nonce)), idx, siblings) == root <==> LeadsTo(sha, nonce, idx, siblings, root)
    decreases |siblings|
  {
    hide Climb, GoesUp, Pow2;
    var leaf := sha(LeafMessage(nonce));
    if siblings == [] {
      ClimbEnd(sha, leaf, idx);
      assert IsWay(sha, nonce, idx, [], [leaf]);
    } else {
      var n := |siblings| - 1;
      var front, last := siblings[..n], siblings[n];
      assert siblings == front + [last];
      var below := Climb(sha, leaf, idx, front);
      ClimbLast(sha, leaf, idx, front, last);
      ClimbIff(sha, nonce, idx, front, below);
      UpIff(sha, below, idx, n, last, Climb(sha, leaf, idx, siblings));
      if hs: seq<Hash256> :| IsWay(sha, nonce, idx, front, hs) && hs[n] == below {
        WayOn(sha, nonce, idx, siblings, hs, Climb(sha, leaf, idx, siblings));
      }
      if hs: seq<Hash256> :| IsWay(sha, nonce, idx, siblings, hs) && hs[n + 1] == root {
        WayBack(sha, nonce, idx, siblings, hs);
        ClimbIff(sha, nonce, idx, front, hs[n]);
        assert hs[..n + 1][n] == hs[n];
        assert GoesUp(sha, hs[n], idx, n, siblings[n], hs[n + 1]);
        UpIff(sha, below, idx, n, last, hs[n + 1]);
      }
    }
  }

  lemma UpIff(sha: bytes -> Hash256, h: Hash256, idx: nat, k: nat, sibling: bytes, up: Hash256)
    ensures GoesUp(sha, h, idx, k, sibling, up) <==> up == sha(UpMessage(h, Ancestor(idx, k), sibling))
  {
    hide Pow2;
  }

  lemma WayOn(sha: bytes -> Hash256, nonce: bytes, idx: nat, siblings: seq<bytes>, hs: seq<Hash256>, up: Hash256)
    requires siblings != []
    requires var n := |siblings| - 1;
      IsWay(sha, nonce, idx, siblings[..n], hs) && GoesUp(sha, hs[n], idx, n, siblings[n], up)
    ensures IsWay(sha, nonce, idx, siblings, hs + [up]) && (hs + [up])[|siblings|] == up
  {
    hide GoesUp;
    var n, all := |siblings| - 1, hs + [up];
    forall k | 0 <= k < |siblings| ensures GoesUp(sha, all[k], idx, k, siblings[k], all[k + 1]) {
      if k < n { assert GoesUp(sha, hs[k], idx, k, siblings[..n][k], hs[k + 1]); }
    }
  }

  lemma WayBack(sha: bytes -> Hash256, nonce: bytes, idx: nat, siblings: seq<bytes>, hs: seq<Hash256>)
    requires siblings != [] && IsWay(sha, nonce, idx, siblings, hs)
    ensures IsWay(sha, nonce, idx, siblings[..|siblings| - 1], hs[..|siblings|])
  {
    hide GoesUp;
    var n := |siblings| - 1;
    var front, some := siblings[..n], hs[..n + 1];
    forall k | 0 <= k < n ensures GoesUp(sha, some[k], idx, k, front[k], some[k + 1]) {
      assert GoesUp(sha, hs[k], idx, k, siblings[k], hs[k + 1]);
    }
  }

  // ---- acceptance ----

  /** The nonce leads over the path, from the place the index names, to the signed root. */
  ghost predicate InBatch(sha: bytes -> Hash256, p: Parts, nonce: bytes) {
    && HasField(p.whole, T_INDX, 4) && T_PATH in p.whole && T_ROOT in p.signed
    && exists siblings :: AreSiblings(p.whole[T_PATH], siblings)
                          && LeadsTo(sha, nonce, FromLE(p.whole[T_INDX]), siblings, p.signed[T_ROOT])
  }

  /** The delegated key signed the signed part, and the long-term key the delegation, each in its context. */
  ghost predicate WellSigned(ed: Ed25519, p: Parts, longterm: Result<bytes>) {
    && T_PUBK in p.delegation && T_SIG in p.whole && T_SIG in p.cert && longterm.Ok?
    && ed(p.delegation[T_PUBK], Ascii("RoughTime v1 response signature") + [0] + p.signedRaw, p.whole[T_SIG])
       == Ok(true)
    && ed(longterm.value, Ascii("RoughTime v1 delegation signature--") + [0] + p.delegationRaw, p.cert[T_SIG])
       == Ok(true)
  }

  /** The midpoint is the one stated, and the delegation is valid at it. */
  ghost predicate States(p: Parts, m: Midpoint) {
    && HasField(p.signed, T_MIDP, 8) && m.midp == FromLE(p.signed[T_MIDP])
    && HasField(p.signed, T_RADI, 4) && m.radi == FromLE(p.signed[T_RADI])
    && HasField(p.delegation, T_MINT, 8) && HasField(p.delegation, T_MAXT, 8)
    && FromLE(p.delegation[T_MINT]) <= m.midp <= FromLE(p.delegation[T_MAXT])
  }

  lemma BatchIff(sha: bytes -> Hash256, p: Parts, nonce: bytes)
    ensures InBatch(sha, p, nonce) <==>
              && Climbed(sha, p, nonce).Ok? && Key(p.signed, T_ROOT) == Ok(Climbed(sha, p, nonce).value)
  {
    hide Climb, Chunks, AreSiblings, LeadsTo, FromLE, LeafMessage;
    if HasField(p.whole, T_INDX, 4) && T_PATH in p.whole && T_ROOT in p.signed {
      var idx, path := FromLE(p.whole[T_INDX]), p.whole[T_PATH];
      SiblingsIff(path, Chunks(path, 32));
      ClimbIff(sha, nonce, idx, Chunks(path, 32), p.signed[T_ROOT]);
      forall siblings | AreSiblings(path, siblings) ensures siblings == Chunks(path, 32) {
        SiblingsIff(path, siblings);
      }
    }
  }

  lemma SignedIff(ed: Ed25519, p: Parts, longterm: Result<bytes>)
    ensures Signed(ed, p, longterm) == Ok(true) <==> WellSigned(ed, p, longterm)
  {
    hide Ascii;
  }

  lemma ClaimIff(p: Parts, m: Midpoint)
    ensures Claim(p) == Ok(Some(m)) <==> States(p, m)
  {
    hide FromLE;
  }

  /** A response is accepted, with this midpoint and radius, exactly when its messages are nested so, its nonce
      belongs to the signed batch, both signatures are good and the midpoint lies in the delegation's window. */
  lemma AcceptedIff(sha: bytes -> Hash256, ed: Ed25519, response: bytes, nonce: bytes, longterm: Result<bytes>,
                    m: Midpoint)
    ensures VerifyResponse(sha, ed, response, nonce, longterm) == Ok(Some(m))
       <==> exists p :: Nested(response, p) && InBatch(sha, p, nonce) && WellSigned(ed, p, longterm) && States(p, m)
  {
    hide PartsOf, Nested, Climbed, Signed, Claim, InBatch, WellSigned, States;
    if PartsOf(response).Ok? {
      var p := PartsOf(response).value;
      NestedIff(response, p);
      BatchIff(sha, p, nonce);
      SignedIff(ed, p, longterm);
      ClaimIff(p, m);
    }
    forall p | Nested(response, p) ensures PartsOf(response) == Ok(p) { NestedIff(response, p); }
  }
}
