/** Roughtime requests, and the offline check of a signed response (ctp/roughtime.py). */
module RoughtimeReply {
  import opened Wrappers
  import opened Bytes
  import opened Sorting
  import opened HashSuite
  import opened Roughtime

  const MAGIC: bytes := Ascii("ROUGHTIM")
  const CTX_RESPONSE: bytes := Ascii("RoughTime v1 response signature") + [0]
  const CTX_DELEGATION: bytes := Ascii("RoughTime v1 delegation signature--") + [0]
  /** struct.pack("<I", VERSION_DRAFT11) */
  const VERSION: bytes := [0x0B, 0x00, 0x00, 0x80]

  // Four ASCII characters as a little-endian integer.
  const T_VER := 0x00524556
  const T_NONC := 0x434E4F4E
  const T_ZZZZ := 0x5A5A5A5A
  const T_SIG := 0x00474953
  const T_PATH := 0x48544150
  const T_SREP := 0x50455253
  const T_CERT := 0x54524543
  const T_INDX := 0x58444E49
  const T_ROOT := 0x544F4F52
  const T_MIDP := 0x5044494D
  const T_RADI := 0x49444152
  const T_DELE := 0x454C4544
  const T_PUBK := 0x4B425550
  const T_MINT := 0x544E494D
  const T_MAXT := 0x5458414D

  // ---- requests ----

  function Base(nonce: bytes, padding: bytes): seq<Item> {
    [(T_VER, VERSION), (T_NONC, nonce), (T_ZZZZ, padding)]
  }

  /** What fills a request up to 1024 bytes; b"\x00" * n is empty for a negative n. */
  function Padding(bare: nat): bytes {
    if 1024 - bare - 12 > 0 then Repeat(0, 1024 - bare - 12) else []
  }

  function BuildRequest(nonce: bytes): Result<bytes> {
    hide Encode;
    var bare :- Encode(Base(nonce, []));
    var msg :- Encode(Base(nonce, Padding(|bare|)));
    var size :- Words([|msg|]);
    Ok(MAGIC + size + msg)
  }

  /** The message inside an optional frame of magic and length. */
  function Unframe(packet: bytes): Result<bytes> {
    if Slice(packet, 0, 8) != MAGIC then Ok(packet) else
    var n :- ReadWord(packet, 8);
    Ok(Slice(packet, 12, 12 + n))
  }

  lemma BaseSorted(nonce: bytes, padding: bytes)
    ensures OneValueEach(Base(nonce, padding))
    ensures Sort(ItemLeq, Base(nonce, padding)) == Base(nonce, padding)
  {
    hide Sort;
    SortOfSorted(ItemLeq, Base(nonce, padding));
  }

  lemma BaseDict(nonce: bytes, padding: bytes)
    ensures Dict(Base(nonce, padding)) == map[T_VER := VERSION, T_NONC := nonce, T_ZZZZ := padding]
  {
    hide Dict, Sort;
    var items := Base(nonce, padding);
    BaseSorted(nonce, padding);
    DictHolds(items);
    assert items[0] in items && items[1] in items && items[2] in items;
    forall k | k in Dict(items) ensures k == T_VER || k == T_NONC || k == T_ZZZZ {
      assert (k, Dict(items)[k]) in items;
    }
  }

  lemma FlattenThree(a: bytes, b: bytes, c: bytes)
    ensures Flatten([a, b, c]) == a + b + c
  {
    assert Flatten([c]) == c + Flatten([]) == c;
    assert [b, c][1..] == [c] && Flatten([b, c]) == b + c;
    assert [a, b, c][1..] == [b, c] && a + (b + c) == a + b + c;
  }

  lemma BaseLength(nonce: bytes, padding: bytes)
    requires |nonce| < Pow256(4) - 4
    ensures Encode(Base(nonce, padding)).Ok?
    ensures |Encode(Base(nonce, padding)).value| == 28 + |nonce| + |padding|
  {
    hide Words, Offsets, Sort, Pow256, Flatten;
    var items := Base(nonce, padding);
    var values := Map(Body, items);
    BaseSorted(nonce, padding);
    EncodesIff(items);
    assert values == [VERSION, nonce, padding];
    FlattenThree(VERSION, nonce, padding);
    assert values[..2] == [VERSION, nonce];
    FlattenTwo(VERSION, nonce);
    Pow256Values();
    assert forall x | x in items :: x.0 < Pow256(4);
    OffsetsCount(values);
    WordsLength([3]);
    WordsLength(Offsets(values));
    WordsLength(Map(Tag, items));
  }

  lemma FlattenTwo(a: bytes, b: bytes)
    ensures Flatten([a, b]) == a + b
  {
    assert [a, b][1..] == [b] && Flatten([b]) == b + Flatten([]) == b;
  }

  lemma {:induction false} WordsLength(ws: seq<nat>)
    ensures Words(ws).Ok? ==> |Words(ws).value| == 4 * |ws|
  {
    if ws != [] { WordsLength(ws[1..]); }
  }

  /** A request for any nonce carries exactly that nonce; for a nonce of 32 bytes it is 1024 bytes long. */
  lemma RequestCarriesNonce(nonce: bytes)
    requires |nonce| < Pow256(4) - 0x1000
    ensures BuildRequest(nonce).Ok?
    ensures var request := BuildRequest(nonce).value;
            && Unframe(request).Ok?
            && Decode(Unframe(request).value).Ok?
            && var tags := Decode(Unframe(request).value).value;
               && tags.Keys == {T_VER, T_NONC, T_ZZZZ}
               && tags[T_VER] == [0x0B, 0x00, 0x00, 0x80] && tags[T_NONC] == nonce
               && forall i | 0 <= i < |tags[T_ZZZZ]| :: tags[T_ZZZZ][i] == 0
    ensures |nonce| == 32 ==> |BuildRequest(nonce).value| == 1024
  {
    hide Encode, Decode, Words, Pow256, Base, Dict, OneValueEach, Unframe;
    BaseLength(nonce, []);
    var padding := Padding(28 + |nonce|);
    BaseLength(nonce, padding);
    var msg := Encode(Base(nonce, padding)).value;
    Pow256Values();
    BaseSorted(nonce, padding);
    BaseDict(nonce, padding);
    MessageRoundTrip(Base(nonce, padding));
    Framing(msg);
  }

  lemma Framing(msg: bytes)
    requires |msg| < Pow256(4)
    ensures Words([|msg|]).Ok? && |Words([|msg|]).value| == 4
    ensures Unframe(MAGIC + Words([|msg|]).value + msg) == Ok(msg)
  {
    hide Pow256, LE, FromLE;
    WordsFit([|msg|]);
    WordsLength([|msg|]);
    var size := Words([|msg|]).value;
    var packet := MAGIC + size + msg;
    assert packet[..8] == MAGIC && packet[8..12] == size && packet[12..12 + |msg|] == msg;
    WordsReadBack(packet, 8, [|msg|]);
    assert ReadWords(packet, 8, 1) == Ok([|msg|]);
  }

  // ---- Merkle paths ----

  /** The truncated hash of a leaf and of a node; sha stands for SHA-512 cut to 32 bytes. */
  function LeafMessage(nonce: bytes): bytes {
    [0] + nonce
  }

  function NodeMessage(l: bytes, r: bytes): bytes {
    [1] + l + r
  }

  /** The message hashed for the parent of h, whose index is idx on its level. */
  function UpMessage(h: bytes, idx: nat, sibling: bytes): bytes {
    if idx % 2 == 1 then NodeMessage(sibling, h) else NodeMessage(h, sibling)
  }

  function Climb(sha: bytes -> Hash256, h: Hash256, idx: nat, siblings: seq<bytes>): Hash256
    decreases siblings
  {
    if siblings == [] then h
    else Climb(sha, sha(UpMessage(h, idx, siblings[0])), idx / 2, siblings[1..])
  }

  /** What is left of a path from position i. */
  function Rest(path: bytes, i: nat): bytes {
    Slice(path, i, |path|)
  }

  lemma ChunkStep(path: bytes, i: nat)
    requires i < |path|
    ensures Chunks(Rest(path, i), 32) == [Slice(path, i, i + 32)] + Chunks(Rest(path, i + 32), 32)
  {
    var rest := Rest(path, i);
    var n := Min(32, |rest|);
    assert rest[..n] == Slice(path, i, i + 32);
    assert rest[n..] == Rest(path, i + 32);
  }

  /** The path loop of verify_response. */
  method ClimbPath(sha: bytes -> Hash256, nonce: bytes, index: nat, path: bytes) returns (h: Hash256)
    ensures h == Climb(sha, sha(LeafMessage(nonce)), index, Chunks(path, 32))
  {
    hide Chunks, Climb, UpMessage, Rest;
    h := sha([0] + nonce);
    var idx, i := index, 0;
    assert Rest(path, 0) == path by { Whole(path); }
    while i < |path|
      invariant Climb(sha, sha(LeafMessage(nonce)), index, Chunks(path, 32))
             == Climb(sha, h, idx, Chunks(Rest(path, i), 32))
      decreases |path| - i
    {
      var sib := Slice(path, i, i + 32);
      ChunkStep(path, i);
      ClimbStep(sha, h, idx, sib, Chunks(Rest(path, i + 32), 32));
      Regrouped(h, idx, sib);
      h := sha([1] + if idx % 2 == 1 then sib + h else h + sib);
      idx := idx / 2;
      i := i + 32;
    }
    NoChunks(path, i);
    ClimbEnd(sha, h, idx);
  }

  lemma Whole(path: bytes)
    ensures Rest(path, 0) == path
  {
  }

  lemma ClimbEnd(sha: bytes -> Hash256, h: Hash256, idx: nat)
    ensures Climb(sha, h, idx, []) == h
  {
  }

  lemma ClimbStep(sha: bytes -> Hash256, h: Hash256, idx: nat, sib: bytes, rest: seq<bytes>)
    ensures Climb(sha, h, idx, [sib] + rest) == Climb(sha, sha(UpMessage(h, idx, sib)), idx / 2, rest)
  {
    assert ([sib] + rest)[1..] == rest;
  }

  lemma NoChunks(path: bytes, i: nat)
    requires i >= |path|
    ensures Chunks(Rest(path, i), 32) == []
  {
  }

  lemma Regrouped(h: bytes, idx: nat, sib: bytes)
    ensures [1] + (if idx % 2 == 1 then sib + h else h + sib) == UpMessage(h, idx, sib)
  {
    assert [1] + (sib + h) == [1] + sib + h && [1] + (h + sib) == [1] + h + sib;
  }

  /** The root over the nonces of one batch, a perfect tree of the given depth. */
  function Root(sha: bytes -> Hash256, nonces: seq<bytes>, d: nat): Hash256
    requires |nonces| == Pow2(d)
  {
    if d == 0 then sha(LeafMessage(nonces[0])) else
    sha(NodeMessage(Root(sha, nonces[..Pow2(d - 1)], d - 1), Root(sha, nonces[Pow2(d - 1)..], d - 1)))
  }

  /** The siblings on the way from the i-th leaf up to the root. */
  function HonestPath(sha: bytes -> Hash256, nonces: seq<bytes>, d: nat, i: nat): (p: seq<bytes>)
    requires |nonces| == Pow2(d) && i < Pow2(d)
    ensures |p| == d && forall k | 0 <= k < d :: |p[k]| == 32
  {
    if d == 0 then [] else
    var half := Pow2(d - 1);
    if i < half then HonestPath(sha, nonces[..half], d - 1, i) + [Root(sha, nonces[half..], d - 1)]
    else HonestPath(sha, nonces[half..], d - 1, i - half) + [Root(sha, nonces[..half], d - 1)]
  }

  function Quotient(a: nat, b: nat): nat
    requires b > 0
  {
    a / b
  }

  /** The index, n levels up, of the node above a leaf's. */
  function Ancestor(idx: nat, n: nat): nat {
    Quotient(idx, Pow2(n))
  }

  lemma {:induction false} ClimbLast(sha: bytes -> Hash256, h: Hash256, idx: nat, siblings: seq<bytes>, last: bytes)
    ensures Climb(sha, h, idx, siblings + [last])
         == sha(UpMessage(Climb(sha, h, idx, siblings), Ancestor(idx, |siblings|), last))
    decreases siblings
  {
    if siblings == [] {
      assert ([] + [last])[1..] == [];
      assert idx / Pow2(0) == idx;
    } else {
      var up := sha(UpMessage(h, idx, siblings[0]));
      assert (siblings + [last])[1..] == siblings[1..] + [last];
      ClimbLast(sha, up, idx / 2, siblings[1..], last);
      HalvesThen(idx, Pow2(|siblings| - 1));
    }
  }

  lemma HalvesThen(n: nat, p: nat)
    requires p > 0
    ensures n / 2 / p == n / (2 * p)
  {
    var q := n / 2 / p;
    assert n / 2 == q * p + n / 2 % p;
    assert n == 2 * (q * p) + 2 * (n / 2 % p) + n % 2;
    assert 2 * (q * p) == q * (2 * p);
    Unique(n, 2 * p, q, 2 * (n / 2 % p) + n % 2);
  }

  lemma Unique(n: nat, m: nat, q: nat, r: nat)
    requires m > 0 && n == q * m + r && r < m
    ensures n / m == q && n % m == r
  {
    assert (q + 1) * m == q * m + m;
    QuotientIs(n, m, q);
  }

  lemma DivMod(n: nat, m: nat) returns (q: nat)
    requires m > 0
    ensures n == q * m + n % m && n % m < m
  {
    q := n / m;
  }

  lemma Doubled(q: nat, p: nat, m: nat, a: nat)
    requires m == 2 * p && a == 2 * q
    ensures q * m == a * p
  {
  }

  lemma NextMultiple(a: nat, p: nat)
    ensures (a + 1) * p == a * p + p
  {
  }

  lemma EvenMultiple(idx: nat, p: nat, a: nat, i: nat)
    requires p > 0 && a % 2 == 0 && idx == a * p + i && i < p + p
    ensures idx / p == (if i < p then a else a + 1)
    ensures idx % p == (if i < p then i else i - p)
  {
    if i < p {
      Unique(idx, p, a, i);
    } else {
      NextMultiple(a, p);
      Unique(idx, p, a + 1, i - p);
    }
  }

  lemma Decompose(idx: nat, p: nat, m: nat) returns (a: nat)
    requires p > 0 && m == 2 * p
    ensures a % 2 == 0 && idx == a * p + idx % m && idx % m < p + p
  {
    var q := DivMod(idx, m);
    a := 2 * q;
    Doubled(q, p, m, a);
  }

  /** The top bit of an index chooses the half, the rest of it the leaf within that half. */
  lemma TopBit(idx: nat, p: nat)
    requires p > 0
    ensures var i := idx % (2 * p);
            && idx / p % 2 == (if i < p then 0 else 1)
            && idx % p == (if i < p then i else i - p)
  {
    var a := Decompose(idx, p, 2 * p);
    EvenMultiple(idx, p, a, idx % (2 * p));
  }

  /** The honest path of every leaf of a tree of any depth is accepted; bits of the index above the
      depth do not matter. */
  lemma {:induction false} HonestPathAccepted(sha: bytes -> Hash256, nonces: seq<bytes>, d: nat, idx: nat)
    requires |nonces| == Pow2(d)
    ensures var i := idx % Pow2(d);
            Climb(sha, sha(LeafMessage(nonces[i])), idx, HonestPath(sha, nonces, d, i)) == Root(sha, nonces, d)
  {
    hide UpMessage, LeafMessage, NodeMessage, Climb, Root, HonestPath, Pow2;
    var i := idx % Pow2(d);
    if d == 0 {
      SingleLeaf(sha, nonces);
      ClimbEnd(sha, sha(LeafMessage(nonces[i])), idx);
    } else {
      Halves(sha, nonces, d, i);
      var half := Pow2(d - 1);
      TopBit(idx, half);
      var l, r := nonces[..half], nonces[half..];
      var h := sha(LeafMessage(nonces[i]));
      if i < half {
        HonestPathAccepted(sha, l, d - 1, idx);
        assert h == sha(LeafMessage(l[i]));
        OneUp(sha, h, idx, HonestPath(sha, l, d - 1, i), Root(sha, l, d - 1), Root(sha, r, d - 1));
      } else {
        HonestPathAccepted(sha, r, d - 1, idx);
        assert h == sha(LeafMessage(r[i - half]));
        OneUp(sha, h, idx, HonestPath(sha, r, d - 1, i - half), Root(sha, r, d - 1), Root(sha, l, d - 1));
      }
    }
  }

  lemma OneUp(sha: bytes -> Hash256, h: Hash256, idx: nat, path: seq<bytes>, below: Hash256, sib: Hash256)
    requires Climb(sha, h, idx, path) == below
    ensures Climb(sha, h, idx, path + [sib])
         == sha(if idx / Pow2(|path|) % 2 == 1 then NodeMessage(sib, below) else NodeMessage(below, sib))
  {
    hide NodeMessage, Climb, Pow2;
    ClimbLast(sha, h, idx, path, sib);
  }

  lemma SingleLeaf(sha: bytes -> Hash256, nonces: seq<bytes>)
    requires |nonces| == Pow2(0)
    ensures |nonces| == 1 && Root(sha, nonces, 0) == sha(LeafMessage(nonces[0]))
    ensures Pow2(0) == 1 && HonestPath(sha, nonces, 0, 0) == []
    ensures TreeMessages(sha, nonces, 0) == {LeafMessage(nonces[0])}
  {
    hide LeafMessage;
  }

  /** A tree taken apart at its root. */
  lemma Halves(sha: bytes -> Hash256, nonces: seq<bytes>, d: nat, i: nat)
    requires d > 0 && |nonces| == Pow2(d) && i < Pow2(d)
    ensures Pow2(d) == 2 * Pow2(d - 1) && |nonces[..Pow2(d - 1)]| == Pow2(d - 1) == |nonces[Pow2(d - 1)..]|
    ensures var half := Pow2(d - 1);
            var l, r := nonces[..half], nonces[half..];
            var rootL, rootR := Root(sha, l, d - 1), Root(sha, r, d - 1);
            && Root(sha, nonces, d) == sha(NodeMessage(rootL, rootR))
            && HonestPath(sha, nonces, d, i)
               == (if i < half then HonestPath(sha, l, d - 1, i) + [rootR]
                   else HonestPath(sha, r, d - 1, i - half) + [rootL])
            && NodeMessage(rootL, rootR) in TreeMessages(sha, nonces, d)
            && TreeMessages(sha, l, d - 1) <= TreeMessages(sha, nonces, d)
            && TreeMessages(sha, r, d - 1) <= TreeMessages(sha, nonces, d)
  {
    hide NodeMessage;
  }

  // ---- what an accepted path proves ----

  ghost function TreeMessages(sha: bytes -> Hash256, nonces: seq<bytes>, d: nat): set<bytes>
    requires |nonces| == Pow2(d)
  {
    if d == 0 then {LeafMessage(nonces[0])} else
    var l, r := nonces[..Pow2(d - 1)], nonces[Pow2(d - 1)..];
    TreeMessages(sha, l, d - 1) + TreeMessages(sha, r, d - 1)
    + {NodeMessage(Root(sha, l, d - 1), Root(sha, r, d - 1))}
  }

  ghost function ClimbMessages(sha: bytes -> Hash256, nonce: bytes, idx: nat, siblings: seq<bytes>): set<bytes>
    decreases |siblings|
  {
    if siblings == [] then {LeafMessage(nonce)} else
    var n := |siblings| - 1;
    var h := Climb(sha, sha(LeafMessage(nonce)), idx, siblings[..n]);
    ClimbMessages(sha, nonce, idx, siblings[..n]) + {UpMessage(h, Ancestor(idx, n), siblings[n])}
  }

  ghost predicate NoCollision(sha: bytes -> Hash256, messages: set<bytes>) {
    forall a, b | a in messages && b in messages && sha(a) == sha(b) :: a == b
  }

  lemma UpIsNode(h: Hash256, idx: nat, sib: bytes, l: Hash256, r: Hash256)
    requires UpMessage(h, idx, sib) == NodeMessage(l, r)
    ensures if idx % 2 == 1 then h == r && sib == l else h == l && sib == r
  {
    var m := NodeMessage(l, r);
    assert m[1..33] == l && m[33..] == r;
    if idx % 2 == 1 {
      assert |m| == 1 + |sib| + 32;
      assert m[1..1 + |sib|] == sib && m[1 + |sib|..] == h;
    } else {
      assert m[1..33] == h && m[33..] == sib;
    }
  }

  lemma LeafIsNotNode(nonce: bytes, h: bytes, idx: nat, sib: bytes, l: bytes, r: bytes)
    ensures LeafMessage(nonce) != NodeMessage(l, r) && LeafMessage(nonce) != UpMessage(h, idx, sib)
  {
    assert LeafMessage(nonce)[0] == 0 && NodeMessage(l, r)[0] == 1 && UpMessage(h, idx, sib)[0] == 1;
  }

  lemma LeafInjective(a: bytes, b: bytes)
    requires LeafMessage(a) == LeafMessage(b)
    ensures a == b
  {
    assert LeafMessage(a)[1..] == a && LeafMessage(b)[1..] == b;
  }

  /** The last step of an accepted climb, taken apart. */
  lemma LastStep(sha: bytes -> Hash256, nonce: bytes, idx: nat, siblings: seq<bytes>)
    requires siblings != []
    ensures var n := |siblings| - 1;
            var h := Climb(sha, sha(LeafMessage(nonce)), idx, siblings[..n]);
            && UpMessage(h, Ancestor(idx, n), siblings[n]) in ClimbMessages(sha, nonce, idx, siblings)
            && Climb(sha, sha(LeafMessage(nonce)), idx, siblings) == sha(UpMessage(h, Ancestor(idx, n), siblings[n]))
            && ClimbMessages(sha, nonce, idx, siblings[..n]) <= ClimbMessages(sha, nonce, idx, siblings)
  {
    hide UpMessage, LeafMessage;
    var n := |siblings| - 1;
    assert siblings == siblings[..n] + [siblings[n]];
    ClimbLast(sha, sha(LeafMessage(nonce)), idx, siblings[..n], siblings[n]);
  }

  lemma LeafHashed(sha: bytes -> Hash256, nonce: bytes, idx: nat)
    ensures ClimbMessages(sha, nonce, idx, []) == {LeafMessage(nonce)}
    ensures forall h: Hash256 :: Climb(sha, h, idx, []) == h
  {
  }

  /** Without collisions a path is accepted only if it is the honest path of the leaf that the index
      picks: no other depth, no other nonce and no other sibling can give the root. */
  lemma {:induction false} PathBinds(sha: bytes -> Hash256, nonces: seq<bytes>, d: nat, nonce: bytes, idx: nat,
                                     siblings: seq<bytes>)
    requires |nonces| == Pow2(d)
    requires Climb(sha, sha(LeafMessage(nonce)), idx, siblings) == Root(sha, nonces, d)
    requires NoCollision(sha, TreeMessages(sha, nonces, d) + ClimbMessages(sha, nonce, idx, siblings))
    ensures |siblings| == d && nonce == nonces[idx % Pow2(d)]
    ensures siblings == HonestPath(sha, nonces, d, idx % Pow2(d))
  {
    hide UpMessage, LeafMessage, NodeMessage, Climb, ClimbMessages, Root, HonestPath, TreeMessages, Pow2, NoCollision;
    var all := TreeMessages(sha, nonces, d) + ClimbMessages(sha, nonce, idx, siblings);
    if siblings == [] {
      LeafHashed(sha, nonce, idx);
      EmptyPathBinds(sha, nonces, d, nonce, idx);
    } else {
      var n := |siblings| - 1;
      var h := Climb(sha, sha(LeafMessage(nonce)), idx, siblings[..n]);
      LastStep(sha, nonce, idx, siblings);
      var up := UpMessage(h, Ancestor(idx, n), siblings[n]);
      if d == 0 {
        SingleLeaf(sha, nonces);
        Same(sha, all, up, LeafMessage(nonces[0]));
        LeafIsNotNode(nonces[0], h, Ancestor(idx, n), siblings[n], [], []);
      } else {
        Halves(sha, nonces, d, idx % Pow2(d));
        var half := Pow2(d - 1);
        var l, r := nonces[..half], nonces[half..];
        var rootL, rootR := Root(sha, l, d - 1), Root(sha, r, d - 1);
        Same(sha, all, up, NodeMessage(rootL, rootR));
        UpIsNode(h, Ancestor(idx, n), siblings[n], rootL, rootR);
        var mine := if Ancestor(idx, n) % 2 == 1 then r else l;
        Fewer(sha, all, TreeMessages(sha, mine, d - 1) + ClimbMessages(sha, nonce, idx, siblings[..n]));
        PathBinds(sha, mine, d - 1, nonce, idx, siblings[..n]);
        TopBit(idx, half);
        assert siblings == siblings[..n] + [siblings[n]];
      }
    }
  }

  lemma Same(sha: bytes -> Hash256, messages: set<bytes>, a: bytes, b: bytes)
    requires NoCollision(sha, messages) && a in messages && b in messages && sha(a) == sha(b)
    ensures a == b
  {
  }

  lemma Fewer(sha: bytes -> Hash256, messages: set<bytes>, some: set<bytes>)
    requires NoCollision(sha, messages) && some <= messages
    ensures NoCollision(sha, some)
  {
  }

  lemma EmptyPathBinds(sha: bytes -> Hash256, nonces: seq<bytes>, d: nat, nonce: bytes, idx: nat)
    requires |nonces| == Pow2(d) && sha(LeafMessage(nonce)) == Root(sha, nonces, d)
    requires NoCollision(sha, TreeMessages(sha, nonces, d) + {LeafMessage(nonce)})
    ensures d == 0 && nonce == nonces[idx % Pow2(d)]
  {
    hide UpMessage, LeafMessage, NodeMessage, Root, TreeMessages, Pow2, NoCollision;
    var all := TreeMessages(sha, nonces, d) + {LeafMessage(nonce)};
    if d == 0 {
      SingleLeaf(sha, nonces);
      Same(sha, all, LeafMessage(nonce), LeafMessage(nonces[0]));
      LeafInjective(nonce, nonces[0]);
    } else {
      Halves(sha, nonces, d, 0);
      var l, r := Root(sha, nonces[..Pow2(d - 1)], d - 1), Root(sha, nonces[Pow2(d - 1)..], d - 1);
      Same(sha, all, LeafMessage(nonce), NodeMessage(l, r));
      LeafIsNotNode(nonce, [], 0, [], l, r);
    }
  }

  // ---- verify_response ----

  /** verify(public key, message, signature); the tool may be missing. */
  type Ed25519 = (bytes, bytes, bytes) -> Result<bool>

  function Key(m: map<nat, bytes>, tag: nat): Result<bytes> {
    if tag in m then Ok(m[tag]) else Raised
  }

  /** struct.unpack of a whole field. */
  function Exact(b: bytes, k: nat): Result<nat> {
    if |b| == k then Ok(FromLE(b)) else Raised
  }

  /** The nested messages of a response: the whole, the signed part, the certificate, the delegation. */
  datatype Parts = Parts(whole: map<nat, bytes>, signed: map<nat, bytes>, cert: map<nat, bytes>,
                         delegation: map<nat, bytes>, signedRaw: bytes, delegationRaw: bytes)

  function PartsOf(response: bytes): Result<Parts> {
    var body :- Unframe(response);
    var whole :- Decode(body);
    var signedRaw :- Key(whole, T_SREP);
    var certRaw :- Key(whole, T_CERT);
    var signed :- Decode(signedRaw);
    var cert :- Decode(certRaw);
    var delegationRaw :- Key(cert, T_DELE);
    var delegation :- Decode(delegationRaw);
    Ok(Parts(whole, signed, cert, delegation, signedRaw, delegationRaw))
  }

  datatype Midpoint = Midpoint(midp: nat, radi: nat)

  /** The root the path of a response leads to. */
  function Climbed(sha: bytes -> Hash256, p: Parts, nonce: bytes): Result<Hash256> {
    var indx :- Key(p.whole, T_INDX);
    var index :- Exact(indx, 4);
    var path :- Key(p.whole, T_PATH);
    Ok(Climb(sha, sha(LeafMessage(nonce)), index, Chunks(path, 32)))
  }

  /** The two signatures: over the signed part by the delegated key, over the delegation by the
      long-term key; a long-term key that is no byte string raises only when its turn comes. */
  function Signed(ed: Ed25519, p: Parts, longterm: Result<bytes>): Result<bool> {
    var pubk :- Key(p.delegation, T_PUBK);
    var sig :- Key(p.whole, T_SIG);
    var first :- ed(pubk, CTX_RESPONSE + p.signedRaw, sig);
    if !first then Ok(false) else
    var certSig :- Key(p.cert, T_SIG);
    var key :- longterm;
    ed(key, CTX_DELEGATION + p.delegationRaw, certSig)
  }

  /** The midpoint and radius, None when it lies outside the delegation window. */
  function Claim(p: Parts): Result<Option<Midpoint>> {
    var midpRaw :- Key(p.signed, T_MIDP);
    var midp :- Exact(midpRaw, 8);
    var radiRaw :- Key(p.signed, T_RADI);
    var radi :- Exact(radiRaw, 4);
    var mintRaw :- Key(p.delegation, T_MINT);
    var mint :- Exact(mintRaw, 8);
    var maxtRaw :- Key(p.delegation, T_MAXT);
    var maxt :- Exact(maxtRaw, 8);
    Ok(if mint <= midp <= maxt then Some(Midpoint(midp, radi)) else None)
  }

  /** verify_response: None stands for its ValueErrors, Raised for every other exception. */
  function VerifyResponse(sha: bytes -> Hash256, ed: Ed25519, response: bytes, nonce: bytes, longterm: Result<bytes>)
    : Result<Option<Midpoint>>
  {
    var p :- PartsOf(response);
    var h :- Climbed(sha, p, nonce);
    var root :- Key(p.signed, T_ROOT);
    if h != root then Ok(None) else
    var good :- Signed(ed, p, longterm);
    if !good then Ok(None) else Claim(p)
  }

  method CheckResponse(sha: bytes -> Hash256, ed: Ed25519, response: bytes, nonce: bytes, longterm: Result<bytes>)
    returns (r: Result<Option<Midpoint>>)
    ensures r == VerifyResponse(sha, ed, response, nonce, longterm)
  {
    hide PartsOf, Climb, Signed, Claim;
    var p := PartsOf(response);
    if p.Raised? { return Raised; }
    var indx := Key(p.value.whole, T_INDX);
    if indx.Raised? { return Raised; }
    var index := Exact(indx.value, 4);
    if index.Raised? { return Raised; }
    var path := Key(p.value.whole, T_PATH);
    if path.Raised? { return Raised; }
    var h := ClimbPath(sha, nonce, index.value, path.value);
    var root := Key(p.value.signed, T_ROOT);
    if root.Raised? { return Raised; }
    if h != root.value { return Ok(None); }
    var good := Signed(ed, p.value, longterm);
    if good.Raised? { return Raised; }
    if !good.value { return Ok(None); }
    r := Claim(p.value);
  }

  /** An accepted response whose signed root is the root of a batch, without collisions, vouches for one
      nonce of that batch, the one its index names, and carries that nonce's own path. */
  lemma ResponseBindsNonce(sha: bytes -> Hash256, ed: Ed25519, response: bytes, nonce: bytes, longterm: Result<bytes>,
                           nonces: seq<bytes>, d: nat)
    requires VerifyResponse(sha, ed, response, nonce, longterm).Ok?
    requires VerifyResponse(sha, ed, response, nonce, longterm).value.Some?
    requires |nonces| == Pow2(d)
    requires Key(PartsOf(response).value.signed, T_ROOT) == Ok(Root(sha, nonces, d))
    requires
      var p := PartsOf(response).value;
      NoCollision(sha, TreeMessages(sha, nonces, d)
                       + ClimbMessages(sha, nonce, FromLE(p.whole[T_INDX]), Chunks(p.whole[T_PATH], 32)))
    ensures
      var p := PartsOf(response).value;
      var i := FromLE(p.whole[T_INDX]) % Pow2(d);
      && nonce == nonces[i]
      && p.whole[T_PATH] == Flatten(HonestPath(sha, nonces, d, i))
  {
    hide PartsOf, Climb, ClimbMessages, Root, TreeMessages, HonestPath, Chunks, Signed, Claim, NoCollision;
    var p := PartsOf(response).value;
    PathBinds(sha, nonces, d, nonce, FromLE(p.whole[T_INDX]), Chunks(p.whole[T_PATH], 32));
  }

  // ---- one response, two nonces ----

  lemma UpBinds(h: Hash256, g: Hash256, idx: nat, sib: bytes)
    requires UpMessage(h, idx, sib) == UpMessage(g, idx, sib)
    ensures h == g
  {
    var m := UpMessage(h, idx, sib);
    if idx % 2 == 1 {
      assert m[1 + |sib|..] == h && UpMessage(g, idx, sib)[1 + |sib|..] == g;
    } else {
      assert m[1..33] == h && UpMessage(g, idx, sib)[1..33] == g;
    }
  }

  /** Without collisions one path leads from two leaves to one root only if the leaves are the same. */
  lemma {:induction false} PathBindsLeaf(sha: bytes -> Hash256, a: bytes, b: bytes, idx: nat, siblings: seq<bytes>)
    requires Climb(sha, sha(LeafMessage(a)), idx, siblings) == Climb(sha, sha(LeafMessage(b)), idx, siblings)
    requires NoCollision(sha, ClimbMessages(sha, a, idx, siblings) + ClimbMessages(sha, b, idx, siblings))
    ensures a == b
    decreases |siblings|
  {
    hide UpMessage, LeafMessage, Climb, ClimbMessages, Pow2, NoCollision;
    var all := ClimbMessages(sha, a, idx, siblings) + ClimbMessages(sha, b, idx, siblings);
    if siblings == [] {
      LeafHashed(sha, a, idx);
      LeafHashed(sha, b, idx);
      Same(sha, all, LeafMessage(a), LeafMessage(b));
      LeafInjective(a, b);
    } else {
      var n := |siblings| - 1;
      var h := Climb(sha, sha(LeafMessage(a)), idx, siblings[..n]);
      var g := Climb(sha, sha(LeafMessage(b)), idx, siblings[..n]);
      LastStep(sha, a, idx, siblings);
      LastStep(sha, b, idx, siblings);
      var top := Ancestor(idx, n);
      Same(sha, all, UpMessage(h, top, siblings[n]), UpMessage(g, top, siblings[n]));
      UpBinds(h, g, top, siblings[n]);
      Fewer(sha, all, ClimbMessages(sha, a, idx, siblings[..n]) + ClimbMessages(sha, b, idx, siblings[..n]));
      PathBindsLeaf(sha, a, b, idx, siblings[..n]);
    }
  }

  /** What is hashed when the path of a response is climbed from a nonce. */
  ghost function ReplyMessages(sha: bytes -> Hash256, response: bytes, nonce: bytes): set<bytes> {
    if PartsOf(response).Raised? || Climbed(sha, PartsOf(response).value, nonce).Raised? then {} else
    var p := PartsOf(response).value;
    ClimbMessages(sha, nonce, FromLE(p.whole[T_INDX]), Chunks(p.whole[T_PATH], 32))
  }

  ghost predicate Accepts(sha: bytes -> Hash256, ed: Ed25519, response: bytes, nonce: bytes, longterm: Result<bytes>) {
    var r := VerifyResponse(sha, ed, response, nonce, longterm);
    r.Ok? && r.value.Some?
  }

  /** Without collisions a response is accepted for one nonce at most, whatever the keys. */
  lemma ResponseBindsOneNonce(sha: bytes -> Hash256, ed: Ed25519, response: bytes, a: bytes, key: Result<bytes>,
                              b: bytes, other: Result<bytes>)
    requires Accepts(sha, ed, response, a, key) && Accepts(sha, ed, response, b, other)
    requires NoCollision(sha, ReplyMessages(sha, response, a) + ReplyMessages(sha, response, b))
    ensures a == b
  {
    hide PartsOf, Climb, ClimbMessages, Chunks, Signed, Claim, NoCollision, FromLE;
    var p := PartsOf(response).value;
    PathBindsLeaf(sha, a, b, FromLE(p.whole[T_INDX]), Chunks(p.whole[T_PATH], 32));
  }

  lemma {:induction false} ChunksOfPath(siblings: seq<bytes>)
    requires forall k | 0 <= k < |siblings| :: |siblings[k]| == 32
    ensures Chunks(Flatten(siblings), 32) == siblings
  {
    if siblings != [] {
      var rest := Flatten(siblings[1..]);
      var raw := siblings[0] + rest;
      ChunksOfPath(siblings[1..]);
      assert raw[..32] == siblings[0] && raw[32..] == rest;
    }
  }

  /** A response built for the index and path of its leaf passes the path check: whether it is accepted
      depends only on its signatures and its window. */
  lemma HonestResponse(sha: bytes -> Hash256, ed: Ed25519, response: bytes, longterm: Result<bytes>, nonces: seq<bytes>,
                       d: nat, i: nat)
    requires |nonces| == Pow2(d) && i < Pow2(d) && i < Pow256(4)
    requires PartsOf(response).Ok?
    requires
      var p := PartsOf(response).value;
      && Key(p.whole, T_INDX) == Ok(LE(i, 4))
      && Key(p.whole, T_PATH) == Ok(Flatten(HonestPath(sha, nonces, d, i)))
      && Key(p.signed, T_ROOT) == Ok(Root(sha, nonces, d))
    ensures
      var p := PartsOf(response).value;
      VerifyResponse(sha, ed, response, nonces[i], longterm) ==
        match Signed(ed, p, longterm)
        case Raised => Raised
        case Ok(good) => if good then Claim(p) else Ok(None)
  {
    hide PartsOf, Climb, Root, HonestPath, Chunks, Signed, Claim, Flatten, LE, FromLE, Pow256, Pow2;
    LERoundTrip(i, 4);
    Unique(i, Pow2(d), 0, i);
    ChunksOfPath(HonestPath(sha, nonces, d, i));
    HonestPathAccepted(sha, nonces, d, i);
    assert Climbed(sha, PartsOf(response).value, nonces[i]) == Ok(Root(sha, nonces, d));
  }
}
