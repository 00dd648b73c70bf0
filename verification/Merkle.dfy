/** The dual Merkle root (ctp/merkle.py). */
module Merkle {
  import opened Wrappers
  import opened Bytes
  import opened Cbor
  import opened HashSuite
  import opened Records

  function NodeMessage(l: bytes, r: bytes): bytes {
    Framed(DOM_MERKLE_NODE, l + r)
  }

  function Node(s: Suite, family: Family, l: bytes, r: bytes): (h: bytes)
    ensures |h| == Width(family)
  {
    Hash(s, family, NodeMessage(l, r))
  }

  function Pad(nodes: seq<bytes>): seq<bytes>
    requires nodes != []
  {
    if |nodes| % 2 == 1 then nodes + [nodes[|nodes| - 1]] else nodes
  }

  /** Neighbours hashed together. */
  function Level(s: Suite, family: Family, padded: seq<bytes>): (r: seq<bytes>)
    requires |padded| % 2 == 0
    ensures |r| == |padded| / 2
  {
    if padded == [] then [] else [Node(s, family, padded[0], padded[1])] + Level(s, family, padded[2..])
  }

  /** One level after another until one node is left. */
  function Reduce(s: Suite, family: Family, nodes: seq<bytes>): bytes
    requires nodes != []
    decreases |nodes|
  {
    if |nodes| == 1 then nodes[0] else Reduce(s, family, Level(s, family, Pad(nodes)))
  }

  lemma {:induction false} LevelConcat(s: Suite, family: Family, a: seq<bytes>, b: seq<bytes>)
    requires |a| % 2 == 0 && |b| % 2 == 0
    ensures Level(s, family, a + b) == Level(s, family, a) + Level(s, family, b)
  {
    if a == [] {
      assert a + b == b;
    } else {
      assert (a + b)[2..] == a[2..] + b;
      LevelConcat(s, family, a[2..], b);
    }
  }

  lemma LevelPair(s: Suite, family: Family, nodes: seq<bytes>, i: nat)
    requires i + 2 <= |nodes| && i % 2 == 0
    ensures Level(s, family, nodes[..i + 2]) == Level(s, family, nodes[..i]) + [Node(s, family, nodes[i], nodes[i + 1])]
  {
    var two := [nodes[i], nodes[i + 1]];
    var none: seq<bytes> := [];
    assert nodes[..i + 2] == nodes[..i] + two;
    LevelConcat(s, family, nodes[..i], two);
    assert two[2..] == none;
  }

  lemma LevelNone(s: Suite, family: Family, nodes: seq<bytes>)
    ensures Level(s, family, nodes[..0]) == []
  {
  }

  /** reduce(): the loop pads and rebuilds the node list until it holds one node. */
  method ReduceLoop(s: Suite, family: Family, leaves: seq<bytes>) returns (root: bytes)
    requires leaves != []
    ensures root == Reduce(s, family, leaves)
  {
    hide Level, Node;
    var nodes := leaves;
    while |nodes| > 1
      invariant nodes != [] && Reduce(s, family, nodes) == Reduce(s, family, leaves)
      decreases |nodes|
    {
      ghost var before := nodes;
      if |nodes| % 2 == 1 {
        nodes := nodes + [nodes[|nodes| - 1]];
      }
      var nxt: seq<bytes> := [];
      var i := 0;
      LevelNone(s, family, nodes);
      while i < |nodes|
        invariant 0 <= i <= |nodes| && i % 2 == 0
        invariant nxt == Level(s, family, nodes[..i])
      {
        LevelPair(s, family, nodes, i);
        nxt := nxt + [Node(s, family, nodes[i], nodes[i + 1])];
        i := i + 2;
      }
      assert nodes[..i] == nodes == Pad(before);
      nodes := nxt;
    }
    root := nodes[0];
  }

  function LeafMessage(p: DigestPair): bytes {
    PairObjEncodes(p);
    Framed(DOM_MERKLE_LEAF, Dumps(PairObj(p)).value)
  }

  function Leaves(s: Suite, family: Family, records: seq<DigestPair>): (r: seq<bytes>)
    ensures |r| == |records|
    ensures forall i | 0 <= i < |records| :: r[i] == Hash(s, family, LeafMessage(records[i]))
  {
    if records == [] then []
    else [Hash(s, family, LeafMessage(records[0]))] + Leaves(s, family, records[1..])
  }

  function MerklePair(s: Suite, records: seq<DigestPair>): Result<DigestPair> {
    if records == [] then Raised else Ok(MerkleRoot(s, records))
  }

  function MerkleRoot(s: Suite, records: seq<DigestPair>): DigestPair
    requires records != []
  {
    ReduceWidth(s, Sha256, Leaves(s, Sha256, records));
    ReduceWidth(s, Shake384, Leaves(s, Shake384, records));
    DigestPair(Reduce(s, Sha256, Leaves(s, Sha256, records)), Reduce(s, Shake384, Leaves(s, Shake384, records)))
  }

  ghost predicate Wide(family: Family, nodes: seq<bytes>) {
    forall i | 0 <= i < |nodes| :: |nodes[i]| == Width(family)
  }

  lemma {:induction false} LevelWide(s: Suite, family: Family, nodes: seq<bytes>)
    requires |nodes| % 2 == 0
    ensures Wide(family, Level(s, family, nodes))
  {
    if nodes != [] { LevelWide(s, family, nodes[2..]); }
  }

  lemma {:induction false} ReduceWidth(s: Suite, family: Family, nodes: seq<bytes>)
    requires nodes != [] && Wide(family, nodes)
    ensures |Reduce(s, family, nodes)| == Width(family)
    decreases |nodes|
  {
    if |nodes| > 1 {
      LevelWide(s, family, Pad(nodes));
      ReduceWidth(s, family, Level(s, family, Pad(nodes)));
    }
  }

  method ComputeMerklePair(s: Suite, records: seq<DigestPair>) returns (r: Result<DigestPair>)
    ensures r == MerklePair(s, records)
  {
    hide Dumps, PairObj, Reduce;
    if records == [] { return Raised; }
    var leavesA: seq<bytes>, leavesB: seq<bytes> := [], [];
    for i := 0 to |records|
      invariant |leavesA| == |leavesB| == i
      invariant forall k | 0 <= k < i :: leavesA[k] == Hash(s, Sha256, LeafMessage(records[k]))
      invariant forall k | 0 <= k < i :: leavesB[k] == Hash(s, Shake384, LeafMessage(records[k]))
    {
      PairObjEncodes(records[i]);
      var enc := Dumps(PairObj(records[i])).value;
      var d := DigestPairOf(s, DOM_MERKLE_LEAF, enc);
      leavesA, leavesB := leavesA + [d.sha256], leavesB + [d.shake384];
    }
    assert leavesA == Leaves(s, Sha256, records) && leavesB == Leaves(s, Shake384, records);
    var a := ReduceLoop(s, Sha256, leavesA);
    var b := ReduceLoop(s, Shake384, leavesB);
    ReduceWidth(s, Sha256, leavesA);
    ReduceWidth(s, Shake384, leavesB);
    r := Ok(DigestPair(a, b));
  }

  // ---- the reference: a perfect tree, top down ----

  /** The least depth of a tree with room for n leaves. */
  function Depth(n: nat): (d: nat)
    requires n > 0
    ensures n <= Pow2(d)
    decreases n
  {
    if n == 1 then 0 else 1 + Depth((n + 1) / 2)
  }

  /** The 2^d leaves of the tree over `xs`: where a right half is missing, the left one stands again. */
  function Complete<T>(xs: seq<T>, d: nat): (r: seq<T>)
    requires 0 < |xs| <= Pow2(d)
    ensures |r| == Pow2(d)
  {
    if d == 0 then xs
    else if |xs| > Pow2(d - 1) then xs[..Pow2(d - 1)] + Complete(xs[Pow2(d - 1)..], d - 1)
    else Complete(xs, d - 1) + Complete(xs, d - 1)
  }

  /** The perfect binary tree over 2^d leaves. */
  function Perfect(s: Suite, family: Family, xs: seq<bytes>, d: nat): bytes
    requires |xs| == Pow2(d)
  {
    if d == 0 then xs[0] else
    Node(s, family, Perfect(s, family, xs[..Pow2(d - 1)], d - 1), Perfect(s, family, xs[Pow2(d - 1)..], d - 1))
  }

  lemma {:induction false} PerfectLevel(s: Suite, family: Family, xs: seq<bytes>, d: nat)
    requires d > 0 && |xs| == Pow2(d)
    ensures Perfect(s, family, xs, d) == Perfect(s, family, Level(s, family, xs), d - 1)
  {
    var l, r := xs[..Pow2(d - 1)], xs[Pow2(d - 1)..];
    assert xs == l + r;
    if d == 1 {
      assert xs[2..] == [];
    } else {
      LevelConcat(s, family, l, r);
      var up := Level(s, family, xs);
      assert up[..Pow2(d - 2)] == Level(s, family, l) && up[Pow2(d - 2)..] == Level(s, family, r);
      PerfectLevel(s, family, l, d - 1);
      PerfectLevel(s, family, r, d - 1);
    }
  }

  /** Padding a level commutes with completing the tree. */
  lemma {:induction false} CompleteLevel(s: Suite, family: Family, xs: seq<bytes>, d: nat)
    requires d > 0 && 0 < |xs| <= Pow2(d)
    ensures Level(s, family, Complete(xs, d)) == Complete(Level(s, family, Pad(xs)), d - 1)
  {
    hide Level, Pad;
    var half := Pow2(d - 1);
    if d == 1 {
      SmallestLevel(s, family, xs);
    } else if |xs| > half {
      var l, r := xs[..half], xs[half..];
      CompleteLevel(s, family, r, d - 1);
      SplitPad(xs, l, r, Pow2(d - 2));
      SplitLevel(s, family, l, Pad(r), Pow2(d - 2));
      LevelConcat(s, family, l, Complete(r, d - 1));
    } else {
      CompleteLevel(s, family, xs, d - 1);
      LevelConcat(s, family, Complete(xs, d - 1), Complete(xs, d - 1));
      PaddedLength(xs, d);
    }
  }

  lemma SmallestLevel(s: Suite, family: Family, xs: seq<bytes>)
    requires 0 < |xs| <= 2
    ensures |Pad(xs)| == 2 && Pow2(1) == 2
    ensures Level(s, family, Complete(xs, 1)) == Complete(Level(s, family, Pad(xs)), 0)
  {
    hide Level;
    assert Complete(xs, 1) == Pad(xs);
  }

  lemma PaddedLength(xs: seq<bytes>, d: nat)
    requires d > 1 && 0 < |xs| <= Pow2(d - 1)
    ensures 0 < |Pad(xs)| / 2 <= Pow2(d - 2)
  {
  }

  lemma SplitPad(xs: seq<bytes>, l: seq<bytes>, r: seq<bytes>, half: nat)
    requires xs == l + r && |l| == 2 * half && 0 < |r| <= 2 * half
    ensures Pad(xs) == l + Pad(r) && |Pad(r)| % 2 == 0 && 0 < |Pad(r)| / 2 <= half
  {
  }

  lemma SplitLevel(s: Suite, family: Family, l: seq<bytes>, padded: seq<bytes>, half: nat)
    requires |l| == 2 * half && |padded| % 2 == 0
    ensures var up := Level(s, family, l + padded);
      && |up| == half + |padded| / 2
      && up[..half] == Level(s, family, l) && up[half..] == Level(s, family, padded)
  {
    hide Level;
    LevelConcat(s, family, l, padded);
  }

  lemma SingleLeaf(s: Suite, family: Family, xs: seq<bytes>)
    ensures |xs| == 1 ==> Pow2(0) == 1 && Perfect(s, family, Complete(xs, 0), 0) == xs[0]
  {
  }

  /** The bottom-up loop computes the recursive tree that duplicates the last node, for every number
      of leaves. */
  lemma {:induction false} ReduceIsTree(s: Suite, family: Family, xs: seq<bytes>)
    requires xs != []
    ensures Reduce(s, family, xs) == Perfect(s, family, Complete(xs, Depth(|xs|)), Depth(|xs|))
    decreases |xs|
  {
    hide Level, Complete, Perfect, Pow2;
    SingleLeaf(s, family, xs);
    if |xs| > 1 {
      var d := Depth(|xs|);
      var up := Level(s, family, Pad(xs));
      ReduceIsTree(s, family, up);
      CompleteLevel(s, family, xs, d);
      PerfectLevel(s, family, Complete(xs, d), d);
    }
  }

  // ---- binding ----

  /** Every message hashed while nodes are reduced. */
  ghost function NodeMessages(s: Suite, family: Family, nodes: seq<bytes>): set<bytes>
    requires nodes != []
    decreases |nodes|
  {
    if |nodes| == 1 then {} else
    LevelMessages(Pad(nodes)) + NodeMessages(s, family, Level(s, family, Pad(nodes)))
  }

  ghost function LevelMessages(padded: seq<bytes>): set<bytes>
    requires |padded| % 2 == 0
  {
    if padded == [] then {} else {NodeMessage(padded[0], padded[1])} + LevelMessages(padded[2..])
  }

  /** Every message hashed by merkle_pair, in both trees. */
  ghost function Messages(s: Suite, records: seq<DigestPair>): set<bytes>
    requires records != []
  {
    (set i | 0 <= i < |records| :: LeafMessage(records[i]))
    + NodeMessages(s, Sha256, Leaves(s, Sha256, records))
    + NodeMessages(s, Shake384, Leaves(s, Shake384, records))
  }

  /** Every message hashed in the perfect tree. */
  ghost function TreeMessages(s: Suite, family: Family, xs: seq<bytes>, d: nat): set<bytes>
    requires |xs| == Pow2(d)
  {
    if d == 0 then {} else
    var l, r := xs[..Pow2(d - 1)], xs[Pow2(d - 1)..];
    {NodeMessage(Perfect(s, family, l, d - 1), Perfect(s, family, r, d - 1))}
    + TreeMessages(s, family, l, d - 1) + TreeMessages(s, family, r, d - 1)
  }

  lemma {:induction false} LevelMessagesConcat(a: seq<bytes>, b: seq<bytes>)
    requires |a| % 2 == 0 && |b| % 2 == 0
    ensures LevelMessages(a + b) == LevelMessages(a) + LevelMessages(b)
  {
    if a == [] {
      assert a + b == b;
    } else {
      assert (a + b)[2..] == a[2..] + b;
      LevelMessagesConcat(a[2..], b);
    }
  }

  lemma TreeMessagesHalves(s: Suite, family: Family, xs: seq<bytes>, d: nat)
    requires d > 0 && |xs| == Pow2(d)
    ensures Pow2(d) == 2 * Pow2(d - 1)
    ensures var l, r := xs[..Pow2(d - 1)], xs[Pow2(d - 1)..];
      TreeMessages(s, family, xs, d)
      == {NodeMessage(Perfect(s, family, l, d - 1), Perfect(s, family, r, d - 1))}
         + TreeMessages(s, family, l, d - 1) + TreeMessages(s, family, r, d - 1)
  {
    hide NodeMessage, Perfect;
  }

  lemma TreeMessagesPair(s: Suite, family: Family, xs: seq<bytes>)
    requires |xs| == 2
    ensures TreeMessages(s, family, xs, 1) == LevelMessages(xs) + TreeMessages(s, family, Level(s, family, xs), 0)
  {
    hide NodeMessage, Node;
    assert xs[2..] == [] && xs[..1] == [xs[0]] && xs[1..] == [xs[1]];
    assert Pow2(1) == 2 && Pow2(0) == 1;
  }

  lemma {:induction false} TreeMessagesLevel(s: Suite, family: Family, xs: seq<bytes>, d: nat)
    requires d > 0 && |xs| == Pow2(d)
    ensures TreeMessages(s, family, xs, d)
         == LevelMessages(xs) + TreeMessages(s, family, Level(s, family, xs), d - 1)
  {
    if d == 1 {
      TreeMessagesPair(s, family, xs);
    } else {
      hide NodeMessage, Node, Perfect, Level, LevelMessages, TreeMessages;
      TreeMessagesHalves(s, family, xs, d);
      var half := Pow2(d - 2);
      var l, r := xs[..2 * half], xs[2 * half..];
      assert xs == l + r;
      TreeMessagesLevel(s, family, l, d - 1);
      TreeMessagesLevel(s, family, r, d - 1);
      LevelMessagesConcat(l, r);
      SplitLevel(s, family, l, r, half);
      TreeMessagesHalves(s, family, Level(s, family, xs), d - 1);
      PerfectLevel(s, family, l, d - 1);
      PerfectLevel(s, family, r, d - 1);
    }
  }

  lemma PadOfTwo(xs: seq<bytes>)
    requires 0 < |xs| <= 2
    ensures Pow2(1) == 2 && Complete(xs, 1) == Pad(xs)
  {
  }

  lemma PadSplit(xs: seq<bytes>, l: seq<bytes>, r: seq<bytes>)
    requires xs == l + r && |l| % 2 == 0 && r != []
    ensures Pad(xs) == l + Pad(r) && |Pad(r)| % 2 == 0
  {
  }

  lemma {:induction false} CompleteMessages(xs: seq<bytes>, d: nat)
    requires d > 0 && 0 < |xs| <= Pow2(d)
    ensures LevelMessages(Complete(xs, d)) == LevelMessages(Pad(xs))
  {
    hide LevelMessages, Pad;
    var half := Pow2(d - 1);
    if d == 1 {
      PadOfTwo(xs);
    } else if |xs| > half {
      var l, r := xs[..half], xs[half..];
      CompleteMessages(r, d - 1);
      LevelMessagesConcat(l, Complete(r, d - 1));
      PadSplit(xs, l, r);
      LevelMessagesConcat(l, Pad(r));
    } else {
      CompleteMessages(xs, d - 1);
      LevelMessagesConcat(Complete(xs, d - 1), Complete(xs, d - 1));
    }
  }

  /** Completing the tree hashes no message the loop does not hash. */
  lemma {:induction false} SameMessages(s: Suite, family: Family, xs: seq<bytes>)
    requires xs != []
    ensures TreeMessages(s, family, Complete(xs, Depth(|xs|)), Depth(|xs|)) == NodeMessages(s, family, xs)
    decreases |xs|
  {
    hide Level, Complete, Perfect, Pow2, LevelMessages, TreeMessages, Pad;
    PadLength(xs);
    if |xs| > 1 {
      var d := Depth(|xs|);
      var up := Level(s, family, Pad(xs));
      SameMessages(s, family, up);
      CompleteLevel(s, family, xs, d);
      TreeMessagesLevel(s, family, Complete(xs, d), d);
      CompleteMessages(xs, d);
    } else {
      NoMessages(s, family, xs);
    }
  }

  lemma PadLength(xs: seq<bytes>)
    requires xs != []
    ensures |Pad(xs)| % 2 == 0 && |Pad(xs)| / 2 == (|xs| + 1) / 2
  {
  }

  lemma NoMessages(s: Suite, family: Family, xs: seq<bytes>)
    requires |xs| == 1
    ensures Pow2(0) == 1
    ensures TreeMessages(s, family, Complete(xs, 0), 0) == {}
  {
  }

  lemma {:induction false} PerfectWide(s: Suite, family: Family, xs: seq<bytes>, d: nat)
    requires |xs| == Pow2(d) && Wide(family, xs)
    ensures |Perfect(s, family, xs, d)| == Width(family)
  {
  }

  /** Equal nodes have equal children. */
  lemma NodeBinds(s: Suite, family: Family, M: set<bytes>, l: bytes, r: bytes, l': bytes, r': bytes)
    requires CollisionFree(s, family, M) && NodeMessage(l, r) in M && NodeMessage(l', r') in M
    requires Node(s, family, l, r) == Node(s, family, l', r') && |l| == |l'|
    ensures l == l' && r == r'
  {
    FramedInjective(DOM_MERKLE_NODE, l + r, DOM_MERKLE_NODE, l' + r');
    assert (l + r)[..|l|] == l && (l' + r')[..|l|] == l' && (l + r)[|l|..] == r && (l' + r')[|l|..] == r';
  }

  lemma {:induction false} TreeBinds(s: Suite, family: Family, M: set<bytes>, xs: seq<bytes>, ys: seq<bytes>, d: nat)
    requires |xs| == |ys| == Pow2(d) && Wide(family, xs) && Wide(family, ys)
    requires CollisionFree(s, family, M)
    requires TreeMessages(s, family, xs, d) <= M && TreeMessages(s, family, ys, d) <= M
    requires Perfect(s, family, xs, d) == Perfect(s, family, ys, d)
    ensures xs == ys
  {
    hide NodeMessage, Node, CollisionFree;
    if d > 0 {
      var h := Pow2(d - 1);
      PerfectWide(s, family, xs[..h], d - 1);
      PerfectWide(s, family, ys[..h], d - 1);
      NodeBinds(s, family, M, Perfect(s, family, xs[..h], d - 1), Perfect(s, family, xs[h..], d - 1),
                Perfect(s, family, ys[..h], d - 1), Perfect(s, family, ys[h..], d - 1));
      TreeBinds(s, family, M, xs[..h], ys[..h], d - 1);
      TreeBinds(s, family, M, xs[h..], ys[h..], d - 1);
      assert xs == xs[..h] + xs[h..] && ys == ys[..h] + ys[h..];
    }
  }

  lemma LeafAndNodeDomainsDiffer()
    ensures DOM_MERKLE_LEAF != DOM_MERKLE_NODE
  {
    assert DOM_MERKLE_LEAF[18] == 'L' as int && DOM_MERKLE_NODE[18] == 'N' as int;
  }

  /** A leaf never hashes like a node, so trees of different depths have different roots. */
  lemma {:induction false} DepthBinds(s: Suite, family: Family, M: set<bytes>, m: bytes,
                                      xs: seq<bytes>, d: nat, ys: seq<bytes>, e: nat)
    requires |xs| == Pow2(d) && |ys| == Pow2(e) && Wide(family, xs) && Wide(family, ys)
    requires CollisionFree(s, family, M) && Framed(DOM_MERKLE_LEAF, m) in M
    requires xs[0] == Hash(s, family, Framed(DOM_MERKLE_LEAF, m))
    requires TreeMessages(s, family, xs, d) <= M && TreeMessages(s, family, ys, e) <= M
    requires Perfect(s, family, xs, d) == Perfect(s, family, ys, e)
    ensures d >= e
  {
    if d < e {
      var k := Pow2(e - 1);
      var l, r := Perfect(s, family, ys[..k], e - 1), Perfect(s, family, ys[k..], e - 1);
      PerfectWide(s, family, ys[..k], e - 1);
      if d == 0 {
        FramedInjective(DOM_MERKLE_LEAF, m, DOM_MERKLE_NODE, l + r);
        LeafAndNodeDomainsDiffer();
      } else {
        var h := Pow2(d - 1);
        hide NodeMessage, Node, CollisionFree, Hash;
        PerfectWide(s, family, xs[..h], d - 1);
        NodeBinds(s, family, M, Perfect(s, family, xs[..h], d - 1), Perfect(s, family, xs[h..], d - 1), l, r);
        DepthBinds(s, family, M, m, xs[..h], d - 1, ys[..k], e - 1);
      }
    }
  }

  lemma {:induction false} CompletePrefix<T>(xs: seq<T>, d: nat)
    requires 0 < |xs| <= Pow2(d)
    ensures Complete(xs, d)[..|xs|] == xs
    ensures forall i | 0 <= i < Pow2(d) :: Complete(xs, d)[i] in xs
  {
    if d > 0 {
      var h := Pow2(d - 1);
      if |xs| > h {
        CompletePrefix(xs[h..], d - 1);
        assert xs == xs[..h] + xs[h..];
      } else {
        CompletePrefix(xs, d - 1);
      }
    }
  }

  lemma LeavesConcat(s: Suite, family: Family, a: seq<DigestPair>, b: seq<DigestPair>)
    ensures Leaves(s, family, a + b) == Leaves(s, family, a) + Leaves(s, family, b)
  {
    hide LeafMessage;
  }

  lemma {:induction false} CompleteLeaves(s: Suite, family: Family, xs: seq<DigestPair>, d: nat)
    requires 0 < |xs| <= Pow2(d)
    ensures Complete(Leaves(s, family, xs), d) == Leaves(s, family, Complete(xs, d))
  {
    hide LeafMessage, Leaves;
    if d > 0 {
      var h := Pow2(d - 1);
      if |xs| > h {
        assert xs == xs[..h] + xs[h..];
        LeavesConcat(s, family, xs[..h], xs[h..]);
        CompleteLeaves(s, family, xs[h..], d - 1);
        LeavesConcat(s, family, xs[..h], Complete(xs[h..], d - 1));
        var ls := Leaves(s, family, xs);
        assert ls[..h] == Leaves(s, family, xs[..h]) && ls[h..] == Leaves(s, family, xs[h..]);
      } else {
        CompleteLeaves(s, family, xs, d - 1);
        LeavesConcat(s, family, Complete(xs, d - 1), Complete(xs, d - 1));
      }
    }
  }

  lemma {:induction false} Pow2Injective(d: nat, e: nat)
    requires Pow2(d) == Pow2(e)
    ensures d == e
  {
    if d > 0 && e > 0 { Pow2Injective(d - 1, e - 1); }
  }

  /** The leaves a list of records stands for once the tree is completed. */
  function Completed(records: seq<DigestPair>): seq<DigestPair>
    requires records != []
  {
    Complete(records, Depth(|records|))
  }

  lemma LeafBinds(s: Suite, family: Family, M: set<bytes>, p: DigestPair, q: DigestPair)
    requires CollisionFree(s, family, M) && LeafMessage(p) in M && LeafMessage(q) in M
    requires Hash(s, family, LeafMessage(p)) == Hash(s, family, LeafMessage(q))
    ensures p == q
  {
    PairObjEncodes(p);
    PairObjEncodes(q);
    FramedInjective(DOM_MERKLE_LEAF, Dumps(PairObj(p)).value, DOM_MERKLE_LEAF, Dumps(PairObj(q)).value);
    PairObjPlain(p);
    PairObjPlain(q);
    EncodingBinds(PairObj(p), PairObj(q));
    PairObjInjective(p, q);
  }

  /** What one family's root says about the records, when that family has no collisions. */
  lemma FamilyBinds(s: Suite, family: Family, M: set<bytes>, a: seq<DigestPair>, b: seq<DigestPair>)
    requires a != [] && b != [] && CollisionFree(s, family, M)
    requires forall p | p in a || p in b :: LeafMessage(p) in M
    requires NodeMessages(s, family, Leaves(s, family, a)) <= M && NodeMessages(s, family, Leaves(s, family, b)) <= M
    requires Reduce(s, family, Leaves(s, family, a)) == Reduce(s, family, Leaves(s, family, b))
    ensures Completed(a) == Completed(b)
  {
    hide Complete, Perfect, TreeMessages, NodeMessages, Reduce, LeafMessage, CollisionFree, Depth;
    var d, e := Depth(|a|), Depth(|b|);
    var la, lb := Leaves(s, family, a), Leaves(s, family, b);
    ReduceIsTree(s, family, la);
    ReduceIsTree(s, family, lb);
    SameMessages(s, family, la);
    SameMessages(s, family, lb);
    CompleteLeaves(s, family, a, d);
    CompleteLeaves(s, family, b, e);
    CompletePrefix(a, d);
    CompletePrefix(b, e);
    var ca, cb := Complete(la, d), Complete(lb, e);
    LeafOf(s, family, Complete(a, d));
    LeafOf(s, family, Complete(b, e));
    DepthBinds(s, family, M, Dumps(PairObj(Complete(a, d)[0])).value, ca, d, cb, e);
    DepthBinds(s, family, M, Dumps(PairObj(Complete(b, e)[0])).value, cb, e, ca, d);
    TreeBinds(s, family, M, ca, cb, d);
    forall i | 0 <= i < Pow2(d) ensures Complete(a, d)[i] == Complete(b, d)[i] {
      assert ca[i] == cb[i];
      LeafBinds(s, family, M, Complete(a, d)[i], Complete(b, d)[i]);
    }
  }

  lemma LeafOf(s: Suite, family: Family, xs: seq<DigestPair>)
    requires xs != []
    ensures Dumps(PairObj(xs[0])).Ok?
    ensures LeafMessage(xs[0]) == Framed(DOM_MERKLE_LEAF, Dumps(PairObj(xs[0])).value)
    ensures Wide(family, Leaves(s, family, xs))
  {
    PairObjEncodes(xs[0]);
  }

  /** The root pair determines the completed leaf list, and nothing more: with at least one family free
      of collisions, two record lists have the same root exactly when they complete to the same
      leaves. */
  lemma MerkleBinding(s: Suite, a: seq<DigestPair>, b: seq<DigestPair>)
    requires a != [] && b != [] && OneFamilyHolds(s, Messages(s, a) + Messages(s, b))
    ensures MerkleRoot(s, a) == MerkleRoot(s, b) <==> Completed(a) == Completed(b)
  {
    hide Complete, Perfect, NodeMessages, Reduce, LeafMessage, CollisionFree, Depth;
    var M := Messages(s, a) + Messages(s, b);
    if MerkleRoot(s, a) == MerkleRoot(s, b) {
      forall p | p in a || p in b ensures LeafMessage(p) in M {
        if p in a { var i :| 0 <= i < |a| && a[i] == p; } else { var i :| 0 <= i < |b| && b[i] == p; }
      }
      FamilyBinds(s, if CollisionFree(s, Sha256, M) then Sha256 else Shake384, M, a, b);
    }
    if Completed(a) == Completed(b) {
      SameCompletionSameRoot(s, Sha256, a, b);
      SameCompletionSameRoot(s, Shake384, a, b);
    }
  }

  lemma SameCompletionSameRoot(s: Suite, family: Family, a: seq<DigestPair>, b: seq<DigestPair>)
    requires a != [] && b != [] && Completed(a) == Completed(b)
    ensures Reduce(s, family, Leaves(s, family, a)) == Reduce(s, family, Leaves(s, family, b))
  {
    hide Complete, Perfect, Reduce, LeafMessage, Depth;
    Pow2Injective(Depth(|a|), Depth(|b|));
    ReduceIsTree(s, family, Leaves(s, family, a));
    ReduceIsTree(s, family, Leaves(s, family, b));
    CompleteLeaves(s, family, a, Depth(|a|));
    CompleteLeaves(s, family, b, Depth(|b|));
  }

  /** For lists of the same length the root pair determines the records. */
  lemma MerkleBindsEqualLengths(s: Suite, a: seq<DigestPair>, b: seq<DigestPair>)
    requires |a| == |b| > 0 && OneFamilyHolds(s, Messages(s, a) + Messages(s, b))
    requires MerkleRoot(s, a) == MerkleRoot(s, b)
    ensures a == b
  {
    hide Messages, MerkleRoot;
    MerkleBinding(s, a, b);
    CompletePrefix(a, Depth(|a|));
    CompletePrefix(b, Depth(|b|));
  }

  /** For different lengths it does not, whatever the hash functions: three records and the same three
      with the last one repeated have one root. */
  lemma RepeatedLastLeaf(s: Suite, x: DigestPair, y: DigestPair, z: DigestPair)
    ensures MerkleRoot(s, [x, y, z]) == MerkleRoot(s, [x, y, z, z])
  {
    assert Depth(3) == 2 && Depth(4) == 2 && Pow2(1) == 2;
    var a, b := [x, y, z], [x, y, z, z];
    assert Complete([z], 1) == [z, z] && Complete([z, z], 1) == [z, z];
    assert a[2..] == [z] && b[2..] == [z, z];
    assert Completed(a) == Completed(b);
    SameCompletionSameRoot(s, Sha256, a, b);
    SameCompletionSameRoot(s, Shake384, a, b);
  }
}
