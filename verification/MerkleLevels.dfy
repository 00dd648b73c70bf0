/** The Merkle roots, level by level on the two hashes (ctp/merkle.py). */
module MerkleLevels {
  import opened Wrappers
  import opened Bytes
  import opened Sorting
  import opened Cbor
  import opened HashSuite
  import opened Records
  import opened Merkle

  /** Position i of a level hashes positions 2i and 2i + 1 of the level below; where there is no second, the
      first is taken twice. */
  ghost predicate IsParent(s: Suite, family: Family, nodes: seq<bytes>, i: nat, h: bytes) {
    && 2 * i < |nodes|
    && h == Hash(s, family, DOM_MERKLE_NODE + [0] + nodes[2 * i] + nodes[Min(2 * i + 1, |nodes| - 1)])
  }

  ghost predicate IsLevelAbove(s: Suite, family: Family, nodes: seq<bytes>, up: seq<bytes>) {
    |up| == (|nodes| + 1) / 2 && forall i | 0 <= i < |up| :: IsParent(s, family, nodes, i, up[i])
  }

  /** Level upon level, up to one of a single node. */
  ghost predicate IsTower(s: Suite, family: Family, levels: seq<seq<bytes>>) {
    && levels != [] && |levels[|levels| - 1]| == 1
    && forall k | 0 <= k < |levels| - 1 :: |levels[k]| > 1 && IsLevelAbove(s, family, levels[k], levels[k + 1])
  }

  ghost predicate HasRoot(s: Suite, family: Family, leaves: seq<bytes>, root: bytes) {
    exists levels :: IsTower(s, family, levels) && levels[0] == leaves && levels[|levels| - 1][0] == root
  }

  lemma {:induction false} LevelAt(s: Suite, family: Family, padded: seq<bytes>, i: nat)
    requires |padded| % 2 == 0 && i < |padded| / 2
    ensures Level(s, family, padded)[i] == Node(s, family, padded[2 * i], padded[2 * i + 1])
    decreases padded
  {
    hide Node;
    if i > 0 { LevelAt(s, family, padded[2..], i - 1); }
  }

  lemma LevelIff(s: Suite, family: Family, nodes: seq<bytes>, up: seq<bytes>)
    requires |nodes| > 1
    ensures up == Level(s, family, Pad(nodes)) <==> IsLevelAbove(s, family, nodes, up)
  {
    hide Level, Hash, Ascii;
    var padded := Pad(nodes);
    forall i: nat | i < (|nodes| + 1) / 2
      ensures forall h :: h == Level(s, family, padded)[i] <==> IsParent(s, family, nodes, i, h)
    {
      LevelAt(s, family, padded, i);
      var l, r := nodes[2 * i], nodes[Min(2 * i + 1, |nodes| - 1)];
      assert padded[2 * i] == l && padded[2 * i + 1] == r;
      assert NodeMessage(l, r) == DOM_MERKLE_NODE + [0] + l + r;
    }
  }

  lemma {:induction false} RootIff(s: Suite, family: Family, leaves: seq<bytes>, root: bytes)
    requires leaves != []
    ensures Reduce(s, family, leaves) == root <==> HasRoot(s, family, leaves, root)
    decreases |leaves|
  {
    hide Level, IsLevelAbove, Pad;
    if |leaves| == 1 {
      assert IsTower(s, family, [leaves]);
    } else {
      PadLength(leaves);
      var up := Level(s, family, Pad(leaves));
      LevelIff(s, family, leaves, up);
      RootIff(s, family, up, root);
      if levels :| IsTower(s, family, levels) && levels[0] == up && levels[|levels| - 1][0] == root {
        TowerGrows(s, family, leaves, levels);
        assert ([leaves] + levels)[|levels|] == levels[|levels| - 1];
      }
      if levels :| IsTower(s, family, levels) && levels[0] == leaves && levels[|levels| - 1][0] == root {
        TowerShrinks(s, family, levels);
        LevelIff(s, family, leaves, levels[1]);
        assert levels[1..][|levels| - 2] == levels[|levels| - 1];
      }
    }
  }

  lemma TowerGrows(s: Suite, family: Family, nodes: seq<bytes>, levels: seq<seq<bytes>>)
    requires IsTower(s, family, levels) && |nodes| > 1 && IsLevelAbove(s, family, nodes, levels[0])
    ensures IsTower(s, family, [nodes] + levels)
  {
    hide IsLevelAbove;
    var all := [nodes] + levels;
    assert all[|all| - 1] == levels[|levels| - 1];
    forall k | 0 <= k < |all| - 1 ensures |all[k]| > 1 && IsLevelAbove(s, family, all[k], all[k + 1]) {
      if k > 0 { assert |levels[k - 1]| > 1 && IsLevelAbove(s, family, levels[k - 1], levels[k - 1 + 1]); }
    }
  }

  lemma TowerShrinks(s: Suite, family: Family, levels: seq<seq<bytes>>)
    requires IsTower(s, family, levels) && |levels[0]| > 1
    ensures |levels| > 1 && IsLevelAbove(s, family, levels[0], levels[1]) && IsTower(s, family, levels[1..])
  {
    hide IsLevelAbove;
    assert |levels[0]| > 1 && IsLevelAbove(s, family, levels[0], levels[0 + 1]);
    var rest := levels[1..];
    forall k | 0 <= k < |rest| - 1 ensures |rest[k]| > 1 && IsLevelAbove(s, family, rest[k], rest[k + 1]) {
      assert |levels[k + 1]| > 1 && IsLevelAbove(s, family, levels[k + 1], levels[k + 1 + 1]);
    }
  }

  // ---- leaves ----

  /** A leaf hashes the encoded pair {1: SHA-256 digest, 2: SHAKE digest}. */
  ghost predicate AreLeaves(s: Suite, family: Family, records: seq<DigestPair>, leaves: seq<bytes>) {
    && |leaves| == |records|
    && forall i | 0 <= i < |records| ::
         leaves[i] == Hash(s, family, DOM_MERKLE_LEAF + [0] + ([0xa2, 0x01, 0x58, 0x20] + records[i].sha256
                                                               + [0x02, 0x58, 0x30] + records[i].shake384))
  }

  /** A small key and a byte string as the encoder writes them. */
  lemma EntryBytes(k: nat, b: bytes)
    requires k < 24 && 24 <= |b| < 0x100
    ensures DumpsEntry(Entry(Int(k), Blob(b))) == Ok(([k], [0x58, |b|] + b))
  {
    assert Head(0, k) == Ok([k]) && Head(2, |b|) == Ok([0x58, |b|]);
    assert Dumps(Blob(b)) == DumpsAtom(Raw(b));
  }

  lemma TwoEntries(x: Entry, y: Entry)
    requires DumpsEntry(x).Ok? && DumpsEntry(y).Ok?
    ensures DumpsEntries([x, y]) == Ok([DumpsEntry(x).value, DumpsEntry(y).value])
  {
    hide DumpsEntry;
    var none: seq<Entry> := [];
    assert [x, y][1..] == [y] && [y][1..] == none;
    var a, b := DumpsEntry(x).value, DumpsEntry(y).value;
    assert DumpsEntries(none) == Ok([]);
    assert [b] + [] == [b] && [a] + [b] == [a, b];
    assert DumpsEntries([y][1..]) == Ok([]);
    assert DumpsEntries([y]) == Ok([b]);
  }

  lemma TwoSorted(a: (bytes, bytes), b: (bytes, bytes))
    requires a.0 == [1] && b.0 == [2]
    ensures Join(Sort(PairLeq, [a, b])) == a.0 + a.1 + (b.0 + b.1)
  {
    hide LexLeq;
    SmallKeys(1, 2);
    SortOfSorted(PairLeq, [a, b]);
    var none: seq<(bytes, bytes)> := [];
    assert [a, b][1..] == [b] && [b][1..] == none;
    assert Join([b]) == b.0 + b.1 + Join(none) == b.0 + b.1;
  }

  lemma PairBytes(p: DigestPair)
    ensures Dumps(PairObj(p)) == Ok([0xa2, 0x01, 0x58, 0x20] + p.sha256 + [0x02, 0x58, 0x30] + p.shake384)
  {
    hide DumpsEntry, DumpsEntries, Sort, Join, Head;
    var x, y := Entry(Int(1), Blob(p.sha256)), Entry(Int(2), Blob(p.shake384));
    TwoFields(Blob(p.sha256), Blob(p.shake384));
    EntryBytes(1, p.sha256);
    EntryBytes(2, p.shake384);
    TwoEntries(x, y);
    var a: (bytes, bytes), b: (bytes, bytes) := ([1], [0x58, 0x20] + p.sha256), ([2], [0x58, 0x30] + p.shake384);
    TwoSorted(a, b);
    HeadOfTwo();
    assert [0xa2] + (a.0 + a.1 + (b.0 + b.1))
        == [0xa2, 0x01, 0x58, 0x20] + p.sha256 + [0x02, 0x58, 0x30] + p.shake384;
  }

  lemma TwoFields(v: Value, w: Value)
    ensures Record([v, w]) == Dict([Entry(Int(1), v), Entry(Int(2), w)])
  {
    hide Fields;
    assert Fields([v, w], 1) == [Entry(Int(1), v), Entry(Int(2), w)];
  }

  lemma HeadOfTwo()
    ensures Head(5, 2) == Ok([0xa2])
  {
  }

  lemma LeavesIff(s: Suite, family: Family, records: seq<DigestPair>, leaves: seq<bytes>)
    ensures leaves == Leaves(s, family, records) <==> AreLeaves(s, family, records, leaves)
  {
    hide Hash, Dumps, PairObj, Ascii;
    forall i | 0 <= i < |records|
      ensures LeafMessage(records[i])
           == DOM_MERKLE_LEAF + [0] + ([0xa2, 0x01, 0x58, 0x20] + records[i].sha256
                                       + [0x02, 0x58, 0x30] + records[i].shake384)
    {
      PairBytes(records[i]);
    }
  }

  /** The dual root is, for each hash on its own, the top of the tower over the leaves; without records there is
      none. */
  lemma MerkleIff(s: Suite, records: seq<DigestPair>, root: DigestPair)
    ensures MerklePair(s, records) == Ok(root) <==>
              && records != []
              && (exists ls :: AreLeaves(s, Sha256, records, ls) && HasRoot(s, Sha256, ls, root.sha256))
              && (exists ls :: AreLeaves(s, Shake384, records, ls) && HasRoot(s, Shake384, ls, root.shake384))
  {
    hide Reduce, Leaves, HasRoot, AreLeaves;
    if records != [] {
      OneFamily(s, Sha256, records, root.sha256);
      OneFamily(s, Shake384, records, root.shake384);
    }
  }

  lemma OneFamily(s: Suite, family: Family, records: seq<DigestPair>, root: bytes)
    requires records != []
    ensures Reduce(s, family, Leaves(s, family, records)) == root
       <==> exists leaves :: AreLeaves(s, family, records, leaves) && HasRoot(s, family, leaves, root)
  {
    hide Reduce, HasRoot, AreLeaves;
    LeavesIff(s, family, records, Leaves(s, family, records));
    RootIff(s, family, Leaves(s, family, records), root);
    forall leaves | AreLeaves(s, family, records, leaves) ensures leaves == Leaves(s, family, records) {
      LeavesIff(s, family, records, leaves);
    }
  }
}
