/** What an OpenTimestamps proof says: every attestation it holds commits to the file digest
    with the operations on its path applied in order (ctp/ots.py). */
module OtsProofs {
  import opened Wrappers
  import opened Bytes
  import opened Ots

  // ---- proof trees ----

  /** A timestamp is a non-empty list of steps; every step but the last is announced by a fork byte. */
  datatype Tree = Last(step: Node) | Fork(step: Node, rest: Tree)

  /** A step is an attestation, or an operation with the timestamp of its result. */
  datatype Node = Leaf(tag: bytes, payload: bytes) | Op(op: Operation, sub: Tree)

  datatype Operation = Operation(code: byte, arg: bytes)

  /** An attestation and the operations that lead to it, outermost first. */
  datatype Path = Path(ops: seq<Operation>, tag: bytes, payload: bytes)

  function Under(op: Operation, paths: seq<Path>): (r: seq<Path>)
    ensures |r| == |paths|
  {
    if paths == [] then [] else
    [paths[0].(ops := [op] + paths[0].ops)] + Under(op, paths[1..])
  }

  /** The attestations of a tree, depth first. */
  function Paths(t: Tree): (r: seq<Path>)
    ensures r != []
  {
    match t
    case Last(s) => NodePaths(s)
    case Fork(s, rest) => NodePaths(s) + Paths(rest)
  }

  function NodePaths(n: Node): (r: seq<Path>)
    ensures r != []
  {
    match n
    case Leaf(tag, payload) => [Path([], tag, payload)]
    case Op(op, sub) => Under(op, Paths(sub))
  }

  /** The operations applied one after the other. */
  function ApplyAll(h: Hashes, ops: seq<Operation>, msg: bytes): Result<bytes> {
    if ops == [] then Ok(msg) else
    var next :- Apply(h, ops[0].code, msg, ops[0].arg);
    ApplyAll(h, ops[1..], next)
  }

  function Attested(h: Hashes, p: Path, msg: bytes): Result<Attestation> {
    var m :- ApplyAll(h, p.ops, msg);
    Attest(p.tag, p.payload, m)
  }

  /** What a list of attestations means for a digest: raised if any of them does. */
  function Meaning(h: Hashes, paths: seq<Path>, msg: bytes): Result<seq<Attestation>> {
    if paths == [] then Ok([]) else
    var a :- Attested(h, paths[0], msg);
    var rest :- Meaning(h, paths[1..], msg);
    Ok([a] + rest)
  }

  lemma {:induction false} MeaningConcat(h: Hashes, a: seq<Path>, b: seq<Path>, msg: bytes)
    ensures var ma, mb := Meaning(h, a, msg), Meaning(h, b, msg);
            Meaning(h, a + b, msg) == if ma.Ok? && mb.Ok? then Ok(ma.value + mb.value) else Raised
  {
    hide Attested;
    if a == [] {
      assert a + b == b;
      if Meaning(h, b, msg).Ok? {
        assert [] + Meaning(h, b, msg).value == Meaning(h, b, msg).value;
      }
    } else {
      MeaningConcat(h, a[1..], b, msg);
      assert (a + b)[1..] == a[1..] + b;
      if Meaning(h, a, msg).Ok? && Meaning(h, b, msg).Ok? {
        var first, rest := Attested(h, a[0], msg).value, Meaning(h, a[1..], msg).value;
        assert [first] + (rest + Meaning(h, b, msg).value) == [first] + rest + Meaning(h, b, msg).value;
      }
    }
  }

  lemma AttestedUnder(h: Hashes, op: Operation, p: Path, msg: bytes)
    ensures Attested(h, p.(ops := [op] + p.ops), msg)
         == match Apply(h, op.code, msg, op.arg) case Raised => Raised case Ok(m) => Attested(h, p, m)
  {
    hide Apply, Attest;
    assert ([op] + p.ops)[1..] == p.ops;
  }

  lemma {:induction false} MeaningUnder(h: Hashes, op: Operation, paths: seq<Path>, msg: bytes)
    requires paths != []
    ensures Meaning(h, Under(op, paths), msg)
         == match Apply(h, op.code, msg, op.arg) case Raised => Raised case Ok(m) => Meaning(h, paths, m)
  {
    hide Apply, Attested;
    AttestedUnder(h, op, paths[0], msg);
    assert Under(op, paths)[1..] == Under(op, paths[1..]);
    if paths[1..] != [] { MeaningUnder(h, op, paths[1..], msg); }
  }

  /** The k-th attestation is the one at the end of the k-th path, on the message that path gives. */
  lemma {:induction false} MeaningAt(h: Hashes, paths: seq<Path>, msg: bytes, k: nat)
    requires k < |paths| && Meaning(h, paths, msg).Ok?
    ensures |Meaning(h, paths, msg).value| == |paths|
    ensures var a := Meaning(h, paths, msg).value[k];
            && ApplyAll(h, paths[k].ops, msg) == Ok(a.message)
            && Attest(paths[k].tag, paths[k].payload, a.message) == Ok(a)
  {
    if k > 0 {
      MeaningAt(h, paths[1..], msg, k - 1);
    } else if |paths| > 1 {
      MeaningAt(h, paths[1..], msg, 0);
    }
  }

  // ---- the tree a file holds ----

  /** The tree at position i, read without looking at any message. */
  function ReadTree(d: bytes, i: nat, depth: nat): (r: Result<(Tree, nat)>)
    ensures r.Ok? ==> i < r.value.1 <= |d|
    decreases |d| - i, 0
  {
    if depth > MAX_DEPTH || i >= |d| then Raised else ReadBranches(d, i + 1, d[i], depth)
  }

  function ReadBranches(d: bytes, i: nat, code: byte, depth: nat): (r: Result<(Tree, nat)>)
    ensures r.Ok? ==> i < r.value.1 <= |d|
    decreases |d| - i, 2
  {
    if code != FORK then
      var (s, j) :- ReadNode(d, i, code, depth + 1);
      Ok((Last(s), j))
    else
      var (c, i1) :- ReadByte(d, i);
      var (s, i2) :- ReadNode(d, i1, c, depth + 1);
      var (c', i3) :- ReadByte(d, i2);
      var (rest, i4) :- ReadBranches(d, i3, c', depth);
      Ok((Fork(s, rest), i4))
  }

  function ReadNode(d: bytes, i: nat, code: byte, depth: nat): (r: Result<(Node, nat)>)
    ensures r.Ok? ==> i < r.value.1 <= |d|
    decreases |d| - i, 1
  {
    if code == 0 then
      var (tag, j) :- Take(d, i, 8);
      var (payload, k) :- Varbytes(d, j);
      Ok((Leaf(tag, payload), k))
    else
      var (arg, j) :- Argument(d, i, code);
      var (sub, k) :- ReadTree(d, j, depth);
      Ok((Op(Operation(code, arg), sub), k))
  }

  function TreeFound(h: Hashes, r: Result<(Tree, nat)>, msg: bytes): Found {
    var (t, j) :- r;
    var found :- Meaning(h, Paths(t), msg);
    Ok((found, j))
  }

  function NodeFound(h: Hashes, r: Result<(Node, nat)>, msg: bytes): Found {
    var (n, j) :- r;
    var found :- Meaning(h, NodePaths(n), msg);
    Ok((found, j))
  }

  /** The reader finds exactly the meaning of the tree the bytes hold, and fails exactly when
      the bytes hold no tree or the tree has no meaning. */
  lemma {:induction false} TimestampMeans(h: Hashes, d: bytes, i: nat, msg: bytes, depth: nat)
    ensures Timestamp(h, d, i, msg, depth) == TreeFound(h, ReadTree(d, i, depth), msg)
    decreases |d| - i, 0
  {
    hide Branches, ReadBranches, TreeFound;
    if depth > MAX_DEPTH || i >= |d| {
      NothingFound(h, msg);
    } else {
      BranchesMean(h, d, i + 1, d[i], msg, depth);
    }
  }

  lemma NothingFound(h: Hashes, msg: bytes)
    ensures TreeFound(h, Raised, msg).Raised? && NodeFound(h, Raised, msg).Raised?
  {
  }

  lemma {:induction false} BranchesMean(h: Hashes, d: bytes, i: nat, code: byte, msg: bytes, depth: nat)
    ensures Branches(h, d, i, code, msg, depth) == TreeFound(h, ReadBranches(d, i, code, depth), msg)
    decreases |d| - i, 2
  {
    hide Step, ReadNode, TreeFound, NodeFound, ReadByte;
    NothingFound(h, msg);
    if code != FORK {
      StepMeans(h, d, i, code, msg, depth + 1);
      LastFound(h, ReadNode(d, i, code, depth + 1), msg);
    } else {
      var b := ReadByte(d, i);
      if b.Ok? {
        StepMeans(h, d, b.value.1, b.value.0, msg, depth + 1);
        var first := ReadNode(d, b.value.1, b.value.0, depth + 1);
        NodeFoundAt(h, first, msg);
        if first.Ok? {
          var b' := ReadByte(d, first.value.1);
          if b'.Ok? {
            BranchesMean(h, d, b'.value.1, b'.value.0, msg, depth);
            var rest := ReadBranches(d, b'.value.1, b'.value.0, depth);
            ForkFound(h, first.value.0, first.value.1, rest, msg);
          }
        }
      }
    }
  }

  lemma NodeFoundAt(h: Hashes, r: Result<(Node, nat)>, msg: bytes)
    ensures NodeFound(h, r, msg).Ok? ==> r.Ok? && NodeFound(h, r, msg).value.1 == r.value.1
  {
  }

  lemma LastFound(h: Hashes, r: Result<(Node, nat)>, msg: bytes)
    ensures r.Raised? ==> NodeFound(h, r, msg).Raised?
    ensures r.Ok? ==> NodeFound(h, r, msg) == TreeFound(h, Ok((Last(r.value.0), r.value.1)), msg)
  {
  }

  lemma ForkFound(h: Hashes, n: Node, j: nat, r: Result<(Tree, nat)>, msg: bytes)
    ensures var first, rest := NodeFound(h, Ok((n, j)), msg), TreeFound(h, r, msg);
            if r.Raised? then rest.Raised? else
            TreeFound(h, Ok((Fork(n, r.value.0), r.value.1)), msg)
            == if first.Ok? && rest.Ok? then Ok((first.value.0 + rest.value.0, rest.value.1)) else Raised
  {
    hide NodePaths, Meaning;
    if r.Ok? { MeaningConcat(h, NodePaths(n), Paths(r.value.0), msg); }
  }

  lemma {:induction false} StepMeans(h: Hashes, d: bytes, i: nat, code: byte, msg: bytes, depth: nat)
    ensures Step(h, d, i, code, msg, depth) == NodeFound(h, ReadNode(d, i, code, depth), msg)
    decreases |d| - i, 1
  {
    hide Timestamp, ReadTree, NodeFound, Apply;
    if code == 0 {
      LeafFound(h, d, i, msg, depth);
    } else {
      NothingFound(h, msg);
      var a := Argument(d, i, code);
      if a.Ok? {
        var next := Apply(h, code, msg, a.value.0);
        OpFound(h, Operation(code, a.value.0), ReadTree(d, a.value.1, depth), msg);
        if next.Ok? { TimestampMeans(h, d, a.value.1, next.value, depth); }
      }
    }
  }

  lemma LeafFound(h: Hashes, d: bytes, i: nat, msg: bytes, depth: nat)
    ensures Step(h, d, i, 0, msg, depth) == NodeFound(h, ReadNode(d, i, 0, depth), msg)
  {
    hide Attest, Take, Varbytes, NodePaths, Meaning;
    var t := Take(d, i, 8);
    if t.Ok? {
      var p := Varbytes(d, t.value.1);
      if p.Ok? { LeafMeans(h, t.value.0, p.value.0, msg); }
    }
  }

  lemma LeafMeans(h: Hashes, tag: bytes, payload: bytes, msg: bytes)
    ensures Meaning(h, NodePaths(Leaf(tag, payload)), msg)
         == match Attest(tag, payload, msg) case Raised => Raised case Ok(a) => Ok([a])
  {
    hide Attest;
    var p := Path([], tag, payload);
    assert NodePaths(Leaf(tag, payload)) == [p] && [p][1..] == [];
    assert Meaning(h, [p][1..], msg) == Ok([]);
    assert forall a: Attestation :: [a] + [] == [a];
  }

  lemma OpFound(h: Hashes, op: Operation, r: Result<(Tree, nat)>, msg: bytes)
    ensures r.Raised? ==> forall m :: TreeFound(h, r, m).Raised?
    ensures r.Raised? || NodeFound(h, Ok((Op(op, r.value.0), r.value.1)), msg) ==
              match Apply(h, op.code, msg, op.arg) case Raised => Raised case Ok(m) => TreeFound(h, r, m)
  {
    hide Paths, Meaning, Apply;
    if r.Ok? { MeaningUnder(h, op, Paths(r.value.0), msg); }
  }

  /** No tree deeper than the limit is ever read. */
  lemma {:induction false} TreeIsShallow(d: bytes, i: nat, depth: nat)
    requires ReadTree(d, i, depth).Ok?
    ensures depth + Height(ReadTree(d, i, depth).value.0) <= MAX_DEPTH
    decreases |d| - i, 0
  {
    BranchesAreShallow(d, i + 1, d[i], depth);
  }

  lemma {:induction false} BranchesAreShallow(d: bytes, i: nat, code: byte, depth: nat)
    requires depth <= MAX_DEPTH && ReadBranches(d, i, code, depth).Ok?
    ensures depth + Height(ReadBranches(d, i, code, depth).value.0) <= MAX_DEPTH
    decreases |d| - i, 2
  {
    hide ReadNode, NodeHeight;
    if code != FORK {
      NodeIsShallow(d, i, code, depth);
    } else {
      NodeIsShallow(d, i + 1, d[i], depth);
      var (_, j) := ReadNode(d, i + 1, d[i], depth + 1).value;
      BranchesAreShallow(d, j + 1, d[j], depth);
    }
  }

  lemma {:induction false} NodeIsShallow(d: bytes, i: nat, code: byte, depth: nat)
    requires depth <= MAX_DEPTH && ReadNode(d, i, code, depth + 1).Ok?
    ensures depth + NodeHeight(ReadNode(d, i, code, depth + 1).value.0) <= MAX_DEPTH
    decreases |d| - i, 1
  {
    hide ReadTree;
    if code != 0 {
      TreeIsShallow(d, Argument(d, i, code).value.1, depth + 1);
    }
  }

  /** An accepted file holds a tree, and its attestations are those of the tree in depth-first
      order, each on the file digest with the operations of its path applied in order. */
  lemma ParseMeans(h: Hashes, data: bytes) returns (t: Tree, start: nat, end: nat)
    requires Parse(h, data).Ok?
    ensures ReadTree(data, start, 0) == Ok((t, end)) && Height(t) <= 256
    ensures var p := Parse(h, data).value;
            && At(data, 0, MAGIC) && start >= |p.fileDigest| && At(data, start - |p.fileDigest|, p.fileDigest)
            && |p.fileDigest| == DigestLength(p.fileHashOp) > 0
            && |p.attestations| == |Paths(t)|
            && forall k | 0 <= k < |Paths(t)| ::
                 && ApplyAll(h, Paths(t)[k].ops, p.fileDigest) == Ok(p.attestations[k].message)
                 && Attest(Paths(t)[k].tag, Paths(t)[k].payload, p.attestations[k].message) == Ok(p.attestations[k])
  {
    hide Timestamp, ReadTree, Paths, Meaning, ApplyAll, Attest, Varuint;
    var p := Parse(h, data).value;
    var (_, i1) := Varuint(data, |MAGIC|).value;
    start := i1 + 1 + |p.fileDigest|;
    TimestampMeans(h, data, start, p.fileDigest, 0);
    t, end := ReadTree(data, start, 0).value.0, ReadTree(data, start, 0).value.1;
    TreeIsShallow(data, start, 0);
    MeaningAt(h, Paths(t), p.fileDigest, 0);
    forall k | 0 <= k < |Paths(t)|
      ensures ApplyAll(h, Paths(t)[k].ops, p.fileDigest) == Ok(p.attestations[k].message)
      ensures Attest(Paths(t)[k].tag, Paths(t)[k].payload, p.attestations[k].message) == Ok(p.attestations[k])
    {
      MeaningAt(h, Paths(t), p.fileDigest, k);
    }
  }

  // ---- serialising a tree ----

  function VaruintBytes(n: nat): bytes {
    if n < 128 then [n] else [128 + n % 128] + VaruintBytes(n / 128)
  }

  function VarbytesOf(b: bytes): bytes {
    VaruintBytes(|b|) + b
  }

  function Write(t: Tree): (b: bytes)
    ensures b != []
  {
    match t
    case Last(s) => WriteNode(s)
    case Fork(s, rest) => [FORK] + WriteNode(s) + Write(rest)
  }

  function WriteNode(n: Node): (b: bytes)
    ensures b != []
  {
    match n
    case Leaf(tag, payload) => [0] + tag + VarbytesOf(payload)
    case Op(op, sub) => [op.code] + (if TakesArgument(op.code) then VarbytesOf(op.arg) else []) + Write(sub)
  }

  /** The trees the format can hold: eight-byte tags, codes apart from the two markers, and an
      argument only where the operation has one. */
  predicate WellFormed(t: Tree) {
    match t
    case Last(s) => WellFormedNode(s)
    case Fork(s, rest) => WellFormedNode(s) && WellFormed(rest)
  }

  predicate WellFormedNode(n: Node) {
    match n
    case Leaf(tag, _) => |tag| == 8
    case Op(op, sub) =>
      op.code != 0 && op.code != FORK && (TakesArgument(op.code) || op.arg == []) && WellFormed(sub)
  }

  /** The longest path. */
  function Height(t: Tree): nat {
    match t
    case Last(s) => NodeHeight(s)
    case Fork(s, rest) => if NodeHeight(s) >= Height(rest) then NodeHeight(s) else Height(rest)
  }

  function NodeHeight(n: Node): nat {
    match n
    case Leaf(_, _) => 0
    case Op(_, sub) => 1 + Height(sub)
  }

  lemma {:induction false} VaruintReadsBack(d: bytes, i: nat, n: nat)
    requires At(d, i, VaruintBytes(n))
    ensures Varuint(d, i) == Ok((n, i + |VaruintBytes(n)|))
    decreases n
  {
    var b := VaruintBytes(n);
    assert d[i] == d[i..i + |b|][0] == b[0];
    if n >= 128 {
      AtConcat(d, i, [128 + n % 128], VaruintBytes(n / 128));
      VaruintReadsBack(d, i + 1, n / 128);
    }
  }

  lemma VarbytesReadsBack(d: bytes, i: nat, b: bytes)
    requires At(d, i, VarbytesOf(b))
    ensures Varbytes(d, i) == Ok((b, i + |VarbytesOf(b)|))
  {
    hide Varuint, VaruintBytes;
    AtConcat(d, i, VaruintBytes(|b|), b);
    VaruintReadsBack(d, i, |b|);
  }

  lemma AtHead(d: bytes, i: nat, x: byte, b: bytes)
    requires At(d, i, [x] + b)
    ensures i < |d| && d[i] == x && At(d, i + 1, b)
  {
    AtConcat(d, i, [x], b);
    assert d[i] == d[i..i + |[x] + b|][0];
  }

  function IfShallow<T>(ok: bool, v: T): Result<T> {
    if ok then Ok(v) else Raised
  }

  /** Wherever the serialisation of a tree stands in a file, the reader gets the tree back and
      stops right after it, provided the nesting limit allows; otherwise it raises. */
  lemma {:induction false} TreeReadsBack(d: bytes, i: nat, t: Tree, depth: nat)
    requires WellFormed(t) && At(d, i, Write(t))
    ensures ReadTree(d, i, depth) == IfShallow(depth + Height(t) <= 256, (t, i + |Write(t)|))
    decreases t, 1
  {
    hide ReadBranches, Write, Height, WellFormed;
    assert i < |d| && Write(t) != [];
    BranchesReadBack(d, i, t, depth);
    if depth <= MAX_DEPTH { assert ReadTree(d, i, depth) == ReadBranches(d, i + 1, d[i], depth); }
  }

  /** One round of the reader's loop, from where the steps before and after the fork end. */
  lemma BranchesRound(d: bytes, i: nat, depth: nat)
    requires i < |d|
    ensures d[i] == FORK || ReadBranches(d, i + 1, d[i], depth) ==
              match ReadNode(d, i + 1, d[i], depth + 1) case Raised => Raised case Ok((s, j)) => Ok((Last(s), j))
    ensures d[i] != FORK || i + 1 >= |d| || ReadBranches(d, i + 1, FORK, depth) ==
              match ReadNode(d, i + 2, d[i + 1], depth + 1)
              case Raised => Raised
              case Ok((s, j)) =>
                if j >= |d| then Raised else
                match ReadBranches(d, j + 1, d[j], depth)
                case Raised => Raised
                case Ok((rest, k)) => Ok((Fork(s, rest), k))
  {
    hide ReadNode;
  }

  lemma {:induction false} BranchesReadBack(d: bytes, i: nat, t: Tree, depth: nat)
    requires WellFormed(t) && At(d, i, Write(t)) && i < |d|
    ensures depth <= MAX_DEPTH ==>
              ReadBranches(d, i + 1, d[i], depth) == IfShallow(depth + Height(t) <= MAX_DEPTH, (t, i + |Write(t)|))
    decreases t, 0
  {
    hide ReadNode, ReadBranches, WriteNode, WellFormedNode, NodeHeight;
    BranchesRound(d, i, depth);
    match t
    case Last(s) =>
      assert Write(t) == WriteNode(s);
      NodeReadsBack(d, i, s, depth + 1);
    case Fork(s, rest) =>
      assert Write(t) == [FORK] + (WriteNode(s) + Write(rest));
      AtHead(d, i, FORK, WriteNode(s) + Write(rest));
      AtConcat(d, i + 1, WriteNode(s), Write(rest));
      NodeReadsBack(d, i + 1, s, depth + 1);
      BranchesReadBack(d, i + 1 + |WriteNode(s)|, rest, depth);
  }

  /** NodeHeight counts from the timestamp the step belongs to, which is one level up. */
  lemma {:induction false} NodeReadsBack(d: bytes, i: nat, n: Node, depth: nat)
    requires WellFormedNode(n) && At(d, i, WriteNode(n)) && depth > 0
    ensures i < |d| && d[i] != FORK
    ensures depth <= MAX_DEPTH + 1 ==>
              ReadNode(d, i + 1, d[i], depth)
              == IfShallow(depth - 1 + NodeHeight(n) <= MAX_DEPTH, (n, i + |WriteNode(n)|))
    decreases n, 0
  {
    hide ReadTree, Write, Height, WellFormed, VarbytesOf, Varbytes;
    match n
    case Leaf(tag, payload) =>
      var body := tag + VarbytesOf(payload);
      assert WriteNode(n) == [0] + body;
      AtHead(d, i, 0, body);
      AtConcat(d, i + 1, tag, VarbytesOf(payload));
      VarbytesReadsBack(d, i + 9, payload);
    case Op(op, sub) =>
      var arg := if TakesArgument(op.code) then VarbytesOf(op.arg) else [];
      assert WriteNode(n) == [op.code] + (arg + Write(sub));
      AtHead(d, i, op.code, arg + Write(sub));
      AtConcat(d, i + 1, arg, Write(sub));
      if TakesArgument(op.code) { VarbytesReadsBack(d, i + 1, op.arg); }
      TreeReadsBack(d, i + 1 + |arg|, sub, depth);
  }

  lemma FileLayout(op: byte, digest: bytes, body: bytes, tail: bytes)
    ensures var data, start := MAGIC + [1, op] + digest + body + tail, |MAGIC| + 2 + |digest|;
      && Take(data, 0, |MAGIC|) == Ok((MAGIC, |MAGIC|)) && Varuint(data, |MAGIC|) == Ok((1, |MAGIC| + 1))
      && ReadByte(data, |MAGIC| + 1) == Ok((op, |MAGIC| + 2))
      && Take(data, |MAGIC| + 2, |digest|) == Ok((digest, start)) && At(data, start, body)
  {
    var data, start := MAGIC + [1, op] + digest + body + tail, |MAGIC| + 2 + |digest|;
    assert data[..|MAGIC|] == MAGIC && data[|MAGIC|] == 1 && data[|MAGIC| + 1] == op;
    assert data[|MAGIC| + 2..start] == digest && data[start..start + |body|] == body;
  }

  /** A whole file: the header, a tree within the nesting limit and any trailing bytes parse to the
      meaning of the tree; a deeper tree is refused. */
  lemma FileReadsBack(h: Hashes, op: byte, digest: bytes, t: Tree, tail: bytes)
    requires WellFormed(t) && |digest| == DigestLength(op) > 0
    ensures Parse(h, MAGIC + [1, op] + digest + Write(t) + tail)
         == match Meaning(h, Paths(t), digest)
            case Raised => Raised
            case Ok(found) => IfShallow(Height(t) <= 256, Proof(digest, op, found))
  {
    hide Timestamp, ReadTree, Write, WellFormed, Paths, Meaning, Height, DigestLength;
    var data, start := MAGIC + [1, op] + digest + Write(t) + tail, |MAGIC| + 2 + |digest|;
    FileLayout(op, digest, Write(t), tail);
    TreeReadsBack(data, start, t, 0);
    TimestampMeans(h, data, start, digest, 0);
  }
}
