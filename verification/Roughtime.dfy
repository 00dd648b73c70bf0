/** Roughtime messages, requests and signed responses (ctp/roughtime.py). */
module Roughtime {
  import opened Wrappers
  import opened Bytes
  import opened Sorting

  // ---- messages ----

  /** An item of a dict of tags; a dict is its items in insertion order. */
  type Item = (nat, bytes)

  predicate ItemLeq(a: Item, b: Item) {
    a.0 <= b.0
  }

  function Tag(item: Item): nat { item.0 }

  function Body(item: Item): bytes { item.1 }

  /** Where each value starts, counted from the first. */
  function Starts(values: seq<bytes>, from: nat): (r: seq<nat>)
    ensures |r| == |values|
  {
    if values == [] then [] else [from] + Starts(values[1..], from + |values[0]|)
  }

  /** struct.pack("<I", w) for each word. */
  function Words(ws: seq<nat>): Result<bytes> {
    if ws == [] then Ok([]) else
    if ws[0] >= Pow256(4) then Raised else
    var rest :- Words(ws[1..]);
    Ok(LE(ws[0], 4) + rest)
  }

  /** The offsets of all values but the first, whose offset is always zero. */
  function Offsets(values: seq<bytes>): seq<nat> {
    if values == [] then [] else Starts(values, 0)[1..]
  }

  /** encode_message */
  function Encode(tags: seq<Item>): Result<bytes> {
    var items := Sort(ItemLeq, tags);
    var count :- Words([|items|]);
    var offsets :- Words(Offsets(Map(Body, items)));
    var names :- Words(Map(Tag, items));
    Ok(count + offsets + names + Flatten(Map(Body, items)))
  }

  function ReadWord(b: bytes, pos: nat): Result<nat> {
    var w := Slice(b, pos, pos + 4);
    if |w| != 4 then Raised else Ok(FromLE(w))
  }

  function ReadWords(b: bytes, pos: nat, n: nat): (r: Result<seq<nat>>)
    ensures r.Ok? ==> |r.value| == n
    decreases n
  {
    if n == 0 then Ok([]) else
    var w :- ReadWord(b, pos);
    var rest :- ReadWords(b, pos + 4, n - 1);
    Ok([w] + rest)
  }

  /** Each value runs to the next offset, the last to the end. */
  function Values(b: bytes, base: nat, offsets: seq<nat>): (r: seq<bytes>)
    ensures |r| == |offsets|
  {
    if offsets == [] then []
    else [Slice(b, base + offsets[0], if |offsets| > 1 then base + offsets[1] else |b|)] + Values(b, base, offsets[1..])
  }

  /** A dict comprehension over pairs: the last value of a repeated key wins. */
  function DictOf(tags: seq<nat>, values: seq<bytes>): map<nat, bytes>
    requires |tags| == |values|
  {
    if tags == [] then map[]
    else map[tags[0] := values[0]] + DictOf(tags[1..], values[1..])
  }

  /** decode_message */
  function Decode(b: bytes): Result<map<nat, bytes>> {
    var n :- ReadWord(b, 0);
    var offsets :- ReadWords(b, 4, if n == 0 then 0 else n - 1);
    var tags :- ReadWords(b, 4 * n, n);
    var starts := if n == 0 then [] else [0] + offsets;
    Ok(DictOf(tags, Values(b, 8 * n, starts)))
  }

  // ---- encode_message as its loops ----

  lemma WordsStep(ws: seq<nat>, i: nat)
    requires i < |ws|
    ensures Words(ws[i..]) ==
              if ws[i] >= Pow256(4) then Raised else
              match Words(ws[i + 1..]) case Raised => Raised case Ok(rest) => Ok(LE(ws[i], 4) + rest)
  {
    assert ws[i..][0] == ws[i] && ws[i..][1..] == ws[i + 1..];
  }

  function Onto(out: bytes, r: Result<bytes>): Result<bytes> {
    match r case Raised => Raised case Ok(b) => Ok(out + b)
  }

  lemma OntoOnto(a: bytes, b: bytes, r: Result<bytes>)
    ensures Onto(a, Onto(b, r)) == Onto(a + b, r)
  {
    if r.Ok? { assert a + (b + r.value) == a + b + r.value; }
  }

  /** for w in ws: out += struct.pack("<I", w) */
  method AppendWords(out: bytes, ws: seq<nat>) returns (r: Result<bytes>)
    ensures r == Onto(out, Words(ws))
  {
    hide Words, LE;
    var b := out;
    assert ws[0..] == ws;
    for i := 0 to |ws|
      invariant Onto(out, Words(ws)) == Onto(b, Words(ws[i..]))
    {
      WordsStep(ws, i);
      if ws[i] >= Pow256(4) { return Raised; }
      OntoOnto(b, LE(ws[i], 4), Words(ws[i + 1..]));
      b := b + LE(ws[i], 4);
    }
    NoWords();
    assert ws[|ws|..] == [] && b + [] == b;
    r := Ok(b);
  }

  lemma NoWords()
    ensures Words([]) == Ok([])
  {
  }

  lemma StartsStep(values: seq<bytes>, i: nat, off: nat)
    requires i < |values|
    ensures Starts(values[i..], off) == [off] + Starts(values[i + 1..], off + |values[i]|)
  {
    assert values[i..][1..] == values[i + 1..];
  }

  /** The first loop: the offsets of all values but the first. */
  method CollectOffsets(items: seq<Item>) returns (offs: seq<nat>)
    ensures offs == Offsets(Map(Body, items))
  {
    hide Starts;
    ghost var values := Map(Body, items);
    var off: nat := 0;
    offs := [];
    assert values[0..] == values;
    for i := 0 to |items|
      invariant i == 0 ==> off == 0 && offs == []
      invariant i > 0 ==> offs + Starts(values[i..], off) == Offsets(values)
    {
      StartsStep(values, i, off);
      if i > 0 {
        offs := offs + [off];
      }
      off := off + |items[i].1|;
    }
    assert values[|items|..] == [];
    EmptyStarts(off);
  }

  /** The last loop: for _, v in items: out += v */
  method AppendValues(start: bytes, items: seq<Item>) returns (out: bytes)
    ensures out == start + Flatten(Map(Body, items))
  {
    ghost var values := Map(Body, items);
    out := start;
    assert values[0..] == values;
    for i := 0 to |items|
      invariant out + Flatten(values[i..]) == start + Flatten(values)
    {
      assert values[i..][1..] == values[i + 1..];
      assert out + (items[i].1 + Flatten(values[i + 1..])) == out + items[i].1 + Flatten(values[i + 1..]);
      out := out + items[i].1;
    }
    assert values[|items|..] == [] && out + [] == out;
  }

  method EncodeMessage(tags: seq<Item>) returns (r: Result<bytes>)
    ensures r == Encode(tags)
  {
    hide Words, Offsets, Sort, Flatten;
    var items := Sort(ItemLeq, tags);
    var head := AppendWords([], [|items|]);
    if head.Raised? { return Raised; }
    NoPrefix(Words([|items|]));
    var offsets := CollectOffsets(items);
    var withOffsets := AppendWords(head.value, offsets);
    if withOffsets.Raised? { return Raised; }
    var withNames := AppendWords(withOffsets.value, Map(Tag, items));
    if withNames.Raised? { return Raised; }
    var out := AppendValues(withNames.value, items);
    r := Ok(out);
  }

  lemma EmptyStarts(off: nat)
    ensures Starts([], off) == []
  {
  }

  lemma NoPrefix(r: Result<bytes>)
    ensures Onto([], r) == r
  {
    if r.Ok? { assert [] + r.value == r.value; }
  }

  // ---- decoding undoes encoding ----

  lemma {:induction false} WordsReadBack(b: bytes, pos: nat, ws: seq<nat>)
    requires Words(ws).Ok? && At(b, pos, Words(ws).value)
    ensures |Words(ws).value| == 4 * |ws| && ReadWords(b, pos, |ws|) == Ok(ws)
    decreases ws
  {
    hide Pow256, LE, FromLE;
    if ws != [] {
      AtConcat(b, pos, LE(ws[0], 4), Words(ws[1..]).value);
      LERoundTrip(ws[0], 4);
      WordsReadBack(b, pos + 4, ws[1..]);
      assert Slice(b, pos, pos + 4) == LE(ws[0], 4);
      assert ReadWord(b, pos) == Ok(ws[0]) && ws == [ws[0]] + ws[1..];
    }
  }

  lemma {:induction false} ValuesReadBack(b: bytes, base: nat, values: seq<bytes>, from: nat)
    requires At(b, base + from, Flatten(values)) && base + from + |Flatten(values)| == |b|
    ensures Values(b, base, Starts(values, from)) == values
    decreases values
  {
    if values != [] {
      var rest := values[1..];
      AtConcat(b, base + from, values[0], Flatten(rest));
      ValuesReadBack(b, base, rest, from + |values[0]|);
      assert Starts(values, from)[1..] == Starts(rest, from + |values[0]|);
      if rest == [] { assert Flatten(rest) == []; }
    }
  }

  /** A dict has one value for a key. */
  ghost predicate OneValueEach(items: seq<Item>) {
    forall x, y | x in items && y in items && x.0 == y.0 :: x.1 == y.1
  }

  function Dict(items: seq<Item>): map<nat, bytes> {
    DictOf(Map(Tag, items), Map(Body, items))
  }

  lemma {:induction false} DictHolds(items: seq<Item>)
    requires OneValueEach(items)
    ensures forall x | x in items :: x.0 in Dict(items) && Dict(items)[x.0] == x.1
    ensures forall k | k in Dict(items) :: (k, Dict(items)[k]) in items
  {
    if items != [] {
      assert items == [items[0]] + items[1..];
      DictHolds(items[1..]);
      assert Map(Tag, items)[1..] == Map(Tag, items[1..]) && Map(Body, items)[1..] == Map(Body, items[1..]);
      assert Dict(items) == map[items[0].0 := items[0].1] + Dict(items[1..]);
    }
  }

  lemma DictForgetsOrder(a: seq<Item>, b: seq<Item>)
    requires OneValueEach(a) && multiset(a) == multiset(b)
    ensures Dict(a) == Dict(b)
  {
    hide Dict;
    SameElements(a, b);
    DictHolds(a);
    DictHolds(b);
  }

  lemma CountReadsBack(b: bytes, n: nat)
    requires Words([n]).Ok? && At(b, 0, Words([n]).value)
    ensures |Words([n]).value| == 4 && ReadWord(b, 0) == Ok(n)
  {
    hide LE, Pow256, FromLE;
    WordsReadBack(b, 0, [n]);
    assert ReadWords(b, 0, 1) == Ok([n]);
  }

  lemma FourParts(b: bytes, w: bytes, x: bytes, y: bytes, z: bytes)
    requires b == w + (x + (y + z))
    ensures At(b, 0, w) && At(b, |w|, x) && At(b, |w| + |x|, y) && At(b, |w| + |x| + |y|, z)
    ensures |w| + |x| + |y| + |z| == |b|
  {
    assert b[0..|b|] == b;
    AtConcat(b, 0, w, x + (y + z));
    AtConcat(b, |w|, x, y + z);
    AtConcat(b, |w| + |x|, y, z);
  }

  /** Words written one list after another, each where the decoder looks for it. */
  lemma ListsReadBack(b: bytes, offsets: seq<nat>, names: seq<nat>)
    requires Words(offsets).Ok? && At(b, 4, Words(offsets).value)
    requires Words(names).Ok? && At(b, 4 + |Words(offsets).value|, Words(names).value)
    ensures |Words(offsets).value| == 4 * |offsets| && |Words(names).value| == 4 * |names|
    ensures ReadWords(b, 4, |offsets|) == Ok(offsets) && ReadWords(b, 4 + 4 * |offsets|, |names|) == Ok(names)
  {
    hide Words, ReadWords, At;
    WordsReadBack(b, 4, offsets);
    WordsReadBack(b, 4 + |Words(offsets).value|, names);
  }

  /** Whatever encode_message produces, decode_message gives back, whatever the order and the
      sizes of the tags were. */
  lemma MessageRoundTrip(tags: seq<Item>)
    requires OneValueEach(tags) && Encode(tags).Ok?
    ensures Decode(Encode(tags).value) == Ok(Dict(tags))
  {
    hide Words, ReadWord, ReadWords, Values, Starts, DictOf, Sort, Offsets, Flatten, OneValueEach, At;
    var items := Sort(ItemLeq, tags);
    var n, values := |items|, Map(Body, items);
    var b := Encode(tags).value;
    assert b == Words([n]).value + (Words(Offsets(values)).value + (Words(Map(Tag, items)).value + Flatten(values)));
    FourParts(b, Words([n]).value, Words(Offsets(values)).value, Words(Map(Tag, items)).value, Flatten(values));
    CountReadsBack(b, n);
    ListsReadBack(b, Offsets(values), Map(Tag, items));
    OffsetsCount(values);
    if n == 0 {
      Nothing(b);
    } else {
      ValuesReadBack(b, 8 * n, values, 0);
    }
    DictForgetsOrder(tags, items);
  }

  lemma OffsetsCount(values: seq<bytes>)
    ensures |Offsets(values)| == if values == [] then 0 else |values| - 1
    ensures values != [] ==> Starts(values, 0) == [0] + Offsets(values)
  {
  }

  lemma Nothing(b: bytes)
    ensures ReadWords(b, 4, 0) == Ok([]) && ReadWords(b, 0, 0) == Ok([]) && Values(b, 0, []) == []
  {
  }

  /** encode_message raises exactly when the count, a tag or the offset of the last value needs more
      than 32 bits. */
  lemma EncodesIff(tags: seq<Item>)
    ensures var values := Map(Body, Sort(ItemLeq, tags));
            Encode(tags).Ok? <==>
              && |tags| < Pow256(4) && (forall x | x in tags :: x.0 < Pow256(4))
              && (tags != [] ==> |Flatten(values[..|values| - 1])| < Pow256(4))
  {
    hide Words, Starts, Sort, Pow256, Flatten, Fit;
    var items := Sort(ItemLeq, tags);
    WordsFit([|items|]);
    assert Fit([|items|]) <==> |items| < Pow256(4) by { JustOne(|items|); }
    WordsFit(Map(Tag, items));
    TagsFit(items);
    SameElements(tags, items);
    WordsFit(Offsets(Map(Body, items)));
    OffsetsFit(Map(Body, items));
    EmptyFits();
  }

  lemma JustOne(n: nat)
    ensures Fit([n]) <==> n < Pow256(4)
  {
    assert [n][0] == n;
  }

  lemma EmptyFits()
    ensures Fit([])
  {
  }

  /** Every word fits in 32 bits. */
  predicate Fit(ws: seq<nat>) {
    forall i | 0 <= i < |ws| :: ws[i] < Pow256(4)
  }

  lemma TagsFit(items: seq<Item>)
    ensures Fit(Map(Tag, items)) <==> forall x | x in items :: x.0 < Pow256(4)
  {
    hide Pow256;
    var names := Map(Tag, items);
    forall i | 0 <= i < |items| ensures names[i] == items[i].0 && items[i] in items {}
    if Fit(names) {
      forall x | x in items ensures x.0 < Pow256(4) {
        var i :| 0 <= i < |items| && items[i] == x;
        assert names[i] == x.0;
      }
    }
  }

  lemma {:induction false} WordsFit(ws: seq<nat>)
    ensures Words(ws).Ok? <==> Fit(ws)
  {
    hide Pow256;
    if ws != [] {
      WordsFit(ws[1..]);
      forall i | 0 < i < |ws| ensures ws[i] == ws[1..][i - 1] {}
      if Fit(ws) {
        assert Fit(ws[1..]) && ws[0] < Pow256(4);
      }
      if Words(ws).Ok? {
        assert forall i | 0 <= i < |ws| - 1 :: ws[1..][i] < Pow256(4);
      }
    }
  }

  lemma OffsetsFit(values: seq<bytes>)
    ensures values == [] ==> Offsets(values) == []
    ensures values != [] ==> (Fit(Offsets(values)) <==> |Flatten(values[..|values| - 1])| < Pow256(4))
  {
    hide Pow256;
    if values != [] {
      var starts, n := Starts(values, 0), |values|;
      forall i: nat | i < n ensures starts[i] == |Flatten(values[..i])| <= |Flatten(values[..n - 1])| {
        StartsAt(values, 0, i);
        FlattenGrows(values, i, n - 1);
      }
      var offsets := Offsets(values);
      forall i: nat | i < n - 1 ensures offsets[i] == starts[i + 1] {}
      if n > 1 { assert offsets[n - 2] == starts[n - 1]; }
    }
  }

  lemma {:induction false} StartsAt(values: seq<bytes>, from: nat, i: nat)
    requires i < |values|
    ensures Starts(values, from)[i] == from + |Flatten(values[..i])|
    decreases i
  {
    if i > 0 {
      StartsAt(values[1..], from + |values[0]|, i - 1);
      assert values[..i][1..] == values[1..][..i - 1];
    }
  }

  lemma {:induction false} FlattenGrows(values: seq<bytes>, i: nat, j: nat)
    requires i <= j <= |values|
    ensures |Flatten(values[..i])| <= |Flatten(values[..j])|
    decreases i
  {
    if i > 0 {
      FlattenGrows(values[1..], i - 1, j - 1);
      assert values[..i][1..] == values[1..][..i - 1] && values[..j][1..] == values[1..][..j - 1];
    }
  }
}
