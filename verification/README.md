# Chronology Protocol: verified model

A Dafny model of the offline verifier of the Chronology Protocol and proofs about it. The verifier accepts a chain of
time evidence: canonical bytes, quorum intervals, witness hash chains, dual Merkle roots, a 96-byte anchor in a Bitcoin
coinbase, proof of work, and around them the reality sandwich, Roughtime and OpenTimestamps readers, radio relay and
the 2009 difficulty rule.

`dafny verify dfyconfig.toml` checks the whole project.

## How the model is built

| file | models |
|---|---|
| `Wrappers`, `Bytes`, `Sorting` | results that may raise, Python slices, fixed-width integers, `sorted` |
| `Cbor`, `CborProofs`, `CborLoops` | the deterministic CBOR codec as functions, its inverse laws, its loops |
| `CborWire`, `Utf8` | the order of keys and the form of text, byte by byte |
| `Intervals` | the quorum sweep and Byzantine consensus |
| `HashSuite`, `Records`, `Merkle`, `MerkleLevels` | dual digests, canonical records, dual Merkle roots |
| `Model`, `Chains`, `ChainProofs`, `ChainOrder` | observations, checkpoints, witness chains |
| `Jan09`, `Checklists`, `Verify`, `BundleProofs` | the anchor and its block, the bundle verifier, what a block fixes |
| `Radio`, `RadioWire`, `RadioProofs`, `RadioPasses` | fragments, the reassembler, safety of every run, recovery in one and two passes |
| `Ots`, `OtsProofs`, `OtsOperations` | the proof reader, the inverse of serialising, what a proof means on the bytes of its messages |
| `Retarget`, `Miner` | compact targets and the 2009 rule, the native nonce scanner |
| `Roughtime`, `RoughtimeReply`, `RoughtimeChecks`, `Measurement` | messages, Merkle paths, signed responses, error bounds |
| `Sandwich`, `SandwichProofs`, `SandwichCounts` | the sandwich verifier, what a pass proves of blobs and observations |
| `SandwichBlobs`, `SandwichExpectation`, `PythonEquality` | what every blob, every observation and the expectation have to say, field by field, and what it is to be equal |
| `SandwichAppend`, `SandwichReplies` | unknown evidence appended, one reply in two sessions |
| `SandwichComplete`, `ExampleWorld`, `SandwichExamples` | the honest procedure passes, bundles that exist |

Code that computes a value by recursion is a function. Code that moves a position, fills a list or updates fields is a
method or a class proved equal to such a function, and the laws are lemmas about the function. Every exception is the
result `Raised`.

Hash functions are parameters. A lemma that needs them free of collisions says so of the finite set of messages hashed
in the runs it compares, and where digests come in pairs it asks it of one family only.

## Where the code and its words differ

- The docstring of `verify_sandwich` says appending unknown evidence "can never turn a failure into anything else".
  `SandwichAppend.UnknownBlob` proves it for every check but S_EVIDENCE_MEASUREMENT and gives the exact condition on the
  bundle and the blob under which a failure turns; `SandwichAppend.MeasurementFailureTurned` is the case in which it
  does. The docstring also says that a bundle with any unknown evidence is INDETERMINATE_UNCHECKED_EVIDENCE; appended to
  a passing bundle it makes FAIL, because the blob is counted and no observation cites it: `SandwichAppend.PassTurned`.
- The module docstring says that block C commits to the evidence bytes. It commits to those that are cited
  (`SandwichProofs.BlockFixesBlobs`); the verifier compares counts, so a bundle in which two witnesses cite one blob can
  pass with a blob that nobody cites (`SandwichExamples.SomeUncited`). `SandwichCounts.PairedIff` says exactly when
  every blob is cited.
- `verify_witness_chains` gives one answer for every order of an accepted history. A rejection can be False in one
  order and an exception in another: `ChainProofs.RejectionDependsOnOrder`; `ChainOrder.AnswerForgetsOrderIff` says
  exactly when.
- One pass of a radio block is not always enough (`RadioPasses.OnePassMayFail`); `RadioPasses.OnePassIff` says exactly
  when it is.
- The radio profile says that "a corrupted fragment simply fails to reassemble into something valid". The default
  validator does not look behind the header: `RadioPasses.PowDeliversOther` is a run that delivers other bytes, and
  `RadioPasses.TwoPassDeliversBlockIff` says for which validators it cannot happen.
- Lists of different lengths can share a Merkle root: `Merkle.RepeatedLastLeaf`.
- The Earth rotation uncertainty covers the step in UT1, but together with the rounding of the constants only for some
  instants: `Measurement.UncertaintyHoldsIff` says exactly which, `Measurement.ExactNotWithinUncertainty` is one of the
  others, and half a nano-turn more would cover all (`Measurement.ExactWithin`).
- The Roughtime claim is centred on the server's second and covers the instant of receipt only for short round trips:
  `Measurement.RtReceiptCoveredIff`.

## Model

| member | source | states |
|---|---|---|
| `CborProofs.EncodedReadsBack` | ctp/cbor.py:71-121 | Wherever the encoding of a value stands in a byte string, the decoder returns that value, dicts in canonical order, and stops right after it, for every value and every tail |
| `CborProofs.DecodedReencodes` | ctp/cbor.py:71-121 | Whatever the decoder reads from any bytes is a value without equal dict keys whose encoding is exactly the bytes that were consumed |
| `CborProofs.LoadsIffEncoding` | ctp/cbor.py:123-129 | loads(data) returns x if and only if data is the encoding of x and x is a proper value in canonical order: one accepted byte string per value |
| `CborProofs.LoadsDumps` | ctp/cbor.py:27-54 | loads(dumps(x)) is x for every value that can be encoded |
| `CborProofs.ReencodingCheckNeverFires` | ctp/cbor.py:127-128 | The re-encoding comparison of loads can never reject: decoding alone already guarantees it |
| `CborProofs.SameEncodingIffSameValue` | ctp/cbor.py:27-54 | Two values have one encoding exactly when they differ at most in the insertion order of their dicts |
| `CborProofs.EncodingPrefixFree` | ctp/cbor.py:27-54 | No encoding is a proper prefix of another |
| `CborProofs.SortedDict` | ctp/cbor.py:107-113 | Sorted entries of a dict with distinct keys pass the decoder's duplicate and ordering tests |
| `CborWire.LoadsIffOrdered` | ctp/cbor.py:107-129 | loads(data) returns v exactly when data is the encoding of v and in every dict of v the encodings of the keys ascend, the shorter first and among equals the one with the smaller first differing byte |
| `CborWire.ReadKeys` | ctp/cbor.py:99-113 | Of two keys of a dict that is read, the earlier has the shorter encoding, or one of equal length that is smaller at the first differing byte; no two are equal, True and 1 counting as equal |
| `CborWire.WrittenKeys` | ctp/cbor.py:45-51 | Whatever the insertion order, a dict is written as its head and then its entries, each key before its value, in ascending order of the encoded keys |
| `Utf8.TextIff` | ctp/cbor.py:88-91 | Text is accepted exactly when it is the encoding of a list of scalar values: no overlong form, no surrogate, nothing beyond U+10FFFF |
| `CborLoops.Encode` | ctp/cbor.py:27-54 | The encoder with its list building and in-place sort computes the specified encoding |
| `CborLoops.DecodeOne` | ctp/cbor.py:71-121 | The decoder with its moving position and its loops computes the specified decoding, raising exactly where that raises |
| `CborLoops.DecodeEntries` | ctp/cbor.py:99-114 | The map loop that tests each key against the dict so far agrees with testing the whole dict at the end |
| `Intervals.QuorumRegions` | ctp/interval.py:13-43 | The endpoint sweep returns exactly the maximal integer runs with support at least q, and raises exactly for q below 1 |
| `Intervals.Sweep` | ctp/interval.py:23-43 | The event loop with its running support computes the regions; the branch for a region left open at the last event is unreachable |
| `Intervals.RegionsExact` | ctp/interval.py:13-18 | Visiting every integer gives a list of increasing runs, at least one integer apart, that contain exactly the integers of support at least q |
| `Intervals.RunsUnique` | ctp/interval.py:13-18 | A set of integers is cut into such runs in one way only, so the regions are determined by their meaning |
| `Intervals.CollectEvents` | ctp/interval.py:23-26 | The event dict holds at every point the number of intervals that open there less the number that ended just before |
| `Intervals.RegionsForgetOrder` | ctp/interval.py:13-43 | The regions do not depend on the order of the intervals |
| `Intervals.ConsensusForgetsOrder` | ctp/interval.py:45-55 | Neither does the consensus result |
| `Intervals.ByzantineAccuracy` | ctp/interval.py:45-55 | With n at least 3f+1 and at most f intervals missing the true time: regions are not empty, a consensus interval contains the true time, and every point of any region and of the agreed interval lies in at least f+1 intervals that hold the true time too and are at least as wide as its distance to it |
| `Intervals.ConsensusIff` | ctp/interval.py:52-55 | CONSENSUS is reported exactly when some instant has a quorum and no instant without one lies between two that have one |
| `Intervals.AgreedInterval` | ctp/interval.py:45-55 | The result carries q = 2f+1; there is an interval exactly for CONSENSUS, and it holds exactly the instants that at least 2f+1 of the intervals hold |
| `Intervals.RunConsensus` | ctp/interval.py:45-55 | The consensus procedure on top of the sweep raises for the same f, and the interval it agrees on holds exactly the instants that at least 2f+1 of the intervals hold |
| `HashSuite.FramedInjective` | ctp/hashsuite.py:24-27 | A framed message determines its domain and its message: domains never overlap |
| `HashSuite.PairBinds` | ctp/hashsuite.py:5-34 | Equal digest pairs mean equal domain and message when at least one of the two families has no collision among the messages hashed |
| `Records.EncodingBinds` | ctp/model.py:51-57 | Equal encodings of canonical records mean equal records |
| `Model.SignedObservationRoundTrip` | ctp/model.py:25-89 | from_obj undoes as_obj for every signed observation, through sources, intervals and optional digests |
| `Model.SignedCheckpointRoundTrip` | ctp/model.py:140-191 | from_obj undoes as_obj for every signed checkpoint |
| `Chains.LineageBinds` | ctp/model.py:67-75 | With one family free of collisions a lineage id fixes the whole unsigned observation |
| `Chains.RecordBinds` | ctp/model.py:86-89 | Likewise a record commitment fixes the whole signed observation |
| `Chains.GroupByWitness` | ctp/model.py:115-117 | The grouping dict holds for every witness its records in history order, its keys in order of first appearance |
| `Chains.VerifyWitnessChains` | ctp/model.py:114-138 | The loops with prev and seen compute the specified answer, raising exactly where it raises |
| `ChainProofs.AcceptedIffLinked` | ctp/model.py:114-138 | True is answered exactly for linked histories: per witness one record for each of the numbers 0 to n-1, each naming its predecessor's lineage id, said of the multiset of records |
| `ChainProofs.AcceptedLatest` | ctp/model.py:136-138 | On acceptance the list holds the newest record of every witness, once each, the witness ids ascending byte by byte |
| `ChainProofs.AcceptanceForgetsOrder` | ctp/model.py:114-138 | Acceptance and the returned list do not depend on the order of the history |
| `ChainOrder.AnswerForgetsOrderIff` | ctp/model.py:114-138 | The whole answer, exceptions included, is the same for all orders of the history exactly when its records do not hold both a next-in-line record without canonical bytes and a gap, wrong link or repeated number that the check of a chain comes to |
| `ChainOrder.CanonicalForgetsOrder` | ctp/model.py:114-138 | In particular it is whenever every record has canonical bytes |
| `ChainProofs.RejectionDependsOnOrder` | ctp/model.py:119-135 | Without canonical bytes it can: a history that is answered False and raises the other way round |
| `ChainProofs.RecordFixesItsPast` | ctp/model.py:124-135 | With one family free of collisions two linked histories that share one unsigned record agree on all earlier records of its witness |
| `ChainProofs.LatestFixesHistory` | ctp/model.py:114-138 | With one family free of collisions two accepted histories with the same latest records hold the same unsigned observations of every witness |
| `Merkle.ReduceLoop` | ctp/merkle.py:14-23 | The level loop that pads and rebuilds the node list computes the level-by-level reduction and terminates |
| `Merkle.ComputeMerklePair` | ctp/merkle.py:5-24 | Both roots, raising exactly for an empty list |
| `Merkle.ReduceIsTree` | ctp/merkle.py:14-23 | The bottom-up reduction is the recursive binary tree that duplicates the last node, for every number of leaves |
| `MerkleLevels.MerkleIff` | ctp/merkle.py:5-24 | The roots are, for each hash on its own, what is left on top of levels over the hashed encoded pairs: node i hashes nodes 2i and 2i+1 below in this order, a last single node with itself; there are none for an empty list |
| `Merkle.MerkleBinding` | ctp/merkle.py:5-24 | With one family free of collisions two root pairs are equal exactly when the completed leaf lists are |
| `Merkle.MerkleBindsEqualLengths` | ctp/merkle.py:5-24 | For lists of equal length equal root pairs mean equal lists |
| `Merkle.RepeatedLastLeaf` | ctp/merkle.py:16-17 | For different lengths they do not: three records and the same three with the last repeated share a root |
| `Jan09.CompactIff` | ctp/bitcoin_jan09.py:142-159 | The reader accepts exactly the shortest form of a compact size, at any position |
| `Jan09.ParseCoinbaseTxLoop` | ctp/bitcoin_jan09.py:161-182 | The parser with its moving position and output loop computes the specified parse |
| `Jan09.ParseIffSerialize` | ctp/bitcoin_jan09.py:161-182 | Bytes parse as a transaction exactly when they are its serialisation: nothing is lost, and every unchecked slice of an accepted transaction was in bounds |
| `Jan09.AnchorPayloadBinds` | ctp/bitcoin_jan09.py:71-78 | A payload carries one epoch and one digest pair |
| `Jan09.CoinbaseIff` | ctp/bitcoin_jan09.py:80-104 | The anchor coinbase is one input that spends nothing and whose script is 4c 60 and the payload, and one output that pays the value to the public key |
| `Jan09.HeaderIff` | ctp/bitcoin_jan09.py:109-115 | A made header has its version, hashes, time, bits and nonce at their places and nothing else |
| `Jan09.ExtractIff` | ctp/bitcoin_jan09.py:184-200 | An anchor is extracted exactly from the serialisation of such a coinbase whose payload starts with CHRN, 1, 1; its fields are the payload's bytes |
| `Jan09.CandidateIff` | ctp/bitcoin_jan09.py:202-222 | A candidate block passes exactly when it is a header and one such coinbase with the expected payload, the header's root is the coinbase's hash and its time is later than the median time past |
| `Jan09.WorkIff` | ctp/bitcoin_jan09.py:38-45 | A header meets its target exactly when its hash, read little-endian, is at most the mantissa in its bytes 72 to 74 scaled by byte 75 |
| `Jan09.AnchorRoundTrip` | ctp/bitcoin_jan09.py:80-104 | What is extracted from an anchor coinbase is the epoch, flags and digests that were put into it |
| `Jan09.MadeBlockVerifies` | ctp/bitcoin_jan09.py:117-123 | A made block passes the structure check for exactly its own payload and exactly the median times it is later than |
| `Jan09.BlockBindsPayload` | ctp/bitcoin_jan09.py:212-222 | A raw block passes for at most one payload |
| `Verify.VerifyBundle` | ctp/verify.py:7-72 | PASS exactly when all evidence holds, every signature among it genuine, the block carries this checkpoint's payload and meets its target; PASS_PRE_POW exactly when only the work is missing; INDETERMINATE_TOOLCHAIN exactly when some envelope could not be checked and nothing checked before it was wrong; anything else that does not raise is FAIL |
| `Verify.AllSignedIff` | ctp/model.py:98-112 | All observations pass exactly when each is in canonical form and of its envelopes every signature of the domain and the canonical bytes is genuine, no algorithm occurs twice and both required ones occur; the answer is unavailable exactly when the first observation that does not pass has an envelope that could not be checked, those before it being genuine and no algorithm repeated so far |
| `Verify.CheckpointSignedIff` | ctp/model.py:218-232 | The same of the checkpoint under its own domain |
| `Verify.AnchoredIff` | ctp/verify.py:48-56 | The structure check passes exactly when the block carries CHRN, 1, 1, 0, 3, the epoch and the two digests of the encoded signed checkpoint |
| `Verify.ConsensusAgreesIff` | ctp/verify.py:42-43 | The consensus check passes exactly when n is at least 3f+1, q is 2f+1, and the checkpoint says CONSENSUS with the interval that holds exactly the instants a quorum holds, or TIME_CONFLICT where no interval is that |
| `Verify.LatestUnique` | ctp/verify.py:35-36 | The uniqueness check can never fail on the latest records of any history |
| `BundleProofs.BlockFixesEvidence` | ctp/verify.py:31-56 | Two bundles that pass against one raw block, with at least one family free of collisions, have equal signed checkpoints, equal latest observations and equal unsigned histories of every witness |
| `BundleProofs.RecordsIff` | ctp/verify.py:38-39 | The list of records is the one with the digest pairs of the encoded latest records, each as often as it occurs, ascending by SHA-256 and then by SHAKE |
| `BundleProofs.BuiltCheckpointVerifies` | ctp/model.py:193-209 | A checkpoint built from the latest records in any order passes the record-set, root, consensus and genesis checks, and carries the epoch, fault bound and predecessor it was given |
| `BundleProofs.BuildSucceedsIff` | ctp/model.py:193-209 | Building from an accepted history's latest records, in any order, succeeds exactly with one genesis, enough witnesses for f and encodable records |
| `BundleProofs.BuiltBundlePasses` | ctp/verify.py:7-72 | Building, signing and anchoring end in acceptance: PASS_PRE_POW without a block, and with a block made for the payload PASS exactly when its header meets the target of its bits |
| `Radio.FragmentLoop` | ctp/radio.py:51-65 | The fragmenting loop computes the specified fragments and raises for the same blocks |
| `RadioWire.FragmentIff` | ctp/radio.py:51-65 | Fragmenting succeeds exactly when at most 255 pieces of mtu - 11 bytes make up the block; fragment k is CHRB, 1, the first four bytes of the header's hash, k, their count and the k-th piece |
| `RadioWire.ParseIff` | ctp/radio.py:68-76 | A packet is taken for a fragment exactly when it is laid out so and its number is below its count |
| `RadioWire.PowValidIff` | ctp/radio.py:115-124 | The default validator accepts exactly the bytes that start with a header meeting its own target |
| `Radio.Reassembler.Feed` | ctp/radio.py:90-109 | One call moves the two fields and answers exactly as the specified step, keeping every stored slot incomplete and nothing delivered stored |
| `Radio.Complete` | ctp/radio.py:101-103 | A slot with as many parts as its count holds exactly the indices 0 to count-1 |
| `RadioProofs.RunSafe` | ctp/radio.py:90-109 | Over any packet sequence each id is delivered at most once, and whatever is delivered was accepted by the validator and is the index-order join of parts received under that id and count |
| `RadioProofs.FragmentsParse` | ctp/radio.py:51-76 | The i-th fragment of a block parses as its i-th part, and the parts join to the block |
| `RadioProofs.OnePassRecovers` | ctp/radio.py:90-109 | One complete pass is enough for a receiver that holds nothing false under the id |
| `RadioPasses.OnePassIff` | ctp/radio.py:90-109 | From any state that has not delivered the block, every complete pass delivers its id exactly when the validator accepts every mixture of the block's chunks with the stale parts of its count |
| `RadioPasses.OnePassMayFail` | ctp/radio.py:97-107 | It need not: after one forged part, heard by an empty receiver, some order of the block's own fragments leaves it undelivered, for any number of chunks from two on |
| `RadioProofs.OnePassCleans` | ctp/radio.py:97-107 | After one complete pass nothing stale is left under the id |
| `RadioProofs.TwoPassRecovery` | ctp/radio.py:90-109 | From any reachable state two passes, reordered, duplicated and mixed with other traffic, leave an accepted block's id delivered |
| `RadioProofs.TwoPassDeliversBlock` | ctp/radio.py:103-109 | If the validator accepts no other mixture with stale parts, what two passes in the middle of other traffic deliver is the block |
| `RadioPasses.TwoPassDeliversBlockIff` | ctp/radio.py:103-109 | Every two passes deliver the block and nothing else under its id exactly when the validator accepts no other mixture of its chunks with stale parts |
| `RadioProofs.PowIgnoresTail` | ctp/radio.py:115-124 | The default validator accepts any tail behind an accepted header |
| `RadioPasses.PowDeliversOther` | ctp/radio.py:9-14 | With the default validator a forged last fragment and one pass of the genuine ones can deliver, from the empty state, other bytes behind the same header |
| `Ots.Reader.ReadVaruint` | ctp/ots.py:66-73 | The accumulating loop reads the number whose seven-bit digits stand at the cursor, and moves the cursor past it |
| `Ots.TimestampInto` | ctp/ots.py:141-148 | The recursive reader with its shared list appends exactly the attestations the specification finds and stops where it stops, or fails |
| `Ots.StepInto` | ctp/ots.py:151-158 | Likewise one step, given its tag or reading it |
| `Ots.ParseFile` | ctp/ots.py:161-177 | The whole file reader, header checks included, computes the specified parse; OtsOperations.ParseIff says what that is |
| `OtsProofs.TimestampMeans` | ctp/ots.py:141-158 | The reader finds exactly the meaning of the proof tree the bytes hold, and fails exactly when there is no tree or the tree has no meaning |
| `OtsProofs.ParseMeans` | ctp/ots.py:161-177 | Every attestation of an accepted file stands in depth-first order at the end of its path; the tree is at most 256 deep |
| `OtsOperations.ApplyIff` | ctp/ots.py:104-123 | What an operation makes of a message, byte by byte: append, prepend, reverse, lower-case hexadecimal digits, or the named hash; any other code raises |
| `OtsOperations.AttestIff` | ctp/ots.py:126-138 | An attestation's kind is its eight-byte tag's, its height the seven-bit digits its payload starts with, its URI the text its payload starts with |
| `OtsOperations.ParseIff` | ctp/ots.py:161-177 | A proof is accepted exactly when it is magic, version 1, a hash operation, a digest of its length and a tree whose every path leads, operation by operation, from the digest to the message of one attestation; what is returned is exactly that |
| `OtsOperations.JoinedMessage` | ctp/ots.py:115-118 | Where a path only appends and prepends, the attested message is the prepended arguments, the last first, the digest, and the appended arguments in order |
| `OtsProofs.MeaningAt` | ctp/ots.py:126-138 | The k-th attestation is the one at the end of the k-th path, on the message that path gives |
| `OtsProofs.TreeReadsBack` | ctp/ots.py:141-158 | Wherever a serialised tree stands, it is read back, stopping right after it, exactly when the nesting limit allows; otherwise the reader raises |
| `OtsProofs.FileReadsBack` | ctp/ots.py:161-177 | A file made of header, digest, tree and any trailing bytes parses to the leaves of the tree, or is refused when the tree is too deep |
| `Retarget.CompactFloor` | live/capture_retarget.py:58-77 | Decoding the compact form of a target gives the target with its excess low bytes cleared, at least fifteen significant bits remaining |
| `Retarget.CompactLoss` | live/capture_retarget.py:58-77 | Rounding to compact form never raises a target and loses at most 1/32768 of it |
| `Retarget.LargestCompactBelow` | live/capture_retarget.py:58-77 | No compact target lies between a target and its rounding |
| `Retarget.CompactFits` | live/capture_retarget.py:67-77 | The mantissa leaves sign bit and size byte free, so or-ing the size in is adding it |
| `Retarget.NextWorkRequired` | live/capture_retarget.py:108-146 | Raises exactly for a height without a header and otherwise always names bits: those of the last block inside a period, and at its end those of the largest compact target that is at most the scaled target and at most the limit |
| `Retarget.RetargetExact` | live/capture_retarget.py:119-139 | The scaled target is the old one times span over 1209600, the span of 2015 intervals counted as at least 302400 and at most 4838400 seconds; the limit is 65535 times 256 to the 26th |
| `Retarget.RetargetBounds` | live/capture_retarget.py:108-146 | There is an answer at every height, the walk back reaching the first block of the same period and never past the genesis; a retarget moves the target at most fourfold and never above the limit |
| `Retarget.NeverAboveLimit` | live/capture_retarget.py:133-137 | On every chain that obeys the rule no target ever exceeds the limit |
| `Retarget.ConstantWithinPeriod` | live/capture_retarget.py:115-117 | On such a chain the bits are constant within each period of 2016 blocks |
| `Retarget.AtLimitUnchangedIff` | live/capture_retarget.py:119-139 | A retarget from the limit leaves the bits alone exactly when the span of 2015 intervals is at least 1209600 seconds |
| `Retarget.FirstRetarget` | live/capture_retarget.py:7-11 | The published prediction holds of a chain exactly when block 2015 is at least two weeks later than the genesis |
| `Retarget.BoundaryTimesFixBits` | live/capture_retarget.py:119-139 | The first and last timestamp of each period fix the bits of every block |
| `Miner.Le32` | native/mine_sha256d.c:17 | The four shifted bytes are the little-endian number |
| `Miner.SetLe32` | native/mine_sha256d.c:18 | Writes the number in place and leaves the rest of the array alone |
| `Miner.TargetBytes` | native/mine_sha256d.c:25-33 | The byte array holds the integer target of the Python version, for exponents 3 to 32; all others are refused |
| `Miner.LeqLe256` | native/mine_sha256d.c:34-36 | The byte-wise comparison from the top is the comparison of the two integers |
| `Miner.MineHeader` | native/mine_sha256d.c:37-56 | The loop with its 64-bit counters reports what scan_nonces reports, and leaves the found nonce in the header and the other 76 bytes alone |
| `Miner.FirstIsLeast` | ctp/bitcoin_jan09.py:129-139 | The nonce reported is the least of the range that meets the target; none is reported exactly when there is none |
| `Miner.ScanNonces` | ctp/bitcoin_jan09.py:125-139 | The scanning loop returns the least qualifying nonce below 2^32 in its range, and raises where the header, the bits or a negative nonce makes it raise |
| `Miner.TargetsAgree` | ctp/bitcoin_jan09.py:38-41 | Both Python targets agree from exponent 3 on; below it one of them raises |
| `Roughtime.EncodeMessage` | ctp/roughtime.py:43-58 | The loops that accumulate offsets and output compute the specified message |
| `Roughtime.MessageRoundTrip` | ctp/roughtime.py:43-68 | decode_message gives back the tags of every message encode_message produces, the empty one included |
| `Roughtime.EncodesIff` | ctp/roughtime.py:43-58 | encode_message succeeds exactly when the count, every tag and the last value's offset fit in 32 bits |
| `RoughtimeChecks.DecodeIff` | ctp/roughtime.py:61-68 | decode_message returns exactly what the counts, starts and tags of the message say, the last place of a tag counting |
| `RoughtimeChecks.EncodedLayout` | ctp/roughtime.py:43-58 | encode_message writes exactly the given tags with their values, the tags ascending |
| `RoughtimeReply.RequestCarriesNonce` | ctp/roughtime.py:77-81 | A request decodes to the version, the given nonce and zero padding; for a nonce of 32 bytes it is 1024 bytes long |
| `RoughtimeReply.ClimbPath` | ctp/roughtime.py:128-136 | The loop that shifts the index climbs the path chunk by chunk |
| `RoughtimeChecks.ClimbIff` | ctp/roughtime.py:128-136 | The path leads from the hashed nonce to the root: bit k of the index says on which side of the hash before it the k-th sibling is hashed |
| `RoughtimeReply.HonestPathAccepted` | ctp/roughtime.py:128-138 | The honest path of every leaf of a perfect tree of any depth leads to its root; index bits above the depth do not matter |
| `RoughtimeReply.PathBinds` | ctp/roughtime.py:128-138 | Without collisions a path of whatever length leads to the root only if it is the honest path of the leaf the index names modulo the number of leaves |
| `RoughtimeReply.CheckResponse` | ctp/roughtime.py:118-151 | The checks in their order, telling ValueErrors from other exceptions, compute the specified answer |
| `RoughtimeChecks.AcceptedIff` | ctp/roughtime.py:118-151 | A response is accepted with a midpoint and radius exactly when its messages are nested as they should be, the nonce leads to the signed root, the delegated key signed the signed part and the long-term key the delegation, each in its context, and the midpoint lies in the delegation's window |
| `RoughtimeReply.ResponseBindsNonce` | ctp/roughtime.py:118-151 | An accepted response whose signed root is the root of a batch vouches for the one nonce of the batch its index names, with that nonce's own path |
| `RoughtimeReply.ResponseBindsOneNonce` | ctp/roughtime.py:118-151 | Without collisions one response is accepted for one nonce at most, whatever the long-term keys |
| `RoughtimeReply.HonestResponse` | ctp/roughtime.py:118-151 | A response built for a leaf's index and path is accepted or not by its signatures and its window alone |
| `Measurement.ReceiptCovered` | ctp/sandwich.py:103-125 | True time at receipt lies within the claim plus or minus the uncertainty, for every server error within root dispersion plus half root delay and every split of the path delay; all rounding together costs under 4 ps of the 2 ms margin |
| `Measurement.ReceiptTight` | ctp/sandwich.py:103-125 | The claim is no wider than it has to be: some course of the exchange puts true time as late, and another as early, as the uncertainty without the 2 ms margin allows, up to 4 ps |
| `Measurement.FieldsIff` | ctp/sandwich.py:110-119 | The fields are read from the response where RFC 5905 has them |
| `Measurement.RtMiddleCovered` | ctp/roughtime.py:154-164 | The Roughtime claim covers true time half way through the exchange, however the delay is split |
| `Measurement.RtMiddleTight` | ctp/roughtime.py:154-164 | Half a second and the margin are all that the Roughtime claim is wider than it has to be |
| `Measurement.RtReceiptCoveredIff` | ctp/roughtime.py:154-164 | It covers true time at receipt for every split exactly when the round trip is at most about a second |
| `Measurement.EraWithinUncertainty` | ctp/sandwich.py:222-235 | Moving the instant by at most 0.9 s moves the angle by no more than the stated uncertainty, round the circle |
| `Measurement.UncertaintyHoldsIff` | ctp/sandwich.py:212-235 | The stated uncertainty covers the unrounded formula at every UT1 within 0.9 s of UTC exactly when the remainder that the division drops is at most 4755967978096800000000000 |
| `Measurement.ExactWithin` | ctp/sandwich.py:212-235 | Half a nano-turn more than the stated uncertainty always covers it |
| `Measurement.ExactNotWithinUncertainty` | ctp/sandwich.py:217-235 | The stated uncertainty alone does not: an origin, an instant and a UT1 that it leaves out |
| `Sandwich.WalkHeaders` | ctp/sandwich.py:467-489 | The loop over headers stops where a link or a proof of work is wrong and raises where a header cannot be hashed |
| `Sandwich.ReadEvidence` | ctp/sandwich.py:325-387 | The evidence loop, which lowers flags and fills dicts branch by branch, comes to the fold of the readings of all blobs; a blob that cannot be read or whose fields raise lowers two flags, a camera claim that is text, bytes or a list is indexed without a number |
| `Sandwich.MatchObservations` | ctp/sandwich.py:411-451 | The nested loops with their counters and early continues compute the specified tally, raising where it raises: for a cited claim without a number and for a negative uncertainty |
| `Sandwich.HeadersContiguousIff` | ctp/sandwich.py:467-489 | The two walks and the header checks, with C's own target, succeed exactly when B0, path, C and burial are one chain: of each header the hash, read little-endian, is at most the target its bytes 72 to 75 spell, and bytes 4 to 35 are its predecessor's hash |
| `Sandwich.VerifySandwich` | ctp/sandwich.py:290-535 | The report is the specified one. SANDWICH_PASS means exactly: the bundle verifier finds everything in order, the headers are contiguous, all evidence is sound and matched with nothing unchecked, the expectation is right, there is an agreed interval and a block on top of C; INDETERMINATE_TOOLCHAIN means exactly that a signature check was unavailable with none wrong before it |
| `Sandwich.PassIff` | ctp/sandwich.py:507-535 | Some passing verdict is given exactly when verify_bundle would give PASS and the sandwich around block C is sound |
| `Sandwich.PassesAs` | ctp/sandwich.py:507-535 | Which passing verdict it is: by whether there is an agreed interval and whether a block follows C, and the burial reported is the number of those blocks |
| `Sandwich.Ranking` | ctp/sandwich.py:507-535 | The ranking of the other verdicts: an unavailable toolchain over any failure, a failure over unchecked evidence, unchecked evidence over a pass |
| `SandwichBlobs.UnfitFails` | ctp/sandwich.py:325-395 | One blob that does not fit makes the bundle FAIL or INDETERMINATE_TOOLCHAIN. To fit, it names q, the displayed hash of B0 and the session; an NTP blob has the nonce in bytes 40 to 47 of the request and 24 to 31 of the response, mode 4 and a stratum from 1 to 15; a photograph equals the announced, non-empty manifest and claims what can be multiplied; a Roughtime request has the nonce and its response is accepted for it; an external record has the binding tag of its system |
| `SandwichBlobs.PassingFits` | ctp/sandwich.py:325-395 | In a passing bundle every blob fits and its type is implemented or answered for by an extension |
| `SandwichBlobs.PhotographPresent` | ctp/sandwich.py:390-391 | A passing bundle that announces photographs has a photograph |
| `SandwichBlobs.ObservationMeasured` | ctp/sandwich.py:398-457 | In a passing bundle all observations declare one origin, and each that cites no extension's blob has exactly one source, which cites a blob by its digests: the claim shifted to the origin, the uncertainty and the number are what the blob's fields hold, and claim plus and minus uncertainty is the whole interval |
| `SandwichBlobs.ExtensionAsked` | ctp/sandwich.py:418-450 | In a passing bundle every observation that cites an extension's blob cites only that blob, and the extension, asked about both and about the bundle's blobs of its type, each once, answered True |
| `SandwichExpectation.ExpectedIff` | ctp/sandwich.py:222-235 | The expectation is right exactly when it says, in seven entries, the model's name, the declared origin, the middle of the agreed interval, the angle there, 10446 nano-turns, the bound on UT1 and that it is no evidence |
| `PythonEquality.EqualIffSameBytes` | ctp/sandwich.py:342 | The == with which manifests and expectations are compared is, of values that can be encoded and hold no True or False, equality of the encodings; the order of a dict does not count |
| `SandwichProofs.BlockFixesBlobs` | ctp/sandwich.py:4-17 | With one family free of collisions two passing sandwiches around one block C tell of the same observations, and the one blob each observation cites is the same byte string in both |
| `SandwichCounts.PairedIff` | ctp/sandwich.py:411-457 | In a passing bundle without evidence collisions no two observations cite one blob exactly when every blob but the external records is cited and none of them is repeated; the counts alone do not say so |
| `SandwichReplies.ReplyFixesSession` | ctp/sandwich.py:4-10 | A signed Roughtime reply belongs to one session: where nothing hashed on the way collides, one reply accepted in two bundles means the same B0, session id, host and number |
| `SandwichReplies.NtpReplyFixesSession` | ctp/sandwich.py:4-10 | Nor can an NTP reply be carried over, within what eight bytes of a digest can do: where the two exchange messages do not collide there, one reply accepted in two bundles means the same B0, session id, host and number |
| `SandwichComplete.HonestEvidence` | ctp/sandwich.py:82-133 | Any number of honest NTP exchanges, recorded as evidence_blob and ntp_unsigned record them, are read back as sound evidence with every observation matched |
| `SandwichComplete.HonestSandwichPasses` | ctp/sandwich.py:1-17 | The whole procedure ends in a pass: honest exchanges, proper chains, a built and signed checkpoint, a made block C and contiguous headers give a passing verdict, SANDWICH_PASS exactly with an agreed interval and a block on top of C |
| `SandwichExamples.SomeUncited` | ctp/sandwich.py:345-351 | There is a SANDWICH_PASS bundle with a camera blob that nobody cites and whose claimed time is text, two witnesses citing the other blob |
| `SandwichAppend.UnknownBlob` | ctp/sandwich.py:300-306 | When evidence digests do not collide, appending a blob of an unknown type keeps an unavailable toolchain and otherwise gives INDETERMINATE_UNCHECKED_EVIDENCE or FAIL: the former exactly when nothing but S_EVIDENCE_MEASUREMENT failed before, the blob is bound, one blob was missing and every observation not citing this blob alone had been matched; then the verdict before was FAIL |
| `SandwichAppend.PassTurned` | ctp/sandwich.py:304-306 | A passing bundle with such a blob appended is FAIL, not INDETERMINATE_UNCHECKED_EVIDENCE: the blob is counted and nothing cites it |
| `SandwichExamples.SomePassTurns` | ctp/sandwich.py:304-306 | There is such a bundle: SANDWICH_PASS before, FAIL after |
| `SandwichAppend.MeasurementFailureTurned` | ctp/sandwich.py:303-304 | The documented promise fails for S_EVIDENCE_MEASUREMENT: a bundle of one observation that fails only for its missing blob is INDETERMINATE_UNCHECKED_EVIDENCE once the blob is appended |
| `SandwichExamples.SomeFailureTurns` | ctp/sandwich.py:303-304 | There is such a bundle: FAIL before, INDETERMINATE_UNCHECKED_EVIDENCE after |

## Left out

- SHA-256, SHA-512, SHAKE256 and RIPEMD-160 are parameters; their internals are not modelled.
- Post-quantum signatures are an arbitrary function with the outcomes true, false and unavailable; Ed25519 is one that
  may also raise. The OpenSSL calls behind them are not modelled.
- The project genesis check and the protocol genesis id are inputs of the bundle verifier.
- Every exception is `Raised`; only `verify_response` tells its ValueErrors from other exceptions, because its caller
  does.
- Python's recursion limit is not modelled.
- Text is its UTF-8 bytes. Strings that cannot be encoded are bytes that are not UTF-8; floats and other types the
  encoder refuses are not values of the model.
- `from_obj` reads fields of the expected type and raises on others; the code would often fail only later.
- Displayed hashes are compared as bytes in internal order, not as hexadecimal text.
- The `checks` dicts are lists of named results in the order of writing.
- CborProofs.LoadsDumps: tuples are not values of the model. The encoder writes them as lists, also as dict keys; what
  is read back is a list, and as a key it is refused.
- Sandwich.ReadEvidence: extensions are arbitrary functions with four outcomes; the facts they report, `out` and the
  loading of modules are not modelled.
- SandwichComplete.HonestSandwichPasses: is about NTP exchanges; sockets and clocks are not modelled, an exchange is its
  recorded bytes.
- The text after the frame prefix is turned into an integer by a parameter.
- OpenTimestamps: a pending URI is kept as bytes, without the replacement of invalid UTF-8; the sorted views `bitcoin`
  and `pending` are not modelled.
- The native miner's argument parsing and its output text; the header it prints is the array it leaves.
- `SandwichBundle.from_bytes`, `ProtocolGenesis`, signing, sockets, files, scripts, radio drivers, hardware.
- `interval.order`, `Reassembler.pending`, `airtime_estimate_s`, the verdict table of `ctp/binding.py` and
  `ctp/renewal.py`: each settled by reading one branch, or planning aids.
