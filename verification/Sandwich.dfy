/** Offline verification of a reality-sandwich bundle (ctp/sandwich.py). */
module Sandwich {
  import opened Wrappers
  import opened Bytes
  import opened Cbor
  import opened HashSuite
  import opened Records
  import opened Intervals
  import opened Model
  import opened Chains
  import opened Jan09
  import opened Measurement
  import RoughtimeReply
  import Roughtime
  import Verify
  import opened Checklists

  const DOM_SANDWICH_Q: bytes := Ascii("CHRONOLOGY/SANDWICH-CHALLENGE/v1")
  const DOM_SANDWICH_NONCE: bytes := Ascii("CHRONOLOGY/SANDWICH-NONCE/v1")
  const DOM_RT_NONCE: bytes := Ascii("CHRONOLOGY/SANDWICH-RT-NONCE/v1")
  const DOM_EXTBIND: bytes := Ascii("CHRONOLOGY/EXTERNAL-BINDING/v1")
  const NTP: bytes := Ascii("NTP/v4-UDP")
  const CAMERA: bytes := Ascii("CAMERA-PHOTO/v1")
  const ROUGHTIME: bytes := Ascii("ROUGHTIME/v1")
  const EXTERNAL: bytes := Ascii("EXTERNAL-RECORD/v1")
  const FRAME_PREFIX: bytes := Ascii("UTC-PS-ORIGIN-")
  const FRAME_SUFFIX: bytes := Ascii("/v1")

  /** What a supplied extension answers; Broken is any other answer, or an exception. */
  datatype Answer = Yes | No | NotSure | Broken

  type Extension = (Observation, bytes, seq<bytes>) -> Answer

  /** base is what verify_bundle runs against; sha512 is SHA-512 cut to 32 bytes; parseInt is Python's
      int() on text. */
  datatype Env = Env(base: Verify.Env, sha512: bytes -> Hash256, ed: RoughtimeReply.Ed25519,
                     parseInt: bytes -> Result<int>, extensions: map<bytes, Extension>)

  datatype Bundle = Bundle(b0: bytes, session: bytes, evidence: seq<bytes>, history: History,
                           checkpoint: SignedCheckpoint, blockC: bytes, path: seq<bytes>, burial: seq<bytes>,
                           expectation: Value, version: int, manifest: Option<Value>)

  // ---- headers ----

  /** block_hash, in internal byte order. */
  function HeaderHash(dsha: bytes -> Hash256, header: bytes): Result<Hash256> {
    if |header| == 80 then Ok(dsha(header)) else Raised
  }

  /** _header_pow_ok */
  function HeaderPow(dsha: bytes -> Hash256, header: bytes): Result<bool> {
    if |header| != 80 then Raised else
    var target :- TargetFromBits(FromLE(header[72..76]));
    Ok(Work(dsha, header) <= target)
  }

  /** The hash after following headers from prev: None when a link or a proof of work is wrong. */
  function Walk(dsha: bytes -> Hash256, prev: Hash256, headers: seq<bytes>): Result<Option<Hash256>>
    decreases headers
  {
    if headers == [] then Ok(Some(prev)) else
    if Slice(headers[0], 4, 36) != prev then Ok(None) else
    var pow :- HeaderPow(dsha, headers[0]);
    if !pow then Ok(None) else Walk(dsha, dsha(headers[0]), headers[1..])
  }

  method WalkHeaders(dsha: bytes -> Hash256, start: Hash256, headers: seq<bytes>) returns (r: Result<Option<Hash256>>)
    ensures r == Walk(dsha, start, headers)
  {
    hide HeaderPow;
    var prev := start;
    assert headers[0..] == headers;
    for i := 0 to |headers|
      invariant Walk(dsha, start, headers) == Walk(dsha, prev, headers[i..])
    {
      var h := headers[i];
      assert headers[i..][0] == h && headers[i..][1..] == headers[i + 1..];
      if Slice(h, 4, 36) != prev { return Ok(None); }
      var pow := HeaderPow(dsha, h);
      if pow.Raised? { return Raised; }
      if !pow.value { return Ok(None); }
      prev := dsha(h);
    }
    assert headers[|headers|..] == [];
    r := Ok(Some(prev));
  }

  // ---- challenges ----

  /** challenge; the hash is given as displayed, that is reversed. */
  function Challenge(s: Suite, b0Hash: Hash256, session: bytes): Result<Hash256> {
    if |session| != 32 then Raised else Ok(s.sha256(DOM_SANDWICH_Q + [0] + Reverse(b0Hash) + session))
  }

  function ExchangeNonce(s: Suite, q: bytes, host: bytes, sequence: int): Result<bytes> {
    if 0 <= sequence <= 0xFF then Ok(s.sha256(DOM_SANDWICH_NONCE + [0] + q + host + [sequence])[..8]) else Raised
  }

  function RtNonce(sha512: bytes -> Hash256, q: bytes, host: bytes, sequence: int): Result<bytes> {
    if 0 <= sequence <= 0xFF then Ok(sha512(DOM_RT_NONCE + [0] + q + host + [sequence])) else Raised
  }

  function BindingTag(s: Suite, q: bytes, system: bytes): Result<bytes> {
    if system == [] then Raised else Ok(s.sha256(DOM_EXTBIND + [0] + q + system))
  }

  // ---- reading one blob ----

  /** The session a blob has to be bound to: the challenge, B0 as displayed, the session id. */
  datatype Session = Session(q: Hash256, b0: bytes, id: bytes)

  /** What multiplying by a thousand makes of a field: an amount in picoseconds, or a text, byte string or
      list repeated a thousand times. */
  datatype Quantity = Amount(ps: int) | Copies

  datatype Claim = Claim(claimed: Quantity, uncertainty: Quantity)

  datatype Content =
    | Ntp(echoed: bool, sequence: int, measure: Measure)
    | Camera(ok: bool, claim: Result<Claim>)
    | Signed(found: Option<(int, Measure)>)
    | External(ok: bool)
    | ForExtension(name: bytes)
    | Unknown(name: bytes)
    | NotText

  /** content is Raised when the blob's own fields make the verifier raise. */
  datatype Reading = Unreadable | Read(bound: bool, typ: Value, content: Result<Content>)

  /** A number of Python, True and False among them. */
  function Number(v: Value): Result<int> {
    match v
    case Leaf(Int(n)) => Ok(n)
    case Leaf(Bool(b)) => Ok(if b then 1 else 0)
    case _ => Raised
  }

  function GetNumber(o: Value, k: nat): Result<int> {
    var v :- Get(o, k);
    Number(v)
  }

  /** The field times a thousand, which raises for None and for a dict. */
  function GetThousandfold(o: Value, k: nat): Result<Quantity> {
    var v :- Get(o, k);
    match v
    case Leaf(Int(n)) => Ok(Amount(n * 1000))
    case Leaf(Bool(b)) => Ok(Amount(if b then 1000 else 0))
    case Leaf(Raw(_)) => Ok(Copies)
    case Leaf(Text(_)) => Ok(Copies)
    case List(_) => Ok(Copies)
    case _ => Raised
  }

  function Bound(o: Value, s: Session): Result<bool> {
    var q :- Get(o, 10);
    if q != Blob(s.q) then Ok(false) else
    var b0 :- Get(o, 11);
    if b0 != Blob(s.b0) then Ok(false) else
    var id :- Get(o, 12);
    Ok(id == Blob(s.id))
  }

  /** req[40:48], None where it is a slice of something that no byte string equals. */
  function SentNonce(req: Value): Result<Option<bytes>> {
    match req
    case Leaf(Raw(b)) => Ok(Some(Slice(b, 40, 48)))
    case Leaf(Text(_)) => Ok(None)
    case List(_) => Ok(None)
    case _ => Raised
  }

  function NtpContent(s: Suite, q: bytes, o: Value): Result<Content> {
    var host :- GetText(o, 2);
    var sequence :- GetNumber(o, 9);
    var req :- Get(o, 4);
    var sent :- SentNonce(req);
    var resp :- GetBytes(o, 5);
    var n :- ExchangeNonce(s, q, host, sequence);
    var f :- FieldsOf(resp);
    var _ :- Get(o, 3);
    var _ :- Get(o, 8);
    var t1 :- GetNumber(o, 6);
    var t4 :- GetNumber(o, 7);
    Ok(Ntp(sent == Some(n) && Slice(resp, 24, 32) == n && f.mode == 4 && 1 <= f.stratum <= 15,
           sequence, MeasureOf(f, t1, t4)))
  }

  predicate Truthy(v: Value) {
    match v
    case Leaf(Null) => false
    case Leaf(Bool(b)) => b
    case Leaf(Int(n)) => n != 0
    case Leaf(Raw(b)) => b != []
    case Leaf(Text(b)) => b != []
    case List(items) => items != []
    case Dict(es) => es != []
  }

  /** b.photo_manifest or {} */
  function ManifestOf(b: Bundle): Value {
    if b.manifest.Some? && Truthy(b.manifest.value) then b.manifest.value else Dict([])
  }

  /** Python's ==, under which the order of a dict does not count and True equals 1. */
  predicate SameValue(v: Value, w: Value)
    decreases v
  {
    match (v, w)
    case (Leaf(a), Leaf(b)) => SameKey(a, b)
    case (List(x), List(y)) => |x| == |y| && forall i | 0 <= i < |x| :: SameValue(x[i], y[i])
    case (Dict(x), Dict(y)) => |x| == |y| && forall i | 0 <= i < |x| :: HasEqual(x[i], y)
    case _ => false
  }

  predicate HasEqual(e: Entry, es: seq<Entry>)
    decreases e
  {
    exists i | 0 <= i < |es| :: SameKey(e.key, es[i].key) && SameValue(e.value, es[i].value)
  }

  function CameraClaim(o: Value): Result<Claim> {
    var claimed :- GetThousandfold(o, 6);
    var uncertainty :- GetThousandfold(o, 7);
    Ok(Claim(claimed, uncertainty))
  }

  function CameraContent(b: Bundle, o: Value): Result<Content> {
    if b.version < 2 then Ok(Camera(false, CameraClaim(o))) else
    var photos :- Get(o, 2);
    Ok(Camera(SameValue(ManifestOf(b), photos) && Truthy(photos), CameraClaim(o)))
  }

  function SignedContent(env: Env, q: bytes, o: Value): Result<Content> {
    var host :- GetText(o, 2);
    var sequence :- GetNumber(o, 9);
    var n :- RtNonce(env.sha512, q, host, sequence);
    var req :- GetBytes(o, 4);
    var body :- RoughtimeReply.Unframe(req);
    var tags :- Roughtime.Decode(body);
    if RoughtimeReply.Key(tags, RoughtimeReply.T_NONC) != Ok(n) then Ok(Signed(None)) else
    var resp :- GetBytes(o, 5);
    var longterm :- Get(o, 13);
    var verified :- RoughtimeReply.VerifyResponse(env.sha512, env.ed, resp, n, AsBytes(longterm));
    if verified.None? then Ok(Signed(None)) else
    var t1 :- GetNumber(o, 6);
    var t4 :- GetNumber(o, 7);
    Ok(Signed(Some((sequence, DeriveRtMeasurement(verified.value, t1, t4)))))
  }

  function ExternalContent(s: Suite, q: bytes, o: Value): Result<Content> {
    var tag :- Get(o, 4);
    var system :- GetText(o, 2);
    var want :- BindingTag(s, q, system);
    Ok(External(tag == Blob(want)))
  }

  function ContentOf(env: Env, b: Bundle, q: bytes, o: Value, typ: Value): Result<Content> {
    if typ == Str(NTP) then NtpContent(env.base.suite, q, o)
    else if typ == Str(CAMERA) then CameraContent(b, o)
    else if typ == Str(ROUGHTIME) then SignedContent(env, q, o)
    else if typ == Str(EXTERNAL) then ExternalContent(env.base.suite, q, o)
    else match typ
      case Leaf(Text(name)) => Ok(if name in env.extensions then ForExtension(name) else Unknown(name))
      case Leaf(_) => Ok(NotText)
      case _ => Raised   // a list or dict is unhashable
  }

  function ReadBlob(env: Env, b: Bundle, s: Session, blob: bytes): Reading {
    match Loads(blob)
    case Raised => Unreadable
    case Ok(o) =>
      match Bound(o, s)
      case Raised => Unreadable
      case Ok(bound) =>
        match Get(o, 1)
        case Raised => Unreadable
        case Ok(typ) => Read(bound, typ, ContentOf(env, b, s.q, o, typ))
  }

  // ---- reading all evidence ----

  datatype Indexed = Indexed(typ: bytes, sequence: int, claim: Claim)

  function ClaimOf(m: Measure): Claim {
    Claim(Amount(m.claimed), Amount(m.uncertainty))
  }

  datatype Record = Record(key: DigestPair, name: bytes, blob: bytes)

  datatype Flags = Flags(nonce: bool, bind: bool, camera: bool, signed: bool, external: bool,
                         sawCamera: bool, sawSigned: bool, sawExternal: bool, externals: nat)

  /** The flags and dicts that the evidence loop fills; `records` is ext_blobs in insertion order. */
  datatype Evidence = Evidence(flags: Flags, index: map<DigestPair, Indexed>, records: seq<Record>,
                               unchecked: map<DigestPair, bytes>)

  const NOTHING_READ: Evidence :=
    Evidence(Flags(true, true, true, true, true, false, false, false, 0), map[], [], map[])

  function KeyOf(s: Suite, blob: bytes): DigestPair {
    DigestPairOf(s, DOM_EVIDENCE, blob)
  }

  /** ext_blobs[key] = (name, blob) */
  function PutRecord(records: seq<Record>, r: Record): seq<Record> {
    if records == [] then [r]
    else if records[0].key == r.key then [r] + records[1..]
    else [records[0]] + PutRecord(records[1..], r)
  }

  function Seen(f: Flags, typ: Value): Flags {
    if typ == Str(CAMERA) then f.(sawCamera := true)
    else if typ == Str(ROUGHTIME) then f.(sawSigned := true)
    else if typ == Str(EXTERNAL) then f.(sawExternal := true, externals := f.externals + 1)
    else f
  }

  function Failed(f: Flags): Flags {
    f.(nonce := false, bind := false)
  }

  function FlagsAfter(f: Flags, c: Content): Flags {
    match c
    case Ntp(echoed, _, _) => f.(nonce := f.nonce && echoed)
    case Camera(ok, claim) =>
      var f' := f.(camera := f.camera && ok);
      if claim.Raised? then Failed(f') else f'
    case Signed(found) => if found.None? then f.(signed := false) else f
    case External(ok) => f.(external := f.external && ok)
    case NotText => f.(bind := false)
    case _ => f
  }

  /** The entry a content puts in the index. */
  function EntryOf(c: Content): Option<Indexed> {
    match c
    case Ntp(_, sequence, m) => Some(Indexed(NTP, sequence, ClaimOf(m)))
    case Camera(_, Ok(m)) => Some(Indexed(CAMERA, 0, m))
    case Signed(Some(f)) => Some(Indexed(ROUGHTIME, f.0, ClaimOf(f.1)))
    case _ => None
  }

  function IndexAfter(index: map<DigestPair, Indexed>, key: DigestPair, c: Content): map<DigestPair, Indexed> {
    match EntryOf(c) case None => index case Some(entry) => index[key := entry]
  }

  function Add(e: Evidence, key: DigestPair, blob: bytes, c: Content): Evidence {
    Evidence(FlagsAfter(e.flags, c), IndexAfter(e.index, key, c),
             if c.ForExtension? then PutRecord(e.records, Record(key, c.name, blob)) else e.records,
             if c.Unknown? then e.unchecked[key := c.name] else e.unchecked)
  }

  /** One turn of the evidence loop. */
  function Absorb(s: Suite, e: Evidence, blob: bytes, r: Reading): Evidence {
    match r
    case Unreadable => e.(flags := Failed(e.flags))
    case Read(bound, typ, content) =>
      var flags := Seen(e.flags.(bind := e.flags.bind && bound), typ);
      if content.Raised? then e.(flags := Failed(flags))
      else Add(e.(flags := flags), KeyOf(s, blob), blob, content.value)
  }

  function ReadAll(env: Env, b: Bundle, s: Session, blobs: seq<bytes>, e: Evidence): Evidence {
    if blobs == [] then e
    else ReadAll(env, b, s, blobs[1..], Absorb(env.base.suite, e, blobs[0], ReadBlob(env, b, s, blobs[0])))
  }

  lemma SeenCases(f: Flags, typ: Value)
    ensures typ == Str(CAMERA) ==> Seen(f, typ) == f.(sawCamera := true)
    ensures typ != Str(CAMERA) && typ == Str(ROUGHTIME) ==> Seen(f, typ) == f.(sawSigned := true)
    ensures typ != Str(CAMERA) && typ != Str(ROUGHTIME) && typ == Str(EXTERNAL) ==>
      Seen(f, typ) == f.(sawExternal := true, externals := f.externals + 1)
    ensures typ != Str(CAMERA) && typ != Str(ROUGHTIME) && typ != Str(EXTERNAL) ==> Seen(f, typ) == f
  {
    hide Ascii;
  }

  method TakeType(before: Flags, bound: bool, typ: Value) returns (flags: Flags)
    ensures flags == Seen(before.(bind := before.bind && bound), typ)
  {
    hide Ascii, Seen;
    flags := before;
    if !bound { flags := flags.(bind := false); }
    assert flags == before.(bind := before.bind && bound);
    SeenCases(flags, typ);
    if typ == Str(CAMERA) {
      flags := flags.(sawCamera := true);
    } else if typ == Str(ROUGHTIME) {
      flags := flags.(sawSigned := true);
    } else if typ == Str(EXTERNAL) {
      flags := flags.(sawExternal := true, externals := flags.externals + 1);
    }
  }

  /** What the branches do, one by one. */
  lemma AddIs(e: Evidence, key: DigestPair, blob: bytes, c: Content)
    ensures c.Ntp? ==>
      Add(e, key, blob, c) == e.(flags := e.flags.(nonce := e.flags.nonce && c.echoed),
                                 index := e.index[key := Indexed(NTP, c.sequence, ClaimOf(c.measure))])
    ensures c.Camera? && c.claim.Ok? ==>
      Add(e, key, blob, c) == e.(flags := e.flags.(camera := e.flags.camera && c.ok),
                                 index := e.index[key := Indexed(CAMERA, 0, c.claim.value)])
    ensures c.Camera? && c.claim.Raised? ==>
      Add(e, key, blob, c) == e.(flags := Failed(e.flags.(camera := e.flags.camera && c.ok)))
    ensures c.Signed? && c.found.Some? ==>
      var x := c.found.value;
      Add(e, key, blob, c) == e.(index := e.index[key := Indexed(ROUGHTIME, x.0, ClaimOf(x.1))])
    ensures c.Signed? && c.found.None? ==> Add(e, key, blob, c) == e.(flags := e.flags.(signed := false))
    ensures c.External? ==> Add(e, key, blob, c) == e.(flags := e.flags.(external := e.flags.external && c.ok))
    ensures c.ForExtension? ==>
      Add(e, key, blob, c) == e.(records := PutRecord(e.records, Record(key, c.name, blob)))
    ensures c.Unknown? ==> Add(e, key, blob, c) == e.(unchecked := e.unchecked[key := c.name])
    ensures c.NotText? ==> Add(e, key, blob, c) == e.(flags := e.flags.(bind := false))
  {
    hide PutRecord, ClaimOf, Ascii;
  }

  /** What the branch of a blob's type does to flags and dicts. */
  method TakeContent(before: Evidence, key: DigestPair, blob: bytes, c: Content) returns (e: Evidence)
    ensures e == Add(before, key, blob, c)
  {
    hide PutRecord, ClaimOf, Ascii, Add;
    AddIs(before, key, blob, c);
    var flags, index, records, unchecked := before.flags, before.index, before.records, before.unchecked;
    match c {
      case Ntp(echoed, sequence, m) =>
        if !echoed { flags := flags.(nonce := false); }
        index := index[key := Indexed(NTP, sequence, ClaimOf(m))];
      case Camera(ok, claim) =>
        if !ok { flags := flags.(camera := false); }
        if claim.Ok? {
          index := index[key := Indexed(CAMERA, 0, claim.value)];
        } else {
          flags := flags.(nonce := false, bind := false);
        }
      case Signed(Some(f)) => index := index[key := Indexed(ROUGHTIME, f.0, ClaimOf(f.1))];
      case Signed(None) => flags := flags.(signed := false);
      case External(ok) => if !ok { flags := flags.(external := false); }
      case ForExtension(name) => records := PutRecord(records, Record(key, name, blob));
      case Unknown(name) => unchecked := unchecked[key := name];
      case NotText => flags := flags.(bind := false);
    }
    e := Evidence(flags, index, records, unchecked);
  }

  /** The evidence loop. */
  method ReadEvidence(env: Env, b: Bundle, s: Session) returns (e: Evidence)
    ensures e == ReadAll(env, b, s, b.evidence, NOTHING_READ)
  {
    hide ReadBlob, KeyOf, Add, Seen;
    e := NOTHING_READ;
    var blobs := b.evidence;
    assert blobs[0..] == blobs;
    for i := 0 to |blobs|
      invariant ReadAll(env, b, s, blobs, NOTHING_READ) == ReadAll(env, b, s, blobs[i..], e)
    {
      assert blobs[i..][0] == blobs[i] && blobs[i..][1..] == blobs[i + 1..];
      var r, flags := ReadBlob(env, b, s, blobs[i]), e.flags;
      if r.Read? { flags := TakeType(flags, r.bound, r.typ); }
      if r.Unreadable? || r.content.Raised? {
        e := e.(flags := flags.(nonce := false, bind := false));
      } else {
        e := TakeContent(e.(flags := flags), KeyOf(env.base.suite, blobs[i]), blobs[i], r.content.value);
      }
    }
    assert blobs[|blobs|..] == [];
  }

  // ---- matching observations with evidence ----

  /** parse_frame_origin */
  function FrameOrigin(parseInt: bytes -> Result<int>, frame: bytes): Result<int> {
    if Slice(frame, 0, 14) == FRAME_PREFIX && |frame| >= 17 && frame[|frame| - 3..] == FRAME_SUFFIX
    then parseInt(frame[14..|frame| - 3])
    else Raised
  }

  /** The declared origin, if all observations declare the same one. */
  function Origin(parseInt: bytes -> Result<int>, h: History): Option<int> {
    if h == [] || (exists i | 0 <= i < |h| :: h[i].unsigned.frame != h[0].unsigned.frame) then None
    else match FrameOrigin(parseInt, h[0].unsigned.frame) case Raised => None case Ok(o) => Some(o)
  }

  datatype Tally = Tally(meas: bool, matched: nat, unchecked: nat, ext: bool)

  function Cited(u: Observation): set<DigestPair> {
    set x | x in u.sources :: x.evidence
  }

  /** Cites a blob that an extension answers for, or that nobody does. */
  predicate Foreign(e: Evidence, u: Observation) {
    exists x | x in u.sources :: x.evidence in e.unchecked || HasRecord(e.records, x.evidence)
  }

  predicate HasRecord(records: seq<Record>, key: DigestPair) {
    exists i | 0 <= i < |records| :: records[i].key == key
  }

  function RecordAt(records: seq<Record>, key: DigestPair): Record
    requires HasRecord(records, key)
  {
    if records[0].key == key then records[0] else RecordAt(records[1..], key)
  }

  function BlobsNamed(records: seq<Record>, name: bytes): seq<bytes> {
    if records == [] then []
    else (if records[0].name == name then [records[0].blob] else []) + BlobsNamed(records[1..], name)
  }

  /** The record's extension, asked about the observation. */
  function Ask(env: Env, e: Evidence, u: Observation, r: Record): Answer {
    if r.name in env.extensions then env.extensions[r.name](u, r.blob, BlobsNamed(e.records, r.name)) else Broken
  }

  lemma {:induction false} OnlyOne<T>(s: set<T>, x: T, y: T)
    requires |s| == 1 && x in s && y in s
    ensures x == y
  {
    assert |s - {x}| == 0;
    assert s - {x} == {};
  }

  lemma OneCited(e: Evidence, u: Observation)
    requires Foreign(e, u) && |Cited(u)| == 1
    ensures u.sources[0].evidence in e.unchecked || HasRecord(e.records, u.sources[0].evidence)
  {
    hide HasRecord;
    var x :| x in u.sources && (x.evidence in e.unchecked || HasRecord(e.records, x.evidence));
    assert u.sources[0] in u.sources;
    OnlyOne(Cited(u), x.evidence, u.sources[0].evidence);
  }

  function TallyForeign(env: Env, e: Evidence, u: Observation, t: Tally): Tally
    requires Foreign(e, u)
  {
    if |Cited(u)| != 1 then t.(meas := false) else
    var key := u.sources[0].evidence;
    var t' := t.(matched := t.matched + 1);
    OneCited(e, u);
    if key in e.unchecked then t'.(unchecked := t.unchecked + 1)
    else match Ask(env, e, u, RecordAt(e.records, key))
      case Yes => t'
      case NotSure => t'.(unchecked := t.unchecked + 1)
      case _ => t'.(ext := false)
  }

  /** The entry repeats the signed claim of a source in the frame of the given origin. */
  predicate Agrees(entry: Indexed, origin: int, u: Observation, x: Source) {
    && entry.typ == x.sourceType && entry.sequence == u.sequence
    && entry.claim == Claim(Amount(x.claimed + origin * PS), Amount(x.uncertainty))
  }

  function ClaimedSpan(x: Source): Span {
    Span(x.claimed - x.uncertainty, x.claimed + x.uncertainty)
  }

  /** One source of a natively checked observation; a claim without a number raises, and so does Interval()
      on a negative uncertainty. */
  function TallySource(e: Evidence, origin: Option<int>, u: Observation, x: Source, t: Tally): Result<Tally> {
    if x.evidence !in e.index || origin.None? then Ok(t.(meas := false)) else
    var entry := e.index[x.evidence];
    if entry.claim.claimed.Copies? then Raised else
    var t' := t.(matched := t.matched + 1);
    if !Agrees(entry, origin.value, u, x) then Ok(t'.(meas := false))
    else if x.uncertainty < 0 then Raised
    else Ok(t'.(meas := t.meas && u.interval == ClaimedSpan(x)))
  }

  function TallySources(e: Evidence, origin: Option<int>, u: Observation, xs: seq<Source>, t: Tally): Result<Tally> {
    if xs == [] then Ok(t) else
    var t' :- TallySource(e, origin, u, xs[0], t);
    TallySources(e, origin, u, xs[1..], t')
  }

  function TallyOne(env: Env, e: Evidence, origin: Option<int>, u: Observation, t: Tally): Result<Tally> {
    if Foreign(e, u) then Ok(TallyForeign(env, e, u, t)) else TallySources(e, origin, u, u.sources, t)
  }

  function TallyAll(env: Env, e: Evidence, origin: Option<int>, h: History, t: Tally): Result<Tally> {
    if h == [] then Ok(t) else
    var t' :- TallyOne(env, e, origin, h[0].unsigned, t);
    TallyAll(env, e, origin, h[1..], t')
  }

  function NewTally(origin: Option<int>): Tally {
    Tally(origin.Some?, 0, 0, true)
  }

  method MatchSources(e: Evidence, origin: Option<int>, u: Observation, before: Tally) returns (r: Result<Tally>)
    ensures r == TallySources(e, origin, u, u.sources, before)
  {
    var meas, matched, xs := before.meas, before.matched, u.sources;
    assert xs[0..] == xs;
    for i := 0 to |xs|
      invariant TallySources(e, origin, u, xs, before)
             == TallySources(e, origin, u, xs[i..], before.(meas := meas, matched := matched))
    {
      assert xs[i..][0] == xs[i] && xs[i..][1..] == xs[i + 1..];
      var key := xs[i].evidence;
      if key !in e.index || origin.None? {
        meas := false;
        continue;
      }
      var entry := e.index[key];
      if entry.claim.claimed.Copies? { return Raised; }
      if !Agrees(entry, origin.value, u, xs[i]) {
        meas := false;
      } else if xs[i].uncertainty < 0 {
        return Raised;
      } else if u.interval != ClaimedSpan(xs[i]) {
        meas := false;
      }
      matched := matched + 1;
    }
    assert xs[|xs|..] == [];
    r := Ok(before.(meas := meas, matched := matched));
  }

  /** The loop over the observations. */
  method MatchObservations(env: Env, e: Evidence, origin: Option<int>, h: History) returns (r: Result<Tally>)
    ensures r == TallyAll(env, e, origin, h, NewTally(origin))
  {
    hide TallySources, Foreign, Ask, RecordAt, HasRecord;
    var meas, matched, unchecked, ext := origin.Some?, 0, 0, true;
    assert h[0..] == h;
    for i := 0 to |h|
      invariant TallyAll(env, e, origin, h, NewTally(origin))
             == TallyAll(env, e, origin, h[i..], Tally(meas, matched, unchecked, ext))
    {
      assert h[i..][0] == h[i] && h[i..][1..] == h[i + 1..];
      var u := h[i].unsigned;
      ghost var before := Tally(meas, matched, unchecked, ext);
      if Foreign(e, u) {
        if |Cited(u)| != 1 {
          meas := false;
        } else {
          var key := u.sources[0].evidence;
          matched := matched + 1;
          OneCited(e, u);
          if key in e.unchecked {
            unchecked := unchecked + 1;
          } else {
            var answer := Ask(env, e, u, RecordAt(e.records, key));
            if answer == NotSure { unchecked := unchecked + 1; } else if answer != Yes { ext := false; }
          }
        }
        assert Tally(meas, matched, unchecked, ext) == TallyForeign(env, e, u, before);
      } else {
        var next := MatchSources(e, origin, u, Tally(meas, matched, unchecked, ext));
        if next.Raised? {
          assert TallyOne(env, e, origin, u, before).Raised?;
          return Raised;
        }
        meas, matched, unchecked, ext := next.value.meas, next.value.matched, next.value.unchecked, next.value.ext;
      }
      assert TallyOne(env, e, origin, u, before) == Ok(Tally(meas, matched, unchecked, ext));
    }
    assert h[|h|..] == [];
    r := Ok(Tally(meas, matched, unchecked, ext));
  }

  // ---- the verdict ----

  datatype CheckName =
    | S_B0_POW | S_NONCE_ECHO | S_CHALLENGE_BINDING | S_CAMERA_BINDING | S_ROUGHTIME_SIGNATURES
    | S_EXTERNAL_RECORD_BINDING | S_EVIDENCE_MEASUREMENT | S_EXTENSION_EVIDENCE | S_UNCHECKED_EVIDENCE
    | Core(name: Verify.CheckName) | S_LINKAGE_B0_TO_C | S_B1_CHAIN_VALID | S_EXPECTATION_RECOMPUTED

  datatype Status = Pass | Fail | Unavailable | NotChecked | NotApplicable

  /** The `checks` dict: its items in the order they are written, each name once. */
  type Checks = seq<(CheckName, Status)>

  datatype Verdict =
    | INDETERMINATE_TOOLCHAIN | FAIL | INDETERMINATE_UNCHECKED_EVIDENCE
    | SANDWICH_PASS_NO_TIME_CONSENSUS | SANDWICH_PASS_NO_TIME_CONSENSUS_UNBURIED
    | SANDWICH_PASS | SANDWICH_PASS_UNBURIED

  function Flag(ok: bool): Status {
    if ok then Pass else Fail
  }

  function When(present: bool, name: CheckName, ok: bool): Checks {
    if present then [(name, Flag(ok))] else []
  }

  function FromCore(core: Verify.Checks): (r: Checks)
    ensures |r| == |core|
    ensures forall i | 0 <= i < |core| :: r[i] == (Core(core[i].0), StatusOf(core[i].1))
  {
    if core == [] then [] else [(Core(core[0].0), StatusOf(core[0].1))] + FromCore(core[1..])
  }

  function StatusOf(c: Verify.Check): Status {
    match c case Pass => Pass case Fail => Fail case Unavailable => Unavailable
  }

  /** saw_camera or (b.version >= 2 and b.photo_manifest) */
  predicate CameraExpected(b: Bundle, e: Evidence) {
    e.flags.sawCamera || (b.version >= 2 && ManifestOf(b) != Dict([]))
  }

  function EvidenceChecks(b: Bundle, e: Evidence): Checks {
    [(S_NONCE_ECHO, Flag(e.flags.nonce)), (S_CHALLENGE_BINDING, Flag(e.flags.bind))]
    + When(CameraExpected(b, e), S_CAMERA_BINDING, e.flags.camera && e.flags.sawCamera)
    + When(e.flags.sawSigned, S_ROUGHTIME_SIGNATURES, e.flags.signed)
    + When(e.flags.sawExternal, S_EXTERNAL_RECORD_BINDING, e.flags.external)
  }

  /** ok_meas and matched == measurable == len(b.history) */
  predicate Measured(b: Bundle, e: Evidence, t: Tally) {
    t.meas && t.matched == |b.evidence| - e.flags.externals == |b.history|
  }

  predicate AnyUnchecked(e: Evidence, t: Tally) {
    e.unchecked != map[] || t.unchecked > 0
  }

  function MatchChecks(b: Bundle, e: Evidence, t: Tally): Checks {
    [(S_EVIDENCE_MEASUREMENT, Flag(Measured(b, e, t)))]
    + When(e.records != [], S_EXTENSION_EVIDENCE, t.ext)
    + (if AnyUnchecked(e, t) then [(S_UNCHECKED_EVIDENCE, NotChecked)] else [])
  }

  /** The expectation a bundle should carry. */
  function EraObj(e: Era): Value {
    Records.Record([Str(Ascii("ERA-IAU2000/v1")), Num(e.origin), Num(e.mid), Num(e.nano), Num(e.uncertainty),
                    Num(DUT1_BOUND_PS), Str(Ascii("EXPECTATION_NOT_EVIDENCE"))])
  }

  predicate Expected(b: Bundle, origin: Option<int>, i: Interval) {
    origin.Some? && SameValue(EraObj(EraExpectation(origin.value, (i.lower + i.upper) / 2)), b.expectation)
  }

  function ExpectationStatus(b: Bundle, origin: Option<int>): Status {
    match b.checkpoint.unsigned.interval
    case None => NotApplicable
    case Some(i) => Flag(Expected(b, origin, i))
  }

  predicate Any(checks: Checks, s: Status) {
    exists i | 0 <= i < |checks| :: checks[i].1 == s
  }

  function VerdictOf(checks: Checks, timed: bool, burial: nat): Verdict {
    if Any(checks, Unavailable) then INDETERMINATE_TOOLCHAIN
    else if Any(checks, Fail) then FAIL
    else if Any(checks, NotChecked) then INDETERMINATE_UNCHECKED_EVIDENCE
    else if !timed then
      if burial >= 1 then SANDWICH_PASS_NO_TIME_CONSENSUS else SANDWICH_PASS_NO_TIME_CONSENSUS_UNBURIED
    else if burial >= 1 then SANDWICH_PASS
    else SANDWICH_PASS_UNBURIED
  }

  datatype Report = Report(checks: Checks, verdict: Verdict, burial: nat)

  /** What the evidence of a bundle amounts to. */
  datatype Finding = Finding(e: Evidence, origin: Option<int>, t: Tally)

  function SessionOf(env: Env, b: Bundle): Result<Session> {
    var hash :- HeaderHash(env.base.dsha, Slice(b.b0, 0, 80));
    var q :- Challenge(env.base.suite, hash, b.session);
    Ok(Session(q, Reverse(hash), b.session))
  }

  function Find(env: Env, b: Bundle): Result<Finding> {
    var s :- SessionOf(env, b);
    var e := ReadAll(env, b, s, b.evidence, NOTHING_READ);
    var origin := Origin(env.parseInt, b.history);
    var t :- TallyAll(env, e, origin, b.history, NewTally(origin));
    Ok(Finding(e, origin, t))
  }

  function AllChecks(b: Bundle, b0Pow: bool, f: Finding, core: Verify.Checks, linked: bool, buried: bool): Checks {
    [(S_B0_POW, Flag(b0Pow))]
    + EvidenceChecks(b, f.e)
    + MatchChecks(b, f.e, f.t)
    + FromCore(core)
    + [(S_LINKAGE_B0_TO_C, Flag(linked)), (S_B1_CHAIN_VALID, Flag(buried))]
    + [(S_EXPECTATION_RECOMPUTED, ExpectationStatus(b, f.origin))]
  }

  /** The checks of verify_bundle on the evidence around block C. */
  function CoreChecks(env: Env, b: Bundle): Result<Verify.Checks> {
    Verify.BundleChecks(env.base, b.history, b.checkpoint, Some(b.blockC), None)
  }

  /** Everything verify_sandwich does around the checks of verify_bundle. */
  function Surround(env: Env, b: Bundle, core: Verify.Checks): Result<Report> {
    var dsha := env.base.dsha;
    var b0 :- HeaderHash(dsha, Slice(b.b0, 0, 80));
    var b0Pow :- HeaderPow(dsha, Slice(b.b0, 0, 80));
    var f :- Find(env, b);
    var end :- Walk(dsha, b0, b.path);
    var c :- HeaderHash(dsha, Slice(b.blockC, 0, 80));
    var top :- Walk(dsha, c, b.burial);
    var linked := end.Some? && Slice(Slice(b.blockC, 0, 80), 4, 36) == end.value;
    var burial := if top.Some? then |b.burial| else 0;
    var checks := AllChecks(b, b0Pow, f, core, linked, top.Some?);
    Ok(Report(checks, VerdictOf(checks, b.checkpoint.unsigned.interval.Some?, burial), burial))
  }

  /** What verify_sandwich reports. */
  function Judge(env: Env, b: Bundle): Result<Report> {
    hide Surround, CoreChecks;
    var core :- CoreChecks(env, b);
    Surround(env, b, core)
  }

  // ---- what a pass means ----


  ghost predicate FollowsFrom(dsha: bytes -> Hash256, prev: bytes, header: bytes) {
    |header| == 80 && header[4..36] == dsha(prev)
  }

  /** Every header meets its own target and, but for the first, carries its predecessor's hash. */
  ghost predicate Contiguous(dsha: bytes -> Hash256, headers: seq<bytes>) {
    && (forall i | 0 <= i < |headers| :: ProvesWork(dsha, headers[i]))
    && (forall i | 0 < i < |headers| :: FollowsFrom(dsha, headers[i - 1], headers[i]))
  }

  /** All headers of a bundle: B0, the path, C, and what buries C. */
  function Headers(b: Bundle): seq<bytes> {
    [Slice(b.b0, 0, 80)] + b.path + [Slice(b.blockC, 0, 80)] + b.burial
  }

  /** Every blob is bound to the session and sound, every observation is matched, nothing is unchecked. */
  ghost predicate EvidenceSound(b: Bundle, f: Finding) {
    && f.e.flags.nonce && f.e.flags.bind
    && (CameraExpected(b, f.e) ==> f.e.flags.camera && f.e.flags.sawCamera)
    && (f.e.flags.sawSigned ==> f.e.flags.signed) && (f.e.flags.sawExternal ==> f.e.flags.external)
    && Measured(b, f.e, f.t) && (f.e.records != [] ==> f.t.ext)
    && !AnyUnchecked(f.e, f.t)
  }

  /** The bundle's own part of a pass; the rest is what verify_bundle checks. */
  ghost predicate Sound(env: Env, b: Bundle) {
    && Contiguous(env.base.dsha, Headers(b))
    && Find(env, b).Ok? && EvidenceSound(b, Find(env, b).value)
    && (b.checkpoint.unsigned.interval.Some? ==>
          Expected(b, Find(env, b).value.origin, b.checkpoint.unsigned.interval.value))
  }

  ghost predicate BundleHolds(env: Env, b: Bundle) {
    && Verify.EvidenceHolds(env.base, b.history, b.checkpoint)
    && Verify.Anchored(env.base, b.checkpoint, b.blockC, None)
    && Verify.Worked(env.base, b.blockC)
  }

  type Check = (CheckName, Status)

  predicate Unclean(c: Check) {
    c.1 != Pass && c.1 != NotApplicable
  }

  predicate IsUnavailable(c: Check) {
    c.1 == Unavailable
  }

  predicate IsFailure(c: Check) {
    c.1 == Fail
  }

  predicate IsUncheckedMark(c: Check) {
    c.1 == NotChecked
  }

  predicate Passing(v: Verdict) {
    || v == SANDWICH_PASS || v == SANDWICH_PASS_UNBURIED
    || v == SANDWICH_PASS_NO_TIME_CONSENSUS || v == SANDWICH_PASS_NO_TIME_CONSENSUS_UNBURIED
  }

  lemma PassingIffClean(checks: Checks, timed: bool, burial: nat)
    ensures Passing(VerdictOf(checks, timed, burial)) <==> Lacks(checks, Unclean)
    ensures Lacks(checks, Unclean) ==> (VerdictOf(checks, timed, burial) == SANDWICH_PASS <==> timed && burial >= 1)
  {
    if !Lacks(checks, Unclean) {
      var i :| 0 <= i < |checks| && Unclean(checks[i]);
    }
  }

  lemma LacksWhen(present: bool, name: CheckName, ok: bool, bad: Check -> bool)
    ensures Lacks(When(present, name, ok), bad) <==> (present ==> !bad((name, Flag(ok))))
  {
    LacksOne((name, Flag(ok)), bad);
  }

  ghost predicate EvidenceLacks(b: Bundle, e: Evidence, bad: Check -> bool) {
    && !bad((S_NONCE_ECHO, Flag(e.flags.nonce))) && !bad((S_CHALLENGE_BINDING, Flag(e.flags.bind)))
    && (CameraExpected(b, e) ==> !bad((S_CAMERA_BINDING, Flag(e.flags.camera && e.flags.sawCamera))))
    && (e.flags.sawSigned ==> !bad((S_ROUGHTIME_SIGNATURES, Flag(e.flags.signed))))
    && (e.flags.sawExternal ==> !bad((S_EXTERNAL_RECORD_BINDING, Flag(e.flags.external))))
  }

  ghost predicate MatchLacks(b: Bundle, e: Evidence, t: Tally, bad: Check -> bool) {
    && !bad((S_EVIDENCE_MEASUREMENT, Flag(Measured(b, e, t))))
    && (e.records != [] ==> !bad((S_EXTENSION_EVIDENCE, Flag(t.ext))))
    && (AnyUnchecked(e, t) ==> !bad((S_UNCHECKED_EVIDENCE, NotChecked)))
  }

  lemma LacksEvidence(b: Bundle, e: Evidence, bad: Check -> bool)
    ensures Lacks(EvidenceChecks(b, e), bad) <==> EvidenceLacks(b, e, bad)
  {
    hide Lacks, When, CameraExpected, Flag;
    var nonce: Checks := [(S_NONCE_ECHO, Flag(e.flags.nonce))];
    var bind: Checks := [(S_CHALLENGE_BINDING, Flag(e.flags.bind))];
    var camera := When(CameraExpected(b, e), S_CAMERA_BINDING, e.flags.camera && e.flags.sawCamera);
    var signed := When(e.flags.sawSigned, S_ROUGHTIME_SIGNATURES, e.flags.signed);
    var external := When(e.flags.sawExternal, S_EXTERNAL_RECORD_BINDING, e.flags.external);
    assert EvidenceChecks(b, e) == nonce + bind + camera + signed + external;
    LacksConcat(nonce, bind, bad);
    LacksConcat(nonce + bind, camera, bad);
    LacksConcat(nonce + bind + camera, signed, bad);
    LacksConcat(nonce + bind + camera + signed, external, bad);
    LacksOne((S_NONCE_ECHO, Flag(e.flags.nonce)), bad);
    LacksOne((S_CHALLENGE_BINDING, Flag(e.flags.bind)), bad);
    LacksWhen(CameraExpected(b, e), S_CAMERA_BINDING, e.flags.camera && e.flags.sawCamera, bad);
    LacksWhen(e.flags.sawSigned, S_ROUGHTIME_SIGNATURES, e.flags.signed, bad);
    LacksWhen(e.flags.sawExternal, S_EXTERNAL_RECORD_BINDING, e.flags.external, bad);
  }

  lemma LacksMatch(b: Bundle, e: Evidence, t: Tally, bad: Check -> bool)
    ensures Lacks(MatchChecks(b, e, t), bad) <==> MatchLacks(b, e, t, bad)
  {
    hide Lacks, When, Measured, AnyUnchecked, Flag;
    var m: Checks := [(S_EVIDENCE_MEASUREMENT, Flag(Measured(b, e, t)))];
    var x := When(e.records != [], S_EXTENSION_EVIDENCE, t.ext);
    var u: Checks := if AnyUnchecked(e, t) then [(S_UNCHECKED_EVIDENCE, NotChecked)] else [];
    LacksConcat(m, x, bad);
    LacksConcat(m + x, u, bad);
    LacksOne((S_EVIDENCE_MEASUREMENT, Flag(Measured(b, e, t))), bad);
    LacksWhen(e.records != [], S_EXTENSION_EVIDENCE, t.ext, bad);
    LacksOne((S_UNCHECKED_EVIDENCE, NotChecked), bad);
  }

  /** The whole list of checks, looked through for one kind of check. */
  lemma LacksAll(b: Bundle, b0Pow: bool, f: Finding, core: Verify.Checks, linked: bool, buried: bool,
                 bad: Check -> bool)
    ensures Lacks(AllChecks(b, b0Pow, f, core, linked, buried), bad) <==>
              && !bad((S_B0_POW, Flag(b0Pow)))
              && EvidenceLacks(b, f.e, bad) && MatchLacks(b, f.e, f.t, bad) && Lacks(FromCore(core), bad)
              && !bad((S_LINKAGE_B0_TO_C, Flag(linked))) && !bad((S_B1_CHAIN_VALID, Flag(buried)))
              && !bad((S_EXPECTATION_RECOMPUTED, ExpectationStatus(b, f.origin)))
  {
    hide Lacks, EvidenceChecks, MatchChecks, ExpectationStatus, EvidenceLacks, MatchLacks, Flag;
    var p: Checks := [(S_B0_POW, Flag(b0Pow))];
    var e, m, c := EvidenceChecks(b, f.e), MatchChecks(b, f.e, f.t), FromCore(core);
    var l: Checks, u: Checks := [(S_LINKAGE_B0_TO_C, Flag(linked))], [(S_B1_CHAIN_VALID, Flag(buried))];
    var x: Checks := [(S_EXPECTATION_RECOMPUTED, ExpectationStatus(b, f.origin))];
    assert AllChecks(b, b0Pow, f, core, linked, buried) == p + e + m + c + (l + u) + x;
    LacksConcat(p, e, bad);
    LacksConcat(p + e, m, bad);
    LacksConcat(p + e + m, c, bad);
    LacksConcat(l, u, bad);
    LacksConcat(p + e + m + c, l + u, bad);
    LacksConcat(p + e + m + c + (l + u), x, bad);
    LacksOne((S_B0_POW, Flag(b0Pow)), bad);
    LacksEvidence(b, f.e, bad);
    LacksMatch(b, f.e, f.t, bad);
    LacksOne((S_LINKAGE_B0_TO_C, Flag(linked)), bad);
    LacksOne((S_B1_CHAIN_VALID, Flag(buried)), bad);
    LacksOne((S_EXPECTATION_RECOMPUTED, ExpectationStatus(b, f.origin)), bad);
  }

  lemma CleanCore(core: Verify.Checks)
    ensures Lacks(FromCore(core), Unclean) <==> Lacks(core, Verify.NotPassed)
    ensures Lacks(FromCore(core), IsUnavailable) <==> Lacks(core, Verify.IsUnavailable)
    ensures Lacks(FromCore(core), IsUncheckedMark)
  {
    var r := FromCore(core);
    forall i | 0 <= i < |core|
      ensures Unclean(r[i]) <==> Verify.NotPassed(core[i])
      ensures IsUnavailable(r[i]) <==> Verify.IsUnavailable(core[i])
    {}
    if Lacks(r, Unclean) {
      forall i | 0 <= i < |core| ensures !Verify.NotPassed(core[i]) { assert !Unclean(r[i]); }
    }
    if Lacks(r, IsUnavailable) {
      forall i | 0 <= i < |core| ensures !Verify.IsUnavailable(core[i]) { assert !IsUnavailable(r[i]); }
    }
  }

  lemma CleanAll(b: Bundle, b0Pow: bool, f: Finding, core: Verify.Checks, linked: bool, buried: bool)
    ensures Lacks(AllChecks(b, b0Pow, f, core, linked, buried), Unclean) <==>
              && b0Pow && EvidenceSound(b, f) && Lacks(core, Verify.NotPassed) && linked && buried
              && (b.checkpoint.unsigned.interval.Some? ==> Expected(b, f.origin, b.checkpoint.unsigned.interval.value))
  {
    hide Lacks, AllChecks, Expected, Measured, CameraExpected, AnyUnchecked;
    LacksAll(b, b0Pow, f, core, linked, buried, Unclean);
    CleanCore(core);
  }

  /** Only the bundle verifier's checks can be unavailable, only the evidence can be unchecked. */
  lemma MarksAll(b: Bundle, b0Pow: bool, f: Finding, core: Verify.Checks, linked: bool, buried: bool)
    ensures Lacks(AllChecks(b, b0Pow, f, core, linked, buried), IsUnavailable) <==> Lacks(core, Verify.IsUnavailable)
    ensures Lacks(AllChecks(b, b0Pow, f, core, linked, buried), IsUncheckedMark) <==> !AnyUnchecked(f.e, f.t)
  {
    hide Lacks, AllChecks, Expected, Measured, CameraExpected, AnyUnchecked;
    LacksAll(b, b0Pow, f, core, linked, buried, IsUnavailable);
    LacksAll(b, b0Pow, f, core, linked, buried, IsUncheckedMark);
    CleanCore(core);
  }

  lemma VerdictIffs(checks: Checks, timed: bool, burial: nat)
    ensures var v := VerdictOf(checks, timed, burial);
      && (v == INDETERMINATE_TOOLCHAIN <==> !Lacks(checks, IsUnavailable))
      && (v == FAIL <==> Lacks(checks, IsUnavailable) && !Lacks(checks, IsFailure))
      && (v == INDETERMINATE_UNCHECKED_EVIDENCE <==>
            Lacks(checks, IsUnavailable) && Lacks(checks, IsFailure) && !Lacks(checks, IsUncheckedMark))
  {
  }

  // ---- walks and contiguous headers ----

  /** A walk succeeds exactly on contiguous headers, and ends at the hash of the last. */
  lemma {:induction false} WalkIff(dsha: bytes -> Hash256, prev: bytes, headers: seq<bytes>)
    requires ProvesWork(dsha, prev)
    ensures var w := Walk(dsha, dsha(prev), headers);
            var all := [prev] + headers;
            && (w.Ok? && w.value.Some? <==> Contiguous(dsha, all))
            && (w.Ok? && w.value.Some? ==> w.value.value == dsha(all[|all| - 1]))
    decreases headers
  {
    hide HeaderPow, Slice, ProvesWork;
    if headers == [] {
      assert [prev] + headers == [prev];
    } else {
      var h := headers[0];
      assert [h] + headers[1..] == headers;
      ContiguousHead(dsha, prev, headers);
      LinkedIff(dsha, prev, h);
      PowIff(dsha, h);
      if FollowsFrom(dsha, prev, h) && ProvesWork(dsha, h) { WalkIff(dsha, h, headers[1..]); }
    }
  }

  lemma PowIff(dsha: bytes -> Hash256, h: bytes)
    ensures ProvesWork(dsha, h) <==> HeaderPow(dsha, h).Ok? && HeaderPow(dsha, h).value
  {
    hide FromLE, TargetFromBits, Work;
    if |h| == 80 { WorkIff(dsha, h); }
  }

  lemma LinkedIff(dsha: bytes -> Hash256, prev: bytes, h: bytes)
    ensures FollowsFrom(dsha, prev, h) <==> |h| == 80 && Slice(h, 4, 36) == dsha(prev)
    ensures HeaderPow(dsha, h).Ok? ==> |h| == 80
  {
  }

  lemma ContiguousHead(dsha: bytes -> Hash256, prev: bytes, headers: seq<bytes>)
    requires headers != [] && ProvesWork(dsha, prev)
    ensures Contiguous(dsha, [prev] + headers) <==> FollowsFrom(dsha, prev, headers[0]) && Contiguous(dsha, headers)
  {
    hide ProvesWork, FollowsFrom;
    var all := [prev] + headers;
    forall i | 0 <= i < |headers| ensures all[i + 1] == headers[i] {}
    if Contiguous(dsha, all) {
      assert FollowsFrom(dsha, all[1 - 1], all[1]);
      forall i | 0 <= i < |headers| ensures ProvesWork(dsha, headers[i]) { assert ProvesWork(dsha, all[i + 1]); }
      forall i | 0 < i < |headers| ensures FollowsFrom(dsha, headers[i - 1], headers[i]) {
        assert FollowsFrom(dsha, all[i + 1 - 1], all[i + 1]);
      }
    }
    if FollowsFrom(dsha, prev, headers[0]) && Contiguous(dsha, headers) {
      forall i | 0 < i < |all| ensures FollowsFrom(dsha, all[i - 1], all[i]) {
        if i > 1 { assert FollowsFrom(dsha, headers[i - 1 - 1], headers[i - 1]); }
      }
    }
  }

  lemma ContiguousJoin(dsha: bytes -> Hash256, a: seq<bytes>, c: seq<bytes>)
    requires a != [] && c != []
    ensures Contiguous(dsha, a + c)
       <==> Contiguous(dsha, a) && Contiguous(dsha, c) && FollowsFrom(dsha, a[|a| - 1], c[0])
  {
    hide ProvesWork, FollowsFrom;
    var all := a + c;
    forall i | 0 <= i < |a| ensures all[i] == a[i] {}
    forall i | 0 <= i < |c| ensures all[|a| + i] == c[i] {}
    if Contiguous(dsha, all) {
      assert FollowsFrom(dsha, all[|a| - 1], all[|a|]);
      forall i | 0 <= i < |a| ensures ProvesWork(dsha, a[i]) { assert ProvesWork(dsha, all[i]); }
      forall i | 0 <= i < |c| ensures ProvesWork(dsha, c[i]) { assert ProvesWork(dsha, all[|a| + i]); }
      forall i | 0 < i < |a| ensures FollowsFrom(dsha, a[i - 1], a[i]) { assert FollowsFrom(dsha, all[i - 1], all[i]); }
      forall i | 0 < i < |c| ensures FollowsFrom(dsha, c[i - 1], c[i]) {
        assert FollowsFrom(dsha, all[|a| + i - 1], all[|a| + i]);
      }
    }
    if Contiguous(dsha, a) && Contiguous(dsha, c) && FollowsFrom(dsha, a[|a| - 1], c[0]) {
      forall i | 0 <= i < |all| ensures ProvesWork(dsha, all[i]) {
        if i >= |a| { assert all[i] == c[i - |a|]; }
      }
      forall i | 0 < i < |all| ensures FollowsFrom(dsha, all[i - 1], all[i]) {
        if i < |a| { assert FollowsFrom(dsha, a[i - 1], a[i]); }
        if i > |a| { assert FollowsFrom(dsha, c[i - |a| - 1], c[i - |a|]); }
      }
    }
  }

  /** The two walks and the header checks, C's own target among them, say that all headers are contiguous. */
  lemma HeadersContiguousIff(dsha: bytes -> Hash256, b: Bundle)
    ensures var b0, c := Slice(b.b0, 0, 80), Slice(b.blockC, 0, 80);
            Contiguous(dsha, Headers(b)) <==>
              && |b0| == 80 && ProvesWork(dsha, b0) && ProvesWork(dsha, c)
              && var end, top := Walk(dsha, dsha(b0), b.path), Walk(dsha, dsha(c), b.burial);
                 end.Ok? && end.value.Some? && Slice(c, 4, 36) == end.value.value && top.Ok? && top.value.Some?
  {
    hide HeaderPow, Walk, Slice, Contiguous, ProvesWork;
    var b0, c := Slice(b.b0, 0, 80), Slice(b.blockC, 0, 80);
    var low, high := [b0] + b.path, [c] + b.burial;
    assert Headers(b) == low + high;
    ContiguousJoin(dsha, low, high);
    LinkedIff(dsha, b0, b0);
    LinkedIff(dsha, low[|low| - 1], c);
    FirstMeets(dsha, low);
    FirstMeets(dsha, high);
    if ProvesWork(dsha, b0) && ProvesWork(dsha, c) {
      WalkIff(dsha, c, b.burial);
      WalkIff(dsha, b0, b.path);
    }
  }

  lemma FirstMeets(dsha: bytes -> Hash256, headers: seq<bytes>)
    requires headers != []
    ensures Contiguous(dsha, headers) ==> ProvesWork(dsha, headers[0])
  {
  }

  lemma WorkedMeets(env: Env, b: Bundle)
    requires Verify.Worked(env.base, b.blockC)
    ensures ProvesWork(env.base.dsha, Slice(b.blockC, 0, 80)) && |Slice(b.blockC, 0, 80)| == 80
  {
    hide ProvesWork;
    assert Slice(b.blockC, 0, 80) == b.blockC[..80];
  }

  /** Given a block with its work, the sandwich passes exactly when its own part is sound and every check
      of the bundle verifier is; it is a full pass exactly when there is also an agreed interval and a
      block on top of C. */
  lemma SurroundPasses(env: Env, b: Bundle, core: Verify.Checks)
    requires Verify.Worked(env.base, b.blockC)
    ensures Surround(env, b, core).Ok? && Passing(Surround(env, b, core).value.verdict)
       <==> Sound(env, b) && Lacks(core, Verify.NotPassed)
    ensures Surround(env, b, core).Ok? && Surround(env, b, core).value.verdict == SANDWICH_PASS
       <==> Sound(env, b) && Lacks(core, Verify.NotPassed) && b.checkpoint.unsigned.interval.Some? && b.burial != []
  {
    hide HeaderPow, Walk, Slice, Contiguous, AllChecks, VerdictOf, Lacks, EvidenceSound, Expected, Verify.Worked, Find,
         ProvesWork, Passing;
    WorkedMeets(env, b);
    var dsha := env.base.dsha;
    var b0, c := Slice(b.b0, 0, 80), Slice(b.blockC, 0, 80);
    HeadersContiguousIff(dsha, b);
    PowIff(dsha, b0);
    Kinds();
    if |b0| == 80 && HeaderPow(dsha, b0).Ok? && Find(env, b).Ok? {
      var end, top := Walk(dsha, dsha(b0), b.path), Walk(dsha, dsha(c), b.burial);
      if end.Ok? && top.Ok? {
        var linked := end.value.Some? && Slice(c, 4, 36) == end.value.value;
        var burial := if top.value.Some? then |b.burial| else 0;
        var f := Find(env, b).value;
        CleanAll(b, HeaderPow(dsha, b0).value, f, core, linked, top.value.Some?);
        PassingIffClean(AllChecks(b, HeaderPow(dsha, b0).value, f, core, linked, top.value.Some?),
                        b.checkpoint.unsigned.interval.Some?, burial);
      }
    }
  }

  /** The name of a pass, by whether there is an agreed interval and whether a block follows C. */
  function PassName(timed: bool, followed: bool): Verdict {
    if timed then if followed then SANDWICH_PASS else SANDWICH_PASS_UNBURIED
    else if followed then SANDWICH_PASS_NO_TIME_CONSENSUS else SANDWICH_PASS_NO_TIME_CONSENSUS_UNBURIED
  }

  lemma SurroundNames(env: Env, b: Bundle, core: Verify.Checks)
    requires Verify.Worked(env.base, b.blockC) && Sound(env, b) && Lacks(core, Verify.NotPassed)
    ensures Surround(env, b, core).Ok? && Surround(env, b, core).value.burial == |b.burial|
    ensures Surround(env, b, core).value.verdict == PassName(b.checkpoint.unsigned.interval.Some?, b.burial != [])
  {
    hide HeaderPow, Walk, Slice, Contiguous, AllChecks, Lacks, EvidenceSound, Expected, Verify.Worked, Find,
         ProvesWork, Any;
    SurroundPasses(env, b, core);
    WorkedMeets(env, b);
    HeadersContiguousIff(env.base.dsha, b);
  }

  /** A bundle in order, around which the sandwich is sound, passes under its name, with its burial counted. */
  lemma PassesAs(env: Env, b: Bundle)
    requires BundleHolds(env, b) && Sound(env, b)
    ensures Judge(env, b).Ok? && Judge(env, b).value.burial == |b.burial|
    ensures Judge(env, b).value.verdict == PassName(b.checkpoint.unsigned.interval.Some?, b.burial != [])
  {
    hide Surround, CoreChecks, Verify.EvidenceHolds, Verify.Anchored, Verify.Worked, Lacks, Sound, PassName;
    CoreMeans(env, b);
    SurroundNames(env, b, CoreChecks(env, b).value);
  }

  lemma PassNeedsCore(env: Env, b: Bundle, core: Verify.Checks)
    requires Surround(env, b, core).Ok? && !Lacks(core, Verify.NotPassed)
    ensures !Passing(Surround(env, b, core).value.verdict)
  {
    hide HeaderPow, Walk, Slice, AllChecks, VerdictOf, Lacks, EvidenceSound, Expected, Find, Passing;
    var dsha := env.base.dsha;
    var b0, c := Slice(b.b0, 0, 80), Slice(b.blockC, 0, 80);
    var end, top := Walk(dsha, dsha(b0), b.path), Walk(dsha, dsha(c), b.burial);
    var linked := end.value.Some? && Slice(c, 4, 36) == end.value.value;
    var burial := if top.value.Some? then |b.burial| else 0;
    var f := Find(env, b).value;
    CleanAll(b, HeaderPow(dsha, b0).value, f, core, linked, top.value.Some?);
    PassingIffClean(AllChecks(b, HeaderPow(dsha, b0).value, f, core, linked, top.value.Some?),
                    b.checkpoint.unsigned.interval.Some?, burial);
  }

  /** A signature check whose outcome the verdict cannot ignore could not be performed. */
  ghost predicate ToolchainMissing(env: Env, b: Bundle) {
    || Verify.HistoryUnknowable(env.base.verify, b.history)
    || Verify.CheckpointUnknowable(env.base.verify, b.checkpoint)
  }

  /** The bundle verifier's checks, read through its own theorem. */
  lemma CoreMeans(env: Env, b: Bundle)
    ensures CoreChecks(env, b).Ok? && Lacks(CoreChecks(env, b).value, Verify.NotPassed) <==> BundleHolds(env, b)
    ensures CoreChecks(env, b).Ok? ==>
              (!Lacks(CoreChecks(env, b).value, Verify.IsUnavailable) <==> ToolchainMissing(env, b))
  {
    hide Verify.BundleChecks, Verify.EvidenceHolds, Verify.Anchored, Verify.Worked, Lacks, Verify.HistoryUnknowable,
         Verify.CheckpointUnknowable, Verify.VerdictOf;
    Verify.JudgementMeans(env.base, b.history, b.checkpoint, Some(b.blockC), None);
    if CoreChecks(env, b).Ok? {
      var core := CoreChecks(env, b).value;
      Verify.VerdictMeans(core, true, (Verify.BITCOIN_POW, Verify.Pass) in core);
    }
  }

  /** A passing verdict means exactly that the bundle verifier finds everything in order and that the
      sandwich around it is sound; a full pass, that there is also an agreed interval and a block on top
      of C. */
  lemma PassIff(env: Env, b: Bundle)
    ensures Judge(env, b).Ok? && Passing(Judge(env, b).value.verdict) <==> BundleHolds(env, b) && Sound(env, b)
    ensures Judge(env, b).Ok? && Judge(env, b).value.verdict == SANDWICH_PASS
       <==> BundleHolds(env, b) && Sound(env, b) && b.checkpoint.unsigned.interval.Some? && b.burial != []
  {
    hide Surround, CoreChecks, Verify.EvidenceHolds, Verify.Anchored, Verify.Worked, Lacks, Sound, Passing;
    CoreMeans(env, b);
    Kinds();
    if CoreChecks(env, b).Ok? {
      var core := CoreChecks(env, b).value;
      if Verify.Worked(env.base, b.blockC) { SurroundPasses(env, b, core); }
      if Surround(env, b, core).Ok? && !Lacks(core, Verify.NotPassed) { PassNeedsCore(env, b, core); }
    }
  }

  /** The ranking of the other verdicts: an unavailable toolchain over any failure, a failure over unchecked
      evidence, unchecked evidence over a pass. */
  lemma Ranking(env: Env, b: Bundle)
    requires Judge(env, b).Ok?
    ensures Find(env, b).Ok?
    ensures var r, f := Judge(env, b).value, Find(env, b).value;
      && (r.verdict == INDETERMINATE_TOOLCHAIN <==> ToolchainMissing(env, b))
      && (r.verdict == FAIL <==> !ToolchainMissing(env, b) && !Lacks(r.checks, IsFailure))
      && (r.verdict == INDETERMINATE_UNCHECKED_EVIDENCE <==>
            !ToolchainMissing(env, b) && Lacks(r.checks, IsFailure) && AnyUnchecked(f.e, f.t))
  {
    hide HeaderPow, Walk, Slice, AllChecks, VerdictOf, Lacks, Find, CoreChecks, ToolchainMissing, AnyUnchecked;
    CoreMeans(env, b);
    var dsha, core := env.base.dsha, CoreChecks(env, b).value;
    var b0, c, f := Slice(b.b0, 0, 80), Slice(b.blockC, 0, 80), Find(env, b).value;
    var end, top := Walk(dsha, dsha(b0), b.path).value, Walk(dsha, dsha(c), b.burial).value;
    var linked := end.Some? && Slice(c, 4, 36) == end.value;
    MarksAll(b, HeaderPow(dsha, b0).value, f, core, linked, top.Some?);
    VerdictIffs(AllChecks(b, HeaderPow(dsha, b0).value, f, core, linked, top.Some?),
                b.checkpoint.unsigned.interval.Some?, if top.Some? then |b.burial| else 0);
  }

  lemma Kinds()
    ensures Passing(SANDWICH_PASS)
  {
  }

  /** verify_sandwich.  A full pass means exactly: the bundle verifier finds everything in order, B0, the path,
      C and the burial are one contiguous chain of headers each meeting its own target, all evidence is sound
      and matched, the expectation is right. */
  method VerifySandwich(env: Env, b: Bundle) returns (r: Result<Report>)
    ensures r == Judge(env, b)
    ensures r.Ok? && Passing(r.value.verdict) <==> BundleHolds(env, b) && Sound(env, b)
    ensures r.Ok? && r.value.verdict == SANDWICH_PASS
       <==> BundleHolds(env, b) && Sound(env, b) && b.checkpoint.unsigned.interval.Some? && b.burial != []
    ensures r.Ok? ==> (r.value.verdict == INDETERMINATE_TOOLCHAIN <==> ToolchainMissing(env, b))
  {
    hide HeaderPow, ReadAll, TallyAll, Origin, Walk, AllChecks, VerdictOf, Verify.EvidenceHolds, Verify.Anchored,
         Verify.Worked, NewTally, Sound, Passing, Slice, Verify.BundleChecks, ToolchainMissing, BundleHolds;
    PassIff(env, b);
    if Judge(env, b).Ok? { Ranking(env, b); }
    var dsha := env.base.dsha;
    var b0Header := Slice(b.b0, 0, 80);
    var b0 := HeaderHash(dsha, b0Header);
    if b0.Raised? { return Raised; }
    var b0Pow := HeaderPow(dsha, b0Header);
    if b0Pow.Raised? { return Raised; }
    var q := Challenge(env.base.suite, b0.value, b.session);
    if q.Raised? { return Raised; }
    var e := ReadEvidence(env, b, Session(q.value, Reverse(b0.value), b.session));
    var origin := Origin(env.parseInt, b.history);
    var t := MatchObservations(env, e, origin, b.history);
    if t.Raised? { return Raised; }
    var bundle := Verify.VerifyBundle(env.base, b.history, b.checkpoint, Some(b.blockC), None);
    if bundle.Raised? { return Raised; }
    var core := bundle.value.0;
    var end := WalkHeaders(dsha, b0.value, b.path);
    if end.Raised? { return Raised; }
    var cHeader := Slice(b.blockC, 0, 80);
    var linked := end.value.Some? && Slice(cHeader, 4, 36) == end.value.value;
    var c := HeaderHash(dsha, cHeader);
    if c.Raised? { return Raised; }
    var top := WalkHeaders(dsha, c.value, b.burial);
    if top.Raised? { return Raised; }
    var burial := if top.value.Some? then |b.burial| else 0;
    var checks := AllChecks(b, b0Pow.value, Finding(e, origin, t.value), core, linked, top.value.Some?);
    r := Ok(Report(checks, VerdictOf(checks, b.checkpoint.unsigned.interval.Some?, burial), burial));
  }
}
