/** One reply, of Roughtime or of NTP, belongs to one session (ctp/sandwich.py, ctp/roughtime.py). */
module SandwichReplies {
  import opened Wrappers
  import opened Bytes
  import opened Cbor
  import opened HashSuite
  import opened Model
  import opened Sandwich
  import opened SandwichProofs
  import opened SandwichBlobs
  import RoughtimeReply
  import Roughtime

  function ChallengeMessage(b0Hash: Hash256, session: bytes): bytes {
    DOM_SANDWICH_Q + [0] + Reverse(b0Hash) + session
  }

  function NonceMessage(q: Hash256, host: bytes, sequence: int): bytes
    requires 0 <= sequence <= 0xFF
  {
    DOM_RT_NONCE + [0] + q + host + [sequence]
  }

  /** The Roughtime fields of a blob. */
  datatype Reply = Reply(host: bytes, sequence: int, response: bytes, key: Value)

  function ReplyOf(blob: bytes): Result<Reply> {
    var o :- Loads(blob);
    var host :- GetText(o, 2);
    var sequence :- GetNumber(o, 9);
    var response :- GetBytes(o, 5);
    var key :- Get(o, 13);
    Ok(Reply(host, sequence, response, key))
  }

  /** The blob of the bundle holds a reply that the verifier accepts in the bundle's session. */
  predicate Vouches(env: Env, b: Bundle, blob: bytes) {
    && SessionOf(env, b).Ok?
    && var r := ReadBlob(env, b, SessionOf(env, b).value, blob);
       r.Read? && r.content.Ok? && r.content.value.Signed? && r.content.value.found.Some?
  }

  /** An accepted reply was accepted for the nonce of its session, host and number. */
  lemma VouchesFor(env: Env, b: Bundle, blob: bytes)
    requires Vouches(env, b, blob)
    ensures SessionOf(env, b).Ok? && ReplyOf(blob).Ok?
    ensures var r, q := ReplyOf(blob).value, SessionOf(env, b).value.q;
      && 0 <= r.sequence <= 0xFF && RtNonce(env.sha512, q, r.host, r.sequence).Ok?
      && RoughtimeReply.Accepts(env.sha512, env.ed, r.response, RtNonce(env.sha512, q, r.host, r.sequence).value,
                                AsBytes(r.key))
  {
    hide Loads, Bound, RtNonce, RoughtimeReply.VerifyResponse, RoughtimeReply.Unframe, Roughtime.Decode, SessionOf,
         NtpContent, CameraContent, ExternalContent, RoughtimeReply.Key, GetText, GetNumber, GetBytes, Get;
    var s := SessionOf(env, b).value;
    var o := Loads(blob).value;
    var typ := Get(o, 1).value;
    ContentTyped(env, b, s.q, o, typ);
    SignedFields(env, s.q, o);
  }

  lemma SignedFields(env: Env, q: bytes, o: Value)
    ensures var c := SignedContent(env, q, o);
      c.Ok? && c.value.Signed? && c.value.found.Some? ==>
        && GetText(o, 2).Ok? && GetNumber(o, 9).Ok? && GetBytes(o, 5).Ok? && Get(o, 13).Ok?
        && 0 <= GetNumber(o, 9).value <= 0xFF
        && RtNonce(env.sha512, q, GetText(o, 2).value, GetNumber(o, 9).value).Ok?
        && RoughtimeReply.Accepts(env.sha512, env.ed, GetBytes(o, 5).value,
                                  RtNonce(env.sha512, q, GetText(o, 2).value, GetNumber(o, 9).value).value,
                                  AsBytes(Get(o, 13).value))
  {
    hide RoughtimeReply.VerifyResponse, RoughtimeReply.Unframe, Roughtime.Decode, RoughtimeReply.Key, GetText,
         GetNumber, GetBytes, Get, AsBytes, Measurement.DeriveRtMeasurement;
  }

  /** What the acceptance of a blob's reply hashes with SHA-512. */
  ghost function VouchMessages(env: Env, b: Bundle, blob: bytes): set<bytes>
    requires Vouches(env, b, blob)
  {
    VouchesFor(env, b, blob);
    var r, q := ReplyOf(blob).value, SessionOf(env, b).value.q;
    {NonceMessage(q, r.host, r.sequence)}
    + RoughtimeReply.ReplyMessages(env.sha512, r.response, RtNonce(env.sha512, q, r.host, r.sequence).value)
  }

  lemma NonceMessageBinds(domain: bytes, q: Hash256, host: bytes, sequence: int, q': Hash256, host': bytes,
                          sequence': int)
    requires 0 <= sequence <= 0xFF && 0 <= sequence' <= 0xFF
    requires domain + [0] + q + host + [sequence] == domain + [0] + q' + host' + [sequence']
    ensures q == q' && host == host' && sequence == sequence'
  {
    var n := |domain| + 1;
    var m, m' := domain + [0] + q + host + [sequence], domain + [0] + q' + host' + [sequence'];
    assert m[n..n + 32] == q && m'[n..n + 32] == q';
    assert m[n + 32..|m| - 1] == host && m'[n + 32..|m'| - 1] == host';
    assert m[|m| - 1] == sequence && m'[|m'| - 1] == sequence';
  }

  lemma ChallengeMessageBinds(h: Hash256, id: bytes, h': Hash256, id': bytes)
    requires |id| == 32 && |id'| == 32 && ChallengeMessage(h, id) == ChallengeMessage(h', id')
    ensures h == h' && id == id'
  {
    hide Ascii;
    var n := |DOM_SANDWICH_Q| + 1;
    Reversed(h);
    Reversed(h');
    var m, m' := ChallengeMessage(h, id), ChallengeMessage(h', id');
    assert m[n..n + 32] == Reverse(h) && m'[n..n + 32] == Reverse(h');
    assert m[n + 32..] == id && m'[n + 32..] == id';
    ReverseBinds(h, h');
  }

  /** The challenge of a session and what it was made from. */
  lemma SessionChallenge(env: Env, b: Bundle)
    requires SessionOf(env, b).Ok?
    ensures |Slice(b.b0, 0, 80)| == 80 && |b.session| == 32
    ensures SessionOf(env, b).value.q
         == env.base.suite.sha256(ChallengeMessage(env.base.dsha(Slice(b.b0, 0, 80)), b.session))
  {
    hide Slice, Reverse, Ascii;
  }

  /** A signed reply cannot be carried over.  When nothing hashed on the way collides, two blobs whose
      replies are the same bytes and are accepted in the sessions of two bundles, whatever their keys, were
      made for the same B0, the same session id, the same host and the same number. */
  lemma ReplyFixesSession(env: Env, b: Bundle, x: bytes, c: Bundle, y: bytes)
    requires Vouches(env, b, x) && Vouches(env, c, y)
    requires ReplyOf(x).Ok? && ReplyOf(y).Ok? && ReplyOf(x).value.response == ReplyOf(y).value.response
    requires RoughtimeReply.NoCollision(env.sha512, VouchMessages(env, b, x) + VouchMessages(env, c, y))
    requires
      var h, g := env.base.dsha(Slice(b.b0, 0, 80)), env.base.dsha(Slice(c.b0, 0, 80));
      RoughtimeReply.NoCollision(env.base.suite.sha256,
                                 {ChallengeMessage(h, b.session), ChallengeMessage(g, c.session)})
    requires RoughtimeReply.NoCollision(env.base.dsha, {Slice(b.b0, 0, 80), Slice(c.b0, 0, 80)})
    ensures Slice(b.b0, 0, 80) == Slice(c.b0, 0, 80) && b.session == c.session
    ensures ReplyOf(x).value.host == ReplyOf(y).value.host && ReplyOf(x).value.sequence == ReplyOf(y).value.sequence
  {
    hide Vouches, ReplyOf, SessionOf, RoughtimeReply.NoCollision, RoughtimeReply.ReplyMessages,
         RoughtimeReply.Accepts, Ascii, ChallengeMessage, Slice;
    VouchesFor(env, b, x);
    VouchesFor(env, c, y);
    SessionChallenge(env, b);
    SessionChallenge(env, c);
    var r, t, q, p := ReplyOf(x).value, ReplyOf(y).value, SessionOf(env, b).value.q, SessionOf(env, c).value.q;
    var n, m := RtNonce(env.sha512, q, r.host, r.sequence).value, RtNonce(env.sha512, p, t.host, t.sequence).value;
    var all := VouchMessages(env, b, x) + VouchMessages(env, c, y);
    RoughtimeReply.Fewer(env.sha512, all, RoughtimeReply.ReplyMessages(env.sha512, r.response, n)
                                          + RoughtimeReply.ReplyMessages(env.sha512, r.response, m));
    RoughtimeReply.ResponseBindsOneNonce(env.sha512, env.ed, r.response, n, AsBytes(r.key), m, AsBytes(t.key));
    NonceIs(env, q, r.host, r.sequence);
    NonceIs(env, p, t.host, t.sequence);
    RoughtimeReply.Same(env.sha512, all, NonceMessage(q, r.host, r.sequence), NonceMessage(p, t.host, t.sequence));
    NonceMessageBinds(DOM_RT_NONCE, q, r.host, r.sequence, p, t.host, t.sequence);
    var bh, ch := Slice(b.b0, 0, 80), Slice(c.b0, 0, 80);
    var h, g := env.base.dsha(bh), env.base.dsha(ch);
    RoughtimeReply.Same(env.base.suite.sha256, {ChallengeMessage(h, b.session), ChallengeMessage(g, c.session)},
                        ChallengeMessage(h, b.session), ChallengeMessage(g, c.session));
    ChallengeMessageBinds(h, b.session, g, c.session);
    RoughtimeReply.Same(env.base.dsha, {bh, ch}, bh, ch);
  }

  lemma NonceIs(env: Env, q: Hash256, host: bytes, sequence: int)
    requires 0 <= sequence <= 0xFF
    ensures RtNonce(env.sha512, q, host, sequence) == Ok(env.sha512(NonceMessage(q, host, sequence)))
  {
  }

  // ---- NTP ----

  /** The message whose digest, cut to eight bytes, is the nonce of an exchange. */
  function ExchangeMessage(q: Hash256, host: bytes, sequence: int): bytes
    requires 0 <= sequence <= 0xFF
  {
    DOM_SANDWICH_NONCE + [0] + q + host + [sequence]
  }

  /** The blob holds this reply, which the verifier accepts for the exchange with this host and of this number. */
  ghost predicate Replies(env: Env, b: Bundle, blob: bytes, host: bytes, sequence: int, reply: bytes) {
    && Fits(env, b, blob)
    && var o := Loads(blob).value;
       GetText(o, 1) == Ok(NTP) && GetText(o, 2) == Ok(host) && GetNumber(o, 9) == Ok(sequence)
       && GetBytes(o, 5) == Ok(reply)
  }

  /** Nor can an NTP reply be carried over, within what eight bytes of a digest can do.  When the two exchange
      messages do not collide there, nor anything else hashed on the way, two blobs that hold the same reply
      bytes, and are accepted in the sessions of two bundles, were made for the same B0, the same session id,
      the same host and the same number. */
  lemma NtpReplyFixesSession(env: Env, b: Bundle, x: bytes, c: Bundle, y: bytes, host: bytes, sequence: int,
                             host': bytes, sequence': int, reply: bytes, q: Hash256, shown: bytes, q': Hash256,
                             shown': bytes)
    requires Replies(env, b, x, host, sequence, reply) && Replies(env, c, y, host', sequence', reply)
    requires IsSession(env, b, q, shown) && IsSession(env, c, q', shown')
    requires 0 <= sequence <= 0xFF && 0 <= sequence' <= 0xFF
    requires
      var m, m' := ExchangeMessage(q, host, sequence), ExchangeMessage(q', host', sequence');
      env.base.suite.sha256(m)[..8] == env.base.suite.sha256(m')[..8] ==> m == m'
    requires
      RoughtimeReply.NoCollision(env.base.suite.sha256, {DOM_SANDWICH_Q + [0] + shown + b.session,
                                                         DOM_SANDWICH_Q + [0] + shown' + c.session})
    requires RoughtimeReply.NoCollision(env.base.dsha, {b.b0[..80], c.b0[..80]})
    ensures b.b0[..80] == c.b0[..80] && b.session == c.session && host == host' && sequence == sequence'
  {
    hide Ascii, Replies, Loads, GetText, GetNumber, GetBytes, Fits, RoughtimeReply.NoCollision;
    ReplyEchoes(env, b, x, host, sequence, reply, q, shown);
    ReplyEchoes(env, c, y, host', sequence', reply, q', shown');
    NonceMessageBinds(DOM_SANDWICH_NONCE, q, host, sequence, q', host', sequence');
    var h, g := env.base.dsha(b.b0[..80]), env.base.dsha(c.b0[..80]);
    ReverseIff(shown, h);
    ReverseIff(shown', g);
    var m, m' := ChallengeMessage(h, b.session), ChallengeMessage(g, c.session);
    RoughtimeReply.Same(env.base.suite.sha256, {m, m'}, m, m');
    ChallengeMessageBinds(h, b.session, g, c.session);
    RoughtimeReply.Same(env.base.dsha, {b.b0[..80], c.b0[..80]}, b.b0[..80], c.b0[..80]);
  }

  lemma ReplyEchoes(env: Env, b: Bundle, blob: bytes, host: bytes, sequence: int, reply: bytes, q: Hash256,
                    shown: bytes)
    requires Replies(env, b, blob, host, sequence, reply) && IsSession(env, b, q, shown)
    ensures 0 <= sequence <= 0xFF && |reply| >= 48
    ensures reply[24..32] == env.base.suite.sha256(ExchangeMessage(q, host, sequence))[..8]
  {
    hide Ascii, IsSession, Loads, GetText, GetNumber, GetBytes, NamesSession, CameraFits, RoughtimeFits, ExternalFits;
    forall p: Hash256, displayed: bytes | IsSession(env, b, p, displayed) ensures p == q && displayed == shown {
      SessionIff(env, b, p, displayed);
      SessionIff(env, b, q, shown);
    }
  }
}
