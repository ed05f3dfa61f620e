/**
 The wire form of each command and reply, and the device behind it. `Understand` is what the TPM
 makes of submitted bytes; `Encode` is what the client should send; the lemmas show that the one
 inverts the other, so that submitting bytes amounts to issuing the intended command.
 */
module TpmCodec {
  import opened Bytes
  import opened PcrSelection
  import opened TpmState
  import opened Wire = TpmWire

  // ---- The client's side: commands ------------------------------------------

  const PASSWORD_AUTH := Auth(RS_PW, [], 1, [])

  function SessionNonce(n: nat): (b: seq<Byte>)
    ensures |b| == n
  {
    seq(n, i requires 0 <= i < n => (i * 7 + 3) % 256)
  }

  function Selection(bitmap: Bitmap): (b: seq<Byte>) {
    BE32(1) + BE16(ALG_SHA256) + [3] + bitmap
  }

  /** Parameters of TPM2_CreatePrimary: an empty sensitive area, the template, no outside info and
      no creation PCRs. */
  function CreateParams(template: seq<Byte>): (b: seq<Byte>) {
    TPM2B([0, 0, 0, 0]) + TPM2B(template) + TPM2B([]) + BE32(0)
  }

  function StartSessionParams(): (b: seq<Byte>) {
    TPM2B(SessionNonce(32)) + TPM2B([]) + [1] + BE16(ALG_NULL) + BE16(ALG_SHA256)
  }

  function QuoteParams(nonce: seq<Byte>, selection: Bitmap): (b: seq<Byte>) {
    TPM2B(nonce) + BE16(ALG_RSASSA) + BE16(ALG_SHA256) + Selection(selection)
  }

  function Encode(c: TpmState.Command): (w: Wire.Command) {
    match c
    case CreatePrimary(hierarchy, template) =>
      Wire.Command(ST_SESSIONS, CC_CREATE_PRIMARY, [hierarchy], [PASSWORD_AUTH], CreateParams(template))
    case StartPolicySession =>
      Wire.Command(ST_NO_SESSIONS, CC_START_AUTH_SESSION, [RH_NULL, RH_NULL], [], StartSessionParams())
    case PolicySecret(authority, session) =>
      Wire.Command(ST_SESSIONS, CC_POLICY_SECRET, [authority, session], [PASSWORD_AUTH],
                   TPM2B([]) + TPM2B([]) + TPM2B([]) + BE32(0))
    case ActivateCredential(ak, ek, session, params) =>
      Wire.Command(ST_SESSIONS, CC_ACTIVATE_CREDENTIAL, [ak, ek], [PASSWORD_AUTH, Auth(session, [], 1, [])], params)
    case FlushContext(handle) =>
      Wire.Command(ST_NO_SESSIONS, CC_FLUSH_CONTEXT, [], [], BE32(handle))
    case ReadPublic(handle) =>
      Wire.Command(ST_NO_SESSIONS, CC_READ_PUBLIC, [handle], [], [])
    case EvictControl(evicted, slot) =>
      Wire.Command(ST_SESSIONS, CC_EVICT_CONTROL, [RH_OWNER, evicted], [PASSWORD_AUTH], BE32(slot))
    case Quote(key, nonce, selection) =>
      Wire.Command(ST_SESSIONS, CC_QUOTE, [key], [PASSWORD_AUTH], QuoteParams(nonce, selection))
    case PcrRead(selection) =>
      Wire.Command(ST_NO_SESSIONS, CC_PCR_READ, [], [], Selection(selection))
    case NvReadPublic(index) =>
      Wire.Command(ST_NO_SESSIONS, CC_NV_READ_PUBLIC, [index], [], [])
    case NvRead(index, size, offset) =>
      Wire.Command(ST_SESSIONS, CC_NV_READ, [index, index], [PASSWORD_AUTH], BE16(size) + BE16(offset))
  }

  /** The length of the marshalled command. */
  function CommandSize(c: TpmState.Command): (n: nat) {
    match c
    case CreatePrimary(_, template) => 41 + |template|
    case StartPolicySession => 59
    case PolicySecret(_, _) => 41
    case ActivateCredential(_, _, _, params) => 40 + |params|
    case FlushContext(_) => 14
    case ReadPublic(_) => 14
    case EvictControl(_, _) => 35
    case Quote(_, nonce, _) => 43 + |nonce|
    case PcrRead(_) => 20
    case NvReadPublic(_) => 14
    case NvRead(_, _, _) => 35
  }

  predicate Fits(c: TpmState.Command) {
    CommandSize(c) <= MAX_COMMAND
  }

  // ---- The TPM's side: commands ---------------------------------------------

  function ReadSelection(b: seq<Byte>): (r: Option<Bitmap>) {
    if |b| == 10 && b[..7] == BE32(1) + BE16(ALG_SHA256) + [3] then Some(b[7..]) else None
  }

  /** A template is taken only with an empty sensitive area and nothing after it but an empty
      outside info and an empty PCR list; anything else is outside this model. */
  function ReadCreateParams(b: seq<Byte>): (r: Option<seq<Byte>>) {
    match TakeTPM2B(b)
    case None => None
    case Some((sensitive, rest)) =>
      match TakeTPM2B(rest)
      case None => None
      case Some((template, rest')) =>
        if sensitive == [0, 0, 0, 0] && rest' == [0, 0, 0, 0, 0, 0] then Some(template) else None
  }

  predicate IsPolicySessionRequest(b: seq<Byte>) {
    match TakeTPM2B(b)
    case None => false
    case Some((nonce, rest)) =>
      |nonce| >= 16 && rest == TPM2B([]) + [1] + BE16(ALG_NULL) + BE16(ALG_SHA256)
  }

  function ReadQuoteParams(b: seq<Byte>): (r: Option<(seq<Byte>, Bitmap)>) {
    match TakeTPM2B(b)
    case None => None
    case Some((nonce, rest)) =>
      if |rest| != 14 || rest[..4] != BE16(ALG_RSASSA) + BE16(ALG_SHA256) then None else
      match ReadSelection(rest[4..])
      case None => None
      case Some(selection) => Some((nonce, selection))
  }

  predicate PasswordOnly(w: Wire.Command) {
    w.tag == ST_SESSIONS && w.auths == [PASSWORD_AUTH]
  }

  function Meaning(w: Wire.Command): (r: Option<TpmState.Command>)
    requires |w.handles| == HandleCount(w.code)
  {
    if w.code == CC_CREATE_PRIMARY then
      (match ReadCreateParams(w.params)
       case None => None
       case Some(template) => if PasswordOnly(w) then Some(CreatePrimary(w.handles[0], template)) else None)
    else if w.code == CC_START_AUTH_SESSION then
      if w.tag == ST_NO_SESSIONS && w.handles == [RH_NULL, RH_NULL] && IsPolicySessionRequest(w.params)
      then Some(StartPolicySession) else None
    else if w.code == CC_POLICY_SECRET then
      if PasswordOnly(w) && w.params == [0, 0, 0, 0, 0, 0, 0, 0, 0, 0]
      then Some(PolicySecret(w.handles[0], w.handles[1])) else None
    else if w.code == CC_ACTIVATE_CREDENTIAL then
      if w.tag == ST_SESSIONS && |w.auths| == 2 && w.auths[0] == PASSWORD_AUTH
        && w.auths[1] == Auth(w.auths[1].session, [], 1, [])
      then Some(ActivateCredential(w.handles[0], w.handles[1], w.auths[1].session, w.params)) else None
    else if w.code == CC_FLUSH_CONTEXT then
      if w.tag == ST_NO_SESSIONS && |w.params| == 4 then Some(FlushContext(ReadBE32(w.params, 0))) else None
    else if w.code == CC_READ_PUBLIC then
      if w.tag == ST_NO_SESSIONS && w.params == [] then Some(ReadPublic(w.handles[0])) else None
    else if w.code == CC_EVICT_CONTROL then
      if PasswordOnly(w) && w.handles[0] == RH_OWNER && |w.params| == 4
      then Some(EvictControl(w.handles[1], ReadBE32(w.params, 0))) else None
    else if w.code == CC_QUOTE then
      (match ReadQuoteParams(w.params)
       case None => None
       case Some((nonce, selection)) => if PasswordOnly(w) then Some(Quote(w.handles[0], nonce, selection)) else None)
    else if w.code == CC_PCR_READ then
      (match ReadSelection(w.params)
       case None => None
       case Some(selection) => if w.tag == ST_NO_SESSIONS then Some(PcrRead(selection)) else None)
    else if w.code == CC_NV_READ_PUBLIC then
      if w.tag == ST_NO_SESSIONS && w.params == [] then Some(NvReadPublic(w.handles[0])) else None
    else if w.code == CC_NV_READ then
      if PasswordOnly(w) && w.handles[0] == w.handles[1] && |w.params| == 4
      then Some(NvRead(w.handles[1], ReadBE16(w.params, 0), ReadBE16(w.params, 2))) else None
    else None
  }

  function Understand(b: seq<Byte>): (r: Option<TpmState.Command>) {
    if |b| > MAX_COMMAND then None else
    match Unmarshal(b)
    case None => None
    case Some(w) =>
      assert |w.handles| == HandleCount(w.code) by { MarshalUnmarshal(b); }
      Meaning(w)
  }

  // ---- Commands arrive as intended ------------------------------------------

  lemma {:induction false} AreaLengths(session: U32)
    ensures SessionArea(ST_NO_SESSIONS, []) == []
    ensures |SessionArea(ST_SESSIONS, [PASSWORD_AUTH])| == 13
    ensures |SessionArea(ST_SESSIONS, [PASSWORD_AUTH, Auth(session, [], 1, [])])| == 22
  {
    var second := Auth(session, [], 1, []);
    assert [PASSWORD_AUTH][1..] == [] && [PASSWORD_AUTH, second][1..] == [second] && [second][1..] == [];
    assert |AuthBytes(PASSWORD_AUTH)| == 9 && |AuthBytes(second)| == 9;
    assert AuthListBytes([second]) == AuthBytes(second) + [];
  }

  lemma {:induction false} TailLength(w: Wire.Command)
    ensures |Marshal(w)| == 10 + |Tail(w)|
    ensures |Tail(w)| == 4 * |w.handles| + |SessionArea(w.tag, w.auths)| + |w.params|
  {
  }

  lemma {:induction false} EncodeShape(c: TpmState.Command)
    ensures |Encode(c).handles| == HandleCount(Encode(c).code)
    ensures Encode(c).tag == ST_SESSIONS || (Encode(c).tag == ST_NO_SESSIONS && Encode(c).auths == [])
    ensures forall a :: a in Encode(c).auths ==> a.nonce == [] && a.hmac == []
  {
  }

  lemma {:induction false} EncodeLengths(c: TpmState.Command)
    ensures |Marshal(Encode(c))| == CommandSize(c) && |Tail(Encode(c))| == CommandSize(c) - 10
    ensures |Encode(c).params| <= |Tail(Encode(c))|
  {
    TailLength(Encode(c));
    AreaLengths(if c.ActivateCredential? then c.session else 0);
  }

  lemma {:induction false} CreateParamsBack(template: seq<Byte>)
    requires |template| < U16_LIMIT
    ensures ReadCreateParams(CreateParams(template)) == Some(template)
  {
    var tail := TPM2B([]) + BE32(0);
    assert CreateParams(template) == TPM2B([0, 0, 0, 0]) + (TPM2B(template) + tail);
    TakeTPM2BOf([0, 0, 0, 0], TPM2B(template) + tail);
    TakeTPM2BOf(template, tail);
    assert tail == [0, 0, 0, 0, 0, 0];
  }

  lemma {:induction false} StartSessionParamsBack()
    ensures IsPolicySessionRequest(StartSessionParams())
  {
    var tail := TPM2B([]) + [1] + BE16(ALG_NULL) + BE16(ALG_SHA256);
    assert StartSessionParams() == TPM2B(SessionNonce(32)) + tail;
    TakeTPM2BOf(SessionNonce(32), tail);
  }

  lemma {:induction false} SelectionBack(bitmap: Bitmap)
    ensures ReadSelection(Selection(bitmap)) == Some(bitmap)
  {
    assert Selection(bitmap)[7..] == bitmap;
  }

  lemma {:induction false} QuoteParamsBack(nonce: seq<Byte>, selection: Bitmap)
    requires |nonce| < U16_LIMIT
    ensures ReadQuoteParams(QuoteParams(nonce, selection)) == Some((nonce, selection))
  {
    var tail := BE16(ALG_RSASSA) + BE16(ALG_SHA256) + Selection(selection);
    assert QuoteParams(nonce, selection) == TPM2B(nonce) + tail;
    TakeTPM2BOf(nonce, tail);
    assert tail[4..] == Selection(selection);
    SelectionBack(selection);
  }

  lemma {:induction false} MeaningOfEncoding(c: TpmState.Command)
    requires Fits(c)
    ensures |Encode(c).handles| == HandleCount(Encode(c).code)
    ensures Meaning(Encode(c)) == Some(c)
  {
    EncodeShape(c);
    EncodeLengths(c);
    if Sessions(c) {
      AuthorizedMeaning(c);
    } else {
      PlainMeaning(c);
    }
  }

  lemma {:induction false} PlainMeaning(c: TpmState.Command)
    requires |Encode(c).handles| == HandleCount(Encode(c).code) && !Sessions(c)
    ensures Meaning(Encode(c)) == Some(c)
  {
    match c {
      case StartPolicySession => StartSessionParamsBack();
      case FlushContext(handle) => BE32At(BE32(handle), 0, handle);
      case PcrRead(selection) => SelectionBack(selection);
      case _ =>
    }
  }

  lemma {:induction false} EvictMeaning(evicted: U32, slot: U32)
    ensures Meaning(Encode(EvictControl(evicted, slot))) == Some(EvictControl(evicted, slot))
  {
    BE32At(BE32(slot), 0, slot);
  }

  lemma {:induction false} NvReadMeaning(index: U32, size: U16, offset: U16)
    ensures Meaning(Encode(NvRead(index, size, offset))) == Some(NvRead(index, size, offset))
  {
    BE16At(BE16(size) + BE16(offset), 0, size);
    BE16At(BE16(size) + BE16(offset), 2, offset);
  }

  lemma {:induction false} PolicySecretMeaning(authority: U32, session: U32)
    ensures Meaning(Encode(PolicySecret(authority, session))) == Some(PolicySecret(authority, session))
  {
    assert Encode(PolicySecret(authority, session)).params == [0, 0, 0, 0, 0, 0, 0, 0, 0, 0];
  }

  lemma {:induction false} AuthorizedMeaning(c: TpmState.Command)
    requires |Encode(c).handles| == HandleCount(Encode(c).code) && Fits(c) && Sessions(c)
    ensures Meaning(Encode(c)) == Some(c)
  {
    match c {
      case CreatePrimary(hierarchy, template) => CreateParamsBack(template);
      case PolicySecret(authority, session) => PolicySecretMeaning(authority, session);
      case EvictControl(evicted, slot) => EvictMeaning(evicted, slot);
      case Quote(key, nonce, selection) => QuoteParamsBack(nonce, selection);
      case NvRead(index, size, offset) => NvReadMeaning(index, size, offset);
      case _ =>
    }
  }

  /** The marshalling loses nothing, of any length the size field can state. */
  lemma {:induction false} EncodedUnmarshals(c: TpmState.Command)
    requires CommandSize(c) < U32_LIMIT
    ensures Unmarshal(Marshal(Encode(c))) == Some(Encode(c))
  {
    EncodeShape(c);
    EncodeLengths(c);
    UnmarshalMarshal(Encode(c));
  }

  /** A nonce is read back from the command's parameters exactly if it fits its 16-bit length. */
  lemma {:induction false} QuoteNonceIff(nonce: seq<Byte>, selection: Bitmap)
    ensures ReadQuoteParams(QuoteParams(nonce, selection)) == Some((nonce, selection)) <==> |nonce| < U16_LIMIT
  {
    if |nonce| < U16_LIMIT {
      QuoteParamsBack(nonce, selection);
    }
  }

  /** Every command that the TPM has room for is understood as the command that was meant. */
  lemma {:induction false} UnderstandEncoded(c: TpmState.Command)
    ensures Understand(Marshal(Encode(c))) == if Fits(c) then Some(c) else None
  {
    EncodeShape(c);
    EncodeLengths(c);
    if Fits(c) {
      assert WellFormed(Encode(c));
      UnmarshalMarshal(Encode(c));
      MeaningOfEncoding(c);
    }
  }

  // ---- Replies --------------------------------------------------------------

  predicate Sessions(c: TpmState.Command) {
    Encode(c).tag == ST_SESSIONS
  }

  /** The parameter area of a response to an authorized command: its size, the parameters, and the
      session area behind them. */
  function Sized(dev: Device, c: TpmState.Command, params: seq<Byte>): (b: seq<Byte>) {
    BE32(|params|) + params + dev.sessionArea(c)
  }

  function DigestList(digests: seq<Digest>): (b: seq<Byte>) {
    if digests == [] then [] else TPM2B(digests[0]) + DigestList(digests[1..])
  }

  function Body(dev: Device, c: TpmState.Command, r: Reply): (b: seq<Byte>) {
    match r
    case Done => if Sessions(c) then Sized(dev, c, dev.extra(c)) else dev.extra(c)
    case Handle(h) => BE32(h) + TPM2B(dev.extra(c))
    case Created(h, pub) => BE32(h) + Sized(dev, c, TPM2B(pub) + dev.extra(c))
    case Secret(secret) => Sized(dev, c, TPM2B(secret))
    case Quoted(attest, signature) => Sized(dev, c, TPM2B(attest) + signature)
    case PcrValues(selection, digests) => BE32(0) + Selection(selection) + BE32(|digests|) + DigestList(digests)
    case NvPublic(policy, size) =>
      TPM2B(BE32(0) + BE16(ALG_SHA256) + BE32(0) + TPM2B(policy) + BE16(size)) + TPM2B(dev.extra(c))
    case NvData(data) => Sized(dev, c, TPM2B(data))
  }

  function Response(tag: U16, rc: U32, body: seq<Byte>): (b: seq<Byte>)
    ensures |b| == 10 + |body|
  {
    BE16(tag) + BE32(10 + |body|) + BE32(rc) + body
  }

  function OkResponse(dev: Device, c: TpmState.Command, r: Reply): (b: seq<Byte>)
    ensures |b| == 10 + |Body(dev, c, r)|
  {
    Response(Encode(c).tag, 0, Body(dev, c, r))
  }

  lemma {:induction false} ResponseCodeOf(tag: U16, rc: U32, body: seq<Byte>)
    ensures ReadBE32(Response(tag, rc, body), 6) == rc
    ensures Response(tag, rc, body)[10..] == body
  {
    var b := Response(tag, rc, body);
    assert b[6..10] == BE32(rc);
    BE32At(b, 6, rc);
  }

  // ---- The device -----------------------------------------------------------

  const RC_UNUSABLE: ResponseCode := 0x101

  /** The bytes that come back for the outcome of an executed command. */
  function Transmit(dev: Device, c: TpmState.Command, fate: Fate, reply: Option<Reply>): (resp: seq<Byte>) {
    if fate.Lose? then []
    else if reply.None? then Response(ST_NO_SESSIONS, RC_UNUSABLE, [])
    else OkResponse(dev, c, reply.value)
  }

  function Answer(s: State, ctx: nat, understood: Option<TpmState.Command>, fate: Fate): (r: (State, seq<Byte>)) {
    if fate.Drop? then (s, [])
    else if fate.Refuse? then (s, Response(ST_NO_SESSIONS, fate.rc, []))
    else
      match understood
      case None => (s, if fate.Lose? then [] else Response(ST_NO_SESSIONS, RC_UNUSABLE, []))
      case Some(c) =>
        var (s', reply) := Exec(s, ctx, c, fate.hint);
        (s', Transmit(s.dev, c, fate, reply))
  }

  /** What a submitted command does and what comes back. */
  function Submit(s: State, ctx: nat, b: seq<Byte>): (r: (State, seq<Byte>)) {
    if ctx == 0 || ctx !in s.contexts then (s, []) else
    var (fate, s1) := NextFate(s);
    Answer(s1, ctx, Understand(b), fate)
  }

  function Conduct(s: State, ctx: nat, c: TpmState.Command, fate: Fate): (r: (State, Option<Reply>)) {
    if fate.Drop? || fate.Refuse? || !Fits(c) then (s, None)
    else
      var (s', reply) := Exec(s, ctx, c, fate.hint);
      (s', if fate.Lose? then None else reply)
  }

  /** The same without the bytes: a command, and the reply if one arrives. */
  function Issue(s: State, ctx: nat, c: TpmState.Command): (r: (State, Option<Reply>)) {
    if ctx == 0 || ctx !in s.contexts then (s, None) else
    var (fate, s1) := NextFate(s);
    Conduct(s1, ctx, c, fate)
  }

  /** What the client can tell from a response that brings no reply. */
  predicate Failed(resp: seq<Byte>) {
    |resp| < 10 || ReadBE32(resp, 6) != 0
  }

  predicate Reports(resp: seq<Byte>, dev: Device, c: TpmState.Command, reply: Option<Reply>) {
    if reply.Some? then resp == OkResponse(dev, c, reply.value) && !Failed(resp) else Failed(resp)
  }

  lemma {:induction false} TransmitReports(dev: Device, c: TpmState.Command, fate: Fate, reply: Option<Reply>)
    ensures Reports(Transmit(dev, c, fate, reply), dev, c, if fate.Lose? then None else reply)
  {
    ResponseCodeOf(ST_NO_SESSIONS, RC_UNUSABLE, []);
    if reply.Some? {
      ResponseCodeOf(Encode(c).tag, 0, Body(dev, c, reply.value));
    }
  }

  lemma {:induction false} AnswerConducts(s: State, ctx: nat, c: TpmState.Command, fate: Fate)
    ensures var answer := Answer(s, ctx, if Fits(c) then Some(c) else None, fate);
            var outcome := Conduct(s, ctx, c, fate);
            answer.0 == outcome.0 && Reports(answer.1, s.dev, c, outcome.1)
  {
    ResponseCodeOf(ST_NO_SESSIONS, RC_UNUSABLE, []);
    if fate.Refuse? {
      ResponseCodeOf(ST_NO_SESSIONS, fate.rc, []);
    } else if fate.Deliver? || fate.Lose? {
      TransmitReports(s.dev, c, fate, Exec(s, ctx, c, fate.hint).1);
    }
  }

  /** Submitting the marshalled form of a command issues that command and nothing else. */
  lemma {:induction false} SubmitIssues(s: State, ctx: nat, c: TpmState.Command)
    ensures var (answer, outcome) := (Submit(s, ctx, Marshal(Encode(c))), Issue(s, ctx, c));
            answer.0 == outcome.0 && Reports(answer.1, s.dev, c, outcome.1)
  {
    UnderstandEncoded(c);
    if ctx != 0 && ctx in s.contexts {
      AnswerConducts(NextFate(s).1, ctx, c, NextFate(s).0);
    }
  }
}
