/**
 What the client's TPM operations do, as functions on the TPM's state over whole commands. The
 classes TpmCommands, TbsKeyProvider and EnrollmentClient are proved to compute these functions
 byte by byte; the theorems about runs are about these functions.
 */
module ClientSpec {
  import opened Bytes
  import opened PcrSelection
  import opened TpmState
  import opened TpmCodec

  // ---- Key templates --------------------------------------------------------

  function Zeros(n: nat): (b: seq<Byte>)
    ensures |b| == n
  {
    seq(n, _ => 0)
  }

  // fixedTPM | fixedParent | sensitiveDataOrigin | userWithAuth | restricted | sign
  const AK_ATTRIBUTES: U32 := 0x2 + 0x10 + 0x20 + 0x40 + 0x1_0000 + 0x4_0000

  // fixedTPM | fixedParent | sensitiveDataOrigin | adminWithPolicy | restricted | decrypt
  const EK_ATTRIBUTES: U32 := 0x2 + 0x10 + 0x20 + 0x80 + 0x1_0000 + 0x2_0000

  /** The policy digest of TPM2_PolicySecret(TPM_RH_ENDORSEMENT). */
  const EK_POLICY: seq<Byte> := [
    0x83, 0x71, 0x97, 0x67, 0x44, 0x84, 0xB3, 0xF8,
    0x1A, 0x90, 0xCC, 0x8D, 0x46, 0xA5, 0xD7, 0x24,
    0xFD, 0x52, 0xD7, 0x6E, 0x06, 0x52, 0x0B, 0x64,
    0xF2, 0xA1, 0xDA, 0x1B, 0x33, 0x14, 0x69, 0xAA
  ]

  /** RSA-2048, SHA-256 Name, restricted signing with RSASSA-SHA256, no policy. */
  function AkTemplate(): (b: seq<Byte>) {
    BE16(0x0001) + BE16(ALG_SHA256) + BE32(AK_ATTRIBUTES) + BE16(0) +
    BE16(ALG_NULL) + BE16(ALG_RSASSA) + BE16(ALG_SHA256) + BE16(2048) + BE32(0) + BE16(256) + Zeros(256)
  }

  /** RSA-2048, SHA-256 Name, restricted decryption with AES-128-CFB, the endorsement policy. */
  function EkTemplate(): (b: seq<Byte>) {
    BE16(0x0001) + BE16(ALG_SHA256) + BE32(EK_ATTRIBUTES) + BE16(32) + EK_POLICY +
    BE16(0x0006) + BE16(128) + BE16(0x0043) + BE16(ALG_NULL) + BE16(2048) + BE32(0) + BE16(256) + Zeros(256)
  }

  // ---- TpmCommands ----------------------------------------------------------

  function Flush(s: State, ctx: nat, handle: U32): (r: State) {
    Issue(s, ctx, FlushContext(handle)).0
  }

  /** The new handle, or 0, and the new object's TPM2B_PUBLIC. */
  function KeyOf(reply: Option<Reply>): (r: (U32, seq<Byte>)) {
    match reply
    case Some(Created(h, pub)) => (h, TPM2B(pub))
    case _ => (0, [])
  }

  function CreateKey(s: State, ctx: nat, hierarchy: U32, template: seq<Byte>): (r: (State, U32, seq<Byte>)) {
    var (s', reply) := Issue(s, ctx, CreatePrimary(hierarchy, template));
    (s', KeyOf(reply).0, KeyOf(reply).1)
  }

  function SessionOf(reply: Option<Reply>): (r: Option<U32>) {
    match reply
    case Some(Handle(h)) => Some(h)
    case _ => None
  }

  function SecretOf(reply: Option<Reply>): (r: seq<Byte>) {
    match reply
    case Some(Secret(secret)) => secret
    case _ => []
  }

  /** A policy session, its one policy command, the activation; the session is flushed on every path. */
  function Activate(s: State, ctx: nat, ak: U32, ek: U32, params: seq<Byte>): (r: (State, seq<Byte>)) {
    var (s1, reply) := Issue(s, ctx, StartPolicySession);
    match SessionOf(reply)
    case None => (s1, [])
    case Some(session) =>
      var (s3, secret) := ActivateIn(s1, ctx, ak, ek, session, params);
      (if session != 0 then Flush(s3, ctx, session) else s3, secret)
  }

  function ActivateIn(s: State, ctx: nat, ak: U32, ek: U32, session: U32, params: seq<Byte>): (r: (State, seq<Byte>)) {
    var (s2, reply) := Issue(s, ctx, PolicySecret(RH_ENDORSEMENT, session));
    if reply.None? then (s2, [])
    else
      var (s3, reply') := Issue(s2, ctx, ActivateCredential(ak, ek, session, params));
      (s3, SecretOf(reply'))
  }

  function IsPresent(s: State, ctx: nat, handle: U32): (r: (State, bool)) {
    var (s', reply) := Issue(s, ctx, ReadPublic(handle));
    (s', reply.Some?)
  }

  function EvictTo(s: State, ctx: nat, handle: U32, slot: U32): (r: (State, bool)) {
    var (s', reply) := Issue(s, ctx, EvictControl(handle, slot));
    (s', reply.Some?)
  }

  /** Clear the slot if it looks occupied, then move the object in. */
  function Evict(s: State, ctx: nat, handle: U32, slot: U32): (r: (State, bool)) {
    var (s1, present) := IsPresent(s, ctx, slot);
    if !present then EvictTo(s1, ctx, handle, slot)
    else
      var (s2, cleared) := EvictTo(s1, ctx, slot, slot);
      if cleared then EvictTo(s2, ctx, handle, slot) else (s2, false)
  }

  /** The attest blob, and everything behind it in the response: the signature and the response's
      session area. */
  function QuoteOf(dev: Device, c: Command, reply: Option<Reply>): (r: Option<(seq<Byte>, seq<Byte>)>) {
    match reply
    case Some(Quoted(attest, signature)) => Some((attest, signature + dev.sessionArea(c)))
    case _ => None
  }

  function QuoteWith(s: State, ctx: nat, key: U32, nonce: seq<Byte>, pcrs: seq<nat>)
    : (r: (State, Option<(seq<Byte>, seq<Byte>)>))
  {
    var c := Quote(key, nonce, BitmapOf(pcrs));
    var (s', reply) := Issue(s, ctx, c);
    (s', QuoteOf(s.dev, c, reply))
  }

  function FirstDigest(reply: Option<Reply>): (r: seq<Byte>) {
    match reply
    case Some(PcrValues(_, digests)) => if digests == [] then [] else digests[0]
    case _ => []
  }

  function ReadPcr(s: State, ctx: nat, pcr: nat): (r: (State, seq<Byte>)) {
    var (s', reply) := Issue(s, ctx, PcrRead(BitmapOf([pcr])));
    (s', FirstDigest(reply))
  }

  /** The data size of an NV index, 0 if it cannot be told. */
  function NvSizeOf(reply: Option<Reply>): (r: U16) {
    match reply
    case Some(NvPublic(_, size)) => size
    case _ => 0
  }

  function NvDataOf(reply: Option<Reply>): (r: seq<Byte>) {
    match reply
    case Some(NvData(data)) => data
    case _ => []
  }

  const NV_CHUNK: nat := 1024

  /** One read of at most `most` bytes; empty when it brings nothing. */
  function ReadChunk(s: State, ctx: nat, index: U32, size: U16, offset: nat, most: nat): (r: (State, seq<Byte>))
    requires offset < size
  {
    var want := if size - offset > most then most else size - offset;
    var (s', reply) := Issue(s, ctx, NvRead(index, want, offset));
    (s', NvDataOf(reply))
  }

  /** Reads on behind what has been read, to the end or to the first read that fails. */
  function NvLoop(s: State, ctx: nat, index: U32, size: U16, acc: seq<Byte>, most: nat)
    : (r: (State, Option<seq<Byte>>))
    decreases size - |acc|
  {
    if |acc| >= size then (s, Some(acc))
    else
      var (s', data) := ReadChunk(s, ctx, index, size, |acc|, most);
      if data == [] then (s', None) else NvLoop(s', ctx, index, size, acc + data, most)
  }

  lemma {:induction false} NvGoesOn(s: State, ctx: nat, index: U32, size: U16, acc: seq<Byte>, most: nat,
                                    next: (State, seq<Byte>), all: (State, Option<seq<Byte>>))
    requires |acc| < size && next == ReadChunk(s, ctx, index, size, |acc|, most)
    requires NvLoop(s, ctx, index, size, acc, most) == all
    ensures next.1 == [] ==> all == (next.0, None)
    ensures next.1 != [] ==> NvLoop(next.0, ctx, index, size, acc + next.1, most) == all
  {
  }

  function ReadNv(s: State, ctx: nat, index: U32): (r: (State, Option<seq<Byte>>)) {
    var (s', reply) := Issue(s, ctx, NvReadPublic(index));
    var size := NvSizeOf(reply);
    if size == 0 then (s', None) else NvLoop(s', ctx, index, size, [], NV_CHUNK)
  }

  /** The handles of the Intel on-die CA chain that are probed. */
  function OdcaHandles(): (r: seq<U32>)
    ensures |r| == 16
  {
    seq(16, i requires 0 <= i < 16 => 0x01C0_0100 + i)
  }

  /** The certificates found at these handles, in order; the others are skipped. */
  function ReadAll(s: State, ctx: nat, indices: seq<U32>, acc: seq<seq<Byte>>): (r: (State, seq<seq<Byte>>))
    decreases |indices|
  {
    if indices == [] then (s, acc)
    else
      var (s', cert) := ReadNv(s, ctx, indices[0]);
      ReadAll(s', ctx, indices[1..], if cert.Some? then acc + [cert.value] else acc)
  }

  // ---- TbsKeyProvider -------------------------------------------------------

  /** An opened provider. Handle 0 means none. */
  datatype Provider = Provider(ctx: nat, slot: U32, ek: U32, ak: U32, akPub: seq<Byte>)

  function FlushTransients(s: State, p: Provider): (r: (State, Provider)) {
    var s1 := if p.ak != 0 then Flush(s, p.ctx, p.ak) else s;
    var s2 := if p.ek != 0 then Flush(s1, p.ctx, p.ek) else s1;
    (s2, p.(ek := 0, ak := 0))
  }

  function CloseProvider(s: State, p: Provider): (r: State) {
    CloseContext(FlushTransients(s, p).0, p.ctx)
  }

  /** The AK, beside an EK that is there; both go if it cannot be had. */
  function AkBeside(s: State, p: Provider): (r: (State, Provider, bool)) {
    var (t, ak, pub) := CreateKey(s, p.ctx, RH_OWNER, AkTemplate());
    var q := p.(ak := ak, akPub := pub);
    if ak == 0 || pub == [] then
      var (t', q') := FlushTransients(t, q);
      (t', q', false)
    else (t, q, true)
  }

  function CreateAk(s: State, p: Provider): (r: (State, Provider, bool)) {
    var (s0, p0) := FlushTransients(s, p);
    var (s1, ek, _) := CreateKey(s0, p.ctx, RH_ENDORSEMENT, EkTemplate());
    if ek == 0 then (s1, p0.(akPub := []), false) else AkBeside(s1, p0.(ek := ek))
  }

  function ActivateAk(s: State, p: Provider, params: seq<Byte>): (r: (State, seq<Byte>)) {
    if p.ak == 0 || p.ek == 0 then (s, []) else Activate(s, p.ctx, p.ak, p.ek, params)
  }

  function PersistAk(s: State, p: Provider): (r: (State, Provider, bool)) {
    if p.ak == 0 then (s, p, false)
    else
      var (s1, evicted) := Evict(s, p.ctx, p.ak, p.slot);
      if !evicted then (s1, p, false)
      else
        var (s2, p2) := FlushTransients(s1, p);
        (s2, p2, true)
  }
}
