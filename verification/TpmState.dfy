/**
 A TPM 2.0 and its resource manager as the client sees them: per-context transient objects and
 sessions, the persistent objects, NV indices and PCRs, and the effect of each command the client
 uses. Which commands fail, and how, is scripted by `fates`, so a claim about every script is a
 claim about every run.
 */
module TpmState {
  import opened Bytes
  import opened PcrSelection

  const RH_OWNER: U32 := 0x4000_0001
  const RH_NULL: U32 := 0x4000_0007
  const RS_PW: U32 := 0x4000_0009
  const RH_ENDORSEMENT: U32 := 0x4000_000B

  const SESSION_FIRST: U32 := 0x0300_0000
  const TRANSIENT_FIRST: U32 := 0x8000_0000
  const HANDLE_SPAN: nat := 0x100_0000
  const PERSISTENT_FIRST: U32 := 0x8100_0000
  const PERSISTENT_LIMIT: U32 := 0x8180_0000

  const ALG_SHA256: U16 := 0x000B
  const ALG_NULL: U16 := 0x0010
  const ALG_RSASSA: U16 := 0x0014

  /** The largest command the TPM accepts. */
  const MAX_COMMAND: nat := 4096

  // Object attributes, by bit number (TPM 2.0 Library Part 2, section 8.3).
  const ST_CLEAR: nat := 2
  const ADMIN_WITH_POLICY: nat := 7
  const RESTRICTED: nat := 16
  const DECRYPT: nat := 17
  const SIGN: nat := 18

  type Blob = b: seq<Byte> | |b| <= 1024
  type Digest = b: seq<Byte> | |b| <= 64
  type PublicArea = b: seq<Byte> | 1 <= |b| <= 1024 witness [0]
  /** An object's Name: a hash algorithm and a digest. */
  type Name = b: seq<Byte> | |b| <= 66
  type ResponseCode = rc: U32 | rc != 0 witness 1

  /** A loaded object. The serial number tells apart objects created from one template, which may
      well be the same key: a primary object is derived from the hierarchy's seed. */
  datatype Object = Object(serial: nat, hierarchy: U32, template: seq<Byte>)

  datatype NvIndex = NvIndex(policy: Digest, data: seq<Byte>)

  /** The values of all PCRs at one moment. */
  type Bank = nat -> Digest

  /** What the TPM computes and what it was provisioned with; never changed by a command here. The
      PCRs are extended by others: their values depend on how many fates the script still holds, so
      they may change from each command to the next. */
  datatype Device = Device(
    publicOf: (U32, seq<Byte>) -> PublicArea,  // hierarchy and template to public area
    nameOf: seq<Byte> -> Name,                 // public area to Name
    policyDigest: seq<U32> -> seq<Byte>,       // authorities of a PolicySecret chain to policy digest
    unseal: (seq<Byte>, seq<Byte>, seq<Byte>, seq<Byte>) -> Option<Digest>,  // EK, Name, blob, secret
    attest: (Object, seq<Byte>, map<nat, Digest>) -> Blob,  // key, nonce, selected PCRs
    sign: (Object, seq<Byte>) -> Blob,
    pcrs: nat -> Bank,
    nv: map<U32, NvIndex>,
    nvMax: nat,
    extra: Command -> Blob,                    // reply parameters that the client does not read
    sessionArea: Command -> Blob)              // response session area

  datatype Command =
    | CreatePrimary(hierarchy: U32, template: seq<Byte>)
    | StartPolicySession
    | PolicySecret(authority: U32, session: U32)
    | ActivateCredential(ak: U32, ek: U32, session: U32, params: seq<Byte>)
    | FlushContext(handle: U32)
    | ReadPublic(handle: U32)
    | EvictControl(evicted: U32, slot: U32)
    | Quote(key: U32, nonce: seq<Byte>, selection: Bitmap)
    | PcrRead(selection: Bitmap)
    | NvReadPublic(index: U32)
    | NvRead(index: U32, size: U16, offset: U16)

  datatype Reply =
    | Done
    | Handle(handle: U32)
    | Created(handle: U32, pub: PublicArea)
    | Secret(secret: Digest)
    | Quoted(attest: Blob, signature: Blob)
    | PcrValues(selection: Bitmap, digests: seq<Digest>)
    | NvPublic(policy: Digest, size: U16)
    | NvData(data: seq<Byte>)

  /** What becomes of the next command. `hint` is whatever the TPM is free to choose: a handle, or
      how many bytes one NV read returns. A lost command is executed, but its response never
      arrives; a dropped one is not executed. */
  datatype Fate = Deliver(hint: nat) | Lose(hint: nat) | Refuse(rc: ResponseCode) | Drop

  /** Bookkeeping for the theorems; no command reads it. */
  datatype Event =
    | CreatedEvent(ctx: nat, obj: Object)
    | ActivationTried(ctx: nat, ak: Object, ek: Object)
    | ActivationDone(ctx: nat, ak: Object, ek: Object)
    | QuoteDone(key: Object, nonce: seq<Byte>, pcrs: map<nat, Digest>)

  datatype State = State(
    dev: Device,
    contexts: set<nat>,                      // open contexts, by nonzero number
    lastContext: nat,
    objects: map<(nat, U32), Object>,        // by context and transient handle
    sessions: map<(nat, U32), seq<U32>>,     // PolicySecret authorities asserted so far
    persistent: map<U32, Object>,
    nextSerial: nat,
    history: seq<Event>,
    peakObjects: nat,                        // most transients ever live at once
    peakSessions: nat,
    fates: seq<Fate>)

  function Max(a: nat, b: nat): nat { if a < b then b else a }

  // ---- Templates ------------------------------------------------------------

  predicate Attribute(template: seq<Byte>, bit: nat) {
    |template| >= 8 && Bit(ReadBE32(template, 4), bit)
  }

  function AuthPolicy(template: seq<Byte>): (policy: seq<Byte>) {
    if |template| < 8 then [] else
    match TakeTPM2B(template[8..])
    case None => []
    case Some((policy, _)) => policy
  }

  // ---- Contexts -------------------------------------------------------------

  function NextFate(s: State): (r: (Fate, State)) {
    if s.fates == [] then (Deliver(0), s) else (s.fates[0], s.(fates := s.fates[1..]))
  }

  function OpenContext(s: State): (r: (State, Option<nat>)) {
    var (fate, s1) := NextFate(s);
    if fate.Deliver? then
      var ctx := s.lastContext + 1;
      (s1.(contexts := s.contexts + {ctx}, lastContext := ctx), Some(ctx))
    else (s1, None)
  }

  /** Closing a context releases everything it owns. */
  function CloseContext(s: State, ctx: nat): (r: State) {
    s.(contexts := s.contexts - {ctx},
       objects := map k | k in s.objects && k.0 != ctx :: s.objects[k],
       sessions := map k | k in s.sessions && k.0 != ctx :: s.sessions[k])
  }

  // ---- Commands -------------------------------------------------------------

  /** A handle that is free in this context: the TPM's choice, or one of the first three. */
  function Pick(used: set<(nat, U32)>, ctx: nat, first: U32, hint: nat): (r: Option<U32>)
    requires first + HANDLE_SPAN < U32_LIMIT
    ensures r.Some? ==> first <= r.value < first + HANDLE_SPAN && (ctx, r.value) !in used
  {
    if first <= hint < first + HANDLE_SPAN && (ctx, hint) !in used then Some(hint)
    else if (ctx, first) !in used then Some(first)
    else if (ctx, first + 1) !in used then Some(first + 1)
    else if (ctx, first + 2) !in used then Some(first + 2)
    else None
  }

  function Resolve(s: State, ctx: nat, handle: U32): (r: Option<Object>) {
    if (ctx, handle) in s.objects then Some(s.objects[(ctx, handle)])
    else if handle in s.persistent then Some(s.persistent[handle])
    else None
  }

  // TPM2_CreatePrimary, section 24.1
  function ExecCreatePrimary(s: State, ctx: nat, hierarchy: U32, template: seq<Byte>, hint: nat)
    : (State, Option<Reply>)
  {
    if hierarchy != RH_OWNER && hierarchy != RH_ENDORSEMENT then (s, None) else
    match Pick(s.objects.Keys, ctx, TRANSIENT_FIRST, hint)
    case None => (s, None)
    case Some(h) =>
      var o := Object(s.nextSerial, hierarchy, template);
      (s.(objects := s.objects[(ctx, h) := o], nextSerial := s.nextSerial + 1,
          history := s.history + [CreatedEvent(ctx, o)],
          peakObjects := Max(s.peakObjects, |s.objects| + 1)),
       Some(Created(h, s.dev.publicOf(hierarchy, template))))
  }

  // TPM2_StartAuthSession, section 11.1
  function ExecStartSession(s: State, ctx: nat, hint: nat): (State, Option<Reply>) {
    match Pick(s.sessions.Keys, ctx, SESSION_FIRST, hint)
    case None => (s, None)
    case Some(h) =>
      (s.(sessions := s.sessions[(ctx, h) := []], peakSessions := Max(s.peakSessions, |s.sessions| + 1)),
       Some(Handle(h)))
  }

  // TPM2_PolicySecret, section 23.4
  function ExecPolicySecret(s: State, ctx: nat, authority: U32, session: U32): (State, Option<Reply>) {
    if (ctx, session) !in s.sessions then (s, None)
    else (s.(sessions := s.sessions[(ctx, session) := s.sessions[(ctx, session)] + [authority]]), Some(Done))
  }

  function TwoBlobs(params: seq<Byte>): (r: Option<(seq<Byte>, seq<Byte>)>) {
    match TakeTPM2B(params)
    case None => None
    case Some((blob, rest)) =>
      match TakeTPM2B(rest)
      case None => None
      case Some((secret, rest')) => if rest' == [] then Some((blob, secret)) else None
  }

  /** Does the session satisfy the authorization policy of this decryption key? */
  predicate Authorized(s: State, ctx: nat, ek: Object, session: U32) {
    && (ctx, session) in s.sessions
    && Attribute(ek.template, ADMIN_WITH_POLICY)
    && s.dev.policyDigest(s.sessions[(ctx, session)]) == AuthPolicy(ek.template)
  }

  // TPM2_ActivateCredential, section 12.5
  function ExecActivate(s: State, ctx: nat, ak: U32, ek: U32, session: U32, params: seq<Byte>): (State, Option<Reply>) {
    match (Resolve(s, ctx, ak), Resolve(s, ctx, ek))
    case (Some(a), Some(e)) =>
      var tried := s.(history := s.history + [ActivationTried(ctx, a, e)]);
      if !Authorized(s, ctx, e, session) then (tried, None)
      else if !Attribute(e.template, RESTRICTED) || !Attribute(e.template, DECRYPT) then (tried, None)
      else (
        match TwoBlobs(params)
        case None => (tried, None)
        case Some((blob, secret)) =>
          var ekPub := s.dev.publicOf(e.hierarchy, e.template);
          var akName := s.dev.nameOf(s.dev.publicOf(a.hierarchy, a.template));
          match s.dev.unseal(ekPub, akName, blob, secret)
          case None => (tried, None)
          case Some(credential) =>
            (tried.(history := tried.history + [ActivationDone(ctx, a, e)]), Some(Secret(credential))))
    case _ => (s, None)
  }

  // TPM2_FlushContext, section 28.4
  function ExecFlush(s: State, ctx: nat, handle: U32): (State, Option<Reply>) {
    if (ctx, handle) in s.objects then (s.(objects := s.objects - {(ctx, handle)}), Some(Done))
    else if (ctx, handle) in s.sessions then (s.(sessions := s.sessions - {(ctx, handle)}), Some(Done))
    else (s, None)
  }

  // TPM2_EvictControl, section 28.5
  function ExecEvict(s: State, ctx: nat, evicted: U32, slot: U32): (State, Option<Reply>) {
    if evicted in s.persistent then
      if evicted == slot then (s.(persistent := s.persistent - {slot}), Some(Done)) else (s, None)
    else if (ctx, evicted) in s.objects then
      var o := s.objects[(ctx, evicted)];
      if slot in s.persistent || !(PERSISTENT_FIRST <= slot < PERSISTENT_LIMIT)
         || o.hierarchy != RH_OWNER || Attribute(o.template, ST_CLEAR) then (s, None)
      else (s.(persistent := s.persistent[slot := o]), Some(Done))
    else (s, None)
  }

  function Pcrs(s: State): (bank: Bank) {
    s.dev.pcrs(|s.fates|)
  }

  function Values(bank: Bank, selected: set<nat>): (values: map<nat, Digest>) {
    map p | p in selected :: bank(p)
  }

  // TPM2_Quote, section 18.4
  function ExecQuote(s: State, ctx: nat, key: U32, nonce: seq<Byte>, selection: Bitmap): (State, Option<Reply>) {
    match Resolve(s, ctx, key)
    case None => (s, None)
    case Some(o) =>
      if !Attribute(o.template, SIGN) then (s, None) else
      var pcrs := Values(Pcrs(s), SelectedSet(selection));
      var attest := s.dev.attest(o, nonce, pcrs);
      (s.(history := s.history + [QuoteDone(o, nonce, pcrs)]), Some(Quoted(attest, s.dev.sign(o, attest))))
  }

  // TPM2_PCR_Read, section 22.4: at most eight values a call
  function PcrDigests(s: State, selection: Bitmap, from: nat): (r: seq<Digest>)
    requires from <= PCR_COUNT
    decreases PCR_COUNT - from
  {
    if from == PCR_COUNT then []
    else if Selected(selection, from) then [Pcrs(s)(from)] + PcrDigests(s, selection, from + 1)
    else PcrDigests(s, selection, from + 1)
  }

  function FirstEight(digests: seq<Digest>): (r: seq<Digest>)
    ensures |r| <= 8
  {
    if |digests| <= 8 then digests else digests[..8]
  }

  // TPM2_NV_Read, section 31.13: a read may return fewer bytes than asked for
  function ExecNvRead(s: State, index: U32, size: nat, offset: nat, hint: nat): (State, Option<Reply>) {
    if index !in s.dev.nv || size == 0 || size > s.dev.nvMax || offset + size > |s.dev.nv[index].data| then (s, None)
    else
      var got := if 1 <= hint <= size then hint else size;
      (s, Some(NvData(s.dev.nv[index].data[offset..offset + got])))
  }

  function ExecNvReadPublic(s: State, index: U32): (State, Option<Reply>) {
    if index !in s.dev.nv || |s.dev.nv[index].data| >= U16_LIMIT then (s, None)
    else (s, Some(NvPublic(s.dev.nv[index].policy, |s.dev.nv[index].data|)))
  }

  function Exec(s: State, ctx: nat, c: Command, hint: nat): (r: (State, Option<Reply>)) {
    match c
    case CreatePrimary(hierarchy, template) => ExecCreatePrimary(s, ctx, hierarchy, template, hint)
    case StartPolicySession => ExecStartSession(s, ctx, hint)
    case PolicySecret(authority, session) => ExecPolicySecret(s, ctx, authority, session)
    case ActivateCredential(ak, ek, session, params) => ExecActivate(s, ctx, ak, ek, session, params)
    case FlushContext(handle) => ExecFlush(s, ctx, handle)
    case ReadPublic(handle) => (s, if Resolve(s, ctx, handle).Some? then Some(Done) else None)
    case EvictControl(evicted, slot) => ExecEvict(s, ctx, evicted, slot)
    case Quote(key, nonce, selection) => ExecQuote(s, ctx, key, nonce, selection)
    case PcrRead(selection) => (s, Some(PcrValues(selection, FirstEight(PcrDigests(s, selection, 0)))))
    case NvReadPublic(index) => ExecNvReadPublic(s, index)
    case NvRead(index, size, offset) => ExecNvRead(s, index, size, offset, hint)
  }
}
