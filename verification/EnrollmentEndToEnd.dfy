/**
 The enrollment from end to end, down to the JSON texts: with an ideal pair of MakeCredential and
 ActivateCredential an honestly relayed enrollment succeeds and enrolls exactly the key it
 announced, and a challenge sealed to any other key or TPM gets nowhere.
 */
module EnrollmentEndToEnd {
  import opened Bytes
  import opened TpmState
  import opened TpmCodec
  import opened ClientSpec
  import opened KeyTemplates
  import opened TpmFrames
  import opened TpmEffects
  import opened EnrollmentSpec
  import opened EnrollmentSafety
  import Base64
  import Json
  import JsonRoundTrip

  // ---- Assumptions ----------------------------------------------------------

  /** The server's TPM2_MakeCredential: EK, AK Name and secret to credential blob and encrypted secret. */
  type Seal = (PublicArea, Name, Digest) -> (Blob, Blob)

  /** What is sealed to one EK and one Name opens under exactly those. */
  ghost predicate Ideal(dev: Device, seal: Seal) {
    forall ek: PublicArea, name: Name, ek': PublicArea, name': Name, x: Digest ::
      var sealed := seal(ek', name', x);
      dev.unseal(ek, name, sealed.0, sealed.1) == if ek == ek' && name == name' then Some(x) else None
  }

  /** The assumption can be met: a pair of functions that does. Real ones use cryptography instead. */
  function PlainSeal(ek: PublicArea, name: Name, x: Digest): (r: (Blob, Blob)) {
    (ek, [|name|] + name + x)
  }

  function PlainUnseal(ek: seq<Byte>, name: seq<Byte>, blob: seq<Byte>, enc: seq<Byte>): (r: Option<Digest>) {
    if blob == ek && |name| <= 66 && 1 + |name| <= |enc| <= 65 + |name| && enc[..1 + |name|] == [|name|] + name
    then Some(enc[1 + |name|..])
    else None
  }

  lemma {:induction false} IdealPossible(dev: Device)
    requires forall ek, name, blob, enc :: dev.unseal(ek, name, blob, enc) == PlainUnseal(ek, name, blob, enc)
    ensures Ideal(dev, (ek, name, x) => PlainSeal(ek, name, x))
  {
    forall ek: PublicArea, name: Name, ek': PublicArea, name': Name, x: Digest
      ensures var sealed := PlainSeal(ek', name', x);
              dev.unseal(ek, name, sealed.0, sealed.1) == if ek == ek' && name == name' then Some(x) else None
    {
      PlainPair(ek, name, ek', name', x);
    }
  }

  lemma {:induction false} PlainPair(ek: PublicArea, name: Name, ek': PublicArea, name': Name, x: Digest)
    ensures var sealed := PlainSeal(ek', name', x);
            PlainUnseal(ek, name, sealed.0, sealed.1) == if ek == ek' && name == name' then Some(x) else None
  {
    var n: seq<Byte>, m: seq<Byte> := name, name';
    var enc := [|m|] + m + x;
    assert enc[0] == |m|;
    if 1 + |n| <= |enc| && enc[..1 + |n|] == [|n|] + n {
      assert enc[..1 + |n|][0] == |n|;
      assert |n| == |m| && enc[..1 + |m|][1..] == m && ([|n|] + n)[1..] == n;
    }
    if n == m {
      assert enc[..1 + |n|] == [|n|] + n && enc[1 + |n|..] == x;
    }
  }

  /** The constant in the EK template is the digest of the policy that the client runs. */
  predicate EkPolicyHolds(dev: Device) {
    dev.policyDigest([0x4000_000B]) == EK_POLICY
  }

  /** No command is lost or refused. */
  predicate Prompt(s: State) {
    forall i :: 0 <= i < |s.fates| ==> s.fates[i].Deliver?
  }

  /** The platform's base64 decoder inverts the encoder. */
  ghost predicate Decodes(decode: Decoder) {
    forall b: seq<Byte> :: decode(Base64.Encode(b)) == b
  }

  /** What this TPM makes of a credential for this AK under this EK. */
  function Unsealed(dev: Device, ak: Object, ek: Object, blob: seq<Byte>, enc: seq<Byte>): (r: Option<seq<Byte>>) {
    var akName := dev.nameOf(dev.publicOf(ak.hierarchy, ak.template));
    match dev.unseal(dev.publicOf(ek.hierarchy, ek.template), akName, blob, enc)
    case None => None
    case Some(x) => Some(x)
  }

  // ---- Commands that succeed ------------------------------------------------

  lemma {:induction false} PromptIssue(s: State, ctx: nat, c: Command)
    requires Prompt(s) && ctx != 0 && ctx in s.contexts && Fits(c)
    ensures var (fate, s1) := NextFate(s);
            && fate.Deliver? && Prompt(s1) && s1 == s.(fates := s1.fates)
            && Issue(s, ctx, c) == Exec(s1, ctx, c, fate.hint)
  {
  }

  lemma {:induction false} PromptKept(s: State, ctx: nat, c: Command)
    requires Prompt(s)
    ensures Prompt(Issue(s, ctx, c).0)
  {
    var (fate, s1) := NextFate(s);
    if fate.Deliver? {
      ExecKeepsFates(s1, ctx, c, fate.hint);
    }
  }

  lemma {:induction false} ExecKeepsFates(s: State, ctx: nat, c: Command, hint: nat)
    ensures Exec(s, ctx, c, hint).0.fates == s.fates
  {
  }

  lemma {:induction false} CreateSucceeds(s: State, ctx: nat, hierarchy: U32, template: seq<Byte>)
    requires Prompt(s) && ctx != 0 && ctx in s.contexts && |template| <= 400
    requires hierarchy == RH_OWNER || hierarchy == RH_ENDORSEMENT
    requires (ctx, TRANSIENT_FIRST) !in s.objects || (ctx, TRANSIENT_FIRST + 1) !in s.objects
    ensures var (t, h, pub) := CreateKey(s, ctx, hierarchy, template);
            h != 0 && pub == TPM2B(s.dev.publicOf(hierarchy, template)) && Prompt(t) && t.contexts == s.contexts
  {
    PromptIssue(s, ctx, CreatePrimary(hierarchy, template));
    PromptKept(s, ctx, CreatePrimary(hierarchy, template));
  }

  lemma {:induction false} AkSucceeds(s: State, p: Provider)
    requires p.ek == 0 && p.ak == 0 && Vacant(s, p.ctx) && Prompt(s) && p.ctx != 0 && p.ctx in s.contexts
    ensures var (t, q, ok) := CreateAk(s, p); ok && q.akPub != [] && Prompt(t)
  {
    TemplateLengths();
    CreateSucceeds(s, p.ctx, RH_ENDORSEMENT, EkTemplate());
    KeyEffect(s, p.ctx, RH_ENDORSEMENT, EkTemplate());
    var (s1, ek, _) := CreateKey(s, p.ctx, RH_ENDORSEMENT, EkTemplate());
    assert (p.ctx, TRANSIENT_FIRST) !in s1.objects || (p.ctx, TRANSIENT_FIRST + 1) !in s1.objects;
    CreateSucceeds(s1, p.ctx, RH_OWNER, AkTemplate());
  }

  /** A fresh context gets its EK and its AK. */
  lemma {:induction false} BeginSucceeds(s: State)
    requires Numbered(s) && Prompt(s)
    ensures var (t, result, p) := BeginKeys(s, true);
            result == OK && p.Some? && NewKeys(s, t, p.value) && Prompt(t)
  {
    OpenEffect(s);
    BeginKeysEffect(s, true);
    var (s1, ctx) := OpenContext(s);
    AkSucceeds(s1, NewProvider(ctx.value));
  }

  lemma {:induction false} ChunkPrompt(s: State, ctx: nat, index: U32, size: U16, offset: nat, most: nat)
    requires Prompt(s) && offset < size
    ensures Prompt(ReadChunk(s, ctx, index, size, offset, most).0)
  {
    PromptKept(s, ctx, NvRead(index, if size - offset > most then most else size - offset, offset));
  }

  lemma {:induction false} NvLoopPrompt(s: State, ctx: nat, index: U32, size: U16, acc: seq<Byte>, most: nat,
                                        all: (State, Option<seq<Byte>>))
    requires Prompt(s) && NvLoop(s, ctx, index, size, acc, most) == all
    ensures Prompt(all.0)
    decreases size - |acc|
  {
    if |acc| < size {
      var next := ReadChunk(s, ctx, index, size, |acc|, most);
      ChunkPrompt(s, ctx, index, size, |acc|, most);
      NvGoesOn(s, ctx, index, size, acc, most, next, all);
      if next.1 != [] {
        NvLoopPrompt(next.0, ctx, index, size, acc + next.1, most, all);
      }
    }
  }

  lemma {:induction false} WholeLoopPrompt(s: State, ctx: nat, index: U32, size: U16)
    requires Prompt(s)
    ensures Prompt(NvLoop(s, ctx, index, size, [], NV_CHUNK).0)
  {
    NvLoopPrompt(s, ctx, index, size, [], NV_CHUNK, NvLoop(s, ctx, index, size, [], NV_CHUNK));
  }

  lemma {:induction false} ReadAllPrompt(s: State, ctx: nat, indices: seq<U32>, acc: seq<seq<Byte>>)
    requires Prompt(s)
    ensures Prompt(ReadAll(s, ctx, indices, acc).0)
    decreases |indices|
  {
    if indices != [] {
      PromptKept(s, ctx, NvReadPublic(indices[0]));
      var (s0, reply) := Issue(s, ctx, NvReadPublic(indices[0]));
      WholeLoopPrompt(s0, ctx, indices[0], NvSizeOf(reply));
      var (s', cert) := ReadNv(s, ctx, indices[0]);
      ReadAllPrompt(s', ctx, indices[1..], if cert.Some? then acc + [cert.value] else acc);
    }
  }

  lemma {:induction false} GatherPrompt(s: State, src: EkSources)
    requires Prompt(s)
    ensures Prompt(GatherEk(s, src).0)
  {
    if src.ekPub != [] {
      var (s1, ctx) := OpenContext(s);
      ReadAllPrompt(s1, ctx.value, OdcaHandles(), []);
    }
  }

  lemma {:induction false} FlushPrompt(s: State, p: Provider)
    requires Prompt(s)
    ensures Prompt(FlushTransients(s, p).0) && Prompt(CloseProvider(s, p))
  {
    if p.ak != 0 { PromptKept(s, p.ctx, FlushContext(p.ak)); }
    var s1 := if p.ak != 0 then Flush(s, p.ctx, p.ak) else s;
    if p.ek != 0 { PromptKept(s1, p.ctx, FlushContext(p.ek)); }
  }

  lemma {:induction false} SessionSucceeds(s: State, ctx: nat)
    requires Prompt(s) && ctx != 0 && ctx in s.contexts && forall k :: k in s.sessions ==> k.0 != ctx
    ensures var (t, reply) := Issue(s, ctx, StartPolicySession);
            var session := SessionOf(reply);
            && session.Some? && Prompt(t)
            && t == s.(sessions := s.sessions[(ctx, session.value) := []],
                       peakSessions := t.peakSessions, fates := t.fates)
  {
    PromptIssue(s, ctx, StartPolicySession);
  }

  lemma {:induction false} PolicySucceeds(s: State, ctx: nat, session: U32)
    requires Prompt(s) && ctx != 0 && ctx in s.contexts
    requires (ctx, session) in s.sessions && s.sessions[(ctx, session)] == []
    ensures var (t, reply) := Issue(s, ctx, PolicySecret(RH_ENDORSEMENT, session));
            && reply.Some? && Prompt(t)
            && t == s.(sessions := s.sessions[(ctx, session) := [RH_ENDORSEMENT]], fates := t.fates)
  {
    PromptIssue(s, ctx, PolicySecret(RH_ENDORSEMENT, session));
    assert [] + [RH_ENDORSEMENT] == [RH_ENDORSEMENT];
  }

  /** An activation that the policy session authorizes, executed. */
  lemma {:induction false} ExecUnseals(s: State, ctx: nat, ak: U32, ek: U32, session: U32, params: seq<Byte>,
                                       blob: seq<Byte>, enc: seq<Byte>, a: Object, e: Object)
    requires Resolve(s, ctx, ak) == Some(a) && Resolve(s, ctx, ek) == Some(e) && Authorized(s, ctx, e, session)
    requires Attribute(e.template, RESTRICTED) && Attribute(e.template, DECRYPT)
    requires TwoBlobs(params) == Some((blob, enc))
    ensures SecretOf(ExecActivate(s, ctx, ak, ek, session, params).1) == Unsealed(s.dev, a, e, blob, enc).GetOr([])
  {
  }

  lemma {:induction false} UnsealSucceeds(s: State, ctx: nat, ak: U32, ek: U32, session: U32, params: seq<Byte>,
                                          blob: seq<Byte>, enc: seq<Byte>)
    requires Prompt(s) && ctx != 0 && ctx in s.contexts && |params| <= 4000 && EkPolicyHolds(s.dev)
    requires (ctx, ak) in s.objects && (ctx, ek) in s.objects && s.objects[(ctx, ek)].template == EkTemplate()
    requires (ctx, session) in s.sessions && s.sessions[(ctx, session)] == [RH_ENDORSEMENT]
    requires TwoBlobs(params) == Some((blob, enc))
    ensures var (t, reply) := Issue(s, ctx, ActivateCredential(ak, ek, session, params));
            var (a, e) := (s.objects[(ctx, ak)], s.objects[(ctx, ek)]);
            SecretOf(reply) == Unsealed(s.dev, a, e, blob, enc).GetOr([]) && Prompt(t)
  {
    PromptIssue(s, ctx, ActivateCredential(ak, ek, session, params));
    PromptKept(s, ctx, ActivateCredential(ak, ek, session, params));
    EkTemplateFacts();
    ExecUnseals(NextFate(s).1, ctx, ak, ek, session, params, blob, enc, s.objects[(ctx, ak)], s.objects[(ctx, ek)]);
  }

  lemma {:induction false} ActivateSucceeds(s: State, ctx: nat, ak: U32, ek: U32, params: seq<Byte>, blob: seq<Byte>,
                                            enc: seq<Byte>)
    requires Prompt(s) && ctx != 0 && ctx in s.contexts && |params| <= 4000 && EkPolicyHolds(s.dev)
    requires forall k :: k in s.sessions ==> k.0 != ctx
    requires (ctx, ak) in s.objects && (ctx, ek) in s.objects && s.objects[(ctx, ek)].template == EkTemplate()
    requires TwoBlobs(params) == Some((blob, enc))
    ensures var (t, secret) := Activate(s, ctx, ak, ek, params);
            var (a, e) := (s.objects[(ctx, ak)], s.objects[(ctx, ek)]);
            secret == Unsealed(s.dev, a, e, blob, enc).GetOr([]) && Prompt(t)
  {
    SessionSucceeds(s, ctx);
    var (s1, reply) := Issue(s, ctx, StartPolicySession);
    var session := SessionOf(reply).value;
    PolicySucceeds(s1, ctx, session);
    var (s2, _) := Issue(s1, ctx, PolicySecret(RH_ENDORSEMENT, session));
    UnsealSucceeds(s2, ctx, ak, ek, session, params, blob, enc);
    var (s3, _) := Issue(s2, ctx, ActivateCredential(ak, ek, session, params));
    PromptKept(s3, ctx, FlushContext(session));
  }

  /** The object ends up in the slot, whatever the slot held before. */
  lemma {:induction false} EvictSucceeds(s: State, ctx: nat, handle: U32, slot: U32)
    requires Prompt(s) && ctx != 0 && ctx in s.contexts && HandlesApart(s, ctx)
    requires PERSISTENT_FIRST <= slot < PERSISTENT_LIMIT && (ctx, handle) in s.objects
    requires s.objects[(ctx, handle)].hierarchy == RH_OWNER && s.objects[(ctx, handle)].template == AkTemplate()
    ensures var (t, ok) := Evict(s, ctx, handle, slot);
            ok && t.persistent == s.persistent[slot := s.objects[(ctx, handle)]] && Prompt(t)
  {
    AkTemplateFacts();
    var (s1, present) := IsPresent(s, ctx, slot);
    PromptIssue(s, ctx, ReadPublic(slot));
    assert present <==> slot in s.persistent;
    if present {
      PromptIssue(s1, ctx, EvictControl(slot, slot));
      var (s2, cleared) := EvictTo(s1, ctx, slot, slot);
      PromptIssue(s2, ctx, EvictControl(handle, slot));
      PromptKept(s2, ctx, EvictControl(handle, slot));
      assert (s.persistent - {slot})[slot := s.objects[(ctx, handle)]]
             == s.persistent[slot := s.objects[(ctx, handle)]];
    } else {
      PromptIssue(s1, ctx, EvictControl(handle, slot));
      PromptKept(s1, ctx, EvictControl(handle, slot));
    }
  }

  /** Activation and persisting with a challenge that opens. */
  lemma {:induction false} CompleteSucceeds(base: State, w: World, p: Provider, params: seq<Byte>, blob: seq<Byte>,
                                            enc: seq<Byte>, secret: Digest)
    requires Inv(base, w) && w.inflight == Some(p) && Prompt(w.tpm) && EkPolicyHolds(w.tpm.dev)
    requires TwoBlobs(params) == Some((blob, enc)) && |params| <= 4000 && secret != []
    requires var (a, e) := (w.tpm.objects[(p.ctx, p.ak)], w.tpm.objects[(p.ctx, p.ek)]);
             Unsealed(w.tpm.dev, a, e, blob, enc) == Some(secret)
    ensures var (t, result, recovered) := CompleteKeys(w.tpm, p, params);
            && result == OK && recovered == secret
            && t.persistent == w.tpm.persistent[AK_SLOT := w.tpm.objects[(p.ctx, p.ak)]]
  {
    var s := w.tpm;
    InvNumbered(base, w);
    assert forall k :: k in s.sessions ==> k.0 != p.ctx;
    assert HandlesApart(s, p.ctx);
    ActivateSucceeds(s, p.ctx, p.ak, p.ek, params, blob, enc);
    ActivateEffect(s, p.ctx, p.ak, p.ek, params);
    var (s1, recovered) := ActivateAk(s, p, params);
    EvictSucceeds(s1, p.ctx, p.ak, AK_SLOT);
    var (s2, ok) := Evict(s1, p.ctx, p.ak, AK_SLOT);
    FlushTransientsEffect(s2, p);
    var (s3, p3) := FlushTransients(s2, p);
    FlushTransientsEffect(s3, p3);
  }

  // ---- Challenges that do not open ------------------------------------------

  /** A secret comes out only if the TPM unsealed it for this EK and this AK, whatever the fates. */
  lemma {:induction false} NothingUnsealed(s: State, ctx: nat, ak: U32, ek: U32, session: U32, params: seq<Byte>)
    requires (ctx, ak) in s.objects && (ctx, ek) in s.objects
    requires var (a, e) := (s.objects[(ctx, ak)], s.objects[(ctx, ek)]);
             var blobs := TwoBlobs(params);
             blobs.Some? ==> Unsealed(s.dev, a, e, blobs.value.0, blobs.value.1).None?
    ensures SecretOf(Issue(s, ctx, ActivateCredential(ak, ek, session, params)).1) == []
  {
  }

  /** Then EnrollComplete reports failure and the slot keeps what it holds. */
  lemma {:induction false} UnopenedFails(base: State, w: World, p: Provider, params: seq<Byte>)
    requires Inv(base, w) && w.inflight == Some(p)
    requires var (a, e) := (w.tpm.objects[(p.ctx, p.ak)], w.tpm.objects[(p.ctx, p.ek)]);
             var (dev, blobs) := (w.tpm.dev, TwoBlobs(params));
             blobs.Some? ==> Unsealed(dev, a, e, blobs.value.0, blobs.value.1).None?
    ensures var (t, result, _) := CompleteKeys(w.tpm, p, params);
            result == ATTESTATION_FAILED && t.persistent == w.tpm.persistent
  {
    var s := w.tpm;
    assert HandlesApart(s, p.ctx);
    ActivateEffect(s, p.ctx, p.ak, p.ek, params);
    var (s1, reply) := Issue(s, p.ctx, StartPolicySession);
    StartSessionEffect(s, p.ctx);
    if SessionOf(reply).Some? {
      var session := SessionOf(reply).value;
      var (s2, _) := Issue(s1, p.ctx, PolicySecret(RH_ENDORSEMENT, session));
      PolicySecretEffect(s1, p.ctx, session);
      NothingUnsealed(s2, p.ctx, p.ak, p.ek, session, params);
    }
    var (s3, secret) := ActivateAk(s, p, params);
    assert secret == [];
    FlushTransientsEffect(s3, p);
  }

  // ---- The texts in between -------------------------------------------------

  lemma {:induction false} PlainJoin(a: string, b: string)
    requires JsonRoundTrip.Plain(a) && JsonRoundTrip.Plain(b)
    ensures JsonRoundTrip.Plain(a + b)
  {
  }

  lemma {:induction false} PlainGroup(b: seq<Byte>)
    requires b != []
    ensures JsonRoundTrip.Plain(Base64.EncodeGroup(b))
  {
  }

  lemma {:induction false} Base64Plain(b: seq<Byte>)
    ensures JsonRoundTrip.Plain(Base64.Encode(b))
    decreases |b|
  {
    if b != [] {
      PlainGroup(b);
      Base64Plain(Base64.Rest(b));
      PlainJoin(Base64.EncodeGroup(b), Base64.Encode(Base64.Rest(b)));
    }
  }

  lemma {:induction false} Base64NotEmpty(b: seq<Byte>)
    requires b != []
    ensures Base64.Encode(b) != ""
  {
  }

  /** Keys of these bodies. */
  lemma {:induction false} Keys()
    ensures JsonRoundTrip.GoodKey("credentialBlob") && JsonRoundTrip.GoodKey("deviceId")
    ensures JsonRoundTrip.GoodKey("encryptedSecret") && JsonRoundTrip.GoodKey("decryptedSecret")
    ensures JsonRoundTrip.GoodKey("akPublicArea") && JsonRoundTrip.GoodKey("ekCertPem")
    ensures JsonRoundTrip.GoodKey("ekCertificateChain") && JsonRoundTrip.GoodKey("ekPublicKey")
    ensures JsonRoundTrip.GoodKey("platform") && JsonRoundTrip.GoodKey("nonce")
    ensures JsonRoundTrip.GoodKey("quoted") && JsonRoundTrip.GoodKey("signature")
  {
  }

  /** The server's answer to an enroll request: both blobs as sized buffers. */
  function ChallengeFields(deviceId: string, blob: seq<Byte>, enc: seq<Byte>): (r: Fields) {
    [("credentialBlob", Base64.Encode(TPM2B(blob))),
     ("deviceId", deviceId),
     ("encryptedSecret", Base64.Encode(TPM2B(enc)))]
  }

  /** A value that is read back in front of this key: any string, and of the texts that are copied as
      they are, those that are balanced and do not contain the quoted key. */
  predicate ReadBack(v: string, next: string) {
    Json.LooksRaw(v) ==> JsonRoundTrip.Balanced(v) && !JsonRoundTrip.Occurs(Json.Key(next), v)
  }

  /** Three fields, of which the outer two are base64 and the second one is read back: a clash can
      only come from a value right in front of its key, where it does no harm. */
  lemma {:induction false} ThreeFields(fields: Fields, a: seq<Byte>, c: seq<Byte>)
    requires |fields| == 3 && fields[0].1 == Base64.Encode(a) && fields[2].1 == Base64.Encode(c)
    requires forall i :: 0 <= i < 3 ==> JsonRoundTrip.GoodKey(fields[i].0)
    requires JsonRoundTrip.DistinctKeys(Json.ItemsOf(fields)) && ReadBack(fields[1].1, fields[2].0)
    requires |fields[2].0| % 4 != 0
    ensures forall i :: 0 <= i < 3 ==> Json.Get(Json.Build(fields), fields[i].0) == fields[i].1
  {
    forall i | 0 <= i < 3
      ensures Json.Get(Json.Build(fields), fields[i].0) == fields[i].1
    {
      FieldOfThree(fields, a, c, i);
    }
  }

  lemma {:induction false} FieldOfThree(fields: Fields, a: seq<Byte>, c: seq<Byte>, i: nat)
    requires |fields| == 3 && fields[0].1 == Base64.Encode(a) && fields[2].1 == Base64.Encode(c)
    requires forall i :: 0 <= i < 3 ==> JsonRoundTrip.GoodKey(fields[i].0)
    requires JsonRoundTrip.DistinctKeys(Json.ItemsOf(fields)) && ReadBack(fields[1].1, fields[2].0)
    requires |fields[2].0| % 4 != 0 && i < 3
    ensures Json.Get(Json.Build(fields), fields[i].0) == fields[i].1
  {
    var items, k := Json.ItemsOf(fields), fields[i].0;
    Base64Reads(fields[0].0, a, k);
    Base64Reads(fields[2].0, c, k);
    ItemOfThree(items, i);
  }

  lemma {:induction false} PlainReads(key: string, v: string, k: string)
    requires JsonRoundTrip.Plain(v)
    ensures var item := Json.ItemOf((key, v));
            && item.value == v && JsonRoundTrip.Readable(item)
            && !JsonRoundTrip.Occurs(Json.Key(k), item.value) && !JsonRoundTrip.EndsWith(item.value, "\"" + k)
  {
    JsonRoundTrip.PlainValue(key, v, k);
  }

  lemma {:induction false} Base64Reads(key: string, b: seq<Byte>, k: string)
    ensures var item := Json.ItemOf((key, Base64.Encode(b)));
            && JsonRoundTrip.Readable(item) && |item.value| % 4 == 0
            && !JsonRoundTrip.Occurs(Json.Key(k), item.value) && !JsonRoundTrip.EndsWith(item.value, "\"" + k)
  {
    Base64Plain(b);
    PlainReads(key, Base64.Encode(b), k);
    Base64.EncodeLength(b);
    WholeGroups(Base64.Encode(b), (|b| + 2) / 3);
  }

  lemma {:induction false} WholeGroups(text: string, n: nat)
    requires |text| == 4 * n
    ensures |text| % 4 == 0
  {
  }

  lemma {:induction false} ItemOfThree(items: seq<Json.Item>, i: nat)
    requires |items| == 3 && i < 3 && JsonRoundTrip.DistinctKeys(items)
    requires forall n :: 0 <= n < 3 ==> JsonRoundTrip.GoodKey(items[n].key)
    requires forall n :: 0 <= n < 3 ==> JsonRoundTrip.Readable(items[n])
    requires items[1].Raw? ==> !JsonRoundTrip.Occurs(Json.Key(items[2].key), items[1].value)
    requires var k := items[i].key;
             && !JsonRoundTrip.Occurs(Json.Key(k), items[0].value) && !JsonRoundTrip.Occurs(Json.Key(k), items[2].value)
             && !JsonRoundTrip.EndsWith(items[0].value, "\"" + k)
    requires |items[0].value| % 4 == 0 && |items[2].key| % 4 != 0
    ensures Json.Get(Json.Object(items), items[i].key) == items[i].value
  {
    var k := items[i].key;
    assert JsonRoundTrip.Usable(items, k) && JsonRoundTrip.AllReadable(items, k);
    if i == 2 {
      assert !JsonRoundTrip.Clashes(items[0], k);
    }
    JsonRoundTrip.RoundTripIff(items, i);
  }

  lemma {:induction false} ChallengeRead(deviceId: string, blob: seq<Byte>, enc: seq<Byte>)
    requires deviceId != "" && ReadBack(deviceId, "encryptedSecret")
    ensures Challenge(Json.Build(ChallengeFields(deviceId, blob, enc)))
            == Some((deviceId, Base64.Encode(TPM2B(blob)), Base64.Encode(TPM2B(enc))))
  {
    Keys();
    var fields := ChallengeFields(deviceId, blob, enc);
    var items := Json.ItemsOf(fields);
    assert items[0].key == "credentialBlob" && items[1].key == "deviceId" && items[2].key == "encryptedSecret";
    assert "credentialBlob" != "deviceId" && "deviceId" != "encryptedSecret"
           && "credentialBlob"[0] != "encryptedSecret"[0];
    ThreeFields(fields, TPM2B(blob), TPM2B(enc));
    assert fields[0].0 == "credentialBlob" && fields[1].0 == "deviceId" && fields[2].0 == "encryptedSecret";
    Base64NotEmpty(TPM2B(blob));
    Base64NotEmpty(TPM2B(enc));
  }

  /** The activate request is read back by anyone who reads as the client does. */
  lemma {:induction false} ActivateRead(deviceId: string, secret: seq<Byte>)
    requires Json.LooksRaw(deviceId) ==> JsonRoundTrip.Balanced(deviceId)
    ensures var body := Json.Build(ActivateFields(deviceId, secret));
            Json.Get(body, "decryptedSecret") == Base64.Encode(secret) && Json.Get(body, "deviceId") == deviceId
  {
    Keys();
    var fields := ActivateFields(deviceId, secret);
    var items := Json.ItemsOf(fields);
    Base64Plain(secret);
    forall i | 0 <= i < 2
      ensures Json.Get(Json.Build(fields), fields[i].0) == fields[i].1
    {
      JsonRoundTrip.PlainValue(fields[0].0, fields[0].1, fields[i].0);
      assert JsonRoundTrip.Readable(items[0]) && JsonRoundTrip.Readable(items[1]);
      assert items[0].key == "decryptedSecret" && items[1].key == "deviceId" && |"decryptedSecret"| != |"deviceId"|;
      JsonRoundTrip.RoundTripIff(items, i);
    }
    assert fields[0].0 == "decryptedSecret" && fields[1].0 == "deviceId";
  }

  /** The AK's public area is the first field of the enroll request. */
  lemma {:induction false} EnrollRead(ek: EkData, akPub: seq<Byte>)
    ensures Json.Get(Json.Build(EnrollFields(ek, akPub)), "akPublicArea") == Base64.Encode(akPub)
  {
    Keys();
    var fields := EnrollFields(ek, akPub);
    var items := Json.ItemsOf(fields);
    assert fields[0] == ("akPublicArea", Base64.Encode(akPub));
    Base64Plain(akPub);
    JsonRoundTrip.PlainValue("akPublicArea", fields[0].1, "akPublicArea");
    EnrollKeys(ek, akPub);
    assert items[0] == Json.ItemOf(fields[0]);
    JsonRoundTrip.GetIsLookup(items, "akPublicArea");
  }

  lemma {:induction false} EnrollKeys(ek: EkData, akPub: seq<Byte>)
    ensures forall i :: 0 <= i < |EnrollFields(ek, akPub)| ==> JsonRoundTrip.GoodKey(EnrollFields(ek, akPub)[i].0)
  {
    Keys();
  }

  // ---- The theorems ---------------------------------------------------------

  /** What the server does with an enroll request: it takes the AK's public area from the body and
      seals the secret to this TPM's EK and the Name of that AK. */
  function ServerChallenge(dev: Device, seal: Seal, decode: Decoder, body: string, deviceId: string,
                           secret: Digest): (r: string)
  {
    match TakeTPM2B(decode(Json.Get(body, "akPublicArea")))
    case None => ""
    case Some((area, _)) =>
      var sealed := seal(dev.publicOf(RH_ENDORSEMENT, EkTemplate()), dev.nameOf(area), secret);
      Json.Build(ChallengeFields(deviceId, sealed.0, sealed.1))
  }

  /** An honestly relayed enrollment: what Begin announced is what Complete puts into the slot, whether
      or not memory is left for the reply. */
  lemma {:induction false} HonestRun(base: State, w: World, src: EkSources, seal: Seal, decode: Decoder,
                                     deviceId: string, secret: Digest, allocates: bool)
    requires Inv(base, w) && Prompt(w.tpm) && src.ekPub != []
    requires Ideal(w.tpm.dev, seal) && EkPolicyHolds(w.tpm.dev) && Decodes(decode)
    requires secret != [] && deviceId != "" && ReadBack(deviceId, "encryptedSecret")
    ensures var dev := w.tpm.dev;
            var (w1, began, request) := EnrollBegin(w, BeginInput(true, true, src, true));
            && began == OK && request.Some? && NewAk(w.tpm, w1)
            && decode(Json.Get(request.value, "akPublicArea")) == TPM2B(dev.publicOf(RH_OWNER, AkTemplate()))
            && var challenge := ServerChallenge(dev, seal, decode, request.value, deviceId, secret);
               var (w2, done, reply) := EnrollComplete(w1, CompleteInput(Some(challenge), true, decode, allocates));
               && w2.inflight == None
               && (done, reply) == (if allocates then (OK, Some(Json.Build(ActivateFields(deviceId, secret))))
                                    else (INTERNAL, None))
               && var p := w1.inflight.value;
                  w2.tpm.persistent == w1.tpm.persistent[AK_SLOT := w1.tpm.objects[(p.ctx, p.ak)]]
  {
    var dev := w.tpm.dev;
    var (w1, began, request) := EnrollBegin(w, BeginInput(true, true, src, true));
    var area := dev.publicOf(RH_OWNER, AkTemplate());
    BeginWorld(base, w, src);
    BeginKeepsInv(base, w, BeginInput(true, true, src, true));
    Announced(GatherEk(w.tpm, src).1.value, w1.inflight.value.akPub, area, decode);
    var sealed := seal(dev.publicOf(RH_ENDORSEMENT, EkTemplate()), dev.nameOf(area), secret);
    assert ServerChallenge(dev, seal, decode, request.value, deviceId, secret)
           == Json.Build(ChallengeFields(deviceId, sealed.0, sealed.1));
    var p := w1.inflight.value;
    IdealOpens(dev, seal, secret, w1.tpm.objects[(p.ctx, p.ak)], w1.tpm.objects[(p.ctx, p.ek)]);
    Relayed(base, w1, sealed.0, sealed.1, decode, deviceId, secret, allocates);
  }

  /** In any reachable world: if no command is lost or refused, an honestly relayed enrollment
      returns the server's secret and leaves in the slot the very object that this Begin created and
      its request announced, whatever the slot held before. No other persistent handle changes. */
  lemma {:induction false} HonestEnrollment(base: State, w: World, src: EkSources, seal: Seal, decode: Decoder,
                                            deviceId: string, secret: Digest)
    requires Inv(base, w) && Prompt(w.tpm) && src.ekPub != []
    requires Ideal(w.tpm.dev, seal) && EkPolicyHolds(w.tpm.dev) && Decodes(decode)
    requires secret != [] && deviceId != "" && ReadBack(deviceId, "encryptedSecret")
    ensures var dev := w.tpm.dev;
            var (w1, began, request) := EnrollBegin(w, BeginInput(true, true, src, true));
            && began == OK && request.Some?
            && var challenge := ServerChallenge(dev, seal, decode, request.value, deviceId, secret);
               var (w2, done, reply) := EnrollComplete(w1, CompleteInput(Some(challenge), true, decode, true));
               && done == OK && reply.Some? && w2.inflight == None
               && decode(Json.Get(reply.value, "decryptedSecret")) == secret
               && Json.Get(reply.value, "deviceId") == deviceId
               && w1.inflight.Some?
               && var p := w1.inflight.value;
                  && (p.ctx, p.ak) in w1.tpm.objects
                  && var o := w1.tpm.objects[(p.ctx, p.ak)];
                     && w2.tpm.persistent == w1.tpm.persistent[0x8102_9301 := o]
                     && w1.tpm.persistent == w.tpm.persistent
                     && o.hierarchy == 0x4000_0001 && o.template == AkTemplate() && o.serial >= w.tpm.nextSerial
                     && Attribute(o.template, 16) && Attribute(o.template, 18)  // restricted, sign
                     && decode(Json.Get(request.value, "akPublicArea")) == TPM2B(dev.publicOf(o.hierarchy, o.template))
  {
    HonestRun(base, w, src, seal, decode, deviceId, secret, true);
    AkTemplateFacts();
    ActivateRead(deviceId, secret);
    assert decode(Base64.Encode(secret)) == secret;
  }

  /** Without memory for the reply the same run ends with INTERNAL: the secret is gone, and the AK has
      replaced whatever was in the slot. */
  lemma {:induction false} LostReply(base: State, w: World, src: EkSources, seal: Seal, decode: Decoder,
                                     deviceId: string, secret: Digest)
    requires Inv(base, w) && Prompt(w.tpm) && src.ekPub != []
    requires Ideal(w.tpm.dev, seal) && EkPolicyHolds(w.tpm.dev) && Decodes(decode)
    requires secret != [] && deviceId != "" && ReadBack(deviceId, "encryptedSecret")
    ensures var (w1, began, request) := EnrollBegin(w, BeginInput(true, true, src, true));
            && request.Some?
            && var challenge := ServerChallenge(w.tpm.dev, seal, decode, request.value, deviceId, secret);
               var (w2, done, reply) := EnrollComplete(w1, CompleteInput(Some(challenge), true, decode, false));
               && (done, reply) == (INTERNAL, None) && NewAk(w.tpm, w1)
               && var p := w1.inflight.value;
                  w2.tpm.persistent == w.tpm.persistent[AK_SLOT := w1.tpm.objects[(p.ctx, p.ak)]]
  {
    HonestRun(base, w, src, seal, decode, deviceId, secret, false);
  }

  lemma {:induction false} IdealOpens(dev: Device, seal: Seal, secret: Digest, ak: Object, ek: Object)
    requires Ideal(dev, seal)
    ensures var akName := dev.nameOf(dev.publicOf(ak.hierarchy, ak.template));
            var sealed := seal(dev.publicOf(ek.hierarchy, ek.template), akName, secret);
            Unsealed(dev, ak, ek, sealed.0, sealed.1) == Some(secret)
  {
  }

  lemma {:induction false} IdealCloses(dev: Device, seal: Seal, ekPub: PublicArea, name: Name, secret: Digest,
                                       ak: Object, ek: Object)
    requires Ideal(dev, seal)
    requires ekPub != dev.publicOf(ek.hierarchy, ek.template)
             || name != dev.nameOf(dev.publicOf(ak.hierarchy, ak.template))
    ensures var sealed := seal(ekPub, name, secret); Unsealed(dev, ak, ek, sealed.0, sealed.1).None?
  {
  }

  /** The request announces the AK that is in flight. */
  lemma {:induction false} Announced(ek: EkData, akPub: seq<Byte>, area: PublicArea, decode: Decoder)
    requires Decodes(decode) && akPub == TPM2B(area)
    ensures decode(Json.Get(Json.Build(EnrollFields(ek, akPub)), "akPublicArea")) == TPM2B(area)
    ensures TakeTPM2B(TPM2B(area)) == Some((area, []))
  {
    EnrollRead(ek, akPub);
    assert decode(Base64.Encode(akPub)) == akPub;
    var bytes: seq<Byte> := area;
    assert TPM2B(bytes) + [] == TPM2B(bytes);
    TakeTPM2BOf(bytes, []);
  }

  /** The AK in flight was created after `s`, and the persistent memory is that of `s`. */
  ghost predicate NewAk(s: State, w: World) {
    && w.inflight.Some? && w.tpm.dev == s.dev && w.tpm.persistent == s.persistent
    && var key := (w.inflight.value.ctx, w.inflight.value.ak);
       && key in w.tpm.objects && w.tpm.objects[key].serial >= s.nextSerial
       && w.tpm.objects[key].hierarchy == RH_OWNER && w.tpm.objects[key].template == AkTemplate()
  }

  /** Releasing one provider leaves the AK of another. */
  lemma {:induction false} ReleaseKeepsAk(s: State, t: State, q: Provider, p: Provider)
    requires p.ctx != q.ctx && NewAk(s, World(t, Some(p)))
    ensures NewAk(s, World(CloseProvider(t, q), Some(p)))
  {
    CloseProviderAfter(t, q);
  }

  lemma {:induction false} Gathered(base: State, w: World, src: EkSources)
    requires Inv(base, w) && Prompt(w.tpm) && src.ekPub != []
    ensures var (s1, ek) := GatherEk(w.tpm, src);
            && ek.Some? && Numbered(s1) && Prompt(s1) && s1.dev == w.tpm.dev
            && s1.persistent == w.tpm.persistent && w.tpm.nextSerial <= s1.nextSerial
            && (w.inflight.Some? ==> w.inflight.value.ctx <= s1.lastContext)
  {
    InvNumbered(base, w);
    GatherSettles(w.tpm, src);
    GatherPrompt(w.tpm, src);
    SettledKeepsInv(base, w, GatherEk(w.tpm, src).0);
    InvNumbered(base, w.(tpm := GatherEk(w.tpm, src).0));
  }

  lemma {:induction false} NewAkOf(s: State, s1: State, s2: State, p: Provider)
    requires s1.dev == s.dev && s1.persistent == s.persistent && s.nextSerial <= s1.nextSerial && NewKeys(s1, s2, p)
    ensures NewAk(s, World(s2, Some(p)))
  {
  }

  /** The world after a Begin in which nothing fails. */
  lemma {:induction false} BeginWorld(base: State, w: World, src: EkSources)
    requires Inv(base, w) && Prompt(w.tpm) && src.ekPub != []
    ensures var (w1, began, request) := EnrollBegin(w, BeginInput(true, true, src, true));
            && NewAk(w.tpm, w1) && Prompt(w1.tpm) && GatherEk(w.tpm, src).1.Some?
            && (began, request)
               == (OK, Some(Json.Build(EnrollFields(GatherEk(w.tpm, src).1.value, w1.inflight.value.akPub))))
  {
    Gathered(base, w, src);
    var s1 := GatherEk(w.tpm, src).0;
    BeginSucceeds(s1);
    var (s2, _, p) := BeginKeys(s1, true);
    NewAkOf(w.tpm, s1, s2, p.value);
    if w.inflight.Some? {
      FlushPrompt(s2, w.inflight.value);
      ReleaseKeepsAk(w.tpm, s2, w.inflight.value, p.value);
    }
  }

  lemma {:induction false} Relayed(base: State, w: World, blob: Blob, enc: Blob, decode: Decoder, deviceId: string,
                                   secret: Digest, allocates: bool)
    requires Inv(base, w) && w.inflight.Some? && Prompt(w.tpm) && EkPolicyHolds(w.tpm.dev) && Decodes(decode)
    requires secret != [] && deviceId != "" && ReadBack(deviceId, "encryptedSecret")
    requires var p := w.inflight.value;
             Unsealed(w.tpm.dev, w.tpm.objects[(p.ctx, p.ak)], w.tpm.objects[(p.ctx, p.ek)], blob, enc) == Some(secret)
    ensures var challenge := Json.Build(ChallengeFields(deviceId, blob, enc));
            var outcome := EnrollComplete(w, CompleteInput(Some(challenge), true, decode, allocates));
            var (p, t) := (w.inflight.value, outcome.0.tpm);
            && outcome == (if allocates then (World(t, None), OK, Some(Json.Build(ActivateFields(deviceId, secret))))
                           else (World(t, None), INTERNAL, None))
            && t.persistent == w.tpm.persistent[AK_SLOT := w.tpm.objects[(p.ctx, p.ak)]]
  {
    var p, params := w.inflight.value, TPM2B(blob) + TPM2B(enc);
    ChallengeRead(deviceId, blob, enc);
    assert decode(Base64.Encode(TPM2B(blob))) == TPM2B(blob) && decode(Base64.Encode(TPM2B(enc))) == TPM2B(enc);
    SplitBlobs(blob, enc);
    CompleteSucceeds(base, w, p, params, blob, enc, secret);
    var challenge := Json.Build(ChallengeFields(deviceId, blob, enc));
    CompleteWith(w, CompleteInput(Some(challenge), true, decode, allocates), deviceId,
                 Base64.Encode(TPM2B(blob)), Base64.Encode(TPM2B(enc)));
  }

  lemma {:induction false} SplitBlobs(blob: seq<Byte>, enc: seq<Byte>)
    requires |blob| < U16_LIMIT && |enc| < U16_LIMIT
    ensures TwoBlobs(TPM2B(blob) + TPM2B(enc)) == Some((blob, enc))
  {
    TakeTPM2BOf(blob, TPM2B(enc));
    assert TPM2B(enc) == TPM2B(enc) + [];
    TakeTPM2BOf(enc, []);
  }

  /** A challenge sealed to another EK or to another Name is never accepted, whatever else happens,
      and leaves the slot as it was. */
  lemma {:induction false} ForeignChallenge(base: State, w: World, seal: Seal, ek: PublicArea, name: Name,
                                            secret: Digest, decode: Decoder, deviceId: string, allocates: bool)
    requires Inv(base, w) && w.inflight.Some? && Ideal(w.tpm.dev, seal) && Decodes(decode)
    requires deviceId != "" && ReadBack(deviceId, "encryptedSecret")
    requires var (dev, p) := (w.tpm.dev, w.inflight.value);
             || ek != dev.publicOf(RH_ENDORSEMENT, EkTemplate())
             || name != dev.nameOf(dev.publicOf(RH_OWNER, AkTemplate()))
    ensures var sealed := seal(ek, name, secret);
            var challenge := Json.Build(ChallengeFields(deviceId, sealed.0, sealed.1));
            var (w2, done, reply) := EnrollComplete(w, CompleteInput(Some(challenge), true, decode, allocates));
            && done == ATTESTATION_FAILED && reply == None && w2.inflight == None
            && w2.tpm.persistent == w.tpm.persistent
  {
    var sealed := seal(ek, name, secret);
    var p := w.inflight.value;
    IdealCloses(w.tpm.dev, seal, ek, name, secret, w.tpm.objects[(p.ctx, p.ak)], w.tpm.objects[(p.ctx, p.ek)]);
    Rejected(base, w, sealed.0, sealed.1, decode, deviceId, allocates);
  }

  lemma {:induction false} KeysOutcomes(s: State, allocates: bool)
    ensures var (t, result, p) := BeginKeys(s, allocates);
            && (result == OK || result == ENROLLMENT_FAILED || (result == INTERNAL && !allocates))
            && (result == OK ==> allocates) && (p.Some? <==> result == OK)
  {
  }

  lemma {:induction false} BeginWithOutcomes(w: World, ek: EkData, allocates: bool)
    ensures var (w', result, blob) := BeginWith(w, ek, allocates);
            && (result == OK || result == ENROLLMENT_FAILED || (result == INTERNAL && !allocates))
            && (result == OK ==> allocates) && (blob.Some? <==> result == OK)
  {
    KeysOutcomes(w.tpm, allocates);
  }

  /** Which begins are refused before the TPM is asked for anything, and what the other results mean. */
  lemma {:induction false} BeginOutcomes(w: World, i: BeginInput)
    ensures var (w', result, blob) := EnrollBegin(w, i);
            && (result == INVALID_PARAM <==> !i.hasOut)
            && (result == ELEVATION_REQUIRED <==> i.hasOut && !i.elevated)
            && (result == INVALID_PARAM || result == ELEVATION_REQUIRED ==> w' == w)
            && (i.hasOut && i.elevated && i.ek.ekPub == [] ==> (w', result) == (w, ENROLLMENT_FAILED))
            && (result == OK ==> i.allocates) && (result == INTERNAL ==> !i.allocates)
            && (blob.Some? <==> result == OK)
  {
    var (s, ek) := GatherEk(w.tpm, i.ek);
    if ek.Some? {
      BeginWithOutcomes(w.(tpm := s), ek.value, i.allocates);
    }
  }

  lemma {:induction false} KeysWithoutMemory(s: State)
    requires BeginKeys(s, true).1 == OK
    ensures BeginKeys(s, false).1 == INTERNAL && BeginKeys(s, false).2.None?
  {
  }

  /** If no command fails, the result of a begin is decided by what the caller and the platform bring. */
  lemma {:induction false} BeginDecided(base: State, w: World, i: BeginInput)
    requires Inv(base, w) && Prompt(w.tpm)
    ensures EnrollBegin(w, i).1
            == if !i.hasOut then INVALID_PARAM else if !i.elevated then ELEVATION_REQUIRED
               else if i.ek.ekPub == [] then ENROLLMENT_FAILED else if !i.allocates then INTERNAL else OK
  {
    if i.ek.ekPub != [] {
      Gathered(base, w, i.ek);
      BeginSucceeds(GatherEk(w.tpm, i.ek).0);
      KeysWithoutMemory(GatherEk(w.tpm, i.ek).0);
    }
  }

  /** Exactly these calls are refused before the TPM is asked for anything, and they change nothing. */
  lemma {:induction false} CompleteRefusals(w: World, i: CompleteInput)
    ensures var (w', result, blob) := EnrollComplete(w, i);
            && (result == INVALID_PARAM
                <==> || i.challenge.None? || !i.hasOut
                     || (w.inflight.Some?
                         && (|| Json.Get(i.challenge.value, "deviceId") == ""
                             || Json.Get(i.challenge.value, "credentialBlob") == ""
                             || Json.Get(i.challenge.value, "encryptedSecret") == "")))
            && (result == NOT_ENROLLED <==> i.challenge.Some? && i.hasOut && w.inflight.None?)
            && (result == INVALID_PARAM || result == NOT_ENROLLED ==> w' == w)
            && (result == OK ==> i.allocates) && (result == INTERNAL ==> !i.allocates)
            && (blob.Some? <==> result == OK)
  {
  }

  lemma {:induction false} ChallengeHolds(text: string, deviceId: string, blob: string, sealed: string)
    requires Challenge(text) == Some((deviceId, blob, sealed))
    ensures Json.Get(text, "deviceId") == deviceId != "" && Json.Get(text, "credentialBlob") == blob != ""
            && Json.Get(text, "encryptedSecret") == sealed != ""
  {
  }

  /** EnrollComplete on a challenge that can be read. */
  lemma {:induction false} CompleteWith(w: World, i: CompleteInput, deviceId: string, blob: string, sealed: string)
    requires i.challenge.Some? && i.hasOut && w.inflight.Some?
    requires Challenge(i.challenge.value) == Some((deviceId, blob, sealed))
    ensures var (s, result, secret) := CompleteKeys(w.tpm, w.inflight.value, i.decode(blob) + i.decode(sealed));
            EnrollComplete(w, i)
            == if result != OK then (World(s, None), result, None)
               else if !i.allocates then (World(s, None), INTERNAL, None)
               else (World(s, None), OK, Some(Json.Build(ActivateFields(deviceId, secret))))
  {
  }

  /** Whatever the challenge is made of: if its three values are there, and the TPM does not unseal what
      two of them decode to, the attestation fails, and the slot is left as it was. */
  lemma {:induction false} UnopenedChallenge(base: State, w: World, i: CompleteInput)
    requires Inv(base, w) && w.inflight.Some? && i.challenge.Some? && i.hasOut
    requires var text := i.challenge.value;
             && Json.Get(text, "deviceId") != "" && Json.Get(text, "credentialBlob") != ""
             && Json.Get(text, "encryptedSecret") != ""
             && var blobs := TwoBlobs(i.decode(Json.Get(text, "credentialBlob"))
                                      + i.decode(Json.Get(text, "encryptedSecret")));
                var p := w.inflight.value;
                blobs.Some? ==>
                  Unsealed(w.tpm.dev, w.tpm.objects[(p.ctx, p.ak)], w.tpm.objects[(p.ctx, p.ek)], blobs.value.0,
                           blobs.value.1).None?
    ensures var outcome := EnrollComplete(w, i);
            && outcome == (World(outcome.0.tpm, None), ATTESTATION_FAILED, None)
            && outcome.0.tpm.persistent == w.tpm.persistent
  {
    var text := i.challenge.value;
    var (blob, sealed) := (Json.Get(text, "credentialBlob"), Json.Get(text, "encryptedSecret"));
    UnopenedFails(base, w, w.inflight.value, i.decode(blob) + i.decode(sealed));
    CompleteWith(w, i, Json.Get(text, "deviceId"), blob, sealed);
  }

  lemma {:induction false} Rejected(base: State, w: World, blob: Blob, enc: Blob, decode: Decoder, deviceId: string,
                                    allocates: bool)
    requires Inv(base, w) && w.inflight.Some? && Decodes(decode)
    requires deviceId != "" && ReadBack(deviceId, "encryptedSecret")
    requires var p := w.inflight.value;
             Unsealed(w.tpm.dev, w.tpm.objects[(p.ctx, p.ak)], w.tpm.objects[(p.ctx, p.ek)], blob, enc).None?
    ensures var challenge := Json.Build(ChallengeFields(deviceId, blob, enc));
            var outcome := EnrollComplete(w, CompleteInput(Some(challenge), true, decode, allocates));
            && outcome == (World(outcome.0.tpm, None), ATTESTATION_FAILED, None)
            && outcome.0.tpm.persistent == w.tpm.persistent
  {
    ChallengeRead(deviceId, blob, enc);
    assert decode(Base64.Encode(TPM2B(blob))) == TPM2B(blob) && decode(Base64.Encode(TPM2B(enc))) == TPM2B(enc);
    SplitBlobs(blob, enc);
    var challenge := Json.Build(ChallengeFields(deviceId, blob, enc));
    ChallengeHolds(challenge, deviceId, Base64.Encode(TPM2B(blob)), Base64.Encode(TPM2B(enc)));
    UnopenedChallenge(base, w, CompleteInput(Some(challenge), true, decode, allocates));
  }

  /** The ideal assumptions about base64 are met by the codec of the Linux client. */
  lemma {:induction false} CodecDecodes()
    ensures Decodes(s => if Base64.OutLength(s) >= 0 then Base64.Decode(s) else [])
  {
    forall b: seq<Byte>
      ensures Base64.OutLength(Base64.Encode(b)) >= 0 && Base64.Decode(Base64.Encode(b)) == b
    {
      Base64.RoundTrip(b);
    }
  }
}
