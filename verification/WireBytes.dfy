/**
 The commands that the client sends, byte by byte: tags, sizes, command codes, handles,
 authorizations and parameters as numbers (TPM 2.0 Library, Part 2, sections 6.2, 6.5.2, 6.9 and 7.4,
 and the command tables of Part 3). Everything else in the project speaks of these bytes by name.
 */
module WireBytes {
  import opened Bytes
  import opened Seqs
  import opened PcrSelection
  import opened TpmState
  import opened TpmCodec
  import Wire = TpmWire

  /** The bytes of a command, as they are submitted. */
  function Sent(c: Command): (b: seq<Byte>) {
    Wire.Marshal(Encode(c))
  }

  /** One empty password authorization, with the size of the area in front. */
  const PASSWORD: seq<Byte> := [0, 0, 0, 9, 0x40, 0, 0, 9, 0, 0, 1, 0, 0]

  lemma {:induction false} Numbers()
    ensures BE16(0x8001) == [0x80, 0x01] && BE16(0x8002) == [0x80, 0x02]
    ensures BE16(0) == [0, 0] && BE16(0x000B) == [0, 0x0B] && BE16(0x0014) == [0, 0x14] && BE16(0x0010) == [0, 0x10]
    ensures BE32(0) == [0, 0, 0, 0] && BE32(1) == [0, 0, 0, 1] && BE32(9) == [0, 0, 0, 9]
    ensures BE32(0x4000_0001) == [0x40, 0, 0, 1] && BE32(0x4000_0007) == [0x40, 0, 0, 7]
    ensures BE32(0x4000_0009) == [0x40, 0, 0, 9]
  {
  }

  lemma {:induction false} PasswordArea()
    ensures Wire.SessionArea(0x8002, [PASSWORD_AUTH]) == PASSWORD
  {
    Numbers();
    var auth := Wire.AuthBytes(PASSWORD_AUTH);
    assert auth == [0x40, 0, 0, 9, 0, 0, 1, 0, 0];
    assert [PASSWORD_AUTH][1..] == [];
    assert Wire.AuthListBytes([PASSWORD_AUTH]) == auth + [] == auth;
  }

  /** A command with the password authorization, put together. */
  lemma {:induction false} Sessions1(c: Command, code: seq<Byte>, handles: seq<Byte>, params: seq<Byte>)
    requires var w := Encode(c);
             && w.tag == 0x8002 && BE32(w.code) == code && w.auths == [PASSWORD_AUTH]
             && Wire.HandleBytes(w.handles) == handles && w.params == params
    ensures Sent(c) == [0x80, 0x02] + BE32(23 + |handles| + |params|) + code + handles + PASSWORD + params
  {
    Numbers();
    PasswordArea();
    var tail := Wire.Tail(Encode(c));
    assert tail == handles + PASSWORD + params && |tail| == 13 + |handles| + |params|;
    Assoc3([0x80, 0x02] + BE32(23 + |handles| + |params|) + code, handles, PASSWORD, params);
    assert handles + (PASSWORD + params) == tail;
  }

  /** A command without sessions. */
  lemma {:induction false} NoSessions(c: Command, code: seq<Byte>, handles: seq<Byte>, params: seq<Byte>)
    requires var w := Encode(c);
             && w.tag == 0x8001 && BE32(w.code) == code && w.auths == []
             && Wire.HandleBytes(w.handles) == handles && w.params == params
    ensures Sent(c) == [0x80, 0x01] + BE32(10 + |handles| + |params|) + code + handles + params
  {
    Numbers();
    var tail := Wire.Tail(Encode(c));
    assert handles + [] == handles;
    assert tail == handles + params && |tail| == |handles| + |params|;
    Assoc([0x80, 0x01] + BE32(10 + |handles| + |params|) + code, handles, params);
  }

  lemma {:induction false} OneHandle(h: U32)
    ensures Wire.HandleBytes([h]) == BE32(h)
  {
    assert [h][1..] == [] && BE32(h) + [] == BE32(h);
  }

  lemma {:induction false} TwoHandles(h: U32, k: U32)
    ensures Wire.HandleBytes([h, k]) == BE32(h) + BE32(k)
  {
    assert [h, k][1..] == [k];
    OneHandle(k);
  }

  // ---- The eleven commands --------------------------------------------------

  /** TPM2_CreatePrimary: an empty password and no data, the template, no outside info, no creation PCRs. */
  lemma {:induction false} CreatePrimaryBytes(hierarchy: U32, template: seq<Byte>)
    ensures Sent(CreatePrimary(hierarchy, template))
            == [0x80, 0x02] + BE32(41 + |template|) + [0, 0, 0x01, 0x31] + BE32(hierarchy) + PASSWORD
               + ([0, 4, 0, 0, 0, 0] + TPM2B(template) + [0, 0, 0, 0, 0, 0])
  {
    Numbers();
    var params := [0, 4, 0, 0, 0, 0] + TPM2B(template) + [0, 0, 0, 0, 0, 0];
    assert TPM2B([0, 0, 0, 0]) == [0, 4, 0, 0, 0, 0] && TPM2B([]) == [0, 0];
    Assoc([0, 4, 0, 0, 0, 0] + TPM2B(template), [0, 0], [0, 0, 0, 0]);
    assert CreateParams(template) == params;
    OneHandle(hierarchy);
    assert BE32(0x131) == [0, 0, 0x01, 0x31];
    Sessions1(CreatePrimary(hierarchy, template), [0, 0, 0x01, 0x31], BE32(hierarchy), params);
  }

  /** TPM2_StartAuthSession: two null handles, the nonce 3, 10, 17, .., a policy session, SHA-256. */
  lemma {:induction false} StartSessionBytes()
    ensures exists nonce: seq<Byte> ::
              && |nonce| == 32 && (forall k :: 0 <= k < 32 ==> nonce[k] == (k * 7 + 3) % 256)
              && Sent(StartPolicySession)
                 == [0x80, 0x01] + [0, 0, 0, 59] + [0, 0, 0x01, 0x76] + [0x40, 0, 0, 7, 0x40, 0, 0, 7]
                    + ([0, 32] + nonce + [0, 0, 1, 0, 0x10, 0, 0x0B])
  {
    Numbers();
    var nonce := SessionNonce(32);
    var params := [0, 32] + nonce + [0, 0, 1, 0, 0x10, 0, 0x0B];
    assert TPM2B(nonce) == [0, 32] + nonce && TPM2B([]) == [0, 0];
    assert StartSessionParams() == params;
    TwoHandles(0x4000_0007, 0x4000_0007);
    var handles := [0x40, 0, 0, 7, 0x40, 0, 0, 7];
    assert BE32(0x4000_0007) + BE32(0x4000_0007) == handles;
    assert BE32(0x176) == [0, 0, 0x01, 0x76] && BE32(59) == [0, 0, 0, 59];
    NoSessions(StartPolicySession, [0, 0, 0x01, 0x76], handles, params);
  }

  /** TPM2_PolicySecret: three empty buffers, no expiration. */
  lemma {:induction false} PolicySecretBytes(authority: U32, session: U32)
    ensures Sent(PolicySecret(authority, session))
            == [0x80, 0x02] + [0, 0, 0, 41] + [0, 0, 0x01, 0x51] + (BE32(authority) + BE32(session)) + PASSWORD
               + [0, 0, 0, 0, 0, 0, 0, 0, 0, 0]
  {
    Numbers();
    var params := [0, 0, 0, 0, 0, 0, 0, 0, 0, 0];
    assert Encode(PolicySecret(authority, session)).params == params;
    TwoHandles(authority, session);
    assert BE32(0x151) == [0, 0, 0x01, 0x51] && BE32(41) == [0, 0, 0, 41];
    Sessions1(PolicySecret(authority, session), [0, 0, 0x01, 0x51], BE32(authority) + BE32(session), params);
  }

  /** The password and the policy session, with the size of the area in front. */
  function TwoAuthorizations(session: U32): (b: seq<Byte>) {
    [0, 0, 0, 18, 0x40, 0, 0, 9, 0, 0, 1, 0, 0] + BE32(session) + [0, 0, 1, 0, 0]
  }

  lemma {:induction false} ActivateArea(session: U32)
    ensures Wire.SessionArea(0x8002, [PASSWORD_AUTH, Wire.Auth(session, [], 1, [])]) == TwoAuthorizations(session)
  {
    Numbers();
    var (auth, policy) := (Wire.AuthBytes(PASSWORD_AUTH), Wire.AuthBytes(Wire.Auth(session, [], 1, [])));
    assert auth == [0x40, 0, 0, 9, 0, 0, 1, 0, 0] && policy == BE32(session) + [0, 0, 1, 0, 0];
    TwoAuths(session, auth, policy);
    assert BE32(18) == [0, 0, 0, 18];
  }

  lemma {:induction false} HeadThenTail(head: seq<Byte>, handles: seq<Byte>, area: seq<Byte>, params: seq<Byte>)
    ensures head + handles + area + params == head + (handles + area + params)
  {
  }

  /** TPM2_ActivateCredential: the password for the AK, the policy session for the EK, both blobs. */
  lemma {:induction false} ActivateBytes(ak: U32, ek: U32, session: U32, params: seq<Byte>)
    ensures Sent(ActivateCredential(ak, ek, session, params))
            == [0x80, 0x02] + BE32(40 + |params|) + [0, 0, 0x01, 0x47] + (BE32(ak) + BE32(ek))
               + TwoAuthorizations(session) + params
  {
    Numbers();
    TwoHandles(ak, ek);
    ActivateArea(session);
    assert BE32(0x147) == [0, 0, 0x01, 0x47];
    var c := ActivateCredential(ak, ek, session, params);
    var (handles, area) := (BE32(ak) + BE32(ek), TwoAuthorizations(session));
    assert Wire.Tail(Encode(c)) == handles + area + params && |handles + area + params| == 30 + |params|;
    HeadThenTail([0x80, 0x02] + BE32(40 + |params|) + [0, 0, 0x01, 0x47], handles, area, params);
  }

  lemma {:induction false} TwoAuths(session: U32, auth: seq<Byte>, policy: seq<Byte>)
    requires auth == Wire.AuthBytes(PASSWORD_AUTH) && policy == Wire.AuthBytes(Wire.Auth(session, [], 1, []))
    ensures Wire.AuthListBytes([PASSWORD_AUTH, Wire.Auth(session, [], 1, [])]) == auth + policy
  {
    var (a, b) := (PASSWORD_AUTH, Wire.Auth(session, [], 1, []));
    assert [a, b][1..] == [b] && [b][1..] == [];
    assert Wire.AuthListBytes([b]) == policy + [] == policy;
  }

  lemma {:induction false} FlushBytes(handle: U32)
    ensures Sent(FlushContext(handle)) == [0x80, 0x01] + [0, 0, 0, 14] + [0, 0, 0x01, 0x65] + BE32(handle)
  {
    assert BE32(0x165) == [0, 0, 0x01, 0x65] && BE32(14) == [0, 0, 0, 14];
    NoSessions(FlushContext(handle), [0, 0, 0x01, 0x65], [], BE32(handle));
    assert [0x80, 0x01] + [0, 0, 0, 14] + [0, 0, 0x01, 0x65] + [] == [0x80, 0x01] + [0, 0, 0, 14] + [0, 0, 0x01, 0x65];
  }

  lemma {:induction false} ReadPublicBytes(handle: U32)
    ensures Sent(ReadPublic(handle)) == [0x80, 0x01] + [0, 0, 0, 14] + [0, 0, 0x01, 0x73] + BE32(handle)
  {
    assert BE32(0x173) == [0, 0, 0x01, 0x73] && BE32(14) == [0, 0, 0, 14];
    OneHandle(handle);
    NoSessions(ReadPublic(handle), [0, 0, 0x01, 0x73], BE32(handle), []);
    NothingBehind([0x80, 0x01] + [0, 0, 0, 14] + [0, 0, 0x01, 0x73] + BE32(handle));
  }

  lemma {:induction false} NothingBehind(b: seq<Byte>)
    ensures b + [] == b
  {
  }

  /** TPM2_EvictControl, authorized by the owner: which object, and which persistent handle. */
  lemma {:induction false} EvictBytes(evicted: U32, slot: U32)
    ensures Sent(EvictControl(evicted, slot))
            == [0x80, 0x02] + [0, 0, 0, 35] + [0, 0, 0x01, 0x20] + ([0x40, 0, 0, 1] + BE32(evicted)) + PASSWORD
               + BE32(slot)
  {
    Numbers();
    TwoHandles(0x4000_0001, evicted);
    assert BE32(0x120) == [0, 0, 0x01, 0x20] && BE32(35) == [0, 0, 0, 35];
    Sessions1(EvictControl(evicted, slot), [0, 0, 0x01, 0x20], [0x40, 0, 0, 1] + BE32(evicted), BE32(slot));
  }

  /** One selection of SHA-256 PCRs with a bitmap of three bytes. */
  lemma {:induction false} SelectionBytes(selection: Bitmap)
    ensures Selection(selection) == [0, 0, 0, 1, 0, 0x0B, 3] + selection
  {
    Numbers();
  }

  /** TPM2_Quote: the nonce, RSASSA with SHA-256, the selection. */
  lemma {:induction false} QuoteBytes(key: U32, nonce: seq<Byte>, selection: Bitmap)
    ensures Sent(Quote(key, nonce, selection))
            == [0x80, 0x02] + BE32(43 + |nonce|) + [0, 0, 0x01, 0x58] + BE32(key) + PASSWORD
               + (TPM2B(nonce) + [0, 0x14, 0, 0x0B] + ([0, 0, 0, 1, 0, 0x0B, 3] + selection))
  {
    Numbers();
    SelectionBytes(selection);
    var (sel, params) := (Selection(selection), TPM2B(nonce) + [0, 0x14, 0, 0x0B] + Selection(selection));
    assert TPM2B(nonce) + BE16(0x0014) + BE16(0x000B) == TPM2B(nonce) + [0, 0x14, 0, 0x0B];
    assert QuoteParams(nonce, selection) == params;
    OneHandle(key);
    assert BE32(0x158) == [0, 0, 0x01, 0x58];
    Sessions1(Quote(key, nonce, selection), [0, 0, 0x01, 0x58], BE32(key), params);
  }

  lemma {:induction false} PcrReadBytes(selection: Bitmap)
    ensures Sent(PcrRead(selection))
            == [0x80, 0x01] + [0, 0, 0, 20] + [0, 0, 0x01, 0x7E] + ([0, 0, 0, 1, 0, 0x0B, 3] + selection)
  {
    SelectionBytes(selection);
    assert BE32(0x17E) == [0, 0, 0x01, 0x7E] && BE32(20) == [0, 0, 0, 20];
    NoSessions(PcrRead(selection), [0, 0, 0x01, 0x7E], [], Selection(selection));
    NothingBehind([0x80, 0x01] + [0, 0, 0, 20] + [0, 0, 0x01, 0x7E]);
  }

  lemma {:induction false} NvReadPublicBytes(index: U32)
    ensures Sent(NvReadPublic(index)) == [0x80, 0x01] + [0, 0, 0, 14] + [0, 0, 0x01, 0x69] + BE32(index)
  {
    assert BE32(0x169) == [0, 0, 0x01, 0x69] && BE32(14) == [0, 0, 0, 14];
    OneHandle(index);
    NoSessions(NvReadPublic(index), [0, 0, 0x01, 0x69], BE32(index), []);
    NothingBehind([0x80, 0x01] + [0, 0, 0, 14] + [0, 0, 0x01, 0x69] + BE32(index));
  }

  /** TPM2_NV_Read, authorized by the index itself: how much, and from where. */
  lemma {:induction false} NvReadBytes(index: U32, size: U16, offset: U16)
    ensures Sent(NvRead(index, size, offset))
            == [0x80, 0x02] + [0, 0, 0, 35] + [0, 0, 0x01, 0x4E] + (BE32(index) + BE32(index)) + PASSWORD
               + (BE16(size) + BE16(offset))
  {
    TwoHandles(index, index);
    assert BE32(0x14E) == [0, 0, 0x01, 0x4E] && BE32(35) == [0, 0, 0, 35];
    Sessions1(NvRead(index, size, offset), [0, 0, 0x01, 0x4E], BE32(index) + BE32(index), BE16(size) + BE16(offset));
  }

  /** How numbers are written: most significant byte first. */
  lemma {:induction false} BigEndian(a: Byte, b: Byte, c: Byte, d: Byte)
    ensures BE16(a * 0x100 + b) == [a, b] && BE32(a * 0x100_0000 + b * 0x1_0000 + c * 0x100 + d) == [a, b, c, d]
  {
    BE16Again([a, b], 0);
    BE32Again([a, b, c, d], 0);
  }

  // ---- The replies that the client reads ------------------------------------

  lemma {:induction false} NoError()
    ensures BE32(0) == [0, 0, 0, 0] && BE16(0x8001) == [0x80, 0x01] && BE16(0x8002) == [0x80, 0x02]
  {
  }

  /** A response to an authorized command with one size in front of its parameters. */
  lemma {:induction false} SizedReply(dev: Device, c: Command, r: Reply, handle: seq<Byte>, params: seq<Byte>)
    requires Encode(c).tag == 0x8002
    requires Body(dev, c, r) == handle + (BE32(|params|) + params + dev.sessionArea(c))
    ensures OkResponse(dev, c, r)
            == [0x80, 0x02] + BE32(14 + |handle| + |params| + |dev.sessionArea(c)|) + [0, 0, 0, 0]
               + (handle + BE32(|params|) + params + dev.sessionArea(c))
  {
    NoError();
    Assoc3(handle, BE32(|params|), params, dev.sessionArea(c));
  }

  /** TPM2_CreatePrimary: the handle, and the public area first among the parameters. */
  lemma {:induction false} CreatedBytes(dev: Device, hierarchy: U32, template: seq<Byte>, h: U32, pub: PublicArea)
    ensures var c := CreatePrimary(hierarchy, template);
            var params := TPM2B(pub) + dev.extra(c);
            OkResponse(dev, c, Created(h, pub))
            == [0x80, 0x02] + BE32(18 + |params| + |dev.sessionArea(c)|) + [0, 0, 0, 0]
               + (BE32(h) + BE32(|params|) + params + dev.sessionArea(c))
  {
    var c := CreatePrimary(hierarchy, template);
    SizedReply(dev, c, Created(h, pub), BE32(h), TPM2B(pub) + dev.extra(c));
  }

  /** TPM2_StartAuthSession: the handle, without a parameter size in between. */
  lemma {:induction false} SessionBytes(dev: Device, h: U32)
    ensures var nonce := TPM2B(dev.extra(StartPolicySession));
            OkResponse(dev, StartPolicySession, Handle(h))
            == [0x80, 0x01] + BE32(14 + |nonce|) + [0, 0, 0, 0] + (BE32(h) + nonce)
  {
    NoError();
  }

  /** TPM2_ActivateCredential, TPM2_NV_Read: one sized buffer. */
  lemma {:induction false} BufferBytes(dev: Device, c: Command, r: Reply, data: seq<Byte>)
    requires (c.ActivateCredential? && r.Secret? && data == r.secret) || (c.NvRead? && r.NvData? && data == r.data)
    ensures OkResponse(dev, c, r)
            == [0x80, 0x02] + BE32(14 + |TPM2B(data)| + |dev.sessionArea(c)|) + [0, 0, 0, 0]
               + (BE32(|TPM2B(data)|) + TPM2B(data) + dev.sessionArea(c))
  {
    var body := BE32(|TPM2B(data)|) + TPM2B(data) + dev.sessionArea(c);
    assert [] + body == body && [] + BE32(|TPM2B(data)|) == BE32(|TPM2B(data)|);
    SizedReply(dev, c, r, [], TPM2B(data));
  }

  /** TPM2_Quote: the attestation and the signature, which has a form of its own. */
  lemma {:induction false} QuotedBytes(dev: Device, key: U32, nonce: seq<Byte>, selection: Bitmap, attest: Blob,
                                       sig: Blob)
    ensures var (c, params) := (Quote(key, nonce, selection), TPM2B(attest) + sig);
            OkResponse(dev, c, Quoted(attest, sig))
            == [0x80, 0x02] + BE32(14 + |params| + |dev.sessionArea(c)|) + [0, 0, 0, 0]
               + (BE32(|params|) + params + dev.sessionArea(c))
  {
    var (c, params) := (Quote(key, nonce, selection), TPM2B(attest) + sig);
    var body := BE32(|params|) + params + dev.sessionArea(c);
    assert [] + body == body && [] + BE32(|params|) == BE32(|params|);
    SizedReply(dev, c, Quoted(attest, sig), [], params);
  }

  /** TPM2_PCR_Read: the update counter, the selection, the number of digests, and the digests. */
  lemma {:induction false} PcrValuesBytes(dev: Device, selection: Bitmap, digests: seq<Digest>)
    ensures var c := PcrRead(selection);
            OkResponse(dev, c, PcrValues(selection, digests))
            == [0x80, 0x01] + BE32(28 + |DigestList(digests)|) + [0, 0, 0, 0]
               + ([0, 0, 0, 0] + ([0, 0, 0, 1, 0, 0x0B, 3] + selection) + BE32(|digests|) + DigestList(digests))
  {
    NoError();
    SelectionBytes(selection);
  }

  /** TPM2_NV_ReadPublic: index, name algorithm, attributes, policy and size, in one sized buffer. */
  lemma {:induction false} NvPublicBytes(dev: Device, index: U32, policy: Digest, size: U16)
    ensures var (c, area) := (NvReadPublic(index), [0, 0, 0, 0, 0, 0x0B, 0, 0, 0, 0] + TPM2B(policy) + BE16(size));
            OkResponse(dev, c, NvPublic(policy, size))
            == [0x80, 0x01] + BE32(10 + |TPM2B(area)| + |TPM2B(dev.extra(c))|) + [0, 0, 0, 0]
               + (TPM2B(area) + TPM2B(dev.extra(c)))
  {
    NoError();
    assert BE32(0) + BE16(ALG_SHA256) + BE32(0) == [0, 0, 0, 0, 0, 0x0B, 0, 0, 0, 0];
  }
}
