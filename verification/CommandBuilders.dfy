/**
 The command builders: each appends one command to a fresh buffer, leaving the size field for
 SendCommand. Their contracts say that the buffer is the wire form of the intended command.
 */
module CommandBuilders {
  import opened Bytes
  import opened Seqs
  import opened PcrSelection
  import opened TpmState
  import opened TpmCodec
  import opened ClientSpec
  import opened CommandBuffer
  import Wire = TpmWire

  // ---- Putting the pieces together ------------------------------------------

  lemma {:induction false} OneHandle(h: U32)
    ensures Wire.HandleBytes([h]) == BE32(h)
  {
    assert [h][1..] == [];
  }

  lemma {:induction false} TwoHandles(h: U32, g: U32)
    ensures Wire.HandleBytes([h, g]) == BE32(h) + BE32(g)
  {
    assert [h, g][1..] == [g];
    OneHandle(g);
  }

  /** Header, handles, session area and parameters make the unsized command. */
  lemma {:induction false} Framed(w: Wire.Command, data: seq<Byte>)
    requires data == Header(w.tag, w.code) + Wire.HandleBytes(w.handles) + Wire.SessionArea(w.tag, w.auths) + w.params
    ensures data == Wire.Unsized(w)
  {
    Assoc3(Header(w.tag, w.code), Wire.HandleBytes(w.handles), Wire.SessionArea(w.tag, w.auths), w.params);
  }

  // ---- Templates ------------------------------------------------------------

  method AppendZeros(buf: CommandBuffer)
    modifies buf
    ensures buf.data == old(buf.data) + Zeros(256)
  {
    for i := 0 to 256
      invariant buf.data == old(buf.data) + Zeros(i)
    {
      buf.PushBack(0);
      assert Zeros(i + 1) == Zeros(i) + [0];
    }
  }

  method BuildAkPublic() returns (pub: CommandBuffer)
    ensures fresh(pub) && pub.data == AkTemplate()
  {
    pub := new CommandBuffer();
    pub.WriteU16(0x0001);
    assert pub.data == BE16(0x0001);
    pub.WriteU16(0x000B);
    pub.WriteU32(0x2 + 0x10 + 0x20 + 0x40 + 0x1_0000 + 0x4_0000);
    pub.WriteU16(0);
    pub.WriteU16(0x0010);
    pub.WriteU16(0x0014);
    pub.WriteU16(0x000B);
    pub.WriteU16(2048);
    pub.WriteU32(0);
    pub.WriteU16(256);
    AppendZeros(pub);
  }

  method BuildEkPublic() returns (pub: CommandBuffer)
    ensures fresh(pub) && pub.data == EkTemplate()
  {
    pub := new CommandBuffer();
    pub.WriteU16(0x0001);
    assert pub.data == BE16(0x0001);
    pub.WriteU16(0x000B);
    pub.WriteU32(0x2 + 0x10 + 0x20 + 0x80 + 0x1_0000 + 0x2_0000);
    pub.WriteU16(32);
    pub.WriteBytes(EK_POLICY);
    pub.WriteU16(0x0006);
    pub.WriteU16(128);
    pub.WriteU16(0x0043);
    pub.WriteU16(0x0010);
    pub.WriteU16(2048);
    pub.WriteU32(0);
    pub.WriteU16(256);
    AppendZeros(pub);
  }

  // ---- Commands -------------------------------------------------------------

  /** Everything of TPM2_CreatePrimary around the template. */
  method BuildCreatePrimary(hierarchy: U32, pub: CommandBuffer) returns (cmd: CommandBuffer)
    ensures fresh(cmd) && cmd.data == Wire.Unsized(Encode(CreatePrimary(hierarchy, pub.data)))
  {
    cmd := new CommandBuffer();
    cmd.BeginCommand(Wire.ST_SESSIONS, Wire.CC_CREATE_PRIMARY);
    cmd.WriteU32(hierarchy);
    cmd.WritePasswordAuth();
    ghost var head := cmd.data;
    cmd.WriteU16(4);
    cmd.WriteU16(0);
    cmd.WriteU16(0);
    assert cmd.data == head + TPM2B([0, 0, 0, 0]);
    cmd.WriteU16(|pub.data|);
    cmd.WriteBytes(pub.data);
    Assoc(head + TPM2B([0, 0, 0, 0]), BE16(|pub.data|), pub.data);
    cmd.WriteU16(0);
    assert BE16(0) == TPM2B([]);
    cmd.WriteU32(0);
    Assoc4(head, TPM2B([0, 0, 0, 0]), TPM2B(pub.data), TPM2B([]), BE32(0));
    CreatePrimaryFramed(hierarchy, pub.data, head, cmd.data);
  }

  lemma {:induction false} CreatePrimaryFramed(hierarchy: U32, template: seq<Byte>, head: seq<Byte>, data: seq<Byte>)
    requires head == Header(Wire.ST_SESSIONS, Wire.CC_CREATE_PRIMARY) + BE32(hierarchy)
                     + Wire.SessionArea(Wire.ST_SESSIONS, [PASSWORD_AUTH])
    requires data == head + CreateParams(template)
    ensures data == Wire.Unsized(Encode(CreatePrimary(hierarchy, template)))
  {
    OneHandle(hierarchy);
    Framed(Encode(CreatePrimary(hierarchy, template)), data);
  }

  method BuildFlush(handle: U32) returns (cmd: CommandBuffer)
    ensures fresh(cmd) && cmd.data == Wire.Unsized(Encode(FlushContext(handle)))
  {
    cmd := new CommandBuffer();
    cmd.BeginCommand(Wire.ST_NO_SESSIONS, Wire.CC_FLUSH_CONTEXT);
    cmd.WriteU32(handle);
    NoHandles(Wire.CC_FLUSH_CONTEXT, BE32(handle));
    Framed(Encode(FlushContext(handle)), cmd.data);
  }

  lemma {:induction false} NoHandles(code: nat, params: seq<Byte>)
    ensures Header(Wire.ST_NO_SESSIONS, code) + params
            == Header(Wire.ST_NO_SESSIONS, code) + Wire.HandleBytes([])
               + Wire.SessionArea(Wire.ST_NO_SESSIONS, []) + params
  {
    var head := Header(Wire.ST_NO_SESSIONS, code);
    assert head + [] == head;
  }

  /** Commands that carry one handle and nothing else. */
  method BuildQuery(code: nat, handle: U32) returns (cmd: CommandBuffer)
    requires code < U32_LIMIT
    ensures fresh(cmd) && cmd.data == Wire.Unsized(Wire.Command(Wire.ST_NO_SESSIONS, code, [handle], [], []))
  {
    cmd := new CommandBuffer();
    cmd.BeginCommand(Wire.ST_NO_SESSIONS, code);
    cmd.WriteU32(handle);
    OneHandle(handle);
    ghost var head := cmd.data;
    assert head == head + [] == head + [] + [];
    Framed(Wire.Command(Wire.ST_NO_SESSIONS, code, [handle], [], []), cmd.data);
  }

  method BuildReadPublic(handle: U32) returns (cmd: CommandBuffer)
    ensures fresh(cmd) && cmd.data == Wire.Unsized(Encode(ReadPublic(handle)))
  {
    cmd := BuildQuery(Wire.CC_READ_PUBLIC, handle);
  }

  method BuildNvReadPublic(index: U32) returns (cmd: CommandBuffer)
    ensures fresh(cmd) && cmd.data == Wire.Unsized(Encode(NvReadPublic(index)))
  {
    cmd := BuildQuery(Wire.CC_NV_READ_PUBLIC, index);
  }

  method BuildStartSession() returns (cmd: CommandBuffer)
    ensures fresh(cmd) && cmd.data == Wire.Unsized(Encode(StartPolicySession))
  {
    cmd := new CommandBuffer();
    cmd.BeginCommand(Wire.ST_NO_SESSIONS, Wire.CC_START_AUTH_SESSION);
    ghost var header := cmd.data;
    cmd.WriteU32(0x4000_0007);
    cmd.WriteU32(0x4000_0007);
    ghost var head := cmd.data;

    var sessionNonce := new Byte[32];
    for i := 0 to 32
      invariant sessionNonce[..i] == SessionNonce(i)
      invariant cmd.data == head
    {
      sessionNonce[i] := (i * 7 + 3) % 256;
      assert sessionNonce[..i + 1] == sessionNonce[..i] + [sessionNonce[i]];
      assert SessionNonce(i + 1) == SessionNonce(i) + [(i * 7 + 3) % 256];
    }
    assert sessionNonce[..] == sessionNonce[..32];
    cmd.WriteU16(32);
    cmd.WriteBytes(sessionNonce[..]);
    Assoc(head, BE16(32), SessionNonce(32));
    assert cmd.data == head + TPM2B(SessionNonce(32));
    cmd.WriteU16(0);
    assert BE16(0) == TPM2B([]);
    assert cmd.data == head + TPM2B(SessionNonce(32)) + TPM2B([]);
    cmd.PushBack(1);
    cmd.WriteU16(0x0010);
    cmd.WriteU16(0x000B);

    Assoc5(head, TPM2B(SessionNonce(32)), TPM2B([]), [1], BE16(ALG_NULL), BE16(ALG_SHA256));
    TwoHandles(RH_NULL, RH_NULL);
    Assoc(header, BE32(RH_NULL), BE32(RH_NULL));
    StartSessionFramed(head, cmd.data);
  }

  lemma {:induction false} StartSessionFramed(head: seq<Byte>, data: seq<Byte>)
    requires head == Header(Wire.ST_NO_SESSIONS, Wire.CC_START_AUTH_SESSION) + Wire.HandleBytes([RH_NULL, RH_NULL])
    requires data == head + StartSessionParams()
    ensures data == Wire.Unsized(Encode(StartPolicySession))
  {
    assert head + [] == head;
    Framed(Encode(StartPolicySession), data);
  }

  method BuildPolicySecret(session: U32) returns (cmd: CommandBuffer)
    ensures fresh(cmd) && cmd.data == Wire.Unsized(Encode(PolicySecret(RH_ENDORSEMENT, session)))
  {
    cmd := new CommandBuffer();
    cmd.BeginCommand(Wire.ST_SESSIONS, Wire.CC_POLICY_SECRET);
    ghost var header := cmd.data;
    cmd.WriteU32(0x4000_000B);
    cmd.WriteU32(session);
    TwoHandles(RH_ENDORSEMENT, session);
    Assoc(header, BE32(RH_ENDORSEMENT), BE32(session));
    cmd.WritePasswordAuth();
    ghost var head := cmd.data;
    assert BE16(0) == TPM2B([]);
    cmd.WriteU16(0);
    cmd.WriteU16(0);
    cmd.WriteU16(0);
    cmd.WriteU32(0);
    Assoc4(head, TPM2B([]), TPM2B([]), TPM2B([]), BE32(0));
    Framed(Encode(PolicySecret(RH_ENDORSEMENT, session)), cmd.data);
  }

  /** Two authorizations: the password for the AK, the policy session for the EK. The credential
      blob and the secret are already sized buffers and go in as they came. */
  method BuildActivate(ak: U32, ek: U32, session: U32, credentialBlob: seq<Byte>, encryptedSecret: seq<Byte>)
    returns (cmd: CommandBuffer)
    ensures fresh(cmd)
    ensures cmd.data == Wire.Unsized(Encode(ActivateCredential(ak, ek, session, credentialBlob + encryptedSecret)))
  {
    var authArea := BuildAuthArea(session);
    cmd := new CommandBuffer();
    cmd.BeginCommand(Wire.ST_SESSIONS, Wire.CC_ACTIVATE_CREDENTIAL);
    ghost var header := cmd.data;
    cmd.WriteU32(ak);
    cmd.WriteU32(ek);
    TwoHandles(ak, ek);
    Assoc(header, BE32(ak), BE32(ek));
    ghost var handled := cmd.data;
    cmd.WriteU32(|authArea.data|);
    cmd.WriteBytes(authArea.data);
    Assoc(handled, BE32(|authArea.data|), authArea.data);
    ghost var head := cmd.data;
    cmd.WriteBytes(credentialBlob);
    cmd.WriteBytes(encryptedSecret);
    Assoc(head, credentialBlob, encryptedSecret);
    Framed(Encode(ActivateCredential(ak, ek, session, credentialBlob + encryptedSecret)), cmd.data);
  }

  method BuildAuthArea(session: U32) returns (authArea: CommandBuffer)
    ensures fresh(authArea) && authArea.data == Wire.AuthListBytes([PASSWORD_AUTH, Auth(session)])
  {
    authArea := new CommandBuffer();
    authArea.WriteU32(0x4000_0009);
    authArea.WriteU16(0);
    authArea.PushBack(1);
    authArea.WriteU16(0);
    assert authArea.data == Wire.AuthBytes(PASSWORD_AUTH);
    authArea.WriteU32(session);
    authArea.WriteU16(0);
    authArea.PushBack(1);
    authArea.WriteU16(0);
    TwoAuths(Wire.AuthBytes(PASSWORD_AUTH), session, authArea.data);
  }

  lemma {:induction false} TwoAuths(first: seq<Byte>, session: U32, data: seq<Byte>)
    requires first == Wire.AuthBytes(PASSWORD_AUTH)
    requires data == first + BE32(session) + BE16(0) + [1] + BE16(0)
    ensures data == Wire.AuthListBytes([PASSWORD_AUTH, Auth(session)])
  {
    var rest := [PASSWORD_AUTH, Auth(session)][1..];
    assert rest == [Auth(session)] && rest[1..] == [];
    assert BE16(0) == TPM2B([]);
    assert Wire.AuthListBytes(rest) == Wire.AuthBytes(Auth(session));
    Assoc4(first, BE32(session), TPM2B([]), [1], TPM2B([]));
  }

  function Auth(session: U32): (a: Wire.Auth) {
    Wire.Auth(session, [], 1, [])
  }

  method BuildEvict(handle: U32, slot: U32) returns (cmd: CommandBuffer)
    ensures fresh(cmd) && cmd.data == Wire.Unsized(Encode(EvictControl(handle, slot)))
  {
    cmd := new CommandBuffer();
    cmd.BeginCommand(Wire.ST_SESSIONS, Wire.CC_EVICT_CONTROL);
    ghost var header := cmd.data;
    cmd.WriteU32(0x4000_0001);
    cmd.WriteU32(handle);
    TwoHandles(RH_OWNER, handle);
    Assoc(header, BE32(RH_OWNER), BE32(handle));
    cmd.WritePasswordAuth();
    cmd.WriteU32(slot);
    Framed(Encode(EvictControl(handle, slot)), cmd.data);
  }

  method WriteSelection(cmd: CommandBuffer, bitmap: array<Byte>)
    requires bitmap.Length == 3
    modifies cmd
    ensures cmd.data == old(cmd.data) + Selection(bitmap[..])
  {
    ghost var head := cmd.data;
    cmd.WriteU32(1);
    cmd.WriteU16(0x000B);
    cmd.PushBack(3);
    cmd.WriteBytes(bitmap[..]);
    Assoc4(head, BE32(1), BE16(ALG_SHA256), [3], bitmap[..]);
  }

  method BuildQuote(key: U32, nonce: seq<Byte>, pcrs: seq<nat>) returns (cmd: CommandBuffer)
    ensures fresh(cmd) && cmd.data == Wire.Unsized(Encode(Quote(key, nonce, BitmapOf(pcrs))))
  {
    cmd := new CommandBuffer();
    cmd.BeginCommand(Wire.ST_SESSIONS, Wire.CC_QUOTE);
    cmd.WriteU32(key);
    OneHandle(key);
    cmd.WritePasswordAuth();
    ghost var head := cmd.data;
    cmd.WriteTPM2B(nonce);
    cmd.WriteU16(0x0014);
    cmd.WriteU16(0x000B);
    var bitmap := BuildBitmap(pcrs);
    WriteSelection(cmd, bitmap);
    Assoc4(head, TPM2B(nonce), BE16(ALG_RSASSA), BE16(ALG_SHA256), Selection(BitmapOf(pcrs)));
    Framed(Encode(Quote(key, nonce, BitmapOf(pcrs))), cmd.data);
  }

  method BuildPcrRead(pcr: nat) returns (cmd: CommandBuffer)
    ensures fresh(cmd) && cmd.data == Wire.Unsized(Encode(PcrRead(BitmapOf([pcr]))))
  {
    cmd := new CommandBuffer();
    cmd.BeginCommand(Wire.ST_NO_SESSIONS, Wire.CC_PCR_READ);
    var bitmap := BuildSingleBitmap(pcr);
    WriteSelection(cmd, bitmap);
    NoHandles(Wire.CC_PCR_READ, Selection(BitmapOf([pcr])));
    Framed(Encode(PcrRead(BitmapOf([pcr]))), cmd.data);
  }

  method BuildNvRead(index: U32, size: U16, offset: U16) returns (cmd: CommandBuffer)
    ensures fresh(cmd) && cmd.data == Wire.Unsized(Encode(NvRead(index, size, offset)))
  {
    cmd := new CommandBuffer();
    cmd.BeginCommand(Wire.ST_SESSIONS, Wire.CC_NV_READ);
    ghost var header := cmd.data;
    cmd.WriteU32(index);
    cmd.WriteU32(index);
    TwoHandles(index, index);
    Assoc(header, BE32(index), BE32(index));
    cmd.WritePasswordAuth();
    ghost var head := cmd.data;
    cmd.WriteU16(size);
    cmd.WriteU16(offset);
    Assoc(head, BE16(size), BE16(offset));
    Framed(Encode(NvRead(index, size, offset)), cmd.data);
  }
}
