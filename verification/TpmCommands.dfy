/**
 TpmCommands over the TBS: one TPM for the whole system, one context per TpmCommands object. Each
 method builds a command, submits it and parses the response, and is proved to do to the TPM, and
 to return, exactly what its function in ClientSpec says.
 */
module TpmCommands {
  import opened Bytes
  import opened PcrSelection
  import opened TpmState
  import opened TpmCodec
  import opened ClientSpec
  import opened CommandBuffer
  import opened CommandBuilders
  import opened ResponseParsers
  import Wire = TpmWire

  /** The TPM behind the TBS. */
  class Tpm {
    var s: State

    constructor (s: State)
      ensures this.s == s
    {
      this.s := s;
    }

    method CreateContext() returns (ctx: Option<nat>)
      modifies this
      ensures (s, ctx) == OpenContext(old(s))
      ensures ctx.Some? ==> ctx.value != 0
    {
      var r := OpenContext(s);
      s, ctx := r.0, r.1;
    }

    method ReleaseContext(ctx: nat)
      modifies this
      ensures s == CloseContext(old(s), ctx)
    {
      s := CloseContext(s, ctx);
    }

    method SubmitCommand(ctx: nat, command: seq<Byte>) returns (response: seq<Byte>)
      modifies this
      ensures (s, response) == Submit(old(s), ctx, command)
    {
      var r := Submit(s, ctx, command);
      s, response := r.0, r.1;
    }
  }

  /** A buffer that holds the unsized form of a command issues that command. */
  lemma {:induction false} Sent(s: State, ctx: nat, data: seq<Byte>, c: Command)
    requires data == Wire.Unsized(Encode(c))
    ensures var (answer, outcome) := (Submit(s, ctx, Wire.PatchSize(data)), Issue(s, ctx, c));
            answer.0 == outcome.0 && Reports(answer.1, s.dev, c, outcome.1)
            && (outcome.1.Some? ==> Answers(c, outcome.1.value))
  {
    Wire.PatchedIsMarshalled(Encode(c));
    SubmitIssues(s, ctx, c);
    ReplyAnswers(s, ctx, c);
  }

  class TpmCommands {
    const tpm: Tpm
    var hContext: nat
    var isOpen: bool

    ghost predicate Valid()
      reads this
    {
      isOpen <==> hContext != 0
    }

    constructor (tpm: Tpm)
      ensures Valid() && !isOpen && this.tpm == tpm
    {
      this.tpm := tpm;
      hContext := 0;
      isOpen := false;
    }

    method Open() returns (ok: bool)
      requires Valid()
      modifies this, tpm
      ensures Valid() && ok == isOpen
      ensures old(isOpen) ==> tpm.s == old(tpm.s) && hContext == old(hContext)
      ensures !old(isOpen) ==> tpm.s == OpenContext(old(tpm.s)).0
      ensures !old(isOpen) ==> hContext == OpenContext(old(tpm.s)).1.GetOr(0)
    {
      if isOpen {
        return true;
      }
      var result := tpm.CreateContext();
      if result.None? {
        return false;
      }
      hContext := result.value;
      isOpen := true;
      ok := true;
    }

    method Close()
      requires Valid()
      modifies this, tpm
      ensures Valid() && !isOpen
      ensures tpm.s == if old(isOpen) then CloseContext(old(tpm.s), old(hContext)) else old(tpm.s)
    {
      if isOpen && hContext != 0 {
        tpm.ReleaseContext(hContext);
        hContext := 0;
        isOpen := false;
      }
    }

    /** Fills in the size of the command and submits it. */
    method SendCommand(cmd: CommandBuffer, ghost c: Command) returns (resp: seq<Byte>)
      requires Valid() && cmd.data == Wire.Unsized(Encode(c))
      modifies tpm, cmd
      ensures isOpen ==> cmd.data == Wire.PatchSize(old(cmd.data))
      ensures tpm.s == Issue(old(tpm.s), hContext, c).0
      ensures var reply := Issue(old(tpm.s), hContext, c).1;
              Reports(resp, old(tpm.s).dev, c, reply) && (reply.Some? ==> Answers(c, reply.value))
    {
      Sent(tpm.s, hContext, cmd.data, c);
      assert Submit(tpm.s, 0, Wire.PatchSize(cmd.data)) == (tpm.s, []);
      if !isOpen {
        return [];
      }
      cmd.PatchSize();
      resp := tpm.SubmitCommand(hContext, cmd.data);
    }

    method FlushContext(handle: U32)
      requires Valid()
      modifies tpm
      ensures tpm.s == Flush(old(tpm.s), hContext, handle)
    {
      var cmd := BuildFlush(handle);
      var _ := SendCommand(cmd, TpmState.FlushContext(handle));
    }

    /** A restricted signing key, as a primary object of the owner hierarchy. */
    method CreateAndLoadAk() returns (handle: U32, pub: seq<Byte>)
      requires Valid()
      modifies tpm
      ensures (tpm.s, handle, pub) == CreateKey(old(tpm.s), hContext, RH_OWNER, AkTemplate())
    {
      var template := BuildAkPublic();
      var cmd := BuildCreatePrimary(0x4000_0001, template);
      ghost var c := CreatePrimary(RH_OWNER, AkTemplate());
      var resp := SendCommand(cmd, c);
      CreatedParsed(resp, old(tpm.s).dev, c, Issue(old(tpm.s), hContext, c).1);
      var created := ParseCreated(resp);
      handle, pub := created.value.0, created.value.1;
    }

    method CreateEk() returns (handle: U32)
      requires Valid()
      modifies tpm
      ensures tpm.s == CreateKey(old(tpm.s), hContext, RH_ENDORSEMENT, EkTemplate()).0
      ensures handle == CreateKey(old(tpm.s), hContext, RH_ENDORSEMENT, EkTemplate()).1
    {
      var template := BuildEkPublic();
      var cmd := BuildCreatePrimary(0x4000_000B, template);
      ghost var c := CreatePrimary(RH_ENDORSEMENT, EkTemplate());
      var resp := SendCommand(cmd, c);
      handle := ParseCreatedHandle(resp, old(tpm.s).dev, c, Issue(old(tpm.s), hContext, c).1);
    }

    /** TPM2_ActivateCredential inside a fresh policy session, which is flushed on every path. */
    method ActivateCredential(ak: U32, ek: U32, credentialBlob: seq<Byte>, encryptedSecret: seq<Byte>)
      returns (secret: seq<Byte>)
      requires Valid()
      modifies tpm
      ensures (tpm.s, secret) == Activate(old(tpm.s), hContext, ak, ek, credentialBlob + encryptedSecret)
    {
      secret := [];
      var sessionHandle: U32 := 0;
      ghost var s0 := tpm.s;

      var startCmd := BuildStartSession();
      var startResp := SendCommand(startCmd, StartPolicySession);
      var session := ParseSession(startResp, s0.dev, StartPolicySession, Issue(s0, hContext, StartPolicySession).1);
      if session.None? {
        return;
      }
      sessionHandle := session.value;
      secret := ActivateUnder(ak, ek, sessionHandle, credentialBlob, encryptedSecret);
      if sessionHandle != 0 {
        FlushContext(sessionHandle);
      }
    }

    /** The policy, and the activation, within a session. */
    method ActivateUnder(ak: U32, ek: U32, sessionHandle: U32, credentialBlob: seq<Byte>, encryptedSecret: seq<Byte>)
      returns (secret: seq<Byte>)
      requires Valid()
      modifies tpm
      ensures (tpm.s, secret)
              == ActivateIn(old(tpm.s), hContext, ak, ek, sessionHandle, credentialBlob + encryptedSecret)
    {
      secret := [];
      var policyCmd := BuildPolicySecret(sessionHandle);
      ghost var policy := PolicySecret(RH_ENDORSEMENT, sessionHandle);
      var policyResp := SendCommand(policyCmd, policy);
      var policyOk := ParseStatus(policyResp);
      if policyOk {
        ghost var s2 := tpm.s;
        var actCmd := BuildActivate(ak, ek, sessionHandle, credentialBlob, encryptedSecret);
        ghost var act := TpmState.ActivateCredential(ak, ek, sessionHandle, credentialBlob + encryptedSecret);
        var actResp := SendCommand(actCmd, act);
        SecretParsed(actResp, s2.dev, act, Issue(s2, hContext, act).1);
        var recovered := ParseSecret(actResp);
        secret := recovered.value;
      }
    }

    method IsPersistentPresent(persistentHandle: U32) returns (present: bool)
      requires Valid()
      modifies tpm
      ensures (tpm.s, present) == IsPresent(old(tpm.s), hContext, persistentHandle)
    {
      var cmd := BuildReadPublic(persistentHandle);
      var resp := SendCommand(cmd, ReadPublic(persistentHandle));
      present := ParseStatus(resp);
    }

    method EvictControl(transientHandle: U32, persistentHandle: U32) returns (ok: bool)
      requires Valid()
      modifies tpm
      ensures (tpm.s, ok) == Evict(old(tpm.s), hContext, transientHandle, persistentHandle)
    {
      var present := IsPersistentPresent(persistentHandle);
      if present {
        var clearCmd := BuildEvict(persistentHandle, persistentHandle);
        var clearResp := SendCommand(clearCmd, TpmState.EvictControl(persistentHandle, persistentHandle));
        var cleared := ParseStatus(clearResp);
        if !cleared {
          return false;
        }
      }
      var cmd := BuildEvict(transientHandle, persistentHandle);
      var resp := SendCommand(cmd, TpmState.EvictControl(transientHandle, persistentHandle));
      ok := ParseStatus(resp);
    }

    method Quote(akHandle: U32, nonce: seq<Byte>, pcrs: seq<nat>) returns (r: Option<(seq<Byte>, seq<Byte>)>)
      requires Valid()
      modifies tpm
      ensures (tpm.s, r) == QuoteWith(old(tpm.s), hContext, akHandle, nonce, pcrs)
    {
      var cmd := BuildQuote(akHandle, nonce, pcrs);
      ghost var c := TpmState.Quote(akHandle, nonce, BitmapOf(pcrs));
      var resp := SendCommand(cmd, c);
      r := ParseQuote(resp);
      QuoteParsed(resp, old(tpm.s).dev, c, Issue(old(tpm.s), hContext, c).1, r);
    }

    method PcrRead(pcr: nat) returns (digest: seq<Byte>)
      requires Valid()
      modifies tpm
      ensures (tpm.s, digest) == ReadPcr(old(tpm.s), hContext, pcr)
    {
      var cmd := BuildPcrRead(pcr);
      ghost var c := TpmState.PcrRead(BitmapOf([pcr]));
      var resp := SendCommand(cmd, c);
      digest := ParsePcr(resp);
      PcrParsed(resp, old(tpm.s).dev, c, Issue(old(tpm.s), hContext, c).1);
    }

    /** One chunk; empty when it could not be read. */
    method ReadNvChunk(nvIndex: U32, dataSize: U16, readOffset: U16) returns (chunk: seq<Byte>)
      requires Valid() && readOffset < dataSize
      modifies tpm
      ensures (tpm.s, chunk) == ReadChunk(old(tpm.s), hContext, nvIndex, dataSize, readOffset, NV_CHUNK)
      ensures |chunk| <= dataSize - readOffset
    {
      var kChunk: U16 := 1024;
      var want: U16 := if dataSize - readOffset > kChunk then kChunk else dataSize - readOffset;
      ghost var c := NvRead(nvIndex, want, readOffset);
      var rcmd := BuildNvRead(nvIndex, want, readOffset);
      var rresp := SendCommand(rcmd, c);
      NvDataParsed(rresp, old(tpm.s).dev, c, Issue(old(tpm.s), hContext, c).1);
      chunk := ParseNvData(rresp);
    }

    method ReadNvSize(nvIndex: U32) returns (dataSize: U16)
      requires Valid()
      modifies tpm
      ensures var (s, reply) := Issue(old(tpm.s), hContext, NvReadPublic(nvIndex));
              tpm.s == s && dataSize == NvSizeOf(reply)
    {
      var cmd := BuildNvReadPublic(nvIndex);
      var resp := SendCommand(cmd, NvReadPublic(nvIndex));
      NvPublicParsed(resp, old(tpm.s).dev, NvReadPublic(nvIndex), Issue(old(tpm.s), hContext, NvReadPublic(nvIndex)).1);
      dataSize := ParseNvPublic(resp);
    }

    /** The chunk loop, with a 16-bit offset. */
    method ReadNvChunks(nvIndex: U32, dataSize: U16) returns (r: Option<seq<Byte>>)
      requires Valid()
      modifies tpm
      ensures (tpm.s, r) == NvLoop(old(tpm.s), hContext, nvIndex, dataSize, [], NV_CHUNK)
      ensures r.Some? ==> |r.value| == dataSize
    {
      var outCert: seq<Byte> := [];
      var readOffset: U16 := 0;
      ghost var all := NvLoop(tpm.s, hContext, nvIndex, dataSize, [], NV_CHUNK);
      while readOffset < dataSize
        invariant readOffset == |outCert| <= dataSize
        invariant NvLoop(tpm.s, hContext, nvIndex, dataSize, outCert, NV_CHUNK) == all
        decreases dataSize - readOffset
      {
        ghost var s := tpm.s;
        var chunk := ReadNvChunk(nvIndex, dataSize, readOffset);
        NvGoesOn(s, hContext, nvIndex, dataSize, outCert, NV_CHUNK, (tpm.s, chunk), all);
        if chunk == [] {
          return None;
        }
        outCert := outCert + chunk;
        readOffset := Cast16(readOffset + |chunk|);
      }
      r := Some(outCert);
    }

    /** Reads an NV index in chunks of at most 1024 bytes. */
    method ReadNvCertificate(nvIndex: U32) returns (ok: bool, outCert: seq<Byte>)
      requires Valid()
      modifies tpm
      ensures var (s, cert) := ReadNv(old(tpm.s), hContext, nvIndex);
              tpm.s == s && ok == cert.Some? && outCert == cert.GetOr([])
      ensures ok ==> outCert != []
    {
      var dataSize := ReadNvSize(nvIndex);
      if dataSize == 0 {
        return false, [];
      }
      var cert := ReadNvChunks(nvIndex, dataSize);
      outCert := cert.GetOr([]);
      ok := outCert != [];
    }

    method ReadIntelOdcaIntermediates() returns (outCerts: seq<seq<Byte>>)
      requires Valid()
      modifies tpm
      ensures (tpm.s, outCerts) == ReadAll(old(tpm.s), hContext, OdcaHandles(), [])
    {
      outCerts := [];
      ghost var handles := OdcaHandles();
      for i := 0 to 16
        invariant ReadAll(tpm.s, hContext, handles[i..], outCerts) == ReadAll(old(tpm.s), hContext, handles, [])
      {
        assert handles[i..][1..] == handles[i + 1..];
        var ok, cert := ReadNvCertificate(0x01C0_0100 + i);
        if ok && cert != [] {
          outCerts := outCerts + [cert];
        }
      }
    }
  }
}
