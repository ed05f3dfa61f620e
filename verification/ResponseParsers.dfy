/**
 The response parsers. Each reads a raw response at the offsets the client uses and is proved to
 extract the fields of the reply the TPM sent. PcrRead's, Quote's and the NV parsers stay inside the
 response whatever it contains; for those of CreatePrimary and ActivateCredential, which rely on a
 successful response being well formed, it is stated which responses they read behind the end.
 */
module ResponseParsers {
  import opened Bytes
  import opened Seqs
  import opened PcrSelection
  import opened TpmState
  import opened TpmCodec
  import opened ClientSpec
  import Wire = TpmWire

  /** The kind of reply that each command gets. */
  predicate Answers(c: Command, r: Reply) {
    match c
    case CreatePrimary(_, _) => r.Created?
    case StartPolicySession => r.Handle? && r.handle != 0
    case ActivateCredential(_, _, _, _) => r.Secret?
    case Quote(_, _, _) => r.Quoted?
    case PcrRead(selection) => r.PcrValues? && r.selection == selection && |r.digests| <= 8
    case NvReadPublic(_) => r.NvPublic?
    case NvRead(_, size, _) => r.NvData? && 1 <= |r.data| <= size
    case _ => r.Done?
  }

  lemma {:induction false} ReplyAnswers(s: State, ctx: nat, c: Command)
    ensures var reply := Issue(s, ctx, c).1; reply.Some? ==> Answers(c, reply.value)
  {
    var (fate, s1) := NextFate(s);
    if fate.Deliver? {
      ExecAnswers(s1, ctx, c, fate.hint);
    }
  }

  lemma {:induction false} ExecAnswers(s: State, ctx: nat, c: Command, hint: nat)
    ensures var reply := Exec(s, ctx, c, hint).1; reply.Some? ==> Answers(c, reply.value)
  {
  }

  // ---- Layouts --------------------------------------------------------------

  lemma {:induction false} BodyOf(dev: Device, c: Command, r: Reply) returns (head: seq<Byte>)
    ensures |head| == 10 && OkResponse(dev, c, r) == head + Body(dev, c, r)
    ensures head == BE16(Encode(c).tag) + BE32(10 + |Body(dev, c, r)|) + BE32(0)
  {
    head := BE16(Encode(c).tag) + BE32(10 + |Body(dev, c, r)|) + BE32(0);
  }

  lemma {:induction false} CreatedFields(resp: seq<Byte>, head: seq<Byte>, h: U32, pub: PublicArea, extra: Blob,
                                         area: Blob)
    requires |head| == 10
    requires resp == head + (BE32(h) + (BE32(|TPM2B(pub) + extra|) + (TPM2B(pub) + extra) + area))
    ensures |resp| == 20 + |pub| + |extra| + |area| && ReadBE32(resp, 10) == h
    ensures ReadBE32(resp, 14) == 2 + |pub| + |extra|
    ensures ReadBE16(resp, 18) == |pub| && resp[18..20 + |pub|] == TPM2B(pub)
  {
    var n := BE32(2 + |pub| + |extra|);
    assert resp == head + BE32(h) + (n + (TPM2B(pub) + extra) + area);
    BE32Within(resp, head, h, n + (TPM2B(pub) + extra) + area);
    assert resp == (head + BE32(h)) + n + ((TPM2B(pub) + extra) + area);
    BE32Within(resp, head + BE32(h), 2 + |pub| + |extra|, (TPM2B(pub) + extra) + area);
    assert resp == (head + BE32(h) + n) + TPM2B(pub) + (extra + area);
    TPM2BWithin(resp, head + BE32(h) + n, pub, extra + area);
  }

  lemma {:induction false} HandleFields(resp: seq<Byte>, head: seq<Byte>, h: U32, rest: seq<Byte>)
    requires |head| == 10 && resp == head + (BE32(h) + rest)
    ensures |resp| >= 14 && ReadBE32(resp, 10) == h
  {
    assert resp == head + BE32(h) + rest;
    BE32Within(resp, head, h, rest);
  }

  /** A parameter area that starts with a sized buffer. */
  lemma {:induction false} SizedFields(resp: seq<Byte>, head: seq<Byte>, data: seq<Byte>, rest: seq<Byte>,
                                       area: seq<Byte>)
    requires |head| == 10 && 2 + |data| + |rest| < U16_LIMIT
    requires resp == head + (BE32(|TPM2B(data) + rest|) + (TPM2B(data) + rest) + area)
    ensures |resp| == 16 + |data| + |rest| + |area|
    ensures ReadBE32(resp, 10) == 2 + |data| + |rest| && ReadBE16(resp, 14) == |data|
    ensures resp[16..16 + |data|] == data && resp[16 + |data|..] == rest + area
  {
    var n := BE32(2 + |data| + |rest|);
    assert resp == head + n + ((TPM2B(data) + rest) + area);
    BE32Within(resp, head, 2 + |data| + |rest|, (TPM2B(data) + rest) + area);
    assert resp == (head + n) + TPM2B(data) + (rest + area);
    TPM2BWithin(resp, head + n, data, rest + area);
  }

  // ---- Parsers --------------------------------------------------------------

  /** The handle and the complete TPM2B_PUBLIC. The size of the area is tested, and that it has two bytes
      for the size of the public area is not. */
  function CreatedField(resp: seq<Byte>): (r: Access<(U32, seq<Byte>)>) {
    if Failed(resp) || |resp| < 14 then Inside((0, []))
    else
      var (handle, paramSize) := (ReadBE32(resp, 10), if |resp| > 18 then ReadBE32(resp, 14) else 0);
      if paramSize == 0 || Cast32(18 + (paramSize as nat)) > |resp| then Inside((handle, []))
      else if |resp| < 20 then Outside(|resp|)
      else
        var pubSize := ReadBE16(resp, 18);
        if pubSize > 0 && 20 + pubSize <= |resp| then Inside((handle, resp[18..20 + pubSize])) else Inside((handle, []))
  }

  /** CreateAndLoadAk's parser. */
  method ParseCreated(resp: seq<Byte>) returns (r: Access<(U32, seq<Byte>)>)
    ensures r == CreatedField(resp)
  {
    if |resp| < 14 {
      return Inside((0, []));
    }
    var rc := ReadBE32(resp, 6);
    if rc != 0 {
      return Inside((0, []));
    }
    var handle := ReadBE32(resp, 10);
    var pub := [];
    if |resp| > 18 {
      var paramSize := ReadBE32(resp, 14);
      if paramSize > 0 && Cast32(18 + (paramSize as nat)) <= |resp| {
        if |resp| < 20 {
          return Outside(|resp|);
        }
        var pubSize := ReadBE16(resp, 18);
        if pubSize > 0 && 20 + pubSize <= |resp| {
          pub := resp[18..20 + pubSize];
        }
      }
    }
    r := Inside((handle, pub));
  }

  /** On the TPM's reply these are its handle and its public area. */
  lemma {:induction false} CreatedParsed(resp: seq<Byte>, dev: Device, c: Command, reply: Option<Reply>)
    requires c.CreatePrimary? && Reports(resp, dev, c, reply) && (reply.Some? ==> Answers(c, reply.value))
    ensures CreatedField(resp) == Inside(KeyOf(reply))
  {
    if reply.Some? {
      var Created(h, area) := reply.value;
      var head := BodyOf(dev, c, reply.value);
      CreatedFields(resp, head, h, area, dev.extra(c), dev.sessionArea(c));
    }
  }

  /** Exactly the responses of 19 bytes that claim success and one byte of parameters, or so many that
      the sum wraps around, are read behind their end. */
  lemma {:induction false} CreatedOutsideIff(resp: seq<Byte>)
    ensures CreatedField(resp).Outside?
            <==> && |resp| == 19 && !Failed(resp)
                 && (ReadBE32(resp, 14) == 1 || 18 + (ReadBE32(resp, 14) as nat) >= U32_LIMIT)
    ensures CreatedField(resp).Outside? ==> CreatedField(resp).at == 19
  {
  }

  /** CreateEk's parser: only the handle. */
  method ParseCreatedHandle(resp: seq<Byte>, ghost dev: Device, ghost c: Command, ghost reply: Option<Reply>)
    returns (handle: U32)
    requires c.CreatePrimary? && Reports(resp, dev, c, reply) && (reply.Some? ==> Answers(c, reply.value))
    ensures handle == KeyOf(reply).0
  {
    handle := 0;
    if reply.Some? {
      ghost var Created(h, area) := reply.value;
      ghost var head := BodyOf(dev, c, reply.value);
      CreatedFields(resp, head, h, area, dev.extra(c), dev.sessionArea(c));
    }
    if |resp| < 14 { return; }
    var rc := ReadBE32(resp, 6);
    if rc != 0 { return; }
    handle := ReadBE32(resp, 10);
  }

  /** The session handle; where it lies depends on the response's tag. */
  method ParseSession(resp: seq<Byte>, ghost dev: Device, ghost c: Command, ghost reply: Option<Reply>)
    returns (session: Option<U32>)
    requires c.StartPolicySession? && Reports(resp, dev, c, reply) && (reply.Some? ==> Answers(c, reply.value))
    ensures session == SessionOf(reply)
  {
    session := None;
    if reply.Some? {
      ghost var head := BodyOf(dev, c, reply.value);
      HandleFields(resp, head, reply.value.handle, TPM2B(dev.extra(c)));
      assert resp[0..2] == BE16(Wire.ST_NO_SESSIONS);
      BE16At(resp, 0, Wire.ST_NO_SESSIONS);
    }
    if |resp| < 14 { return; }
    if ReadBE32(resp, 6) != 0 { return; }
    var handleOffset := if ReadBE16(resp, 0) == Wire.ST_SESSIONS then 14 else 10;
    if |resp| < handleOffset + 4 { return; }
    session := Some(ReadBE32(resp, handleOffset));
  }

  /** The recovered credential. A response that claims success is not tested for its length. */
  function SecretField(resp: seq<Byte>): (r: Access<seq<Byte>>) {
    if Failed(resp) then Inside([])
    else if |resp| < 14 then Outside(|resp|)
    else if ReadBE32(resp, 10) < 2 then Inside([])
    else if |resp| < 16 then Outside(|resp|)
    else
      var secretSize := ReadBE16(resp, 14);
      if 16 + secretSize > |resp| then Inside([]) else Inside(resp[16..16 + secretSize])
  }

  method ParseSecret(resp: seq<Byte>) returns (r: Access<seq<Byte>>)
    ensures r == SecretField(resp)
  {
    if |resp| < 10 {
      return Inside([]);
    }
    var rc := ReadBE32(resp, 6);
    if rc != 0 {
      return Inside([]);
    }
    if |resp| < 14 {
      return Outside(|resp|);
    }
    if ReadBE32(resp, 10) < 2 {
      return Inside([]);
    }
    if |resp| < 16 {
      return Outside(|resp|);
    }
    var secretSize := ReadBE16(resp, 14);
    if 16 + secretSize > |resp| {
      return Inside([]);
    }
    r := Inside(resp[16..16 + secretSize]);
  }

  /** On the TPM's reply that is its secret. */
  lemma {:induction false} SecretParsed(resp: seq<Byte>, dev: Device, c: Command, reply: Option<Reply>)
    requires c.ActivateCredential? && Reports(resp, dev, c, reply) && (reply.Some? ==> Answers(c, reply.value))
    ensures SecretField(resp) == Inside(SecretOf(reply))
  {
    if reply.Some? {
      var data: seq<Byte> := reply.value.secret;
      var head := BodyOf(dev, c, reply.value);
      assert TPM2B(data) + [] == TPM2B(data);
      SizedFields(resp, head, data, [], dev.sessionArea(c));
    }
  }

  /** Exactly the responses that claim success and end before the size of the secret are read behind
      their end, unless they claim less than two bytes of parameters. */
  lemma {:induction false} SecretOutsideIff(resp: seq<Byte>)
    ensures SecretField(resp).Outside?
            <==> !Failed(resp) && |resp| < 16 && (|resp| < 14 || ReadBE32(resp, 10) >= 2)
    ensures SecretField(resp).Outside? ==> SecretField(resp).at == |resp|
  {
  }

  /** Two short responses that claim success: one to TPM2_CreatePrimary, one to TPM2_ActivateCredential. */
  lemma {:induction false} ReadOutsideExamples()
    ensures CreatedField([0x80, 2, 0, 0, 0, 19, 0, 0, 0, 0, 0x80, 0, 0, 0, 0, 0, 0, 1, 0]) == Outside(19)
    ensures SecretField([0x80, 2, 0, 0, 0, 10, 0, 0, 0, 0]) == Outside(10)
  {
  }

  /** Whether the command succeeded, for the commands whose reply carries nothing of interest. */
  method ParseStatus(resp: seq<Byte>) returns (ok: bool)
    ensures ok <==> !Failed(resp)
  {
    if |resp| < 10 { return false; }
    var rc := ReadBE32(resp, 6);
    ok := rc == 0;
  }

  /** The attest blob, and all the rest of the response as the signature. */
  method ParseQuote(resp: seq<Byte>) returns (r: Option<(seq<Byte>, seq<Byte>)>)
    ensures r.Some? <==> !Failed(resp) && |resp| >= 16 && 16 + ReadBE16(resp, 14) <= |resp|
    ensures r.Some? ==> |r.value.0| == ReadBE16(resp, 14) && resp == resp[..16] + r.value.0 + r.value.1
  {
    r := None;
    if |resp| < 10 { return; }
    var rc := ReadBE32(resp, 6);
    if rc != 0 { return; }
    var offset := 10;
    if offset + 4 > |resp| { return; }
    offset := offset + 4;  // parameterSize
    if offset + 2 > |resp| { return; }
    var attestSize := ReadBE16(resp, offset);
    offset := offset + 2;
    if offset + attestSize > |resp| { return; }
    var quoted := resp[offset..offset + attestSize];
    offset := offset + attestSize;
    var signature := [];
    if offset < |resp| {
      signature := resp[offset..];
    }
    r := Some((quoted, signature));
  }

  lemma {:induction false} QuoteParsed(resp: seq<Byte>, dev: Device, c: Command, reply: Option<Reply>,
                                       r: Option<(seq<Byte>, seq<Byte>)>)
    requires c.Quote? && Reports(resp, dev, c, reply) && (reply.Some? ==> Answers(c, reply.value))
    requires r.Some? <==> !Failed(resp) && |resp| >= 16 && 16 + ReadBE16(resp, 14) <= |resp|
    requires r.Some? ==> |r.value.0| == ReadBE16(resp, 14) && resp == resp[..16] + r.value.0 + r.value.1
    ensures r == QuoteOf(dev, c, reply)
  {
    if reply.Some? {
      var attest: seq<Byte>, signature: seq<Byte> := reply.value.attest, reply.value.signature;
      var head := BodyOf(dev, c, reply.value);
      SizedFields(resp, head, attest, signature, dev.sessionArea(c));
      assert resp[16..16 + |attest|] == r.value.0;
      assert resp[16 + |attest|..] == r.value.1;
    }
  }

  // ---- PCR_Read -------------------------------------------------------------

  /** Where the digest list of a PCR_Read response starts, past `count` selections. */
  function SkipSelections(resp: seq<Byte>, offset: nat, count: nat): (r: Option<nat>)
    decreases count
  {
    if count == 0 then Some(offset)
    else if offset + 2 >= |resp| then None
    else SkipSelections(resp, offset + 3 + resp[offset + 2], count - 1)
  }

  function FirstDigestAt(resp: seq<Byte>, offset: nat): (r: seq<Byte>) {
    if offset + 4 > |resp| || ReadBE32(resp, offset) == 0 || offset + 6 > |resp| then []
    else
      var size := ReadBE16(resp, offset + 4);
      if offset + 6 + size <= |resp| then resp[offset + 6..offset + 6 + size] else []
  }

  function PcrField(resp: seq<Byte>): (r: seq<Byte>) {
    if Failed(resp) || |resp| < 18 then []
    else
      match SkipSelections(resp, 18, ReadBE32(resp, 14))
      case None => []
      case Some(offset) => FirstDigestAt(resp, offset)
  }

  method ParsePcr(resp: seq<Byte>) returns (digest: seq<Byte>)
    ensures digest == PcrField(resp)
  {
    if |resp| < 10 { return []; }
    var rc := ReadBE32(resp, 6);
    if rc != 0 { return []; }
    var offset: nat := 10;
    offset := offset + 4;  // pcrUpdateCounter
    if offset + 4 > |resp| { return []; }
    var selCount := ReadBE32(resp, offset);
    offset := offset + 4;
    var i := 0;
    while i < selCount
      invariant i <= selCount
      invariant SkipSelections(resp, offset, selCount - i) == SkipSelections(resp, 18, selCount)
    {
      offset := offset + 2;
      if offset >= |resp| { return []; }
      var selectSize := resp[offset];
      offset := offset + (1 + selectSize as int);
      i := i + 1;
    }
    if offset + 4 > |resp| { return []; }
    var digestCount := ReadBE32(resp, offset);
    offset := offset + 4;
    if digestCount > 0 && offset + 2 <= |resp| {
      var digestSize := ReadBE16(resp, offset);
      offset := offset + 2;
      if offset + digestSize <= |resp| {
        return resp[offset..offset + digestSize];
      }
    }
    return [];
  }

  lemma {:induction false} PcrParsed(resp: seq<Byte>, dev: Device, c: Command, reply: Option<Reply>)
    requires c.PcrRead? && Reports(resp, dev, c, reply) && (reply.Some? ==> Answers(c, reply.value))
    ensures PcrField(resp) == FirstDigest(reply)
  {
    if reply.Some? {
      var PcrValues(selection, digests) := reply.value;
      var head := BodyOf(dev, c, reply.value);
      PcrFields(resp, head, selection, digests);
    }
  }

  lemma {:induction false} PcrFields(resp: seq<Byte>, head: seq<Byte>, selection: Bitmap, digests: seq<Digest>)
    requires |head| == 10 && |digests| <= 8
    requires resp == head + (BE32(0) + Selection(selection) + BE32(|digests|) + DigestList(digests))
    ensures |resp| >= 28 && ReadBE32(resp, 14) == 1 && SkipSelections(resp, 18, 1) == Some(24)
    ensures FirstDigestAt(resp, 24) == if digests == [] then [] else digests[0]
  {
    var front := head + BE32(0);
    var list := BE32(|digests|) + DigestList(digests);
    Regroup(head, BE32(0), Selection(selection), BE32(|digests|), DigestList(digests));
    SelectionFields(resp, front, selection, list);
    DigestFields(resp, front + Selection(selection), digests);
  }

  lemma {:induction false} SelectionFields(resp: seq<Byte>, front: seq<Byte>, selection: Bitmap, rest: seq<Byte>)
    requires |front| == 14 && |rest| >= 4 && resp == front + Selection(selection) + rest
    ensures ReadBE32(resp, 14) == 1 && SkipSelections(resp, 18, 1) == Some(24)
  {
    assert resp == front + BE32(1) + ((BE16(ALG_SHA256) + [3] + selection) + rest);
    BE32Within(resp, front, 1, (BE16(ALG_SHA256) + [3] + selection) + rest);
    assert resp[20] == Selection(selection)[6] == 3;
    assert SkipSelections(resp, 24, 0) == Some(24);
  }

  lemma {:induction false} DigestFields(resp: seq<Byte>, front: seq<Byte>, digests: seq<Digest>)
    requires |front| == 24 && |digests| <= 8 && resp == front + (BE32(|digests|) + DigestList(digests))
    ensures FirstDigestAt(resp, 24) == if digests == [] then [] else digests[0]
  {
    assert resp == front + BE32(|digests|) + DigestList(digests);
    BE32Within(resp, front, |digests|, DigestList(digests));
    if digests != [] {
      var first: seq<Byte> := digests[0];
      assert resp == (front + BE32(|digests|)) + TPM2B(first) + DigestList(digests[1..]);
      TPM2BWithin(resp, front + BE32(|digests|), first, DigestList(digests[1..]));
    }
  }

  // ---- NV -------------------------------------------------------------------

  /** The data size in a TPM2B_NV_PUBLIC, found behind a policy of any length; 0 when it is not there. */
  function NvSizeField(resp: seq<Byte>): (size: U16) {
    if Failed(resp) || |resp| < 12 || 12 + ReadBE16(resp, 10) > |resp| || 24 > |resp| then 0
    else
      var policySize := ReadBE16(resp, 22);
      if 24 + policySize + 2 > |resp| then 0 else ReadBE16(resp, 24 + policySize)
  }

  method ParseNvPublic(resp: seq<Byte>) returns (dataSize: U16)
    ensures dataSize == NvSizeField(resp)
  {
    if |resp| < 10 { return 0; }
    var rc := ReadBE32(resp, 6);
    if rc != 0 { return 0; }
    var offset := 10;
    if offset + 2 > |resp| { return 0; }
    var nvPubSize := ReadBE16(resp, offset);
    offset := offset + 2;
    if offset + nvPubSize > |resp| { return 0; }
    var inner := offset;
    if inner + 4 + 2 + 4 + 2 > |resp| { return 0; }
    inner := inner + 4;  // nvIndex
    inner := inner + 2;  // nameAlg
    inner := inner + 4;  // attributes
    var policySize := ReadBE16(resp, inner);
    inner := inner + 2;
    if inner + policySize + 2 > |resp| { return 0; }
    inner := inner + policySize;
    dataSize := ReadBE16(resp, inner);
  }

  lemma {:induction false} NvPublicParsed(resp: seq<Byte>, dev: Device, c: Command, reply: Option<Reply>)
    requires c.NvReadPublic? && Reports(resp, dev, c, reply) && (reply.Some? ==> Answers(c, reply.value))
    ensures NvSizeField(resp) == NvSizeOf(reply)
  {
    if reply.Some? {
      var NvPublic(policy, size) := reply.value;
      var head := BodyOf(dev, c, reply.value);
      NvPublicFields(resp, head, policy, size, TPM2B(dev.extra(c)));
    }
  }

  lemma {:induction false} NvPublicFields(resp: seq<Byte>, head: seq<Byte>, policy: Digest, size: U16, name: seq<Byte>)
    requires |head| == 10
    requires resp == head + (TPM2B(BE32(0) + BE16(ALG_SHA256) + BE32(0) + TPM2B(policy) + BE16(size)) + name)
    ensures |resp| >= 26 + |policy| && ReadBE16(resp, 10) == 14 + |policy|
    ensures ReadBE16(resp, 22) == |policy| && ReadBE16(resp, 24 + |policy|) == size
  {
    var front := BE32(0) + BE16(ALG_SHA256) + BE32(0);
    var area := front + TPM2B(policy) + BE16(size);
    assert resp == head + TPM2B(area) + name;
    TPM2BWithin(resp, head, area, name);
    var before := head + BE16(|area|) + front;
    assert resp == before + TPM2B(policy) + (BE16(size) + name);
    TPM2BWithin(resp, before, policy, BE16(size) + name);
    assert resp[24 + |policy|..26 + |policy|] == BE16(size);
    BE16At(resp, 24 + |policy|, size);
  }

  /** The data of a TPM2B_MAX_NV_BUFFER; empty when it is not there. */
  function NvDataField(resp: seq<Byte>): (data: seq<Byte>) {
    if Failed(resp) || |resp| < 16 || 16 + ReadBE16(resp, 14) > |resp| then []
    else resp[16..16 + ReadBE16(resp, 14)]
  }

  /** The checks on the response to a read, in the order in which the chunk loop makes them. */
  method ParseNvData(resp: seq<Byte>) returns (chunk: seq<Byte>)
    ensures chunk == NvDataField(resp)
  {
    if |resp| < 10 {
      return [];
    }
    if ReadBE32(resp, 6) != 0 {
      return [];
    }
    var roff := 10 + 4;
    if roff + 2 > |resp| {
      return [];
    }
    var got := ReadBE16(resp, roff);
    roff := roff + 2;
    if got == 0 || roff + got > |resp| {
      return [];
    }
    chunk := resp[roff..roff + got];
  }

  lemma {:induction false} NvDataParsed(resp: seq<Byte>, dev: Device, c: Command, reply: Option<Reply>)
    requires c.NvRead? && Reports(resp, dev, c, reply) && (reply.Some? ==> Answers(c, reply.value))
    requires c.size <= NV_CHUNK
    ensures NvDataField(resp) == NvDataOf(reply)
  {
    if reply.Some? {
      var data := reply.value.data;
      var head := BodyOf(dev, c, reply.value);
      assert TPM2B(data) + [] == TPM2B(data);
      SizedFields(resp, head, data, [], dev.sessionArea(c));
    }
  }
}
