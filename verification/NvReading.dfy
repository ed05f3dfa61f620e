/**
 Chunked reads of an NV index: on both platforms, whatever the TPM chooses to return per read, a
 read that succeeds yields the index's contents, and one that need not fail succeeds.
 */
module NvReading {
  import opened Bytes
  import opened Seqs
  import opened TpmState
  import opened TpmCodec
  import opened ClientSpec
  import opened TpmCommands
  import opened TpmFrames
  import opened TpmEffects
  import opened EnrollmentEndToEnd
  import opened Buffers

  /** A read that arrives is a nonempty piece of the contents at its offset. */
  lemma {:induction false} ReadDelivers(s: State, ctx: nat, index: U32, size: U16, offset: U16)
    ensures var (t, reply) := Issue(s, ctx, NvRead(index, size, offset));
            && Quiet(s, t)
            && var data := NvDataOf(reply);
               data != [] ==>
                 index in s.dev.nv && 0 < |data| <= size && offset + |data| <= |s.dev.nv[index].data|
                 && data == s.dev.nv[index].data[offset..offset + |data|]
  {
    IssueQuiet(s, ctx, NvRead(index, size, offset));
  }

  /** These are the first bytes of an index of this size. */
  predicate Front(dev: Device, index: U32, size: U16, acc: seq<Byte>) {
    index in dev.nv && |dev.nv[index].data| == size && acc <= dev.nv[index].data
  }

  lemma {:induction false} ChunkDelivers(s: State, ctx: nat, index: U32, size: U16, acc: seq<Byte>, most: nat)
    requires Front(s.dev, index, size, acc) && |acc| < size
    ensures var (t, piece) := ReadChunk(s, ctx, index, size, |acc|, most);
            t.dev == s.dev && (piece != [] ==> Front(s.dev, index, size, acc + piece))
  {
    var piece := ReadChunk(s, ctx, index, size, |acc|, most).1;
    ReadDelivers(s, ctx, index, if size - |acc| > most then most else size - |acc|, |acc|);
    if piece != [] {
      Joined(s.dev.nv[index].data, |acc|, piece);
    }
  }

  lemma {:induction false} Joined(data: seq<Byte>, offset: nat, piece: seq<Byte>)
    requires offset + |piece| <= |data| && data[offset..offset + |piece|] == piece
    ensures data[..offset] + piece == data[..offset + |piece|]
  {
  }

  /** If there is a result, it is the contents of the index. */
  predicate Whole(dev: Device, index: U32, result: Option<seq<Byte>>)
    requires index in dev.nv
  {
    result.Some? ==> result.value == dev.nv[index].data
  }

  /** The loop completes what has been read to the whole contents, for every chunk size and every
      pattern of short reads. */
  lemma {:induction false} LoopReads(s: State, ctx: nat, index: U32, size: U16, acc: seq<Byte>, most: nat,
                                     all: (State, Option<seq<Byte>>))
    requires Front(s.dev, index, size, acc) && NvLoop(s, ctx, index, size, acc, most) == all
    ensures Whole(s.dev, index, all.1)
    decreases size - |acc|
  {
    if |acc| < size {
      var next := ReadChunk(s, ctx, index, size, |acc|, most);
      NvGoesOn(s, ctx, index, size, acc, most, next, all);
      if next.1 != [] {
        ChunkDelivers(s, ctx, index, size, acc, most);
        LoopReads(next.0, ctx, index, size, acc + next.1, most, all);
      }
    }
  }

  lemma {:induction false} ChunkSucceeds(s: State, ctx: nat, index: U32, size: U16, offset: nat, most: nat)
    requires Prompt(s) && ctx != 0 && ctx in s.contexts && most > 0 && offset < size
    requires index in s.dev.nv && |s.dev.nv[index].data| == size
    requires size - offset <= s.dev.nvMax || most <= s.dev.nvMax
    ensures var (t, piece) := ReadChunk(s, ctx, index, size, offset, most);
            piece != [] && Prompt(t) && Quiet(s, t)
  {
    var want := if size - offset > most then most else size - offset;
    PromptIssue(s, ctx, NvRead(index, want, offset));
    PromptKept(s, ctx, NvRead(index, want, offset));
    IssueQuiet(s, ctx, NvRead(index, want, offset));
  }

  /** And it gets to the end if no command fails and the TPM accepts chunks of that size. */
  lemma {:induction false} LoopSucceeds(s: State, ctx: nat, index: U32, size: U16, acc: seq<Byte>, most: nat,
                                        all: (State, Option<seq<Byte>>))
    requires Prompt(s) && ctx != 0 && ctx in s.contexts && most > 0
    requires index in s.dev.nv && |s.dev.nv[index].data| == size
    requires size - |acc| <= s.dev.nvMax || most <= s.dev.nvMax
    requires NvLoop(s, ctx, index, size, acc, most) == all
    ensures all.1.Some?
    decreases size - |acc|
  {
    if |acc| < size {
      var next := ReadChunk(s, ctx, index, size, |acc|, most);
      ChunkSucceeds(s, ctx, index, size, |acc|, most);
      NvGoesOn(s, ctx, index, size, acc, most, next, all);
      LoopSucceeds(next.0, ctx, index, size, acc + next.1, most, all);
    }
  }

  /** The first chunk is refused otherwise. */
  lemma {:induction false} LoopFails(s: State, ctx: nat, index: U32, size: U16, most: nat)
    requires 0 < size && s.dev.nvMax < size && s.dev.nvMax < most
    ensures NvLoop(s, ctx, index, size, [], most).1.None?
  {
  }

  /** A certificate that ReadNvCertificate returns is the whole contents of the index. */
  lemma {:induction false} ReadNvIsContents(s: State, ctx: nat, index: U32)
    ensures var (t, cert) := ReadNv(s, ctx, index);
            && Quiet(s, t)
            && (cert.Some? ==> index in s.dev.nv && cert.value == s.dev.nv[index].data && cert.value != [])
  {
    var (s1, reply) := Issue(s, ctx, NvReadPublic(index));
    IssueQuiet(s, ctx, NvReadPublic(index));
    var size := NvSizeOf(reply);
    if size != 0 {
      LoopReads(s1, ctx, index, size, [], NV_CHUNK, NvLoop(s1, ctx, index, size, [], NV_CHUNK));
      WholeLoopQuiet(s1, ctx, index, size);
    }
  }

  /** If no command fails, an index is read exactly when it exists, is not empty, has a 16-bit size,
      and is no larger than the TPM's read limit unless that is at least 1024. */
  lemma {:induction false} ReadNvIff(s: State, ctx: nat, index: U32)
    requires Prompt(s) && ctx != 0 && ctx in s.contexts
    ensures ReadNv(s, ctx, index).1.Some? <==>
              && index in s.dev.nv && 0 < |s.dev.nv[index].data| < U16_LIMIT
              && (|s.dev.nv[index].data| <= s.dev.nvMax || NV_CHUNK <= s.dev.nvMax)
  {
    var c := NvReadPublic(index);
    PromptIssue(s, ctx, c);
    PromptKept(s, ctx, c);
    var (s1, reply) := Issue(s, ctx, c);
    var size := NvSizeOf(reply);
    if size != 0 {
      if |s.dev.nv[index].data| <= s.dev.nvMax || NV_CHUNK <= s.dev.nvMax {
        LoopSucceeds(s1, ctx, index, size, [], NV_CHUNK, NvLoop(s1, ctx, index, size, [], NV_CHUNK));
      } else {
        LoopFails(s1, ctx, index, size, NV_CHUNK);
      }
    }
  }

  /** The chain that is gathered consists of whole contents of the probed indices, in order. */
  lemma {:induction false} ChainIsContents(s: State, ctx: nat, indices: seq<U32>, acc: seq<seq<Byte>>)
    requires Prompt(s) && ctx != 0 && ctx in s.contexts
    ensures ReadAll(s, ctx, indices, acc).1 == acc + Contents(s.dev, indices)
    decreases |indices|
  {
    if indices == [] {
      assert acc + [] == acc;
    } else {
      var (s', cert) := ReadNv(s, ctx, indices[0]);
      ReadNvIsContents(s, ctx, indices[0]);
      ReadNvIff(s, ctx, indices[0]);
      PromptAfterReadNv(s, ctx, indices[0]);
      ChainIsContents(s', ctx, indices[1..], if cert.Some? then acc + [cert.value] else acc);
      if cert.Some? {
        Assoc(acc, [cert.value], Contents(s.dev, indices[1..]));
      }
    }
  }

  predicate Present(dev: Device, index: U32) {
    && index in dev.nv && 0 < |dev.nv[index].data| < U16_LIMIT
    && (|dev.nv[index].data| <= dev.nvMax || NV_CHUNK <= dev.nvMax)
  }

  function Contents(dev: Device, indices: seq<U32>): (r: seq<seq<Byte>>) {
    if indices == [] then []
    else (if Present(dev, indices[0]) then [dev.nv[indices[0]].data] else []) + Contents(dev, indices[1..])
  }

  lemma {:induction false} PromptAfterReadNv(s: State, ctx: nat, index: U32)
    requires Prompt(s)
    ensures Prompt(ReadNv(s, ctx, index).0)
  {
    PromptKept(s, ctx, NvReadPublic(index));
    var (s1, reply) := Issue(s, ctx, NvReadPublic(index));
    WholeLoopPrompt(s1, ctx, index, NvSizeOf(reply));
  }

  // ---- Linux ----------------------------------------------------------------

  const EK_CERT_NV_INDEX: U32 := 0x01C0_0002
  const TPM2_MAX_NV_BUFFER_SIZE: nat := 2048

  predicate Present16(dev: Device) {
    0x01C0_0002 in dev.nv && |dev.nv[0x01C0_0002].data| < 65536
  }

  /** A read of this size does not fail. */
  ghost predicate Willing(s: State, ctx: nat, size: nat) {
    Prompt(s) && ctx != 0 && ctx in s.contexts && size <= s.dev.nvMax
  }

  lemma {:induction false} ReadSucceeds(s: State, ctx: nat, index: U32, size: U16, offset: U16)
    requires index in s.dev.nv && 0 < size && offset + size <= |s.dev.nv[index].data|
    ensures var (t, reply) := Issue(s, ctx, NvRead(index, size, offset));
            && (Willing(s, ctx, size) ==> NvDataOf(reply) != [] && Prompt(t))
            && (s.dev.nvMax < size ==> NvDataOf(reply) == [])
  {
    if Willing(s, ctx, size) {
      PromptIssue(s, ctx, NvRead(index, size, offset));
      PromptKept(s, ctx, NvRead(index, size, offset));
    }
  }

  /** Esys_NV_Read */
  method EsysNvRead(tpm: Tpm, ctx: nat, index: U32, size: U16, offset: U16) returns (data: Option<seq<Byte>>)
    requires index in tpm.s.dev.nv && 0 < size && offset + size <= |tpm.s.dev.nv[index].data|
    modifies tpm
    ensures Quiet(old(tpm.s), tpm.s)
    ensures data.Some? ==>
              0 < |data.value| <= size && data.value == tpm.s.dev.nv[index].data[offset..offset + |data.value|]
    ensures Willing(old(tpm.s), ctx, size) ==> data.Some? && Prompt(tpm.s)
    ensures tpm.s.dev.nvMax < size ==> data.None?
  {
    ReadDelivers(tpm.s, ctx, index, size, offset);
    ReadSucceeds(tpm.s, ctx, index, size, offset);
    var (s, reply) := Issue(tpm.s, ctx, NvRead(index, size, offset));
    tpm.s := s;
    data := if NvDataOf(reply) == [] then None else Some(NvDataOf(reply));
  }

  /** One piece more in the caller's buffer. */
  method Receive(piece: seq<Byte>, out: array<Byte>, offset: nat, ghost before: seq<Byte>, ghost contents: seq<Byte>)
    requires offset + |piece| <= |contents| <= out.Length == |before| && piece == contents[offset..offset + |piece|]
    requires out[..] == contents[..offset] + before[offset..]
    modifies out
    ensures out[..] == contents[..offset + |piece|] + before[offset + |piece|..]
  {
    ghost var one := out[..];
    Copy(piece, out, offset);
    assert one == before[..0] + contents[..offset] + before[offset..];
    Chain(before, one, out[..], 0, offset, contents[..offset], piece);
    Joined(contents, offset, piece);
    var end := offset + |piece|;
    assert before[..0] + contents[..end] + before[end..] == contents[..end] + before[end..];
  }

  function Chunk(size: nat): (n: nat) {
    if size > TPM2_MAX_NV_BUFFER_SIZE then TPM2_MAX_NV_BUFFER_SIZE else size
  }

  /** One turn of the chunk loop; 0 when the read fails. */
  method NextChunk(tpm: Tpm, ctx: nat, index: U32, nvSize: U16, offset: nat, out: array<Byte>,
                   ghost before: seq<Byte>) returns (got: nat)
    requires offset < nvSize <= out.Length == |before| && index in tpm.s.dev.nv && |tpm.s.dev.nv[index].data| == nvSize
    requires out[..] == tpm.s.dev.nv[index].data[..offset] + before[offset..]
    modifies tpm, out
    ensures Quiet(old(tpm.s), tpm.s) && offset + got <= nvSize
    ensures got > 0 ==> out[..] == tpm.s.dev.nv[index].data[..offset + got] + before[offset + got..]
    ensures Willing(old(tpm.s), ctx, Chunk(nvSize - offset)) ==> got > 0 && Prompt(tpm.s)
    ensures tpm.s.dev.nvMax < Chunk(nvSize - offset) ==> got == 0
  {
    var chunk: U16 := nvSize - offset;
    if chunk > TPM2_MAX_NV_BUFFER_SIZE {
      chunk := TPM2_MAX_NV_BUFFER_SIZE;
    }
    var data := EsysNvRead(tpm, ctx, index, chunk, offset);
    got := 0;
    if data.Some? {
      Receive(data.value, out, offset, before, tpm.s.dev.nv[index].data);
      got := |data.value|;
    }
  }

  /** The state and the buffer when `offset` bytes have been read. */
  ghost predicate Receiving(start: State, s: State, ctx: nat, index: U32, size: U16, offset: nat, now: seq<Byte>,
                            before: seq<Byte>)
    requires index in start.dev.nv && |start.dev.nv[index].data| == size
  {
    && Quiet(start, s) && offset <= size <= |before| && |now| == |before|
    && now == start.dev.nv[index].data[..offset] + before[offset..]
    && (Willing(start, ctx, Chunk(size)) ==> Prompt(s))
    && (offset > 0 ==> Chunk(size) <= s.dev.nvMax)
  }

  lemma {:induction false} StillReceiving(start: State, s: State, t: State, ctx: nat, index: U32, size: U16,
                                          offset: nat, got: nat, one: seq<Byte>, two: seq<Byte>, before: seq<Byte>)
    requires index in start.dev.nv && |start.dev.nv[index].data| == size
    requires Receiving(start, s, ctx, index, size, offset, one, before) && Quiet(s, t) && 0 < got
             && offset + got <= size
    requires |two| == |before| && two == start.dev.nv[index].data[..offset + got] + before[offset + got..]
    requires Willing(s, ctx, Chunk(size - offset)) ==> Prompt(t)
    requires Chunk(size - offset) <= t.dev.nvMax
    ensures Receiving(start, t, ctx, index, size, offset + got, two, before)
  {
  }

  /** What the chunk loop achieves: the buffer receives the contents, and nothing behind them changes;
      it gets to the end if no command fails and the TPM accepts the first chunk, the largest one. */
  ghost predicate ChunksRead(start: State, s: State, ctx: nat, index: U32, size: U16, ok: bool,
                             now: seq<Byte>, before: seq<Byte>)
    requires index in start.dev.nv && size <= |before|
  {
    && Quiet(start, s)
    && (ok ==> now == start.dev.nv[index].data + before[size..])
    && (Willing(start, ctx, Chunk(size)) ==> ok)
    && (s.dev.nvMax < Chunk(size) ==> !ok)
  }

  lemma {:induction false} AllReceived(start: State, s: State, ctx: nat, index: U32, size: U16, now: seq<Byte>,
                                       before: seq<Byte>)
    requires index in start.dev.nv && |start.dev.nv[index].data| == size
    requires Receiving(start, s, ctx, index, size, size, now, before)
    ensures ChunksRead(start, s, ctx, index, size, true, now, before)
  {
    assert start.dev.nv[index].data[..size] == start.dev.nv[index].data;
  }

  /** The chunk loop. */
  method ReadChunks(tpm: Tpm, ctx: nat, index: U32, nvSize: U16, out: array<Byte>) returns (ok: bool)
    requires nvSize <= out.Length && index in tpm.s.dev.nv && |tpm.s.dev.nv[index].data| == nvSize
    modifies tpm, out
    ensures ChunksRead(old(tpm.s), tpm.s, ctx, index, nvSize, ok, out[..], old(out[..]))
  {
    ghost var before, start := out[..], tpm.s;
    var offset := 0;
    while offset < nvSize
      invariant offset <= nvSize && Receiving(start, tpm.s, ctx, index, nvSize, offset, out[..], before)
      decreases nvSize - offset
    {
      ghost var s, one := tpm.s, out[..];
      var got := NextChunk(tpm, ctx, index, nvSize, offset, out, before);
      if got == 0 {
        return false;
      }
      StillReceiving(start, s, tpm.s, ctx, index, nvSize, offset, got, one, out[..], before);
      offset := offset + got;
    }
    AllReceived(start, tpm.s, ctx, index, nvSize, out[..], before);
    ok := true;
  }

  /** tpm_read_ek_cert. `found` is whether the library could resolve the index at all; outLen is the
      capacity going in, and the size of the certificate coming out. */
  method TpmReadEkCert(tpm: Tpm, ctx: nat, found: bool, out: array?<Byte>, capacity: nat) returns (rc: int, outLen: nat)
    requires out != null ==> capacity <= out.Length
    modifies tpm, Target(out)
    ensures rc == 0 || rc == -1
    ensures Quiet(old(tpm.s), tpm.s)
    ensures rc == 0 ==> 0x01C0_0002 in tpm.s.dev.nv && outLen == |tpm.s.dev.nv[0x01C0_0002].data|
    ensures rc == 0 && out != null ==>
              outLen <= capacity && out[..] == tpm.s.dev.nv[0x01C0_0002].data + old(out[outLen..])
    ensures found && Prompt(old(tpm.s)) && ctx != 0 && ctx in old(tpm.s.contexts) && Present16(tpm.s.dev) ==>
              var size := |tpm.s.dev.nv[0x01C0_0002].data|;
              && (out != null && capacity < size ==> rc == -1 && outLen == size && out[..] == old(out[..]))
              && (out == null ==> rc == 0)
              && (out != null && size <= capacity ==>
                    (rc == 0 <==> Chunk(size) <= tpm.s.dev.nvMax))
  {
    rc, outLen := -1, capacity;
    if !found {
      return;
    }
    IssueQuiet(tpm.s, ctx, NvReadPublic(EK_CERT_NV_INDEX));
    var (s1, reply) := Issue(tpm.s, ctx, NvReadPublic(EK_CERT_NV_INDEX));
    PublicIff(tpm.s, ctx);
    tpm.s := s1;
    if reply.None? {
      return;
    }
    var nvSize := NvSizeOf(reply);
    if out == null {
      return 0, nvSize;
    }
    if capacity < nvSize {
      return -1, nvSize;
    }
    var ok := ReadChunks(tpm, ctx, EK_CERT_NV_INDEX, nvSize, out);
    if ok {
      rc, outLen := 0, nvSize;
    }
  }

  lemma {:induction false} PublicIff(s: State, ctx: nat)
    ensures var (t, reply) := Issue(s, ctx, NvReadPublic(EK_CERT_NV_INDEX));
            && (reply.Some? ==> EK_CERT_NV_INDEX in s.dev.nv && NvSizeOf(reply) == |s.dev.nv[EK_CERT_NV_INDEX].data|)
            && (Prompt(s) && ctx != 0 && ctx in s.contexts && Present16(s.dev) ==> reply.Some? && Prompt(t))
  {
    if Prompt(s) && ctx != 0 && ctx in s.contexts {
      PromptIssue(s, ctx, NvReadPublic(EK_CERT_NV_INDEX));
      PromptKept(s, ctx, NvReadPublic(EK_CERT_NV_INDEX));
    }
  }
}
