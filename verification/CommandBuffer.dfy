/** The byte vector that commands are appended to. */
module CommandBuffer {
  import opened Bytes
  import opened TpmCodec
  import Wire = TpmWire

  /** The ten-byte command header with the size still open. */
  function Header(tag: nat, code: nat): (b: seq<Byte>) {
    BE16(tag) + BE32(0) + BE32(code)
  }

  /** A command under construction. */
  class CommandBuffer {
    var data: seq<Byte>

    constructor ()
      ensures data == []
    {
      data := [];
    }

    method PushBack(b: Byte)
      modifies this
      ensures data == old(data) + [b]
    {
      data := data + [b];
    }

    method WriteU16(v: nat)
      modifies this
      ensures data == old(data) + BE16(v)
    {
      PushBack(v / 0x100 % 0x100);
      PushBack(v % 0x100);
    }

    method WriteU32(v: nat)
      modifies this
      ensures data == old(data) + BE32(v)
    {
      PushBack(v / 0x100_0000 % 0x100);
      PushBack(v / 0x1_0000 % 0x100);
      PushBack(v / 0x100 % 0x100);
      PushBack(v % 0x100);
    }

    method WriteBytes(b: seq<Byte>)
      modifies this
      ensures data == old(data) + b
    {
      data := data + b;
    }

    method WriteTPM2B(b: seq<Byte>)
      modifies this
      ensures data == old(data) + TPM2B(b)
    {
      WriteU16(|b|);
      if |b| > 0 {
        WriteBytes(b);
      }
    }

    method BeginCommand(tag: nat, code: nat)
      modifies this
      ensures data == old(data) + Header(tag, code)
      ensures old(data) == [] ==> data == Header(tag, code)
    {
      WriteU16(tag);
      WriteU32(0);
      WriteU32(code);
    }

    method WritePasswordAuth()
      modifies this
      ensures data == old(data) + Wire.SessionArea(Wire.ST_SESSIONS, [PASSWORD_AUTH])
    {
      var auth := new CommandBuffer();
      auth.WriteU32(0x4000_0009);
      auth.WriteU16(0);
      auth.PushBack(1);
      auth.WriteU16(0);
      assert auth.data == Wire.AuthBytes(PASSWORD_AUTH);
      WriteU32(|auth.data|);
      WriteBytes(auth.data);
      SinglePasswordArea();
    }

    /** Overwrites the size field in place. */
    method PatchSize()
      modifies this
      ensures data == Wire.PatchSize(old(data))
    {
      if |data| >= 6 {
        var size := |data|;
        data := data[2 := size / 0x100_0000 % 0x100];
        data := data[3 := size / 0x1_0000 % 0x100];
        data := data[4 := size / 0x100 % 0x100];
        data := data[5 := size % 0x100];
      }
    }
  }

  lemma {:induction false} SinglePasswordArea()
    ensures Wire.AuthListBytes([PASSWORD_AUTH]) == Wire.AuthBytes(PASSWORD_AUTH)
    ensures |Wire.AuthBytes(PASSWORD_AUTH)| == 9
  {
    assert Wire.AuthListBytes([PASSWORD_AUTH][1..]) == [];
  }
}
