/** TbsKeyProvider: the attestation key's life cycle over one TBS context. */
module KeyProvider {
  import opened Bytes
  import opened TpmState
  import opened ClientSpec
  import opened TpmCommands

  class TbsKeyProvider {
    const commands: TpmCommands
    const persistentHandle: U32
    var ekHandle: U32
    var akHandle: U32
    var akPubArea: seq<Byte>

    ghost predicate Valid()
      reads this, commands
    {
      commands.Valid()
    }

    /** The provider as a value. */
    ghost function Model(): (p: Provider)
      reads this, commands
    {
      Provider(commands.hContext, persistentHandle, ekHandle, akHandle, akPubArea)
    }

    constructor (tpm: Tpm, persistentHandle: U32)
      ensures Valid() && fresh(commands) && commands.tpm == tpm
      ensures Model() == Provider(0, persistentHandle, 0, 0, [])
    {
      this.commands := new TpmCommands(tpm);
      this.persistentHandle := persistentHandle;
      ekHandle := 0;
      akHandle := 0;
      akPubArea := [];
    }

    method Open() returns (ok: bool)
      requires Valid() && commands.hContext == 0
      modifies commands, commands.tpm
      ensures Valid() && ok == (commands.hContext != 0)
      ensures commands.tpm.s == OpenContext(old(commands.tpm.s)).0
      ensures Model() == old(Model()).(ctx := OpenContext(old(commands.tpm.s)).1.GetOr(0))
    {
      ok := commands.Open();
    }

    method FlushTransients()
      requires Valid()
      modifies this, commands.tpm
      ensures Valid()
      ensures (commands.tpm.s, Model()) == ClientSpec.FlushTransients(old(commands.tpm.s), old(Model()))
    {
      if akHandle != 0 {
        commands.FlushContext(akHandle);
        akHandle := 0;
      }
      if ekHandle != 0 {
        commands.FlushContext(ekHandle);
        ekHandle := 0;
      }
    }

    /** Also what the destructor does. */
    method Close()
      requires Valid()
      modifies this, commands, commands.tpm
      ensures Valid() && commands.hContext == 0 && ekHandle == 0 && akHandle == 0
      ensures commands.tpm.s == if old(commands.hContext) != 0 then CloseProvider(old(commands.tpm.s), old(Model()))
                                else ClientSpec.FlushTransients(old(commands.tpm.s), old(Model())).0
    {
      FlushTransients();
      commands.Close();
    }

    method AkExists() returns (present: bool)
      requires Valid()
      modifies commands.tpm
      ensures (commands.tpm.s, present) == IsPresent(old(commands.tpm.s), commands.hContext, persistentHandle)
    {
      present := commands.IsPersistentPresent(persistentHandle);
    }

    method CreateAk() returns (ok: bool)
      requires Valid()
      modifies this, commands.tpm
      ensures Valid()
      ensures (commands.tpm.s, Model(), ok) == ClientSpec.CreateAk(old(commands.tpm.s), old(Model()))
    {
      FlushTransients();
      akPubArea := [];
      ekHandle := commands.CreateEk();
      if ekHandle == 0 {
        return false;
      }
      var ak, pub := commands.CreateAndLoadAk();
      akHandle, akPubArea := ak, pub;
      if akHandle == 0 || akPubArea == [] {
        FlushTransients();
        return false;
      }
      ok := true;
    }

    /** The AK lives at the persistent handle; its presence there is all there is to load. */
    method LoadAk() returns (present: bool)
      requires Valid()
      modifies commands.tpm
      ensures (commands.tpm.s, present) == IsPresent(old(commands.tpm.s), commands.hContext, persistentHandle)
    {
      present := commands.IsPersistentPresent(persistentHandle);
    }

    /** Only drops the transient handles; a persisted AK stays where it is. */
    method DeleteAk() returns (ok: bool)
      requires Valid()
      modifies this, commands.tpm
      ensures Valid() && ok
      ensures (commands.tpm.s, Model()) == ClientSpec.FlushTransients(old(commands.tpm.s), old(Model()))
    {
      FlushTransients();
      ok := true;
    }

    method ActivateCredential(credentialBlob: seq<Byte>, encryptedSecret: seq<Byte>) returns (secret: seq<Byte>)
      requires Valid()
      modifies commands.tpm
      ensures (commands.tpm.s, secret) == ActivateAk(old(commands.tpm.s), Model(), credentialBlob + encryptedSecret)
    {
      if akHandle == 0 || ekHandle == 0 {
        return [];
      }
      secret := commands.ActivateCredential(akHandle, ekHandle, credentialBlob, encryptedSecret);
    }

    method PersistAk() returns (ok: bool)
      requires Valid()
      modifies this, commands.tpm
      ensures Valid()
      ensures (commands.tpm.s, Model(), ok) == ClientSpec.PersistAk(old(commands.tpm.s), old(Model()))
    {
      if akHandle == 0 {
        return false;
      }
      var evicted := commands.EvictControl(akHandle, persistentHandle);
      if !evicted {
        return false;
      }
      FlushTransients();
      ok := true;
    }
  }
}
