/**
 The public enrollment and evidence calls of the Windows client. The provider of an enrollment in
 flight is held between calls; every other provider and TPM context is closed before the call
 returns, as the source's destructors do.
 */
module Enrollment {
  import opened Bytes
  import opened Seqs
  import opened TpmState
  import opened ClientSpec
  import opened TpmCommands
  import opened KeyProvider
  import opened CertMerge
  import opened EnrollmentSpec
  import Base64
  import Json

  // ---- Request bodies -------------------------------------------------------

  method BuildPemArray(certs: seq<Cert>) returns (arr: string)
    ensures arr == PemArray(certs)
  {
    arr := "[";
    for i := 0 to |certs|
      invariant arr == "[" + PemList(certs[..i])
    {
      TakeMore(certs, i);
      ghost var before := PemList(certs[..i]);
      if i > 0 {
        arr := arr + ",";
        Assoc("[", before, ",");
      }
      var pem := Base64.Pem(certs[i]);
      var esc := Json.AppendEscaped(pem);
      arr := arr + ("\"" + esc + "\"");
      Assoc("[", if i > 0 then before + "," else "", Json.Quoted(pem));
    }
    assert certs[..|certs|] == certs;
    arr := arr + "]";
  }

  method BuildEnrollFields(ek: EkData, akPub: seq<Byte>) returns (fields: Fields)
    ensures fields == EnrollFields(ek, akPub)
  {
    fields := [("akPublicArea", Base64.Encode(akPub))];
    if ek.certPem != "" {
      fields := fields + [("ekCertPem", ek.certPem)];
    }
    if ek.intermediates != [] {
      var arr := BuildPemArray(ek.intermediates);
      fields := fields + [("ekCertificateChain", arr)];
    }
    fields := fields + [("ekPublicKey", Base64.Encode(ek.ekPub)), ("platform", "windows")];
  }

  method GatherEkEnrollData(tpm: Tpm, src: EkSources) returns (r: Option<EkData>)
    modifies tpm
    ensures (tpm.s, r) == GatherEk(old(tpm.s), src)
  {
    if src.ekPub == [] {
      return None;
    }
    var ekCert := src.storeCert;
    if |ekCert| <= 32 {
      ekCert := src.providerCert;
    }
    var certPem := "";
    if |ekCert| > 32 {
      certPem := Base64.Pem(ekCert);
    } else if src.amdCert != [] {
      certPem := Base64.Pem(src.amdCert);
    }
    var intermediates: seq<Cert> := [];
    var commands := new TpmCommands(tpm);
    var ok := commands.Open();
    if ok {
      intermediates := commands.ReadIntelOdcaIntermediates();
      intermediates := MergeIntermediates(intermediates, src.store, src.sha);
    }
    commands.Close();
    r := Some(EkData(src.ekPub, certPem, intermediates));
  }

  method BytesToHex(data: seq<Byte>) returns (text: string)
    ensures text == Hex(data)
  {
    text := "";
    for i := 0 to |data|
      invariant text + Hex(data[i..]) == Hex(data)
    {
      DropTwice(data, i, 1);
      var digits := [HexDigit(data[i] / 16), HexDigit(data[i] % 16)];
      Assoc(text, digits, Hex(data[i + 1..]));
      text := text + digits;
    }
    assert text + "" == text;
  }

  const PCR_HEAD := "{\"sha256\":{"

  /** The text for the values so far, without its two closing brackets. */
  ghost predicate Written(text: string, first: bool, values: seq<(nat, seq<Byte>)>) {
    text == PCR_HEAD + PcrMembers(values) && first == (values == [])
  }

  /** What the call amounts to, from a state in which these values have been read. */
  ghost function Outcome(s: State, ctx: nat, pcrs: seq<nat>, values: seq<(nat, seq<Byte>)>)
    : (r: (State, Option<string>))
  {
    var (t, all) := ReadPcrs(s, ctx, pcrs, values);
    (t, if all.None? then None else Some(PcrJson(all.value)))
  }

  lemma {:induction false} NextOutcome(s: State, ctx: nat, pcrs: seq<nat>, i: nat, values: seq<(nat, seq<Byte>)>)
    requires i < |pcrs|
    ensures var (t, value) := ReadPcr(s, ctx, pcrs[i]);
            Outcome(s, ctx, pcrs[i..], values)
            == if value == [] then (t, None) else Outcome(t, ctx, pcrs[i + 1..], values + [(pcrs[i], value)])
  {
    DropTwice(pcrs, i, 1);
  }

  /** Reads the PCRs one by one and writes their JSON on the way. */
  method ReadPcrValues(commands: TpmCommands, pcrs: seq<nat>) returns (json: Option<string>)
    requires commands.Valid()
    modifies commands.tpm
    ensures (commands.tpm.s, json) == Outcome(old(commands.tpm.s), commands.hContext, pcrs, [])
  {
    var text := PCR_HEAD;
    var first := true;
    ghost var values: seq<(nat, seq<Byte>)> := [];
    for i := 0 to |pcrs|
      invariant Written(text, first, values)
      invariant Outcome(commands.tpm.s, commands.hContext, pcrs[i..], values)
                == Outcome(old(commands.tpm.s), commands.hContext, pcrs, [])
    {
      NextOutcome(commands.tpm.s, commands.hContext, pcrs, i, values);
      var value := commands.PcrRead(pcrs[i]);
      if value == [] {
        return None;
      }
      PcrTextSnoc(text, values, pcrs[i], value);
      if !first {
        text := text + ",";
      }
      first := false;
      var hex := BytesToHex(value);
      text := text + ("\"" + Decimal(pcrs[i]) + "\":\"" + hex + "\"");
      values := values + [(pcrs[i], value)];
    }
    json := Some(text + "}}");
  }

  lemma {:induction false} PcrMembersSnoc(values: seq<(nat, seq<Byte>)>, pcr: nat, value: seq<Byte>)
    ensures PcrMembers(values + [(pcr, value)])
            == PcrMembers(values) + (if values == [] then "" else ",") + PcrMember(pcr, value)
  {
    var longer := values + [(pcr, value)];
    assert longer[..|longer| - 1] == values;
  }

  lemma {:induction false} PcrTextSnoc(text: string, values: seq<(nat, seq<Byte>)>, pcr: nat, value: seq<Byte>)
    requires text == PCR_HEAD + PcrMembers(values)
    ensures (if values == [] then text else text + ",") + PcrMember(pcr, value)
            == PCR_HEAD + PcrMembers(values + [(pcr, value)])
  {
    var comma := if values == [] then "" else ",";
    PcrMembersSnoc(values, pcr, value);
    Assoc(PCR_HEAD, PcrMembers(values), comma);
    Assoc(PCR_HEAD, PcrMembers(values) + comma, PcrMember(pcr, value));
    assert text + "" == text;
  }

  /** The evidence object, in the order of the std::map that holds it. */
  method BuildEvidenceFields(i: CollectInput, pcrs: string, quote: string, chain: seq<Cert>) returns (fields: Fields)
    ensures fields == EvidenceFields(i, pcrs, quote, chain)
  {
    fields := [];
    if i.deviceId != "" {
      fields := [("deviceId", i.deviceId)];
    }
    assert fields == Optional(i.deviceId != "", "deviceId", i.deviceId);
    ghost var f1 := fields;
    if |i.ekCert| > 32 {
      fields := fields + [("ekCertPem", Base64.Pem(i.ekCert))];
    }
    assert fields == f1 + Optional(|i.ekCert| > 32, "ekCertPem", Base64.Pem(i.ekCert));
    ghost var f2 := fields;
    if chain != [] {
      var arr := BuildPemArray(chain);
      fields := fields + [("ekCertificateChain", arr)];
    }
    assert fields == f2 + PemChain(chain);
    ghost var f3 := fields;
    if i.eventLog != [] {
      fields := fields + [("eventLog", Base64.Encode(i.eventLog))];
    }
    assert fields == f3 + Optional(i.eventLog != [], "eventLog", Base64.Encode(i.eventLog));
    fields := fields + [("pcrValues", pcrs), ("quote", quote), ("secureBootChain", i.bootReport)];
  }

  // ---- The client -----------------------------------------------------------

  class EnrollmentClient {
    const tpm: Tpm
    var provider: TbsKeyProvider?

    ghost predicate Valid()
      reads this, provider, if provider == null then {} else {provider.commands}
    {
      provider != null ==>
        provider.Valid() && provider.commands.tpm == tpm && provider.commands.hContext != 0
    }

    ghost function InFlight(): (p: Option<Provider>)
      reads this, provider, if provider == null then {} else {provider.commands}
    {
      if provider == null then None else Some(provider.Model())
    }

    ghost function Model(): (w: World)
      reads this, tpm, provider, if provider == null then {} else {provider.commands}
    {
      World(tpm.s, InFlight())
    }

    ghost function Footprint(): (r: set<object>)
      reads this
    {
      {this, tpm} + if provider == null then {} else {provider, provider.commands}
    }

    constructor (tpm: Tpm)
      ensures Valid() && this.tpm == tpm && provider == null
    {
      this.tpm := tpm;
      provider := null;
    }

    method EnrollBegin(hasOut: bool, elevated: bool, src: EkSources, allocates: bool)
      returns (result: Result, blob: Option<string>)
      requires Valid()
      modifies Footprint()
      ensures Valid()
      ensures (Model(), result, blob)
              == EnrollmentSpec.EnrollBegin(old(Model()), BeginInput(hasOut, elevated, src, allocates))
    {
      if !hasOut {
        return INVALID_PARAM, None;
      }
      if !elevated {
        return ELEVATION_REQUIRED, None;
      }
      var ek := GatherEkEnrollData(tpm, src);
      if ek.None? {
        return ENROLLMENT_FAILED, None;
      }
      result, blob := BeginWith(ek.value, allocates);
    }

    /** A new provider with new keys takes the place of the one in flight, which is closed. */
    method BeginWith(ek: EkData, allocates: bool) returns (result: Result, blob: Option<string>)
      requires Valid()
      modifies Footprint()
      ensures Valid()
      ensures (Model(), result, blob) == EnrollmentSpec.BeginWith(old(Model()), ek, allocates)
    {
      var created, next := CreateProvider(allocates);
      if next == null {
        return created, None;
      }
      var fields := BuildEnrollFields(ek, next.akPubArea);
      var json := Json.JsonBuild(fields);
      if provider != null {
        provider.Close();
      }
      provider := next;
      result, blob := OK, Some(json);
    }

    /** The provider of a new enrollment, or the reason why there is none; then it is closed again. */
    method CreateProvider(allocates: bool) returns (result: Result, next: TbsKeyProvider?)
      modifies tpm
      ensures next != null ==>
                fresh(next) && fresh(next.commands) && next.Valid()
                && next.commands.tpm == tpm && next.commands.hContext != 0
      ensures (tpm.s, result, if next == null then None else Some(next.Model())) == BeginKeys(old(tpm.s), allocates)
    {
      var p := new TbsKeyProvider(tpm, AK_SLOT);
      var isOpen := p.Open();
      if !isOpen {
        p.Close();
        return ENROLLMENT_FAILED, null;
      }
      var ok := p.CreateAk();
      if !ok {
        p.Close();
        return ENROLLMENT_FAILED, null;
      }
      var akPub := p.akPubArea;
      if akPub == [] {
        var _ := p.DeleteAk();
        p.Close();
        return ENROLLMENT_FAILED, null;
      }
      if !allocates {
        var _ := p.DeleteAk();
        p.Close();
        return INTERNAL, null;
      }
      result, next := OK, p;
    }

    method EnrollComplete(challenge: Option<string>, hasOut: bool, decode: Decoder, allocates: bool)
      returns (result: Result, blob: Option<string>)
      requires Valid()
      modifies Footprint()
      ensures Valid()
      ensures (Model(), result, blob)
              == EnrollmentSpec.EnrollComplete(old(Model()), CompleteInput(challenge, hasOut, decode, allocates))
    {
      if challenge.None? || !hasOut {
        return INVALID_PARAM, None;
      }
      if provider == null {
        return NOT_ENROLLED, None;
      }
      var deviceId := Json.JsonGet(challenge.value, "deviceId");
      var credBlob := Json.JsonGet(challenge.value, "credentialBlob");
      var encSecret := Json.JsonGet(challenge.value, "encryptedSecret");
      if deviceId == "" || credBlob == "" || encSecret == "" {
        return INVALID_PARAM, None;
      }
      var secret: seq<Byte>;
      result, secret := ActivateAndPersist(decode(credBlob), decode(encSecret));
      if result != OK {
        return result, None;
      }
      var json := Json.JsonBuild([("decryptedSecret", Base64.Encode(secret)), ("deviceId", deviceId)]);
      if !allocates {
        return INTERNAL, None;
      }
      blob := Some(json);
    }

    /** Activates, persists, and lets go of the provider in any case. */
    method ActivateAndPersist(credentialBlob: seq<Byte>, encryptedSecret: seq<Byte>)
      returns (result: Result, secret: seq<Byte>)
      requires Valid() && provider != null
      modifies Footprint()
      ensures Valid() && provider == null
      ensures (tpm.s, result, secret)
              == CompleteKeys(old(tpm.s), old(provider.Model()), credentialBlob + encryptedSecret)
    {
      secret := provider.ActivateCredential(credentialBlob, encryptedSecret);
      if secret == [] {
        var _ := provider.DeleteAk();
        provider.Close();
        provider := null;
        return ATTESTATION_FAILED, [];
      }
      var persisted := provider.PersistAk();
      provider.Close();
      provider := null;
      result := if persisted then OK else ENROLLMENT_FAILED;
    }

    method CollectEvidence(i: CollectInput) returns (result: Result, blob: Option<string>)
      requires Valid()
      modifies tpm
      ensures Valid()
      ensures (Model(), result, blob) == EnrollmentSpec.CollectEvidence(old(Model()), i)
    {
      if i.nonce.None? || !i.hasOut {
        return INVALID_PARAM, None;
      }
      var fields: Fields;
      result, fields := CollectEvidenceFields(i);
      if result != OK {
        return result, None;
      }
      var json := Json.JsonBuild(fields);
      if !i.allocates {
        return INTERNAL, None;
      }
      blob := Some(json);
    }

    /** An opened provider whose AK is present in its slot, or null. */
    method SelectEnrolledProvider() returns (p: TbsKeyProvider?)
      modifies tpm
      ensures p != null ==>
                && fresh(p) && fresh(p.commands) && p.Valid()
                && p.commands.tpm == tpm && p.commands.hContext != 0
      ensures var (s1, ctx) := OpenContext(old(tpm.s));
              if ctx.None? then p == null && tpm.s == s1
              else
                var (s2, present) := IsPresent(s1, ctx.value, AK_SLOT);
                if present then p != null && tpm.s == s2 && p.Model() == NewProvider(ctx.value)
                else p == null && tpm.s == CloseContext(s2, ctx.value)
    {
      p := new TbsKeyProvider(tpm, AK_SLOT);
      var isOpen := p.Open();
      if isOpen {
        var loaded := p.LoadAk();
        if loaded {
          return;
        }
      }
      p.Close();
      p := null;
    }

    method CollectEvidenceFields(i: CollectInput) returns (result: Result, fields: Fields)
      requires i.nonce.Some?
      modifies tpm
      ensures (tpm.s, result, fields) == CollectFields(old(tpm.s), i)
    {
      var p := SelectEnrolledProvider();
      if p == null {
        return NOT_ENROLLED, [];
      }
      var akHandle := p.persistentHandle;
      var commands := new TpmCommands(tpm);
      var isOpen := commands.Open();
      if !isOpen {
        commands.Close();
        p.Close();
        return NO_TPM, [];
      }
      result, fields := CollectOver(commands, akHandle, i);
      commands.Close();
      p.Close();
    }

    method CollectOver(commands: TpmCommands, akHandle: U32, i: CollectInput) returns (result: Result, fields: Fields)
      requires commands.Valid() && commands.tpm == tpm && akHandle == AK_SLOT && i.nonce.Some?
      modifies tpm
      ensures (tpm.s, result, fields) == CollectFrom(old(tpm.s), commands.hContext, i)
    {
      var nonce := i.decode(i.nonce.value);
      if nonce == [] {
        return INVALID_PARAM, [];
      }
      var pcrs := [0, 1, 2, 3, 4, 7];
      assert pcrs == COLLECTED_PCRS;
      var pcrValuesJson := ReadPcrValues(commands, pcrs);
      if pcrValuesJson.None? {
        return ATTESTATION_FAILED, [];
      }
      var quote := commands.Quote(akHandle, nonce, pcrs);
      if quote.None? {
        return ATTESTATION_FAILED, [];
      }
      var (quoted, signature) := quote.value;
      var quoteJson := Json.JsonBuild(
        [("nonce", Base64.Encode(nonce)), ("quoted", Base64.Encode(quoted)), ("signature", Base64.Encode(signature))]);
      var chain := commands.ReadIntelOdcaIntermediates();
      result := OK;
      fields := BuildEvidenceFields(i, pcrValuesJson.value, quoteJson, chain);
    }
  }
}
