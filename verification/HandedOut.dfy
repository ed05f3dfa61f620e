/**
 What the texts that leave the client say about the machine: the members of the enroll request and of
 the evidence, in terms of what the platform supplied, of NV memory and of the PCRs.
 */
module HandedOut {
  import opened Bytes
  import opened Seqs
  import opened Json
  import opened JsonRoundTrip
  import opened TpmState
  import opened ClientSpec
  import opened EnrollmentSpec
  import opened EnrollmentSafety
  import opened EnrollmentEndToEnd
  import opened EvidenceCoherence
  import opened BodyTexts
  import opened Readings
  import opened CertMerge
  import Base64
  import NvReading
  import PcrSelection
  import TpmFrames

  // ---- The on-die chain -----------------------------------------------------

  /** Can a certificate be read from this NV index? It must be there, have between 1 and 65535 bytes, and
      the TPM must accept the first read, of at most 1024 bytes. */
  predicate Delivers(dev: Device, index: U32) {
    && index in dev.nv && 1 <= |dev.nv[index].data| <= 65535
    && (|dev.nv[index].data| <= dev.nvMax || 1024 <= dev.nvMax)
  }

  /** The certificates at the first n of the sixteen indices from 0x01C00100 on. */
  function OnDie(dev: Device, n: nat): (certs: seq<Cert>)
    requires n <= 16
  {
    if n == 0 then []
    else
      var index: U32 := 0x01C0_00FF + n;
      OnDie(dev, n - 1) + (if Delivers(dev, index) then [dev.nv[index].data] else [])
  }

  lemma {:induction false} ContentsFrom(dev: Device, n: nat)
    requires n <= 16
    ensures OnDie(dev, n) + NvReading.Contents(dev, OdcaHandles()[n..]) == OnDie(dev, 16)
    decreases 16 - n
  {
    var (handles, before) := (OdcaHandles(), OnDie(dev, n));
    if n == 16 {
      assert handles[16..] == [] && before + [] == before;
    } else {
      var index := handles[n];
      assert index == 0x01C0_0100 + n && handles[n..][1..] == handles[n + 1..];
      assert NvReading.Present(dev, index) <==> Delivers(dev, index);
      ContentsFrom(dev, n + 1);
      var here := if Delivers(dev, index) then [dev.nv[index].data] else [];
      Assoc(before, here, NvReading.Contents(dev, handles[n + 1..]));
    }
  }

  lemma {:induction false} ContentsIsOnDie(dev: Device)
    ensures NvReading.Contents(dev, OdcaHandles()) == OnDie(dev, 16)
  {
    ContentsFrom(dev, 0);
    assert OdcaHandles()[0..] == OdcaHandles();
    assert [] + NvReading.Contents(dev, OdcaHandles()) == NvReading.Contents(dev, OdcaHandles());
  }

  // ---- The enroll request ---------------------------------------------------

  /** The EK certificate that is sent: the first of the three sources that has one. */
  function EkCertText(src: EkSources): (pem: string) {
    if |src.storeCert| > 32 then Base64.Pem(src.storeCert)
    else if |src.providerCert| > 32 then Base64.Pem(src.providerCert)
    else if src.amdCert != [] then Base64.Pem(src.amdCert)
    else ""
  }

  /** The certificates that are sent with it: the first eight of those on the die and the new ones of the
      store. */
  function ChainSent(dev: Device, src: EkSources): (certs: seq<Cert>) {
    var all := OnDie(dev, 16) + NewOnes(OnDie(dev, 16), src.store, src.sha, |src.store|);
    if |all| <= 8 then all else all[..8]
  }

  /** The text of a chain, as its reader takes it apart; nothing if there is none. */
  predicate StatesChain(text: string, certs: seq<Cert>) {
    if certs == [] then text == "" else ArrayItems(text) == Pems(certs)
  }

  /** What an enroll request states. */
  predicate StatesKeys(dev: Device, src: EkSources, chain: seq<Cert>, text: string) {
    && Get(text, "ekPublicKey") == Base64.Encode(src.ekPub)
    && Get(text, "akPublicArea") == Base64.Encode(TPM2B(dev.publicOf(0x4000_0001, AkTemplate())))
    && Get(text, "platform") == "windows" && Get(text, "ekCertPem") == EkCertText(src)
    && StatesChain(Get(text, "ekCertificateChain"), chain)
  }

  lemma {:induction false} AbsentGet(items: seq<Item>, k: string)
    requires GoodKey(k) && forall m :: 0 <= m < |items| ==> PassedOver(items[m], k)
    ensures Get(Json.Object(items), k) == ""
  {
    assert Usable(items, k);
    LocateObject(items, k);
    LocationNone(items, k);
  }

  lemma {:induction false} AbsentMember(area: PublicArea, cert: Option<seq<Byte>>, ekPub: seq<Byte>, chain: seq<Cert>,
                                        k: string)
    requires (k == "ekCertPem" && cert.None?) || (k == "ekCertificateChain" && chain == [])
    ensures Get(Build(EnrollBody(area, cert, ekPub, chain)), k) == ""
  {
    EnrollKeyFacts();
    var front, fields := EnrollFront(area, cert, chain), EnrollBody(area, cert, ekPub, chain);
    var items := ItemsOf(fields);
    forall m | 0 <= m < |items|
      ensures PassedOver(items[m], k)
    {
      if m < |front| {
        assert fields[m] == front[m] && front[m] in front;
        FrontReadable(area, cert, chain, front[m]);
        EnrollFrontPassedOver(area, cert, chain, k, front[m]);
      } else if m == |front| {
        Base64PassedOver("ekPublicKey", ekPub, k);
      } else {
        PlatformPassedOver(k);
      }
    }
    AbsentGet(items, k);
  }

  lemma {:induction false} PlatformPassedOver(k: string)
    requires k == "ekCertPem" || k == "ekCertificateChain"
    ensures PassedOver(ItemOf(("platform", "windows")), k)
  {
    EnrollKeyFacts();
    assert |"windows"| == 7 && AllAlnum("windows");
    AlnumNoQuote("windows", k);
  }

  lemma {:induction false} BodyCert(area: PublicArea, cert: Option<seq<Byte>>, ekPub: seq<Byte>, chain: seq<Cert>)
    ensures Get(Build(EnrollBody(area, cert, ekPub, chain)), "ekCertPem")
            == if cert.Some? then Base64.Pem(cert.value) else ""
  {
    if cert.Some? {
      assert EnrollBody(area, cert, ekPub, chain)[1] == ("ekCertPem", Base64.Pem(cert.value));
      EnrollMemberRead(area, cert, ekPub, chain, 1);
    } else {
      AbsentMember(area, cert, ekPub, chain, "ekCertPem");
    }
  }

  lemma {:induction false} BodyChain(area: PublicArea, cert: Option<seq<Byte>>, ekPub: seq<Byte>, chain: seq<Cert>)
    ensures StatesChain(Get(Build(EnrollBody(area, cert, ekPub, chain)), "ekCertificateChain"), chain)
  {
    var front := EnrollFront(area, cert, chain);
    if chain != [] {
      assert EnrollBody(area, cert, ekPub, chain)[|front| - 1] == ("ekCertificateChain", PemArray(chain));
      EnrollMemberRead(area, cert, ekPub, chain, |front| - 1);
      PemArrayItems(chain);
    } else {
      AbsentMember(area, cert, ekPub, chain, "ekCertificateChain");
    }
  }

  lemma {:induction false} BodyStates(dev: Device, src: EkSources, chain: seq<Cert>, area: PublicArea,
                                      cert: Option<seq<Byte>>)
    requires area == dev.publicOf(0x4000_0001, AkTemplate())
    requires EkCertText(src) == if cert.Some? then Base64.Pem(cert.value) else ""
    ensures StatesKeys(dev, src, chain, Build(EnrollBody(area, cert, src.ekPub, chain)))
  {
    var (front, fields) := (EnrollFront(area, cert, chain), EnrollBody(area, cert, src.ekPub, chain));
    EnrollMemberRead(area, cert, src.ekPub, chain, 0);
    EnrollMemberRead(area, cert, src.ekPub, chain, |front|);
    EnrollMemberRead(area, cert, src.ekPub, chain, |front| + 1);
    assert fields[0].0 == "akPublicArea" && fields[|front|].0 == "ekPublicKey" && fields[|front| + 1].0 == "platform";
    BodyCert(area, cert, src.ekPub, chain);
    BodyChain(area, cert, src.ekPub, chain);
  }

  lemma {:induction false} SourceOf(src: EkSources) returns (cert: Option<seq<Byte>>)
    ensures EkCertPem(src) == EkCertText(src) == if cert.Some? then Base64.Pem(cert.value) else ""
  {
    cert := if |src.storeCert| > 32 then Some(src.storeCert)
            else if |src.providerCert| > 32 then Some(src.providerCert)
            else if src.amdCert != [] then Some(src.amdCert)
            else None;
  }

  lemma {:induction false} FieldsAreBody(area: PublicArea, cert: Option<seq<Byte>>, ekPub: seq<Byte>, chain: seq<Cert>)
    ensures EnrollFields(EkData(ekPub, if cert.Some? then Base64.Pem(cert.value) else "", chain), TPM2B(area))
            == EnrollBody(area, cert, ekPub, chain)
  {
    if cert.Some? {
      SmoothPem(cert.value);
    }
  }

  /** What is gathered about the EK; the chain is complete if no command fails. */
  lemma {:induction false} GatheredIs(s: State, src: EkSources)
    requires src.ekPub != []
    ensures var (t, ek) := GatherEk(s, src);
            && ek.Some? && ek.value.ekPub == src.ekPub && ek.value.certPem == EkCertPem(src)
            && (Prompt(s) ==> ek.value.intermediates == ChainSent(s.dev, src))
  {
    if Prompt(s) {
      var (s1, ctx) := OpenContext(s);
      assert Prompt(s1) && ctx.Some? && s1.dev == s.dev;
      NvReading.ChainIsContents(s1, ctx.value, OdcaHandles(), []);
      ContentsIsOnDie(s.dev);
      assert [] + OnDie(s.dev, 16) == OnDie(s.dev, 16);
      MergedIs(OnDie(s.dev, 16), src.store, src.sha);
    }
  }

  /** A request that Begin hands out states the EK's public key and certificate as the platform supplied
      them, the public area of the AK, and the chain, which is complete if no command failed. */
  lemma {:induction false} BeginHandsOut(base: State, w: World, i: BeginInput)
    requires Inv(base, w)
    ensures var (w1, result, blob) := EnrollBegin(w, i);
            result == OK ==>
              && blob.Some? && i.ek.ekPub != []
              && exists chain: seq<Cert> ::
                   StatesKeys(w.tpm.dev, i.ek, chain, blob.value)
                   && (Prompt(w.tpm) ==> chain == ChainSent(w.tpm.dev, i.ek))
  {
    var (w1, result, blob) := EnrollBegin(w, i);
    if result == OK {
      GatheredIs(w.tpm, i.ek);
      BeginKeepsInv(base, w, i);
      BeginText(base, w, i);
      var chain := GatherEk(w.tpm, i.ek).1.value.intermediates;
      var cert := SourceOf(i.ek);
      var area := w.tpm.dev.publicOf(0x4000_0001, AkTemplate());
      FieldsAreBody(area, cert, i.ek.ekPub, chain);
      BodyStates(w.tpm.dev, i.ek, chain, area, cert);
    }
  }

  lemma {:induction false} BeginText(base: State, w: World, i: BeginInput)
    requires Inv(base, w) && EnrollBegin(w, i).1 == OK && i.ek.ekPub != []
    ensures var (w1, result, blob) := EnrollBegin(w, i);
            blob == Some(Build(EnrollFields(GatherEk(w.tpm, i.ek).1.value,
                                            TPM2B(w.tpm.dev.publicOf(0x4000_0001, AkTemplate())))))
  {
    var (s, ek) := GatherEk(w.tpm, i.ek);
    GatherKeepsInv(base, w, i.ek);
    InvNumbered(base, w);
    GatherSettles(w.tpm, i.ek);
    BeginKeysEffect(s, i.allocates);
    assert EnrollBegin(w, i) == BeginWith(w.(tpm := s), ek.value, i.allocates);
  }

  // ---- The evidence ---------------------------------------------------------

  /** The six PCRs, each with its value as it was when its command was executed; n fates were left before
      the first. */
  ghost predicate StatesPcrs(dev: Device, n: nat, text: string) {
    && Unhex(Get(text, "0")) == dev.pcrs(LeftAfter(n, 1))(0)
    && Unhex(Get(text, "1")) == dev.pcrs(LeftAfter(n, 2))(1)
    && Unhex(Get(text, "2")) == dev.pcrs(LeftAfter(n, 3))(2)
    && Unhex(Get(text, "3")) == dev.pcrs(LeftAfter(n, 4))(3)
    && Unhex(Get(text, "4")) == dev.pcrs(LeftAfter(n, 5))(4)
    && Unhex(Get(text, "7")) == dev.pcrs(LeftAfter(n, 6))(7)
  }

  /** The members that come from the platform, unless the device id gets in the way. */
  ghost predicate StatesPlatform(i: CollectInput, text: string) {
    && (i.deviceId != "" && (LooksRaw(i.deviceId) ==> Balanced(i.deviceId)) ==> Get(text, "deviceId") == i.deviceId)
    && (|i.ekCert| > 32 && Harmless(i.deviceId, "ekCertPem") ==> Get(text, "ekCertPem") == Base64.Pem(i.ekCert))
    && (i.eventLog != [] && Harmless(i.deviceId, "eventLog") ==> Get(text, "eventLog") == Base64.Encode(i.eventLog))
    && (Readable(ItemOf(("secureBootChain", i.bootReport))) && Harmless(i.deviceId, "secureBootChain") ==>
          Get(text, "secureBootChain") == i.bootReport)
  }

  /** Which of the members that come from the platform there are. */
  ghost predicate Present(i: CollectInput, fields: Fields) {
    && (forall v :: ("deviceId", v) in fields <==> i.deviceId != "" && v == i.deviceId)
    && (forall v :: ("ekCertPem", v) in fields <==> |i.ekCert| > 32 && v == Base64.Pem(i.ekCert))
    && (forall v :: ("eventLog", v) in fields <==> i.eventLog != [] && v == Base64.Encode(i.eventLog))
    && (forall v :: ("secureBootChain", v) in fields <==> v == i.bootReport)
  }

  lemma {:induction false} InOneOf<T>(f: T, a: seq<T>, b: seq<T>, c: seq<T>, d: seq<T>, e: seq<T>)
    ensures f in a + b + c + d + e <==> f in a || f in b || f in c || f in d || f in e
  {
  }

  lemma {:induction false} OnlyThese(i: CollectInput, pcrs: string, quote: string, chain: seq<Cert>,
                                     f: (string, string))
    ensures f in EvidenceFields(i, pcrs, quote, chain) <==>
              || (i.deviceId != "" && f == ("deviceId", i.deviceId))
              || (|i.ekCert| > 32 && f == ("ekCertPem", Base64.Pem(i.ekCert)))
              || (chain != [] && f == ("ekCertificateChain", PemArray(chain)))
              || (i.eventLog != [] && f == ("eventLog", Base64.Encode(i.eventLog)))
              || f == ("pcrValues", pcrs) || f == ("quote", quote) || f == ("secureBootChain", i.bootReport)
  {
    InOneOf(f, Optional(i.deviceId != "", "deviceId", i.deviceId),
            Optional(|i.ekCert| > 32, "ekCertPem", Base64.Pem(i.ekCert)), PemChain(chain),
            Optional(i.eventLog != [], "eventLog", Base64.Encode(i.eventLog)),
            [("pcrValues", pcrs), ("quote", quote), ("secureBootChain", i.bootReport)]);
  }

  lemma {:induction false} OptionalMembers(i: CollectInput, pcrs: string, quote: string, chain: seq<Cert>, v: string)
    ensures var fields := EvidenceFields(i, pcrs, quote, chain);
            && (("ekCertPem", v) in fields <==> |i.ekCert| > 32 && v == Base64.Pem(i.ekCert))
            && (("eventLog", v) in fields <==> i.eventLog != [] && v == Base64.Encode(i.eventLog))
  {
    Ranks();
    OnlyThese(i, pcrs, quote, chain, ("ekCertPem", v));
    OnlyThese(i, pcrs, quote, chain, ("eventLog", v));
  }

  lemma {:induction false} OuterMembers(i: CollectInput, pcrs: string, quote: string, chain: seq<Cert>, v: string)
    ensures var fields := EvidenceFields(i, pcrs, quote, chain);
            && (("deviceId", v) in fields <==> i.deviceId != "" && v == i.deviceId)
            && (("secureBootChain", v) in fields <==> v == i.bootReport)
  {
    Ranks();
    OnlyThese(i, pcrs, quote, chain, ("deviceId", v));
    OnlyThese(i, pcrs, quote, chain, ("secureBootChain", v));
  }

  lemma {:induction false} PresentIs(i: CollectInput, pcrs: string, quote: string, chain: seq<Cert>, fields: Fields)
    requires fields == EvidenceFields(i, pcrs, quote, chain)
    ensures Present(i, fields)
  {
    forall v
      ensures ("deviceId", v) in fields <==> i.deviceId != "" && v == i.deviceId
      ensures ("secureBootChain", v) in fields <==> v == i.bootReport
    {
      OuterMembers(i, pcrs, quote, chain, v);
    }
    forall v
      ensures ("ekCertPem", v) in fields <==> |i.ekCert| > 32 && v == Base64.Pem(i.ekCert)
      ensures ("eventLog", v) in fields <==> i.eventLog != [] && v == Base64.Encode(i.eventLog)
    {
      OptionalMembers(i, pcrs, quote, chain, v);
    }
  }

  lemma {:induction false} OneDigit(p: nat, q: nat)
    requires p < 10 && q < 10 && p != q
    ensures Decimal(p) != Decimal(q) && |Decimal(p)| == 1
  {
    assert Decimal(p)[0] == ('0' as int + p) as char && Decimal(q)[0] == ('0' as int + q) as char;
  }

  lemma {:induction false} OnePcr(dev: Device, n: nat, j: nat, pcr: nat, key: string, text: string)
    requires j < |COLLECTED_PCRS| && pcr == COLLECTED_PCRS[j] && key == Decimal(pcr)
    requires text == PcrJson(Reported(dev, n, COLLECTED_PCRS))
    ensures Unhex(Get(text, key)) == dev.pcrs(LeftAfter(n, j + 1))(pcr)
  {
    var values := Reported(dev, n, COLLECTED_PCRS);
    forall m | 0 <= m < |values| && m != j
      ensures Decimal(values[m].0) != Decimal(pcr)
    {
      OneDigit(COLLECTED_PCRS[m], pcr);
    }
    OneDigit(pcr, if pcr == 0 then 1 else 0);
    PcrBack(values, j, key);
  }

  lemma {:induction false} Digits()
    ensures Decimal(0) == "0" && Decimal(1) == "1" && Decimal(2) == "2"
    ensures Decimal(3) == "3" && Decimal(4) == "4" && Decimal(7) == "7"
  {
  }

  lemma {:induction false} SixPcrs(dev: Device, n: nat, text: string)
    requires text == PcrJson(Reported(dev, n, COLLECTED_PCRS))
    ensures StatesPcrs(dev, n, text)
  {
    Digits();
    OnePcr(dev, n, 0, 0, "0", text);
    OnePcr(dev, n, 1, 1, "1", text);
    OnePcr(dev, n, 2, 2, "2", text);
    OnePcr(dev, n, 3, 3, "3", text);
    OnePcr(dev, n, 4, 4, "4", text);
    OnePcr(dev, n, 5, 7, "7", text);
  }

  lemma {:induction false} DeviceIdRead(deviceId: string, members: Fields)
    requires deviceId != "" && (LooksRaw(deviceId) ==> Balanced(deviceId))
    requires forall m :: 0 <= m < |members| ==> GoodKey(members[m].0)
    ensures Get(Build(IdMember(deviceId) + members), "deviceId") == deviceId
  {
    Keys();
    var items := ItemsOf([("deviceId", deviceId)] + members);
    forall m | 0 <= m < |items|
      ensures GoodKey(items[m].key)
    {
      assert m > 0 ==> items[m] == ItemOf(members[m - 1]);
    }
    FoundBehind(items, 0);
  }

  /** One of the members is found, unless the device id gets in the way. */
  lemma {:induction false} PlaceRead(i: CollectInput, chain: seq<Cert>, pcrs: string, quote: string, n: nat,
                                     key: string, value: string)
    requires NestedValues(pcrs, quote) && n < |Members(i, chain, pcrs, quote)|
    requires Members(i, chain, pcrs, quote)[n] == (key, value)
    requires key == "secureBootChain" ==> Readable(ItemOf(("secureBootChain", i.bootReport)))
    ensures Harmless(i.deviceId, key) ==> Get(Build(EvidenceFields(i, pcrs, quote, chain)), key) == value
  {
    MemberRead(i, chain, pcrs, quote, n);
  }

  lemma {:induction false} Places(i: CollectInput, chain: seq<Cert>, pcrs: string, quote: string)
    ensures var (members, n) := (Members(i, chain, pcrs, quote), |Between(i, chain)|);
            && (|i.ekCert| > 32 ==> members[0] == ("ekCertPem", Base64.Pem(i.ekCert)))
            && (i.eventLog != [] ==> n > 0 && members[n - 1] == ("eventLog", Base64.Encode(i.eventLog)))
            && members[n] == ("pcrValues", pcrs) && members[n + 2] == ("secureBootChain", i.bootReport)
  {
  }

  lemma {:induction false} OtherKeys()
    ensures "ekCertPem" != "secureBootChain" && "eventLog" != "secureBootChain" && "pcrValues" != "secureBootChain"
  {
    assert |"secureBootChain"| == 15 && |"ekCertPem"| == 9 && |"eventLog"| == 8 && |"pcrValues"| == 9;
  }

  lemma {:induction false} PlatformRead(i: CollectInput, chain: seq<Cert>, pcrs: string, quote: string)
    requires NestedValues(pcrs, quote)
    ensures StatesPlatform(i, Build(EvidenceFields(i, pcrs, quote, chain)))
  {
    var n := |Between(i, chain)|;
    EvidenceParts(i, chain, pcrs, quote);
    if i.deviceId != "" && (LooksRaw(i.deviceId) ==> Balanced(i.deviceId)) {
      MemberKeys(i, chain, pcrs, quote);
      DeviceIdRead(i.deviceId, Members(i, chain, pcrs, quote));
    }
    OtherKeys();
    Places(i, chain, pcrs, quote);
    if |i.ekCert| > 32 {
      PlaceRead(i, chain, pcrs, quote, 0, "ekCertPem", Base64.Pem(i.ekCert));
    }
    if i.eventLog != [] {
      PlaceRead(i, chain, pcrs, quote, n - 1, "eventLog", Base64.Encode(i.eventLog));
    }
    if Readable(ItemOf(("secureBootChain", i.bootReport))) {
      PlaceRead(i, chain, pcrs, quote, n + 2, "secureBootChain", i.bootReport);
    }
  }

  lemma {:induction false} MemberKeys(i: CollectInput, chain: seq<Cert>, pcrs: string, quote: string)
    ensures forall m :: 0 <= m < |Members(i, chain, pcrs, quote)| ==> GoodKey(Members(i, chain, pcrs, quote)[m].0)
  {
    var members := Members(i, chain, pcrs, quote);
    MembersRanked(i, chain, pcrs, quote);
    forall m | 0 <= m < |members|
      ensures GoodKey(members[m].0)
    {
      assert members[m] in members;
      RankedKey(members[m].0);
    }
  }

  lemma {:induction false} EvidenceStates(dev: Device, key: TpmState.Object, nonce: seq<Byte>, n: nat, i: CollectInput,
                                          fields: Fields)
    requires Coherent(dev, key, nonce, n, i, fields)
    ensures StatesPlatform(i, Build(fields)) && Present(i, fields)
    ensures Harmless(i.deviceId, "pcrValues") ==> StatesPcrs(dev, n, Get(Build(fields), "pcrValues"))
  {
    var values := Reported(dev, n, COLLECTED_PCRS);
    var attest := dev.attest(key, nonce, Covered(dev, n));
    var signature: seq<Byte>, chain: seq<Cert> :|
      dev.sign(key, attest) <= signature
      && fields == EvidenceFields(i, PcrJson(values), Json.Build(QuoteFields(attest, signature, nonce)), chain);
    var quote := Build(QuoteFields(attest, signature, nonce));
    EvidenceNested(values, attest, signature, nonce);
    PlatformRead(i, chain, PcrJson(values), quote);
    PresentIs(i, PcrJson(values), quote, chain, fields);
    var (members, at) := (Members(i, chain, PcrJson(values), quote), |Between(i, chain)|);
    Ranks();
    assert members[at] == ("pcrValues", PcrJson(values));
    MemberRead(i, chain, PcrJson(values), quote, at);
    SixPcrs(dev, n, PcrJson(values));
  }

  /** Evidence that is handed out states, of each of the PCRs 0, 1, 2, 3, 4 and 7, the value that the TPM
      had when it was read, byte for byte; and the device id, the EK certificate, the event log and the
      Secure Boot report as the platform supplied them. */
  lemma {:induction false} CollectHandsOut(base: State, w: World, i: CollectInput)
    requires Inv(base, w) && i.nonce.Some?
    ensures var (w', result, blob) := CollectEvidence(w, i);
            result == OK ==>
              && blob.Some? && StatesPlatform(i, blob.value)
              && (exists fields :: Present(i, fields) && blob.value == Build(fields))
              && (Harmless(i.deviceId, "pcrValues") ==>
                    StatesPcrs(w.tpm.dev, LeftToRead(w.tpm), Get(blob.value, "pcrValues")))
  {
    InvNumbered(base, w);
    CollectCoherent(w.tpm, i);
    var (t, result, fields) := CollectFields(w.tpm, i);
    if result == OK {
      EvidenceStates(w.tpm.dev, w.tpm.persistent[AK_SLOT], i.decode(i.nonce.GetOr("")), LeftToRead(w.tpm), i, fields);
    }
  }

  // ---- The chain in the evidence --------------------------------------------

  /** These fields are those of evidence with this chain. */
  ghost predicate WithChain(i: CollectInput, fields: Fields, chain: seq<Cert>) {
    exists pcrs: string, quote: string :: NestedValues(pcrs, quote) && fields == EvidenceFields(i, pcrs, quote, chain)
  }

  lemma {:induction false} QuoteChain(s: State, ctx: nat, i: CollectInput, nonce: seq<Byte>,
                                      values: seq<(nat, seq<Byte>)>)
    requires Prompt(s) && ctx != 0 && ctx in s.contexts
    ensures var (t, result, fields) := CollectQuote(s, ctx, i, nonce, values);
            result == OK ==> WithChain(i, fields, OnDie(s.dev, 16))
  {
    var c := Quote(AK_SLOT, nonce, PcrSelection.BitmapOf(COLLECTED_PCRS));
    var (s2, quoted) := QuoteWith(s, ctx, AK_SLOT, nonce, COLLECTED_PCRS);
    if quoted.Some? {
      PromptKept(s, ctx, c);
      assert s2.dev == s.dev && s2.contexts == s.contexts;
      NvReading.ChainIsContents(s2, ctx, OdcaHandles(), []);
      ContentsIsOnDie(s.dev);
      assert [] + OnDie(s.dev, 16) == OnDie(s.dev, 16);
      EvidenceNested(values, quoted.value.0, quoted.value.1, nonce);
    }
  }

  lemma {:induction false} FromIs(s: State, ctx: nat, i: CollectInput, values: seq<(nat, seq<Byte>)>)
    requires ReadPcrs(s, ctx, COLLECTED_PCRS, []).1 == Some(values) && i.decode(i.nonce.GetOr("")) != []
    ensures CollectFrom(s, ctx, i)
            == CollectQuote(ReadPcrs(s, ctx, COLLECTED_PCRS, []).0, ctx, i, i.decode(i.nonce.GetOr("")), values)
  {
  }

  lemma {:induction false} StillOpen(s: State, ctx: nat)
    requires Prompt(s) && ctx != 0 && ctx in s.contexts
    requires forall p :: p in COLLECTED_PCRS ==> NeverEmpty(s.dev, p)
    ensures var (t, values) := ReadPcrs(s, ctx, COLLECTED_PCRS, []);
            values.Some? && Prompt(t) && t.dev == s.dev && ctx in t.contexts
  {
    ReadPcrsSucceed(s, ctx, COLLECTED_PCRS, []);
    ReadPcrsReport(s, ctx, COLLECTED_PCRS, []);
  }

  lemma {:induction false} FromChain(s: State, ctx: nat, i: CollectInput)
    requires Prompt(s) && ctx != 0 && ctx in s.contexts
    requires forall p :: p in COLLECTED_PCRS ==> NeverEmpty(s.dev, p)
    ensures var (t, result, fields) := CollectFrom(s, ctx, i);
            result == OK ==> WithChain(i, fields, OnDie(s.dev, 16))
  {
    var nonce := i.decode(i.nonce.GetOr(""));
    if nonce != [] {
      StillOpen(s, ctx);
      var (s1, values) := ReadPcrs(s, ctx, COLLECTED_PCRS, []);
      FromIs(s, ctx, i, values.value);
      QuoteChain(s1, ctx, i, nonce, values.value);
    }
  }

  lemma {:induction false} ChainPlace(i: CollectInput, chain: seq<Cert>, pcrs: string, quote: string)
    requires NestedValues(pcrs, quote) && chain != []
    ensures Harmless(i.deviceId, "ekCertificateChain") ==>
              Get(Build(EvidenceFields(i, pcrs, quote, chain)), "ekCertificateChain") == PemArray(chain)
  {
    var n := if |i.ekCert| > 32 then 1 else 0;
    assert |"secureBootChain"| == 15 && |"ekCertificateChain"| == 18;
    assert Members(i, chain, pcrs, quote)[n] == ("ekCertificateChain", PemArray(chain));
    PlaceRead(i, chain, pcrs, quote, n, "ekCertificateChain", PemArray(chain));
  }

  /** If no command fails, evidence carries every certificate on the die that can be read, in order. */
  lemma {:induction false} CollectChain(base: State, w: World, i: CollectInput)
    requires Inv(base, w) && Prompt(w.tpm) && i.nonce.Some?
    requires forall p :: p in [0, 1, 2, 3, 4, 7] ==> NeverEmpty(w.tpm.dev, p)
    ensures var (w', result, blob) := CollectEvidence(w, i);
            result == OK && OnDie(w.tpm.dev, 16) != [] && Harmless(i.deviceId, "ekCertificateChain") ==>
              blob.Some? && ArrayItems(Get(blob.value, "ekCertificateChain")) == Pems(OnDie(w.tpm.dev, 16))
  {
    var (t, result, fields) := CollectFields(w.tpm, i);
    var chain := OnDie(w.tpm.dev, 16);
    InvNumbered(base, w);
    TwoContexts(w.tpm);
    var (s1, c1) := OpenContext(w.tpm);
    var (s2, present) := IsPresent(s1, c1.value, AK_SLOT);
    if result == OK && chain != [] {
      var (s3, c2) := OpenContext(s2);
      FromChain(s3, c2.value, i);
      var pcrs: string, quote: string :| NestedValues(pcrs, quote) && fields == EvidenceFields(i, pcrs, quote, chain);
      ChainPlace(i, chain, pcrs, quote);
      PemArrayItems(chain);
    }
  }
}
