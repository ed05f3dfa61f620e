/**
 The public calls of the Windows client as functions on the TPM's state and the enrollment in
 flight: EnrollBegin, EnrollComplete, CollectEvidence. What the host supplies (elevation, EK
 material, the certificate store, memory, the event log) comes in as arguments.
 */
module EnrollmentSpec {
  import opened Bytes
  import opened TpmState
  import opened ClientSpec
  import opened CertMerge
  import Base64
  import Json

  datatype Result =
    | OK | NO_TPM | ENROLLMENT_FAILED | ATTESTATION_FAILED | INTERNAL
    | NOT_ENROLLED | INVALID_PARAM | ELEVATION_REQUIRED

  /** The persistent handle of the AK. */
  const AK_SLOT: U32 := 0x8102_9301

  /** The TPM, and the provider held between EnrollBegin and EnrollComplete. */
  datatype World = World(tpm: State, inflight: Option<Provider>)

  type Fields = seq<(string, string)>

  // ---- EK data --------------------------------------------------------------

  /** What the platform yields about the EK; empty where a source has nothing. */
  datatype EkSources = EkSources(
    ekPub: seq<Byte>,            // from the platform crypto provider
    storeCert: seq<Byte>,        // cached by Windows
    providerCert: seq<Byte>,     // from the platform crypto provider
    amdCert: seq<Byte>,          // from AMD's AIA endpoint
    store: seq<Cert>,            // cached intermediates
    sha: Hash)

  datatype EkData = EkData(ekPub: seq<Byte>, certPem: string, intermediates: seq<Cert>)

  function EkCertPem(src: EkSources): (pem: string) {
    var cert := if |src.storeCert| <= 32 then src.providerCert else src.storeCert;
    if |cert| > 32 then Base64.Pem(cert)
    else if src.amdCert != [] then Base64.Pem(src.amdCert)
    else ""
  }

  function GatherEk(s: State, src: EkSources): (r: (State, Option<EkData>)) {
    if src.ekPub == [] then (s, None)
    else
      match OpenContext(s)
      case (s1, None) => (s1, Some(EkData(src.ekPub, EkCertPem(src), [])))
      case (s1, Some(ctx)) =>
        var (s2, nv) := ReadAll(s1, ctx, OdcaHandles(), []);
        (CloseContext(s2, ctx), Some(EkData(src.ekPub, EkCertPem(src), Merged(nv, src.store, src.sha))))
  }

  // ---- Request bodies -------------------------------------------------------

  function PemList(certs: seq<Cert>): (r: string)
    decreases |certs|
  {
    if certs == [] then ""
    else
      (if |certs| == 1 then "" else PemList(certs[..|certs| - 1]) + ",") + Json.Quoted(Base64.Pem(certs[|certs| - 1]))
  }

  function PemArray(certs: seq<Cert>): (r: string) {
    "[" + PemList(certs) + "]"
  }

  function Optional(present: bool, key: string, value: string): (r: Fields) {
    if present then [(key, value)] else []
  }

  function PemChain(certs: seq<Cert>): (r: Fields) {
    if certs == [] then [] else [("ekCertificateChain", PemArray(certs))]
  }

  /** The enroll request, in the order of the std::map that holds it. */
  function EnrollFields(ek: EkData, akPub: seq<Byte>): (r: Fields) {
    [("akPublicArea", Base64.Encode(akPub))]
    + Optional(ek.certPem != "", "ekCertPem", ek.certPem)
    + PemChain(ek.intermediates)
    + [("ekPublicKey", Base64.Encode(ek.ekPub)), ("platform", "windows")]
  }

  function ActivateFields(deviceId: string, secret: seq<Byte>): (r: Fields) {
    [("decryptedSecret", Base64.Encode(secret)), ("deviceId", deviceId)]
  }

  // ---- EnrollBegin ----------------------------------------------------------

  datatype BeginInput = BeginInput(hasOut: bool, elevated: bool, ek: EkSources, allocates: bool)

  function NewProvider(ctx: nat): (p: Provider) {
    Provider(ctx, AK_SLOT, 0, 0, [])
  }

  /** Creates the AK in a provider of its own; a provider that does not make it is closed. */
  function BeginKeys(s: State, allocates: bool): (r: (State, Result, Option<Provider>)) {
    match OpenContext(s)
    case (s1, None) => (s1, ENROLLMENT_FAILED, None)
    case (s1, Some(ctx)) =>
      var (s2, p, created) := CreateAk(s1, NewProvider(ctx));
      if !created || p.akPub == [] then (CloseProvider(s2, p), ENROLLMENT_FAILED, None)
      else if !allocates then (CloseProvider(s2, p), INTERNAL, None)
      else (s2, OK, Some(p))
  }

  /** With the EK's data in hand; an enrollment that is still in flight gives way to the new one. */
  function BeginWith(w: World, ek: EkData, allocates: bool): (r: (World, Result, Option<string>)) {
    match BeginKeys(w.tpm, allocates)
    case (s, result, None) => (w.(tpm := s), result, None)
    case (s, result, Some(p)) =>
      var s' := if w.inflight.Some? then CloseProvider(s, w.inflight.value) else s;
      (World(s', Some(p)), result, Some(Json.Build(EnrollFields(ek, p.akPub))))
  }

  function EnrollBegin(w: World, i: BeginInput): (r: (World, Result, Option<string>)) {
    if !i.hasOut then (w, INVALID_PARAM, None)
    else if !i.elevated then (w, ELEVATION_REQUIRED, None)
    else
      match GatherEk(w.tpm, i.ek)
      case (s, None) => (w.(tpm := s), ENROLLMENT_FAILED, None)
      case (s, Some(ek)) => BeginWith(w.(tpm := s), ek, i.allocates)
  }

  // ---- EnrollComplete -------------------------------------------------------

  type Decoder = string -> seq<Byte>

  datatype CompleteInput = CompleteInput(challenge: Option<string>, hasOut: bool, decode: Decoder, allocates: bool)

  /** The three values of a challenge, if they are all there. */
  function Challenge(text: string): (r: Option<(string, string, string)>) {
    var deviceId := Json.Get(text, "deviceId");
    var (blob, secret) := (Json.Get(text, "credentialBlob"), Json.Get(text, "encryptedSecret"));
    if deviceId == "" || blob == "" || secret == "" then None else Some((deviceId, blob, secret))
  }

  /** Activation and persisting; the provider is closed whatever happens. */
  function CompleteKeys(s: State, p: Provider, params: seq<Byte>): (r: (State, Result, seq<Byte>)) {
    var (s1, secret) := ActivateAk(s, p, params);
    if secret == [] then (CloseProvider(s1, p), ATTESTATION_FAILED, [])
    else
      var (s2, p2, persisted) := PersistAk(s1, p);
      (CloseProvider(s2, p2), if persisted then OK else ENROLLMENT_FAILED, secret)
  }

  function EnrollComplete(w: World, i: CompleteInput): (r: (World, Result, Option<string>)) {
    if i.challenge.None? || !i.hasOut then (w, INVALID_PARAM, None)
    else if w.inflight.None? then (w, NOT_ENROLLED, None)
    else
      match Challenge(i.challenge.value)
      case None => (w, INVALID_PARAM, None)
      case Some((deviceId, blob, sealed)) =>
        var (s, result, secret) := CompleteKeys(w.tpm, w.inflight.value, i.decode(blob) + i.decode(sealed));
        if result != OK then (World(s, None), result, None)
        else if !i.allocates then (World(s, None), INTERNAL, None)
        else (World(s, None), OK, Some(Json.Build(ActivateFields(deviceId, secret))))
  }

  // ---- CollectEvidence ------------------------------------------------------

  const COLLECTED_PCRS: seq<nat> := [0, 1, 2, 3, 4, 7]

  datatype CollectInput = CollectInput(
    nonce: Option<string>, hasOut: bool, decode: Decoder, allocates: bool,
    bootReport: string,           // JSON of the Secure Boot chain report, or null
    eventLog: seq<Byte>, ekCert: seq<Byte>, deviceId: string)

  function HexDigit(n: nat): (c: char)
    requires n < 16
  {
    "0123456789abcdef"[n]
  }

  function Hex(b: seq<Byte>): (r: string) {
    if b == [] then "" else [HexDigit(b[0] / 16), HexDigit(b[0] % 16)] + Hex(b[1..])
  }

  function PcrMember(pcr: nat, value: seq<Byte>): (r: string) {
    "\"" + Decimal(pcr) + "\":\"" + Hex(value) + "\""
  }

  function PcrMembers(values: seq<(nat, seq<Byte>)>): (r: string)
    decreases |values|
  {
    if values == [] then ""
    else PcrMembers(values[..|values| - 1]) + (if |values| == 1 then "" else ",")
         + PcrMember(values[|values| - 1].0, values[|values| - 1].1)
  }

  function PcrJson(values: seq<(nat, seq<Byte>)>): (r: string) {
    "{\"sha256\":{" + PcrMembers(values) + "}}"
  }

  /** Reads the PCRs in order, and gives up at the first one that cannot be read. */
  function ReadPcrs(s: State, ctx: nat, pcrs: seq<nat>, acc: seq<(nat, seq<Byte>)>)
    : (r: (State, Option<seq<(nat, seq<Byte>)>>))
    decreases |pcrs|
  {
    if pcrs == [] then (s, Some(acc))
    else
      var (s', value) := ReadPcr(s, ctx, pcrs[0]);
      if value == [] then (s', None) else ReadPcrs(s', ctx, pcrs[1..], acc + [(pcrs[0], value)])
  }

  function QuoteFields(quoted: seq<Byte>, signature: seq<Byte>, nonce: seq<Byte>): (r: Fields) {
    [("nonce", Base64.Encode(nonce)), ("quoted", Base64.Encode(quoted)), ("signature", Base64.Encode(signature))]
  }

  function EvidenceFields(i: CollectInput, pcrs: string, quote: string, chain: seq<Cert>): (r: Fields) {
    Optional(i.deviceId != "", "deviceId", i.deviceId)
    + Optional(|i.ekCert| > 32, "ekCertPem", Base64.Pem(i.ekCert))
    + PemChain(chain)
    + Optional(i.eventLog != [], "eventLog", Base64.Encode(i.eventLog))
    + [("pcrValues", pcrs), ("quote", quote), ("secureBootChain", i.bootReport)]
  }

  /** Quote and certificate chain, for PCR values that have been read. */
  function CollectQuote(s: State, ctx: nat, i: CollectInput, nonce: seq<Byte>, values: seq<(nat, seq<Byte>)>)
    : (r: (State, Result, Fields))
  {
    match QuoteWith(s, ctx, AK_SLOT, nonce, COLLECTED_PCRS)
    case (s2, None) => (s2, ATTESTATION_FAILED, [])
    case (s2, Some((quoted, signature))) =>
      var (s3, chain) := ReadAll(s2, ctx, OdcaHandles(), []);
      (s3, OK, EvidenceFields(i, PcrJson(values), Json.Build(QuoteFields(quoted, signature, nonce)), chain))
  }

  /** PCRs, quote and certificate chain, read over one open context. */
  function CollectFrom(s: State, ctx: nat, i: CollectInput): (r: (State, Result, Fields)) {
    var nonce := i.decode(i.nonce.GetOr(""));
    if nonce == [] then (s, INVALID_PARAM, [])
    else
      match ReadPcrs(s, ctx, COLLECTED_PCRS, [])
      case (s1, None) => (s1, ATTESTATION_FAILED, [])
      case (s1, Some(values)) => CollectQuote(s1, ctx, i, nonce, values)
  }

  /** With a provider open on the enrolled AK for as long as the collection lasts. */
  function CollectFields(s: State, i: CollectInput): (r: (State, Result, Fields)) {
    match OpenContext(s)
    case (s1, None) => (s1, NOT_ENROLLED, [])
    case (s1, Some(ctx)) =>
      var (s2, present) := IsPresent(s1, ctx, AK_SLOT);
      if !present then (CloseContext(s2, ctx), NOT_ENROLLED, [])
      else
        match OpenContext(s2)
        case (s3, None) => (CloseContext(s3, ctx), NO_TPM, [])
        case (s3, Some(ctx2)) =>
          var (s4, result, fields) := CollectFrom(s3, ctx2, i);
          (CloseContext(CloseContext(s4, ctx2), ctx), result, fields)
  }

  function CollectEvidence(w: World, i: CollectInput): (r: (World, Result, Option<string>)) {
    if i.nonce.None? || !i.hasOut then (w, INVALID_PARAM, None)
    else
      var (s, result, fields) := CollectFields(w.tpm, i);
      if result != OK then (w.(tpm := s), result, None)
      else if !i.allocates then (w.(tpm := s), INTERNAL, None)
      else (w.(tpm := s), OK, Some(Json.Build(fields)))
  }
}
