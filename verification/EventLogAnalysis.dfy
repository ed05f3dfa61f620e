/**
 What the client concludes from the event log: a label for every entry, whether Secure Boot was on,
 and a verdict.
 */
module EventLogAnalysis {
  import opened Bytes
  import opened Seqs
  import opened EventLog

  datatype Label = VERIFIED | POLICY | UNKNOWN | REVOKED

  /** A parsed entry. Its digests are a std::map: of two with one algorithm the later one stays.
      `variable` is the name that the description of a variable event shows; "" for other events. */
  datatype Entry = Entry(
    pcr: U32, kind: U32, digests: map<U16, seq<Byte>>, data: seq<Byte>, variable: string, classification: Label)

  datatype Verdict = PASS | WARNING | FAIL

  const ALL_VERIFIED := "Secure Boot enabled, " + "all boot components verified, no revoked components"
  const SECURE_BOOT_DISABLED := "Secure Boot " + "is DISABLED \U{2014} boot chain integrity cannot be guaranteed"
  const UNDETERMINED := "Could not determine Secure Boot status"

  // ---- Variables ------------------------------------------------------------

  /** The length of the name, in characters, of an EFI variable event. */
  function NameLength(data: seq<Byte>): (n: nat)
    requires |data| >= 24
  {
    ReadLE64(data, 16)
  }

  /** (uint64_t)(32 + nameLen * 2): where the variable's data starts */
  function DataOffset(data: seq<Byte>): (n: nat)
    requires |data| >= 24
  {
    Cast64(32 + NameLength(data) * 2)
  }

  const MAX_NAME: nat := 256

  /** How a nonzero character of the name is rendered. */
  type Render = nat -> string

  function EventLogRender(ch: nat): (text: string) {
    if ch < 128 then [ch as char] else "?"
  }

  /** Reads two bytes at an offset that may lie behind the data. */
  function Fetch16(data: seq<Byte>, at: nat): (ch: Access<U16>) {
    if at + 2 <= |data| then Inside(ReadLE16(data, at)) else Outside(FirstOutside(data, at))
  }

  /** The name from character i on. The source compares i with the length that the event claims and
      with 256, never with the size of the event data. */
  function NameFrom(data: seq<Byte>, i: nat, render: Render): (name: Access<string>)
    requires |data| >= 32
    decreases MAX_NAME - i
  {
    if i >= NameLength(data) || i >= MAX_NAME then Inside("")
    else
      match Fetch16(data, 32 + 2 * i)
      case Outside(at) => Outside(at)
      case Inside(ch) => if ch == 0 then Inside("") else Prepend(render(ch), NameFrom(data, i + 1, render))
  }

  function VariableName(data: seq<Byte>, render: Render): (name: Access<string>) {
    if |data| < 32 || DataOffset(data) > |data| then Inside("") else NameFrom(data, 0, render)
  }

  /** The loop at character i, when `name` has been rendered and `all` is what the whole loop yields. */
  lemma {:induction false} NameStep(data: seq<Byte>, i: nat, render: Render, name: string, ch: Access<U16>,
                                    all: Access<string>)
    requires |data| >= 32 && i < NameLength(data) && i < MAX_NAME && ch == Fetch16(data, 32 + 2 * i)
    requires Prepend(name, NameFrom(data, i, render)) == all
    ensures match ch
            case Outside(at) => all == Outside(at)
            case Inside(c) =>
              if c == 0 then all == Inside(name)
              else Prepend(name + render(c), NameFrom(data, i + 1, render)) == all
  {
    if ch.Inside? && ch.value != 0 {
      PrependTwice(name, render(ch.value), NameFrom(data, i + 1, render));
    } else {
      assert name + "" == name;
    }
  }

  method ExtractEfiVariableName(data: seq<Byte>, render: Render) returns (r: Access<string>)
    ensures r == VariableName(data, render)
  {
    if |data| < 32 {
      return Inside("");
    }
    var nameLen := ReadLE64(data, 16);
    if DataOffset(data) > |data| {
      return Inside("");
    }
    var name: string := "";
    var i := 0;
    ghost var all := NameFrom(data, 0, render);
    PrependNothing(all);
    while i < nameLen && i < MAX_NAME
      invariant i <= MAX_NAME && Prepend(name, NameFrom(data, i, render)) == all
    {
      var ch := Fetch16(data, 32 + 2 * i);
      NameStep(data, i, render, name, ch, all);
      if ch.Outside? {
        return Outside(ch.at);
      }
      if ch.value == 0 {
        break;
      }
      name := name + render(ch.value);
      i := i + 1;
    }
    assert name + "" == name;
    r := Inside(name);
  }

  // ---- Where the name is read -------------------------------------------------

  predicate ZeroAt(data: seq<Byte>, i: nat) {
    32 + 2 * i + 2 <= |data| && ReadLE16(data, 32 + 2 * i) == 0
  }

  /** The events whose name is read inside their data: those that fail the length test or whose
      length does not wrap it around, and, of the others, those that hold a zero character or 256
      characters for the loop to end at. */
  predicate NameInside(data: seq<Byte>) {
    || |data| < 32 || DataOffset(data) > |data|
    || 32 + 2 * NameLength(data) < U64_LIMIT
    || |data| >= 32 + 2 * 256
    || exists i :: 0 <= i < 256 && ZeroAt(data, i)
  }

  lemma {:induction false} UnwrappedName(data: seq<Byte>, i: nat, render: Render)
    requires |data| >= 32 && 32 + 2 * NameLength(data) <= |data|
    ensures NameFrom(data, i, render).Inside?
    decreases MAX_NAME - i
  {
    if i < NameLength(data) && i < MAX_NAME {
      UnwrappedName(data, i + 1, render);
    }
  }

  lemma {:induction false} WrappedName(data: seq<Byte>, i: nat, render: Render)
    requires |data| >= 32 && NameLength(data) >= MAX_NAME >= i
    ensures NameFrom(data, i, render).Inside? <==>
              i == MAX_NAME || |data| >= 32 + 2 * MAX_NAME || exists j :: i <= j < MAX_NAME && ZeroAt(data, j)
    decreases MAX_NAME - i
  {
    if i < MAX_NAME {
      WrappedName(data, i + 1, render);
      if 32 + 2 * i + 2 <= |data| {
        assert NameFrom(data, i, render).Inside? <==> ZeroAt(data, i) || NameFrom(data, i + 1, render).Inside?;
        assert i + 1 == MAX_NAME ==> |data| >= 32 + 2 * MAX_NAME;
      }
    }
  }

  /** Exactly these events are read inside their data, whichever way characters are rendered. */
  lemma {:induction false} NameInsideIff(data: seq<Byte>, render: Render)
    ensures VariableName(data, render).Inside? <==> NameInside(data)
  {
    if |data| >= 32 && DataOffset(data) <= |data| {
      if 32 + 2 * NameLength(data) < U64_LIMIT {
        UnwrappedName(data, 0, render);
      } else {
        WrappedName(data, 0, render);
      }
    }
  }

  /** A 32-byte event that passes the length test, and whose name is read behind its end. */
  lemma {:induction false} NameReadOutside(guid: seq<Byte>, render: Render)
    requires |guid| == 16
    ensures var data := guid + LE64(0x7FFF_FFFF_FFFF_FFF0) + LE64(0);
            |data| == 32 && DataOffset(data) == 0 && VariableName(data, render) == Outside(32)
  {
    var data := guid + LE64(0x7FFF_FFFF_FFFF_FFF0) + LE64(0);
    assert data == data + [];
    HeadFields(data, guid, 0x7FFF_FFFF_FFFF_FFF0, 0, []);
  }

  // ---- The layout of a variable event ----------------------------------------

  function NameBytes(name: seq<U16>): (b: seq<Byte>)
    ensures |b| == 2 * |name|
  {
    if name == [] then [] else LE16(name[0]) + NameBytes(name[1..])
  }

  function VariableBytes(guid: seq<Byte>, name: seq<U16>, value: seq<Byte>): (b: seq<Byte>) {
    guid + LE64(|name|) + LE64(|value|) + NameBytes(name) + value
  }

  /** The rendered name, up to its first zero or 256 characters. */
  function NameText(name: seq<U16>, i: nat, render: Render): (text: string)
    decreases 256 - i
  {
    if i >= |name| || i >= 256 || name[i] == 0 then "" else render(name[i]) + NameText(name, i + 1, render)
  }

  lemma {:induction false} NameAt(name: seq<U16>, i: nat)
    requires i < |name|
    ensures NameBytes(name)[2 * i..2 * i + 2] == LE16(name[i])
  {
    if i == 0 {
      assert NameBytes(name)[..2] == LE16(name[0]);
    } else {
      NameAt(name[1..], i - 1);
      assert NameBytes(name)[2..] == NameBytes(name[1..]);
      assert NameBytes(name)[2 * i..2 * i + 2] == NameBytes(name[1..])[2 * (i - 1)..2 * (i - 1) + 2];
    }
  }

  lemma {:induction false} VariableFields(guid: seq<Byte>, name: seq<U16>, value: seq<Byte>)
    requires |guid| == 16 && |name| < 0x1000_0000 && |value| < U32_LIMIT
    ensures var data := VariableBytes(guid, name, value);
            && |data| == 32 + 2 * |name| + |value|
            && NameLength(data) == |name| && DataOffset(data) == 32 + 2 * |name| && ReadLE64(data, 24) == |value|
            && data[32..32 + 2 * |name|] == NameBytes(name) && data[32 + 2 * |name|..] == value
  {
    var data, text := VariableBytes(guid, name, value), NameBytes(name);
    var head := guid + LE64(|name|) + LE64(|value|);
    assert data == head + text + value && |head| == 32;
    HeadFields(data, guid, |name|, |value|, text + value);
    assert data[32..32 + |text|] == text && data[32 + |text|..] == value;
  }

  lemma {:induction false} HeadFields(data: seq<Byte>, guid: seq<Byte>, nameLen: nat, dataLen: nat, rest: seq<Byte>)
    requires |guid| == 16 && nameLen < U64_LIMIT && dataLen < U64_LIMIT
    requires data == guid + LE64(nameLen) + LE64(dataLen) + rest
    ensures ReadLE64(data, 16) == nameLen && ReadLE64(data, 24) == dataLen
  {
    assert data[16..24] == LE64(nameLen) && data[24..32] == LE64(dataLen);
    LE64At(data, 16, nameLen);
    LE64At(data, 24, dataLen);
  }

  lemma {:induction false} NameBack(data: seq<Byte>, name: seq<U16>, i: nat, render: Render)
    requires |data| >= 32 + 2 * |name| && NameLength(data) == |name| && data[32..32 + 2 * |name|] == NameBytes(name)
    ensures NameFrom(data, i, render) == Inside(NameText(name, i, render))
    decreases MAX_NAME - i
  {
    if i < |name| && i < MAX_NAME {
      NameAt(name, i);
      Within(data, 32, 32 + 2 * |name|, 2 * i, 2 * i + 2);
      LE16At(data, 32 + 2 * i, name[i]);
      NameBack(data, name, i + 1, render);
    }
  }

  /** A variable event is taken apart into the name and the value that it was made of. */
  lemma {:induction false} VariableRoundTrip(guid: seq<Byte>, name: seq<U16>, value: seq<Byte>, render: Render)
    requires |guid| == 16 && |name| < 0x1000_0000 && |value| < U32_LIMIT
    ensures var data := VariableBytes(guid, name, value);
            && VariableName(data, render) == Inside(NameText(name, 0, render))
            && (SwitchedOn(data) <==> value != [] && value[0] == 1)
  {
    var data := VariableBytes(guid, name, value);
    VariableFields(guid, name, value);
    NameBack(data, name, 0, render);
    if value != [] {
      assert data[32 + 2 * |name|] == data[32 + 2 * |name|..][0];
    }
  }

  predicate IsVariable(kind: U32) {
    kind == EV_EFI_VARIABLE_DRIVER_CONFIG || kind == EV_EFI_VARIABLE_BOOT || kind == EV_EFI_VARIABLE_BOOT2
  }

  function ShownName(kind: U32, data: seq<Byte>): (name: Access<string>) {
    if IsVariable(kind) then VariableName(data, EventLogRender) else Inside("")
  }

  /** The value of a SecureBoot variable: one byte that is 1. */
  predicate SwitchedOn(data: seq<Byte>) {
    && |data| >= 33
    && DataOffset(data) < |data| && ReadLE64(data, 24) >= 1
    && data[DataOffset(data)] == 1
  }

  /** Whatever length the event claims for the value: Secure Boot is on exactly if that is not zero, and
      the first byte behind the name is 1. */
  lemma {:induction false} SwitchedOnIff(guid: seq<Byte>, name: seq<U16>, claimed: nat, behind: seq<Byte>)
    requires |guid| == 16 && |name| < 0x1000_0000 && claimed < U64_LIMIT
    ensures SwitchedOn(guid + LE64(|name|) + LE64(claimed) + NameBytes(name) + behind)
            <==> claimed >= 1 && behind != [] && behind[0] == 1
  {
    var (text, head) := (NameBytes(name), guid + LE64(|name|) + LE64(claimed));
    var data := head + text + behind;
    Assoc(head, text, behind);
    HeadFields(data, guid, |name|, claimed, text + behind);
    assert |data| == 32 + 2 * |name| + |behind| && DataOffset(data) == 32 + 2 * |name|;
    if behind != [] {
      assert data[32 + 2 * |name|] == behind[0];
    }
  }

  // ---- Conclusions ----------------------------------------------------------

  function Classify(pcr: U32, kind: U32): (classification: Label) {
    if IsVariable(kind) || kind == EV_SEPARATOR || kind == EV_EFI_ACTION || kind == EV_EFI_VARIABLE_AUTHORITY
       || kind == EV_EFI_GPT_EVENT || kind == EV_NO_ACTION || kind == EV_EFI_HANDOFF_TABLES
       || kind == EV_EFI_HANDOFF_TABLES2 || kind == EV_PLATFORM_CONFIG_FLAGS
    then POLICY
    else if kind == EV_EFI_BOOT_SERVICES_APPLICATION || kind == EV_EFI_BOOT_SERVICES_DRIVER
            || kind == EV_EFI_PLATFORM_FIRMWARE_BLOB || kind == EV_EFI_PLATFORM_FIRMWARE_BLOB2
            || kind == EV_S_CRTM_VERSION || kind == EV_POST_CODE || kind == EV_S_CRTM_CONTENTS
            || kind == EV_CPU_MICROCODE || kind == EV_COMPACT_HASH || kind == EV_EFI_RUNTIME_SERVICES_DRIVER
    then VERIFIED
    else if 11 <= pcr <= 14 then VERIFIED
    else UNKNOWN
  }

  function DigestMap(digests: seq<Digest>): (m: map<U16, seq<Byte>>) {
    if digests == [] then map[]
    else
      var last := digests[|digests| - 1];
      DigestMap(digests[..|digests| - 1])[last.alg := last.value]
  }

  function NewEntry(pcr: U32, kind: U32, digests: map<U16, seq<Byte>>, data: seq<Byte>): (e: Access<Entry>) {
    match ShownName(kind, data)
    case Outside(at) => Outside(at)
    case Inside(name) => Inside(Entry(pcr, kind, digests, data, name, Classify(pcr, kind)))
  }

  function EntryOf(r: Record): (e: Access<Entry>) {
    NewEntry(r.pcr, r.kind, DigestMap(r.digests), r.data)
  }

  function EntriesOf(records: seq<Record>): (es: Access<seq<Entry>>) {
    if records == [] then Inside([])
    else
      match EntryOf(records[0])
      case Outside(at) => Outside(at)
      case Inside(e) => Prepend([e], EntriesOf(records[1..]))
  }

  /** The entries of a log, unless one of its events makes the client read outside that event. */
  function ParsedEntries(log: seq<Byte>): (es: Access<seq<Entry>>) {
    EntriesOf(Records(Body(log)))
  }

  function Count(es: seq<Entry>, classification: Label): (n: nat) {
    if es == [] then 0
    else Count(es[..|es| - 1], classification) + (if es[|es| - 1].classification == classification then 1 else 0)
  }

  /** What the last SecureBoot variable of the log says. */
  predicate SecureBootOn(es: seq<Entry>) {
    && es != []
    && var last := es[|es| - 1];
       if last.variable == "SecureBoot" then SwitchedOn(last.data) else SecureBootOn(es[..|es| - 1])
  }

  predicate MicrosoftKeys(es: seq<Entry>) {
    exists i :: 0 <= i < |es| && (es[i].variable == "db" || es[i].variable == "KEK")
  }

  datatype Totals = Totals(
    verified: int, policy: int, unknown: int, revoked: int, secureBootOn: bool, microsoftKeys: bool)

  /** What a pass over the entries adds up. */
  function TotalsOf(es: seq<Entry>): (t: Totals) {
    Totals(
      Count(es, VERIFIED), Count(es, POLICY), Count(es, UNKNOWN), Count(es, REVOKED),
      SecureBootOn(es), MicrosoftKeys(es))
  }

  function Plus(t: Totals, e: Entry): (r: Totals) {
    Totals(
      t.verified + (if e.classification == VERIFIED then 1 else 0),
      t.policy + (if e.classification == POLICY then 1 else 0),
      t.unknown + (if e.classification == UNKNOWN then 1 else 0),
      t.revoked + (if e.classification == REVOKED then 1 else 0),
      if e.variable == "SecureBoot" then SwitchedOn(e.data) else t.secureBootOn,
      t.microsoftKeys || e.variable == "db" || e.variable == "KEK")
  }

  function ToString(n: int): (text: string) {
    if n >= 0 then Decimal(n) else "-" + Decimal(-n)
  }

  function VerdictFor(on: bool, unknown: int, revoked: int): (v: Verdict) {
    if !on || revoked > 0 then FAIL else if unknown == 0 && revoked == 0 then PASS else WARNING
  }

  function ReasonFor(on: bool, unknown: int, revoked: int): (reason: string) {
    if !on then SECURE_BOOT_DISABLED
    else if revoked > 0 then ToString(revoked) + " revoked/known-bad component(s) detected in boot chain"
    else if revoked < 0 then UNDETERMINED
    else if unknown == 0 then ALL_VERIFIED
    else "Secure Boot enabled, but " + ToString(unknown) + " unknown measurement(s) detected"
  }

  function VerdictOf(es: seq<Entry>): (v: (Verdict, string)) {
    var (on, unknown, revoked) := (SecureBootOn(es), Count(es, UNKNOWN), Count(es, REVOKED));
    (VerdictFor(on, unknown, revoked), ReasonFor(on, unknown, revoked))
  }

  // ---- The source's loop ----------------------------------------------------

  class Analysis {
    var entries: seq<Entry>
    var secureBootEnabled: bool
    var secureBootMicrosoftKeys: bool
    var verifiedCount: int
    var unknownCount: int
    var revokedCount: int
    var policyCount: int
    var verdict: Verdict
    var verdictReason: string

    ghost function Kept(): (t: Totals)
      reads this
    {
      Totals(verifiedCount, policyCount, unknownCount, revokedCount, secureBootEnabled, secureBootMicrosoftKeys)
    }

    /** The counters and flags agree with the entries. */
    ghost predicate Tallied()
      reads this
    {
      Kept() == TotalsOf(entries)
    }

    constructor ()
      ensures entries == [] && Tallied()
    {
      entries, secureBootEnabled, secureBootMicrosoftKeys := [], false, false;
      verifiedCount, unknownCount, revokedCount, policyCount := 0, 0, 0, 0;
      verdict, verdictReason := WARNING, "";
    }

    /** Classifies one entry, and bumps the counter of its label. */
    method Add(pcr: U32, kind: U32, digests: map<U16, seq<Byte>>, data: seq<Byte>) returns (outside: Option<nat>)
      requires Tallied()
      modifies this
      ensures match NewEntry(pcr, kind, digests, data)
              case Outside(at) => outside == Some(at)
              case Inside(entry) => outside == None && Tallied() && entries == old(entries) + [entry]
    {
      var varName: Access<string> := Inside("");
      if IsVariable(kind) {
        varName := ExtractEfiVariableName(data, EventLogRender);
        if varName.Outside? {
          return Some(varName.at);
        }
      }
      var entry := Entry(pcr, kind, digests, data, varName.value, Classify(pcr, kind));
      OneMore(entries, entry);
      Note(entry);
      entries := entries + [entry];
      outside := None;
    }

    method Note(entry: Entry)
      requires entry.classification != REVOKED
      modifies `verifiedCount, `policyCount, `unknownCount, `secureBootEnabled, `secureBootMicrosoftKeys
      ensures Kept() == Plus(old(Kept()), entry)
    {
      match entry.classification {
        case VERIFIED => verifiedCount := verifiedCount + 1;
        case POLICY => policyCount := policyCount + 1;
        case UNKNOWN => unknownCount := unknownCount + 1;
      }
      if entry.variable == "SecureBoot" {
        secureBootEnabled := SwitchedOn(entry.data);
      }
      if entry.variable == "db" || entry.variable == "KEK" {
        secureBootMicrosoftKeys := true;
      }
    }

    method Conclude()
      modifies this`verdict, this`verdictReason
      ensures verdict == VerdictFor(secureBootEnabled, unknownCount, revokedCount)
      ensures verdictReason == ReasonFor(secureBootEnabled, unknownCount, revokedCount)
    {
      if secureBootEnabled && revokedCount == 0 {
        if unknownCount == 0 {
          verdict := PASS;
          verdictReason := ALL_VERIFIED;
        } else {
          verdict := WARNING;
          verdictReason := "Secure Boot enabled, but " + ToString(unknownCount) + " unknown measurement(s) detected";
        }
      } else if !secureBootEnabled {
        verdict := FAIL;
        verdictReason := SECURE_BOOT_DISABLED;
      } else if revokedCount > 0 {
        verdict := FAIL;
        verdictReason := ToString(revokedCount) + " revoked/known-bad component(s) detected in boot chain";
      } else {
        verdict := WARNING;
        verdictReason := UNDETERMINED;
      }
    }
  }

  lemma {:induction false} OneMore(es: seq<Entry>, e: Entry)
    ensures TotalsOf(es + [e]) == Plus(TotalsOf(es), e)
  {
    var more := es + [e];
    assert more[..|more| - 1] == es && more[|es|] == e;
    if MicrosoftKeys(es) {
      var i :| 0 <= i < |es| && (es[i].variable == "db" || es[i].variable == "KEK");
      assert more[i] == es[i];
    }
  }

  type DigestsRead = Option<(seq<Digest>, seq<Byte>)>

  /** After `list`, what is still to come completes `all`. */
  ghost predicate Completes(all: DigestsRead, list: seq<Digest>, ahead: DigestsRead) {
    && (all.None? <==> ahead.None?)
    && (ahead.Some? ==> all.value.0 == list + ahead.value.0 && all.value.1 == ahead.value.1)
  }

  /** One turn of the digest loop. */
  lemma {:induction false} NextDigest(p: seq<Byte>, n: nat, list: seq<Digest>, all: DigestsRead, d: Digest)
    requires 2 + |d.value| <= |p| && n > 0 && Completes(all, list, TakeDigests(p, n))
    requires ReadLE16(p, 0) == d.alg && DigestSize(d.alg) == Some(|d.value|) && d.value == p[2..2 + |d.value|]
    ensures Completes(all, list + [d], TakeDigests(p[2 + |d.value|..], n - 1))
  {
    var ahead := TakeDigests(p[2 + |d.value|..], n - 1);
    if ahead.Some? {
      Assoc(list, [d], ahead.value.0);
    }
  }

  /** The digests of one record, entered into its map; p is what is left of the log. */
  method ReadDigests(log: seq<Byte>, count: nat) returns (r: Option<(map<U16, seq<Byte>>, seq<Byte>)>)
    ensures match TakeDigests(log, count)
            case None => r.None?
            case Some((digests, rest)) => r.Some? && r.value.0 == DigestMap(digests) && r.value.1 == rest
  {
    var p := log;
    var digests: map<U16, seq<Byte>> := map[];
    ghost var list: seq<Digest> := [];
    ghost var all := TakeDigests(log, count);
    assert all.Some? ==> [] + all.value.0 == all.value.0;
    for i := 0 to count
      invariant digests == DigestMap(list)
      invariant Completes(all, list, TakeDigests(p, count - i))
    {
      if |p| < 2 {
        return None;
      }
      var algId := ReadLE16(p, 0);
      var digestSize := DigestSize(algId);
      if digestSize.None? || |p| - 2 < digestSize.value {
        return None;
      }
      var digest := Digest(algId, p[2..2 + digestSize.value]);
      NextDigest(p, count - i, list, all, digest);
      DigestMapSnoc(list, digest);
      digests := digests[algId := digest.value];
      list := list + [digest];
      p := p[2 + digestSize.value..];
    }
    assert list + [] == list;
    r := Some((digests, p));
  }

  lemma {:induction false} DigestMapSnoc(list: seq<Digest>, d: Digest)
    ensures DigestMap(list + [d]) == DigestMap(list)[d.alg := d.value]
  {
    var more := list + [d];
    assert more[..|more| - 1] == list;
  }

  datatype Event = Event(pcr: U32, kind: U32, digests: map<U16, seq<Byte>>, data: seq<Byte>)

  /** One record, and the log behind it. */
  method ReadEvent(p: seq<Byte>) returns (r: Option<(Event, seq<Byte>)>)
    ensures match TakeRecord(p)
            case None => r.None?
            case Some((record, rest)) =>
              && r.Some? && r.value.1 == rest
              && r.value.0 == Event(record.pcr, record.kind, DigestMap(record.digests), record.data)
  {
    if |p| < 12 {
      return None;
    }
    var digestCount := ReadLE32(p, 8);
    if digestCount > 8 {
      return None;
    }
    var digests := ReadDigests(p[12..], digestCount);
    if digests.None? {
      return None;
    }
    var data := ReadData(digests.value.1);
    if data.None? {
      return None;
    }
    r := Some((Event(ReadLE32(p, 0), ReadLE32(p, 4), digests.value.0, data.value.0), data.value.1));
  }

  method ReadData(p: seq<Byte>) returns (r: Option<(seq<Byte>, seq<Byte>)>)
    ensures r == TakeData(p)
  {
    if |p| < 4 {
      return None;
    }
    var eventDataSize: nat := ReadLE32(p, 0);
    if |p| - 4 < eventDataSize {
      return None;
    }
    r := Some((p[4..4 + eventDataSize], p[4 + eventDataSize..]));
  }

  method SkipHeader(rawLog: seq<Byte>) returns (p: nat)
    ensures p == BodyStart(rawLog)
  {
    p := 0;
    if |rawLog| >= 32 {
      var eventType := ReadLE32(rawLog, 4);
      if eventType == EV_NO_ACTION {
        var eventDataSize: nat := ReadLE32(rawLog, 28);
        var skip := Cast32(32 + eventDataSize);
        if skip <= |rawLog| {
          p := skip;
        }
      }
    }
  }

  lemma {:induction false} NextRecord(read: seq<Entry>, b: seq<Byte>, all: Access<seq<Entry>>)
    requires TakeRecord(b).Some? && Prepend(read, EntriesOf(Records(b))) == all
    ensures var (record, rest) := TakeRecord(b).value;
            match EntryOf(record)
            case Outside(at) => all == Outside(at)
            case Inside(e) => Prepend(read + [e], EntriesOf(Records(rest))) == all
  {
    var (record, rest) := TakeRecord(b).value;
    assert Records(b) == [record] + Records(rest);
    assert Records(b)[1..] == Records(rest);
    if EntryOf(record).Inside? {
      PrependTwice(read, [EntryOf(record).value], EntriesOf(Records(rest)));
    }
  }

  /** The event loop, from the end of the header. */
  method ReadEvents(body: seq<Byte>, analysis: Analysis) returns (outside: Option<nat>)
    requires analysis.Tallied() && analysis.entries == []
    modifies analysis
    ensures match EntriesOf(Records(body))
            case Outside(at) => outside == Some(at)
            case Inside(es) => outside == None && analysis.Tallied() && analysis.entries == es
  {
    var p := body;
    ghost var all := EntriesOf(Records(body));
    PrependNothing(all);
    while |p| >= 12
      invariant analysis.Tallied()
      invariant Prepend(analysis.entries, EntriesOf(Records(p))) == all
      decreases |p|
    {
      var r := ReadEvent(p);
      if r.None? {
        break;
      }
      var (event, rest) := r.value;
      NextRecord(analysis.entries, p, all);
      outside := analysis.Add(event.pcr, event.kind, event.digests, event.data);
      if outside.Some? {
        return;
      }
      p := rest;
    }
    assert analysis.entries + [] == analysis.entries;
    outside := None;
  }

  method ParseAndAnalyzeEventLog(rawLog: seq<Byte>) returns (r: Access<Analysis>)
    ensures match ParsedEntries(rawLog)
            case Outside(at) => r == Outside(at)
            case Inside(es) =>
              && r.Inside? && fresh(r.value) && r.value.Tallied() && r.value.entries == es
              && (r.value.verdict, r.value.verdictReason) == VerdictOf(es)
  {
    var analysis := new Analysis();
    var p := SkipHeader(rawLog);
    var outside := ReadEvents(rawLog[p..], analysis);
    if outside.Some? {
      return Outside(outside.value);
    }
    analysis.Conclude();
    r := Inside(analysis);
  }

  // ---- Theorems -------------------------------------------------------------

  /** No event of the log is read outside its data. */
  ghost predicate LogInside(log: seq<Byte>) {
    RecordsInside(Records(Body(log)))
  }

  ghost predicate RecordsInside(records: seq<Record>) {
    forall r :: r in records ==> IsVariable(r.kind) ==> NameInside(r.data)
  }

  lemma {:induction false} RecordsInsideIff(records: seq<Record>)
    ensures EntriesOf(records).Inside? <==> RecordsInside(records)
  {
    if records != [] {
      var (first, rest) := (records[0], records[1..]);
      NameInsideIff(first.data, EventLogRender);
      RecordsInsideIff(rest);
      assert forall r :: r in records <==> r == first || r in rest;
    }
  }

  /** The analysis stays inside the log for exactly these logs. */
  lemma {:induction false} LogInsideIff(log: seq<Byte>)
    ensures ParsedEntries(log).Inside? <==> LogInside(log)
  {
    RecordsInsideIff(Records(Body(log)));
  }

  /** The entries that one record gives. */
  function Alone(r: Record): (es: Access<seq<Entry>>) {
    match EntryOf(r)
    case Outside(at) => Outside(at)
    case Inside(e) => Inside([e])
  }

  lemma {:induction false} EntriesOfOne(r: Record)
    ensures EntriesOf([r]) == Alone(r)
  {
    assert EntriesOf([r][1..]) == Inside([]);
    if EntryOf(r).Inside? {
      assert [EntryOf(r).value] + [] == [EntryOf(r).value];
    }
  }

  lemma {:induction false} OneEntry(r: Record)
    requires Loggable(r) && r.kind != EV_NO_ACTION
    ensures ParsedEntries(Serialise([r])) == Alone(r)
  {
    HeaderlessRoundTrip([r]);
    EntriesOfOne(r);
  }

  /** A log of one event that is read outside its data. */
  lemma {:induction false} LogReadOutside(r: Record, guid: seq<Byte>)
    requires |guid| == 16 && r.kind == EV_EFI_VARIABLE_BOOT && r.digests == []
    requires r.data == guid + LE64(0x7FFF_FFFF_FFFF_FFF0) + LE64(0)
    ensures ParsedEntries(Serialise([r])) == Outside(32)
  {
    NameReadOutside(guid, EventLogRender);
    OneEntry(r);
  }

  lemma {:induction false} Conservation(es: seq<Entry>)
    requires forall e :: e in es ==> e.classification == Classify(e.pcr, e.kind)
    ensures Count(es, VERIFIED) + Count(es, POLICY) + Count(es, UNKNOWN) + Count(es, REVOKED) == |es|
    ensures Count(es, REVOKED) == 0
    ensures Count(es, UNKNOWN) == 0 <==> forall e :: e in es ==> e.classification != UNKNOWN
  {
    if es != [] {
      var front, last := es[..|es| - 1], es[|es| - 1];
      assert es == front + [last] && last in es;
      Conservation(front);
      assert forall e :: e in es <==> e in front || e == last;
    }
  }

  /** The last entry with this name decides. */
  ghost predicate LastSecureBootOn(es: seq<Entry>) {
    exists i :: Decides(es, i)
  }

  ghost predicate Decides(es: seq<Entry>, i: int) {
    && 0 <= i < |es| && es[i].variable == "SecureBoot" && SwitchedOn(es[i].data)
    && forall j :: i < j < |es| ==> es[j].variable != "SecureBoot"
  }

  lemma {:induction false} LastDecides(es: seq<Entry>)
    ensures SecureBootOn(es) <==> LastSecureBootOn(es)
  {
    if es != [] {
      var front, n := es[..|es| - 1], |es| - 1;
      LastDecides(front);
      if es[n].variable == "SecureBoot" {
        assert SwitchedOn(es[n].data) ==> Decides(es, n);
      } else {
        forall i
          ensures Decides(es, i) <==> Decides(front, i)
        {
        }
      }
    }
  }

  lemma {:induction false} EntriesClassified(records: seq<Record>)
    requires EntriesOf(records).Inside?
    ensures |EntriesOf(records).value| == |records|
    ensures forall e :: e in EntriesOf(records).value ==> e.classification == Classify(e.pcr, e.kind)
  {
    if records != [] {
      EntriesClassified(records[1..]);
    }
  }

  lemma {:induction false} StartsAlike(front: string, middle: string, back: string)
    requires front != ""
    ensures (front + middle + back)[0] == front[0]
  {
  }

  lemma {:induction false} OtherReason(on: bool, unknown: nat)
    ensures ReasonFor(on, unknown, 0) != UNDETERMINED
  {
    var text := ReasonFor(on, unknown, 0);
    assert UNDETERMINED[0] == 'C' && SECURE_BOOT_DISABLED[0] == 'S' && ALL_VERIFIED[0] == 'S';
    if on && unknown > 0 {
      StartsAlike("Secure Boot enabled, but ", ToString(unknown), " unknown measurement(s) detected");
    }
  }

  /** After every log that is read inside its events: each record is counted once, nothing is ever
      revoked, and the verdict is decided by the last SecureBoot variable and by whether an entry is
      unknown. */
  lemma {:induction false} VerdictExact(log: seq<Byte>)
    requires LogInside(log)
    ensures ParsedEntries(log).Inside?
    ensures var es := ParsedEntries(log).value;
            var (verdict, reason) := VerdictOf(es);
            && Count(es, VERIFIED) + Count(es, POLICY) + Count(es, UNKNOWN) == |es| == |Records(Body(log))|
            && Count(es, REVOKED) == 0
            && (verdict == PASS <==> LastSecureBootOn(es) && forall e :: e in es ==> e.classification != UNKNOWN)
            && (verdict == FAIL <==> !LastSecureBootOn(es))
            && (verdict == FAIL ==> reason == SECURE_BOOT_DISABLED) && reason != UNDETERMINED
  {
    LogInsideIff(log);
    EntriesClassified(Records(Body(log)));
    var es := ParsedEntries(log).value;
    Conservation(es);
    LastDecides(es);
    OtherReason(SecureBootOn(es), Count(es, UNKNOWN));
  }

  // ---- The verdict in terms of the records -----------------------------------

  /** Event types that make an entry a matter of policy: no action, separator, platform configuration
      flags, EFI variables, GPT, EFI action, handoff tables, variable authority. */
  predicate PolicyKind(kind: U32) {
    kind in {
      0x3, 0x4, 0xA, 0x8000_0001, 0x8000_0002, 0x8000_000C, 0x8000_0006, 0x8000_0007, 0x8000_0009, 0x8000_000B,
      0x8000_00E0}
  }

  /** Event types of code that has been verified: POST code, CRTM contents and version, microcode, compact
      hash, boot applications and drivers, firmware blobs. */
  predicate VerifiedKind(kind: U32) {
    kind in {0x1, 0x7, 0x8, 0x9, 0xC, 0x8000_0003, 0x8000_0004, 0x8000_0005, 0x8000_0008, 0x8000_000A}
  }

  /** A record that stays unknown: no such type, and not one of the PCRs 11 to 14. */
  predicate Unexplained(r: Record) {
    !PolicyKind(r.kind) && !VerifiedKind(r.kind) && !(11 <= r.pcr <= 14)
  }

  /** A measurement of the variable SecureBoot. */
  predicate SecureBootRecord(r: Record) {
    r.kind in {0x8000_0001, 0x8000_0002, 0x8000_000C} && VariableName(r.data, EventLogRender) == Inside("SecureBoot")
  }

  /** The last such measurement says that Secure Boot is on. */
  ghost predicate LastRecordOn(rs: seq<Record>) {
    exists i :: RecordDecides(rs, i)
  }

  ghost predicate RecordDecides(rs: seq<Record>, i: int) {
    && 0 <= i < |rs| && SecureBootRecord(rs[i]) && SwitchedOn(rs[i].data)
    && forall j :: i < j < |rs| ==> !SecureBootRecord(rs[j])
  }

  /** How many records stay unknown. */
  function UnexplainedCount(rs: seq<Record>): (n: nat) {
    if rs == [] then 0 else (if Unexplained(rs[0]) then 1 else 0) + UnexplainedCount(rs[1..])
  }

  /** The entry of a record has its label for the type and the PCR alone. */
  ghost predicate Explains(e: Entry, r: Record) {
    && (e.classification == POLICY <==> PolicyKind(r.kind))
    && (e.classification == VERIFIED <==> VerifiedKind(r.kind) || (!PolicyKind(r.kind) && 11 <= r.pcr <= 14))
    && (e.classification == UNKNOWN <==> Unexplained(r))
    && (e.variable == "SecureBoot" <==> SecureBootRecord(r))
    && e.pcr == r.pcr && e.kind == r.kind && e.data == r.data && e.classification != REVOKED
  }

  lemma {:induction false} EntryExplains(r: Record)
    requires EntryOf(r).Inside?
    ensures Explains(EntryOf(r).value, r)
  {
  }

  ghost predicate AllExplain(es: seq<Entry>, rs: seq<Record>) {
    |es| == |rs| && forall i :: 0 <= i < |rs| ==> Explains(es[i], rs[i])
  }

  lemma {:induction false} EntriesExplain(rs: seq<Record>)
    requires EntriesOf(rs).Inside?
    ensures AllExplain(EntriesOf(rs).value, rs)
  {
    if rs != [] {
      EntryExplains(rs[0]);
      EntriesExplain(rs[1..]);
    }
  }

  lemma {:induction false} UnexplainedSnoc(rs: seq<Record>, r: Record)
    ensures UnexplainedCount(rs + [r]) == UnexplainedCount(rs) + (if Unexplained(r) then 1 else 0)
  {
    if rs != [] {
      assert (rs + [r])[1..] == rs[1..] + [r];
      UnexplainedSnoc(rs[1..], r);
    } else {
      assert [] + [r] == [r] && [r][1..] == [];
    }
  }

  lemma {:induction false} CountsAgree(es: seq<Entry>, rs: seq<Record>)
    requires AllExplain(es, rs)
    ensures Count(es, UNKNOWN) == UnexplainedCount(rs)
    decreases |es|
  {
    if es != [] {
      var n := |es| - 1;
      CountsAgree(es[..n], rs[..n]);
      UnexplainedSnoc(rs[..n], rs[n]);
      assert rs == rs[..n] + [rs[n]];
    }
  }

  lemma {:induction false} NoneUnexplained(rs: seq<Record>)
    ensures UnexplainedCount(rs) == 0 <==> forall r :: r in rs ==> !Unexplained(r)
  {
    if rs != [] {
      NoneUnexplained(rs[1..]);
      assert forall r :: r in rs <==> r == rs[0] || r in rs[1..];
    }
  }

  lemma {:induction false} DecisionsAgree(es: seq<Entry>, rs: seq<Record>)
    requires AllExplain(es, rs)
    ensures LastSecureBootOn(es) <==> LastRecordOn(rs)
  {
    forall i
      ensures Decides(es, i) <==> RecordDecides(rs, i)
    {
    }
  }

  /** For every log that is read inside its events: the verdict and the reason, in terms of its records. */
  lemma {:induction false} VerdictOverRecords(log: seq<Byte>)
    requires LogInside(log)
    ensures ParsedEntries(log).Inside?
    ensures var (es, rs) := (ParsedEntries(log).value, Records(Body(log)));
            var ((verdict, reason), unknown) := (VerdictOf(es), UnexplainedCount(rs));
            && AllExplain(es, rs)
            && (verdict == PASS <==> LastRecordOn(rs) && forall r :: r in rs ==> !Unexplained(r))
            && (verdict == FAIL <==> !LastRecordOn(rs))
            && (verdict == PASS ==>
                  reason == "Secure Boot enabled, " + "all boot components verified, no revoked components")
            && (verdict == WARNING ==>
                  reason == "Secure Boot enabled, but " + Decimal(unknown) + " unknown measurement(s) detected")
            && (verdict == FAIL ==>
                  reason == "Secure Boot " + "is DISABLED \U{2014} boot chain integrity cannot be guaranteed")
  {
    var rs := Records(Body(log));
    LogInsideIff(log);
    var es := ParsedEntries(log).value;
    EntriesExplain(rs);
    CountsAgree(es, rs);
    NoneUnexplained(rs);
    LastDecides(es);
    DecisionsAgree(es, rs);
    EntriesClassified(rs);
    Conservation(es);
  }

  lemma {:induction false} OnIsInside(r: Record)
    requires SecureBootRecord(r)
    ensures NameInside(r.data) && r.kind != EV_NO_ACTION
  {
    NameInsideIff(r.data, EventLogRender);
  }

  lemma {:induction false} StaysUnknown(r: Record)
    requires r.kind == 0x99 && r.pcr == 8
    ensures Unexplained(r) && !IsVariable(r.kind) && !SecureBootRecord(r)
  {
  }

  lemma {:induction false} FirstOfTwo(rs: seq<Record>)
    requires |rs| == 2 && SecureBootRecord(rs[0]) && SwitchedOn(rs[0].data) && !SecureBootRecord(rs[1])
    ensures RecordDecides(rs, 0)
  {
    forall j | 0 < j < |rs|
      ensures !SecureBootRecord(rs[j])
    {
      assert j == 1;
    }
  }

  lemma {:induction false} OnThenOther(rs: seq<Record>)
    requires |rs| == 2 && SecureBootRecord(rs[0]) && SwitchedOn(rs[0].data) && rs[1].kind == 0x99 && rs[1].pcr == 8
    ensures RecordsInside(rs) && LastRecordOn(rs) && Unexplained(rs[1]) && rs[0].kind != EV_NO_ACTION
  {
    OnIsInside(rs[0]);
    StaysUnknown(rs[1]);
    FirstOfTwo(rs);
    assert forall r :: r in rs ==> r == rs[0] || r == rs[1];
  }

  /** So one event of no known type is enough to turn PASS into WARNING. */
  lemma {:induction false} UnknownWarns(rs: seq<Record>)
    requires |rs| == 2 && SecureBootRecord(rs[0]) && SwitchedOn(rs[0].data) && rs[1].kind == 0x99 && rs[1].pcr == 8
    requires forall r :: r in rs ==> Loggable(r)
    ensures ParsedEntries(Serialise(rs)).Inside? && VerdictOf(ParsedEntries(Serialise(rs)).value).0 == WARNING
  {
    OnThenOther(rs);
    HeaderlessRoundTrip(rs);
    VerdictOverRecords(Serialise(rs));
  }

  /** The entries of a log with a Spec ID header are those of its records, one for one. */
  lemma {:induction false} EntriesRoundTrip(pcr: U32, sha1: seq<Byte>, data: seq<Byte>, records: seq<Record>)
    requires |sha1| == 20 && 32 + |data| < U32_LIMIT
    requires forall r :: r in records ==> Loggable(r)
    ensures ParsedEntries(HeaderBytes(pcr, sha1, data) + Serialise(records)) == EntriesOf(records)
  {
    RoundTrip(pcr, sha1, data, records);
  }

  lemma {:induction false} FewerEntries(some: seq<Record>, all: seq<Record>)
    requires some <= all && EntriesOf(all).Inside?
    ensures EntriesOf(some).Inside? && EntriesOf(some).value <= EntriesOf(all).value
  {
    if some != [] {
      assert some[0] == all[0] && some[1..] <= all[1..];
      FewerEntries(some[1..], all[1..]);
    }
  }

  /** Losing the end of the log loses entries from the end, and changes none. */
  lemma {:induction false} CutEntries(log: seq<Byte>, n: nat)
    requires BodyStart(log) <= n <= |log| && (BodyStart(log) > 0 ==> n >= 32)
    requires LogInside(log)
    ensures ParsedEntries(log).Inside? && ParsedEntries(log[..n]).Inside?
    ensures ParsedEntries(log[..n]).value <= ParsedEntries(log).value
  {
    LogInsideIff(log);
    CutLog(log, n);
    FewerEntries(Records(Body(log[..n])), Records(Body(log)));
  }

  lemma {:induction false} NoDigestElsewhere(digests: seq<Digest>, alg: U16)
    ensures alg in DigestMap(digests) <==> exists i :: 0 <= i < |digests| && digests[i].alg == alg
  {
    if digests != [] {
      var front, last := digests[..|digests| - 1], digests[|digests| - 1];
      NoDigestElsewhere(front, alg);
      assert forall i :: 0 <= i < |front| ==> digests[i] == front[i];
    }
  }

  /** Of several digests with one algorithm the last one stays, and nothing else is in the map. */
  lemma {:induction false} LastDigestStays(digests: seq<Digest>, k: nat)
    requires k < |digests| && forall j :: k < j < |digests| ==> digests[j].alg != digests[k].alg
    ensures var m := DigestMap(digests); digests[k].alg in m && m[digests[k].alg] == digests[k].value
    ensures forall alg :: alg in DigestMap(digests) <==> exists i :: 0 <= i < |digests| && digests[i].alg == alg
    decreases |digests|
  {
    var front, last := digests[..|digests| - 1], digests[|digests| - 1];
    forall alg
      ensures alg in DigestMap(digests) <==> exists i :: 0 <= i < |digests| && digests[i].alg == alg
    {
      NoDigestElsewhere(digests, alg);
    }
    if k < |front| {
      assert front[k] == digests[k] && forall j :: k < j < |front| ==> front[j] == digests[j];
      LastDigestStays(front, k);
    }
  }

  /** With distinct algorithms the map of an entry has exactly the digests of its record. */
  lemma {:induction false} DigestsKept(digests: seq<Digest>)
    requires forall i, j :: 0 <= i < j < |digests| ==> digests[i].alg != digests[j].alg
    ensures |DigestMap(digests)| == |digests|
    ensures forall i :: 0 <= i < |digests| ==>
              digests[i].alg in DigestMap(digests) && DigestMap(digests)[digests[i].alg] == digests[i].value
  {
    if digests != [] {
      var front, last := digests[..|digests| - 1], digests[|digests| - 1];
      DigestsKept(front);
      NoDigestElsewhere(front, last.alg);
      forall i | 0 <= i < |digests|
        ensures digests[i].alg in DigestMap(digests) && DigestMap(digests)[digests[i].alg] == digests[i].value
      {
        if i < |front| {
          assert front[i] == digests[i];
        }
      }
      assert DigestMap(digests).Keys == DigestMap(front).Keys + {last.alg};
    }
  }
}
