/**
 The Secure Boot chain: what the PK, KEK and db variables in the event log contribute to the report,
 and the verdict that follows.
 */
module SecureBoot {
  import opened Bytes
  import opened EventLog
  import opened EventLogAnalysis
  import opened SignatureLists
  import Json
  import JsonRoundTrip

  /** The validator drops the characters that the event log parser replaces. */
  function ValidatorRender(ch: nat): (text: string) {
    if ch < 128 then [ch as char] else ""
  }

  /** Events that are looked at: variables measured into PCR 7. */
  predicate Relevant(e: Entry) {
    e.pcr == 7 && (e.kind == EV_EFI_VARIABLE_DRIVER_CONFIG || e.kind == EV_EFI_VARIABLE_BOOT)
  }

  /** One such event: the variable's name, and the certificates in its signature lists. */
  datatype KeyEvent = KeyEvent(name: string, certs: seq<CertInfo>)

  /** The name is read before the lists. */
  function KeyEventOf(e: Entry, decode: CertDecoder): (k: Access<KeyEvent>) {
    match VariableName(e.data, ValidatorRender)
    case Outside(at) => Outside(at)
    case Inside(name) =>
      match VariableCerts(e.data, decode)
      case Outside(at) => Outside(at)
      case Inside(certs) => Inside(KeyEvent(name, certs))
  }

  function KeyEvents(es: seq<Entry>, decode: CertDecoder): (ks: Access<seq<KeyEvent>>) {
    if es == [] then Inside([])
    else
      match KeyEvents(es[..|es| - 1], decode)
      case Outside(at) => Outside(at)
      case Inside(front) =>
        if Relevant(es[|es| - 1]) then Next(front, KeyEventOf(es[|es| - 1], decode)) else Inside(front)
  }

  function Next(front: seq<KeyEvent>, last: Access<KeyEvent>): (ks: Access<seq<KeyEvent>>) {
    match last
    case Outside(at) => Outside(at)
    case Inside(k) => Inside(front + [k])
  }

  predicate Contains(s: string, pattern: string) {
    Json.After(s, pattern).Some?
  }

  /** What the report looks for in a certificate. */
  datatype Trait = KNOWN_OEM | MICROSOFT | UEFI_CA_2011 | UEFI_CA_2023 | WINDOWS_PCA_2011

  predicate Has(c: CertInfo, t: Trait) {
    match t
    case KNOWN_OEM => c.isKnownOem
    case MICROSOFT => c.isMicrosoftCert
    case UEFI_CA_2011 => Contains(c.subject, "Microsoft Corporation UEFI CA 2011")
    case UEFI_CA_2023 => Contains(c.subject, "Microsoft UEFI CA 2023") || Contains(c.subject, "Windows UEFI CA 2023")
    case WINDOWS_PCA_2011 => Contains(c.subject, "Microsoft Windows Production PCA 2011")
  }

  // ---- What the report says -------------------------------------------------

  predicate Any(certs: seq<CertInfo>, t: Trait) {
    exists n :: 0 <= n < |certs| && Has(certs[n], t)
  }

  /** Some event of this variable has a certificate of this kind. */
  predicate SomeCert(ks: seq<KeyEvent>, name: string, t: Trait) {
    exists i :: 0 <= i < |ks| && ks[i].name == name && Any(ks[i].certs, t)
  }

  /** The certificates of the last event of this variable. */
  function LastCerts(ks: seq<KeyEvent>, name: string): (certs: seq<CertInfo>) {
    if ks == [] then []
    else if ks[|ks| - 1].name == name then ks[|ks| - 1].certs
    else LastCerts(ks[..|ks| - 1], name)
  }

  /** The last known manufacturer in the list, or the one that is known already. */
  function LastOem(certs: seq<CertInfo>, known: string): (oem: string) {
    if certs == [] then known
    else
      var last := certs[|certs| - 1];
      if last.isKnownOem then last.oemName else LastOem(certs[..|certs| - 1], known)
  }

  function OemName(ks: seq<KeyEvent>): (oem: string) {
    if ks == [] then ""
    else
      var (front, last) := (ks[..|ks| - 1], ks[|ks| - 1]);
      if last.name == "PK" then LastOem(last.certs, OemName(front)) else OemName(front)
  }

  datatype Findings = Findings(
    pkCerts: seq<CertInfo>, pkIsKnownOem: bool, pkOemName: string,
    kekCerts: seq<CertInfo>, kekHasMicrosoft: bool,
    dbCerts: seq<CertInfo>, dbHasMicrosoftUefiCa2011: bool, dbHasMicrosoftUefiCa2023: bool, dbHasWindowsPca2011: bool,
    dbxHashCount: nat)

  function FindingsOf(ks: seq<KeyEvent>): (f: Findings) {
    Findings(
      LastCerts(ks, "PK"), SomeCert(ks, "PK", KNOWN_OEM), OemName(ks),
      LastCerts(ks, "KEK"), SomeCert(ks, "KEK", MICROSOFT),
      LastCerts(ks, "db"), SomeCert(ks, "db", UEFI_CA_2011), SomeCert(ks, "db", UEFI_CA_2023),
      SomeCert(ks, "db", WINDOWS_PCA_2011),
      |LastCerts(ks, "dbx")|)
  }

  /** The three certificates that are looked for in db. */
  function DbTraits(certs: seq<CertInfo>): (r: (bool, bool, bool)) {
    (Any(certs, UEFI_CA_2011), Any(certs, UEFI_CA_2023), Any(certs, WINDOWS_PCA_2011))
  }

  function Either(a: (bool, bool, bool), b: (bool, bool, bool)): (r: (bool, bool, bool)) {
    (a.0 || b.0, a.1 || b.1, a.2 || b.2)
  }

  lemma {:induction false} DbTraitsSnoc(certs: seq<CertInfo>, n: nat)
    requires n < |certs|
    ensures var c := certs[n];
            DbTraits(certs[..n + 1])
            == Either(DbTraits(certs[..n]), (Has(c, UEFI_CA_2011), Has(c, UEFI_CA_2023), Has(c, WINDOWS_PCA_2011)))
  {
    AnySnoc(certs, n, UEFI_CA_2011);
    AnySnoc(certs, n, UEFI_CA_2023);
    AnySnoc(certs, n, WINDOWS_PCA_2011);
  }

  /** What one more event changes. */
  function With(f: Findings, k: KeyEvent): (r: Findings) {
    var (pk, kek, db) := (k.name == "PK", k.name == "KEK", k.name == "db");
    Findings(
      if pk then k.certs else f.pkCerts,
      f.pkIsKnownOem || (pk && Any(k.certs, KNOWN_OEM)),
      if pk then LastOem(k.certs, f.pkOemName) else f.pkOemName,
      if kek then k.certs else f.kekCerts,
      f.kekHasMicrosoft || (kek && Any(k.certs, MICROSOFT)),
      if db then k.certs else f.dbCerts,
      f.dbHasMicrosoftUefiCa2011 || (db && Any(k.certs, UEFI_CA_2011)),
      f.dbHasMicrosoftUefiCa2023 || (db && Any(k.certs, UEFI_CA_2023)),
      f.dbHasWindowsPca2011 || (db && Any(k.certs, WINDOWS_PCA_2011)),
      if k.name == "dbx" then |k.certs| else f.dbxHashCount)
  }

  lemma {:induction false} SomeCertSnoc(ks: seq<KeyEvent>, k: KeyEvent, name: string, t: Trait)
    ensures SomeCert(ks + [k], name, t) <==> SomeCert(ks, name, t) || (k.name == name && Any(k.certs, t))
  {
    var more := ks + [k];
    assert more[|ks|] == k;
    if SomeCert(ks, name, t) {
      var i :| 0 <= i < |ks| && ks[i].name == name && Any(ks[i].certs, t);
      assert more[i] == ks[i];
    }
  }

  lemma {:induction false} LastCertsSnoc(ks: seq<KeyEvent>, k: KeyEvent, name: string)
    ensures LastCerts(ks + [k], name) == if k.name == name then k.certs else LastCerts(ks, name)
  {
    var more := ks + [k];
    assert more[..|more| - 1] == ks;
  }

  lemma {:induction false} OemSnoc(ks: seq<KeyEvent>, k: KeyEvent)
    ensures OemName(ks + [k]) == if k.name == "PK" then LastOem(k.certs, OemName(ks)) else OemName(ks)
  {
    assert (ks + [k])[..|ks + [k]| - 1] == ks;
  }

  /** The report is a fold over the events. */
  lemma {:induction false} FindingsSnoc(ks: seq<KeyEvent>, k: KeyEvent)
    ensures FindingsOf(ks + [k]) == With(FindingsOf(ks), k)
  {
    LastCertsSnoc(ks, k, "PK");
    LastCertsSnoc(ks, k, "KEK");
    LastCertsSnoc(ks, k, "db");
    LastCertsSnoc(ks, k, "dbx");
    SomeCertSnoc(ks, k, "PK", KNOWN_OEM);
    SomeCertSnoc(ks, k, "KEK", MICROSOFT);
    SomeCertSnoc(ks, k, "db", UEFI_CA_2011);
    SomeCertSnoc(ks, k, "db", UEFI_CA_2023);
    SomeCertSnoc(ks, k, "db", WINDOWS_PCA_2011);
    OemSnoc(ks, k);
  }

  // ---- The verdict ----------------------------------------------------------

  const NO_MICROSOFT_KEK :=
    "KEK does not contain Microsoft's KEK certificate \U{2014} boot chain may not be controlled by Microsoft"
  const NO_UEFI_CA :=
    "db does not contain Microsoft's UEFI CA \U{2014} "
    + "only Microsoft-signed boot components are trusted on standard systems"
  const DISABLED := "Secure Boot is DISABLED"
  const SETUP_MODE := "No Platform Key (PK) found \U{2014} Secure Boot is in setup mode"
  const ALL_PRESENT := ", Microsoft UEFI CA in db, Microsoft KEK present"
  const UNKNOWN_PK := "Platform Key issuer not recognized as a known OEM: "

  datatype Outcome = Outcome(chainValid: bool, verdict: string, warnings: seq<string>, errors: seq<string>)

  predicate StartsWith(s: string, p: string) {
    |p| <= |s| && s[..|p|] == p
  }

  lemma {:induction false} OtherWord(s: string, p: string)
    requires s != "" && p != "" && s[0] != p[0]
    ensures !StartsWith(s, p)
  {
    assert |p| <= |s| ==> s[..|p|][0] == s[0];
  }

  /** The one of the three words that the verdict starts with. */
  predicate Headed(s: string, word: string) {
    && (StartsWith(s, "FAIL") <==> word == "FAIL")
    && (StartsWith(s, "WARNING") <==> word == "WARNING")
    && (StartsWith(s, "PASS") <==> word == "PASS")
  }

  lemma {:induction false} Words(word: string, rest: string)
    requires word in {"FAIL", "WARNING", "PASS"}
    ensures Headed(word + rest, word)
  {
    var s := word + rest;
    assert s[..|word|] == word && s[0] == word[0];
    if word != "FAIL" { OtherWord(s, "FAIL"); }
    if word != "WARNING" { OtherWord(s, "WARNING"); }
    if word != "PASS" { OtherWord(s, "PASS"); }
  }

  /** The conditions that the verdict is about. */
  predicate ChainHolds(enabled: bool, f: Findings) {
    enabled && f.pkCerts != [] && f.kekHasMicrosoft && (f.dbHasMicrosoftUefiCa2011 || f.dbHasMicrosoftUefiCa2023)
  }

  class SecureBootChainReport {
    var secureBootEnabled: bool
    var pkCerts: seq<CertInfo>
    var pkIsKnownOem: bool
    var pkOemName: string
    var kekCerts: seq<CertInfo>
    var kekHasMicrosoft: bool
    var dbCerts: seq<CertInfo>
    var dbHasMicrosoftUefiCa2011: bool
    var dbHasMicrosoftUefiCa2023: bool
    var dbHasWindowsPca2011: bool
    var dbxHashCount: nat
    var chainValid: bool
    var verdict: string
    var warnings: seq<string>
    var errors: seq<string>

    ghost function Found(): (f: Findings)
      reads this
    {
      Findings(pkCerts, pkIsKnownOem, pkOemName, kekCerts, kekHasMicrosoft,
               dbCerts, dbHasMicrosoftUefiCa2011, dbHasMicrosoftUefiCa2023, dbHasWindowsPca2011, dbxHashCount)
    }

    /** No verdict has been reached. */
    ghost predicate Blank()
      reads this
    {
      !chainValid && warnings == [] && errors == []
    }

    /** The word that the verdict starts with. */
    ghost function Word(): (word: string)
      reads this
    {
      if !chainValid then "FAIL" else if pkIsKnownOem then "PASS" else "WARNING"
    }

    constructor (secureBootEnabled: bool)
      ensures this.secureBootEnabled == secureBootEnabled
      ensures Found() == FindingsOf([]) && Blank()
    {
      this.secureBootEnabled := secureBootEnabled;
      pkCerts, pkIsKnownOem, pkOemName := [], false, "";
      kekCerts, kekHasMicrosoft := [], false;
      dbCerts, dbHasMicrosoftUefiCa2011, dbHasMicrosoftUefiCa2023, dbHasWindowsPca2011 := [], false, false, false;
      dbxHashCount, chainValid, verdict, warnings, errors := 0, false, "", [], [];
    }

    method NotePk(certs: seq<CertInfo>)
      modifies `pkCerts, `pkIsKnownOem, `pkOemName
      ensures pkCerts == certs && pkIsKnownOem == (old(pkIsKnownOem) || Any(certs, KNOWN_OEM))
      ensures pkOemName == LastOem(certs, old(pkOemName))
    {
      pkCerts := certs;
      for n := 0 to |certs|
        invariant pkCerts == certs && pkIsKnownOem == (old(pkIsKnownOem) || Any(certs[..n], KNOWN_OEM))
        invariant pkOemName == LastOem(certs[..n], old(pkOemName))
      {
        AnySnoc(certs, n, KNOWN_OEM);
        assert certs[..n + 1][..n] == certs[..n];
        if certs[n].isKnownOem {
          pkIsKnownOem := true;
          pkOemName := certs[n].oemName;
        }
      }
      assert certs[..|certs|] == certs;
    }

    method NoteKek(certs: seq<CertInfo>)
      modifies `kekCerts, `kekHasMicrosoft
      ensures kekCerts == certs && kekHasMicrosoft == (old(kekHasMicrosoft) || Any(certs, MICROSOFT))
    {
      kekCerts := certs;
      for n := 0 to |certs|
        invariant kekCerts == certs && kekHasMicrosoft == (old(kekHasMicrosoft) || Any(certs[..n], MICROSOFT))
      {
        AnySnoc(certs, n, MICROSOFT);
        if certs[n].isMicrosoftCert {
          kekHasMicrosoft := true;
        }
      }
      assert certs[..|certs|] == certs;
    }

    ghost function DbFlags(): (r: (bool, bool, bool))
      reads this
    {
      (dbHasMicrosoftUefiCa2011, dbHasMicrosoftUefiCa2023, dbHasWindowsPca2011)
    }

    method NoteDb(certs: seq<CertInfo>)
      modifies `dbCerts, `dbHasMicrosoftUefiCa2011, `dbHasMicrosoftUefiCa2023, `dbHasWindowsPca2011
      ensures dbCerts == certs && DbFlags() == Either(old(DbFlags()), DbTraits(certs))
    {
      dbCerts := certs;
      for n := 0 to |certs|
        invariant dbCerts == certs && DbFlags() == Either(old(DbFlags()), DbTraits(certs[..n]))
      {
        DbTraitsSnoc(certs, n);
        if Has(certs[n], UEFI_CA_2011) {
          dbHasMicrosoftUefiCa2011 := true;
        }
        if Has(certs[n], UEFI_CA_2023) {
          dbHasMicrosoftUefiCa2023 := true;
        }
        if Has(certs[n], WINDOWS_PCA_2011) {
          dbHasWindowsPca2011 := true;
        }
      }
      assert certs[..|certs|] == certs;
    }

    method Note(varName: string, certs: seq<CertInfo>)
      modifies this
      ensures Found() == With(old(Found()), KeyEvent(varName, certs))
      ensures secureBootEnabled == old(secureBootEnabled)
      ensures (chainValid, warnings, errors) == old((chainValid, warnings, errors))
    {
      if varName == "PK" {
        NotePk(certs);
      } else if varName == "KEK" {
        NoteKek(certs);
      } else if varName == "db" {
        NoteDb(certs);
      } else if varName == "dbx" {
        dbxHashCount := |certs|;
      }
    }

    method SetVerdict(word: string, reason: string)
      requires word in {"FAIL", "WARNING", "PASS"}
      modifies `verdict
      ensures verdict == word + (": " + reason) && Headed(verdict, word)
    {
      verdict := word + (": " + reason);
      Words(word, ": " + reason);
    }

    /** Errors make the chain invalid; an unknown manufacturer is only worth a warning. */
    method Review()
      requires warnings == [] && errors == [] && pkCerts != []
      modifies `warnings, `errors
      ensures errors == [] <==> kekHasMicrosoft && (dbHasMicrosoftUefiCa2011 || dbHasMicrosoftUefiCa2023)
      ensures warnings == [] <==> pkIsKnownOem
    {
      if !pkIsKnownOem {
        warnings := warnings + [UNKNOWN_PK + pkCerts[0].subject];
      }
      if !kekHasMicrosoft {
        errors := errors + [NO_MICROSOFT_KEK];
      }
      if !dbHasMicrosoftUefiCa2011 && !dbHasMicrosoftUefiCa2023 {
        errors := errors + [NO_UEFI_CA];
      }
    }

    method Conclude()
      requires Blank()
      modifies `chainValid, `verdict, `warnings, `errors
      ensures chainValid <==> ChainHolds(secureBootEnabled, Found())
      ensures Headed(verdict, Word())
      ensures Found() == old(Found()) && (errors == [] <==> chainValid)
    {
      if !secureBootEnabled {
        errors := [DISABLED];
        SetVerdict("FAIL", "Secure Boot disabled");
        return;
      }
      if pkCerts == [] {
        errors := [SETUP_MODE];
        SetVerdict("FAIL", "No Platform Key");
        return;
      }
      Review();
      if errors != [] {
        SetVerdict("FAIL", errors[0]);
      } else if warnings != [] {
        chainValid := true;
        SetVerdict("WARNING", warnings[0]);
      } else {
        chainValid := true;
        SetVerdict("PASS", "Secure Boot chain fully validated \U{2014} PK from " + pkOemName + ALL_PRESENT);
      }
    }
  }

  lemma {:induction false} AnySnoc(certs: seq<CertInfo>, n: nat, t: Trait)
    requires n < |certs|
    ensures Any(certs[..n + 1], t) <==> Any(certs[..n], t) || Has(certs[n], t)
  {
    var (front, more) := (certs[..n], certs[..n + 1]);
    if Any(front, t) {
      var m :| 0 <= m < n && Has(front[m], t);
      assert more[m] == front[m];
    }
    if Has(certs[n], t) {
      assert more[n] == certs[n];
    }
    if Any(more, t) {
      var m :| 0 <= m <= n && Has(more[m], t);
      assert m < n ==> front[m] == more[m];
    }
  }

  lemma {:induction false} KeyEventsSnoc(es: seq<Entry>, n: nat, decode: CertDecoder)
    requires n < |es| && KeyEvents(es[..n], decode).Inside?
    ensures KeyEvents(es[..n + 1], decode)
            == var front := KeyEvents(es[..n], decode).value;
               if Relevant(es[n]) then Next(front, KeyEventOf(es[n], decode)) else Inside(front)
  {
    assert es[..n + 1][..n] == es[..n];
  }

  /** A read outside an event ends the validation. */
  lemma {:induction false} StaysOutside(es: seq<Entry>, n: nat, decode: CertDecoder)
    requires n <= |es| && KeyEvents(es[..n], decode).Outside?
    ensures KeyEvents(es, decode) == KeyEvents(es[..n], decode)
  {
    if n == |es| {
      assert es[..n] == es;
    } else {
      assert es[..|es| - 1][..n] == es[..n];
      StaysOutside(es[..|es| - 1], n, decode);
    }
  }

  /** The key events of a log. */
  function LogKeys(log: seq<Byte>, decode: CertDecoder): (ks: Access<seq<KeyEvent>>) {
    match ParsedEntries(log)
    case Outside(at) => Outside(at)
    case Inside(es) => KeyEvents(es, decode)
  }

  method ReadKeyEvent(entry: Entry, decode: CertDecoder) returns (k: Access<KeyEvent>)
    ensures k == KeyEventOf(entry, decode)
  {
    var varName := ExtractEfiVariableName(entry.data, ValidatorRender);
    if varName.Outside? {
      return Outside(varName.at);
    }
    var certs := ParseEfiSignatureList(entry.data, decode);
    k := if certs.Inside? then Inside(KeyEvent(varName.value, certs.value)) else Outside(certs.at);
  }

  method Inspect(report: SecureBootChainReport, entry: Entry, decode: CertDecoder) returns (outside: Option<nat>)
    requires report.Blank()
    modifies report
    ensures report.Blank() && report.secureBootEnabled == old(report.secureBootEnabled)
    ensures if !Relevant(entry) then outside == None && report.Found() == old(report.Found())
            else match KeyEventOf(entry, decode)
                 case Outside(at) => outside == Some(at)
                 case Inside(k) => outside == None && report.Found() == With(old(report.Found()), k)
  {
    outside := None;
    if entry.pcr != 7 { return; }
    if entry.kind != EV_EFI_VARIABLE_DRIVER_CONFIG && entry.kind != EV_EFI_VARIABLE_BOOT { return; }
    var k := ReadKeyEvent(entry, decode);
    if k.Outside? {
      return Some(k.at);
    }
    report.Note(k.value.name, k.value.certs);
  }

  method InspectAll(report: SecureBootChainReport, entries: seq<Entry>, decode: CertDecoder)
    returns (outside: Option<nat>)
    requires report.Found() == FindingsOf([]) && report.Blank()
    modifies report
    ensures report.Blank() && report.secureBootEnabled == old(report.secureBootEnabled)
    ensures match KeyEvents(entries, decode)
            case Outside(at) => outside == Some(at)
            case Inside(ks) => outside == None && report.Found() == FindingsOf(ks)
  {
    for n := 0 to |entries|
      invariant report.Blank() && report.secureBootEnabled == old(report.secureBootEnabled)
      invariant KeyEvents(entries[..n], decode).Inside?
      invariant report.Found() == FindingsOf(KeyEvents(entries[..n], decode).value)
    {
      KeyEventsSnoc(entries, n, decode);
      outside := Inspect(report, entries[n], decode);
      if outside.Some? {
        StaysOutside(entries, n + 1, decode);
        return;
      }
      if Relevant(entries[n]) {
        FindingsSnoc(KeyEvents(entries[..n], decode).value, KeyEventOf(entries[n], decode).value);
      }
    }
    assert entries[..|entries|] == entries;
    outside := None;
  }

  method ValidateSecureBootChain(rawEventLog: seq<Byte>, decode: CertDecoder) returns (r: Access<SecureBootChainReport>)
    ensures match LogKeys(rawEventLog, decode)
            case Outside(at) => r == Outside(at)
            case Inside(ks) =>
              && r.Inside? && fresh(r.value) && r.value.Found() == FindingsOf(ks)
              && r.value.secureBootEnabled == SecureBootOn(ParsedEntries(rawEventLog).value)
              && (r.value.chainValid <==> ChainHolds(r.value.secureBootEnabled, r.value.Found()))
              && Headed(r.value.verdict, r.value.Word())
  {
    var analysis := ParseAndAnalyzeEventLog(rawEventLog);
    if analysis.Outside? {
      return Outside(analysis.at);
    }
    var report := new SecureBootChainReport(analysis.value.secureBootEnabled);
    var outside := InspectAll(report, analysis.value.entries, decode);
    if outside.Some? {
      return Outside(outside.value);
    }
    report.Conclude();
    r := Inside(report);
  }

  // ---- Theorems -------------------------------------------------------------

  ghost predicate LastHasCerts(ks: seq<KeyEvent>, name: string, i: int) {
    0 <= i < |ks| && ks[i].name == name && ks[i].certs != [] && forall j :: i < j < |ks| ==> ks[j].name != name
  }

  lemma {:induction false} LastCertsExact(ks: seq<KeyEvent>, name: string)
    ensures LastCerts(ks, name) != [] <==> exists i :: LastHasCerts(ks, name, i)
  {
    if ks != [] {
      var front, n := ks[..|ks| - 1], |ks| - 1;
      LastCertsExact(front, name);
      if ks[n].name == name {
        assert ks[n].certs != [] ==> LastHasCerts(ks, name, n);
      } else {
        forall i
          ensures LastHasCerts(ks, name, i) <==> LastHasCerts(front, name, i)
        {
        }
      }
    }
  }

  /** No event of the log is read outside its data, by the analysis or by the validation. */
  ghost predicate ChainInside(log: seq<Byte>) {
    && LogInside(log)
    && forall r :: r in Records(Body(log)) ==> MeasuresKey(r) ==> ListsInside(r.data)
  }

  predicate MeasuresKey(r: Record) {
    r.pcr == 7 && (r.kind == EV_EFI_VARIABLE_DRIVER_CONFIG || r.kind == EV_EFI_VARIABLE_BOOT)
  }

  lemma {:induction false} KeyEventInside(e: Entry, decode: CertDecoder)
    requires NameInside(e.data) && |e.data| < U32_LIMIT
    ensures KeyEventOf(e, decode).Inside? <==> ListsInside(e.data)
  {
    NameInsideIff(e.data, ValidatorRender);
    ListsInsideIff(e.data, decode);
  }

  lemma {:induction false} KeyEventsInside(es: seq<Entry>, decode: CertDecoder)
    requires forall e :: e in es ==> Relevant(e) ==> NameInside(e.data) && |e.data| < U32_LIMIT
    ensures KeyEvents(es, decode).Inside? <==> forall e :: e in es ==> Relevant(e) ==> ListsInside(e.data)
  {
    if es != [] {
      var (front, last) := (es[..|es| - 1], es[|es| - 1]);
      KeyEventsInside(front, decode);
      if Relevant(last) {
        KeyEventInside(last, decode);
      }
      assert forall e :: e in es <==> e in front || e == last;
    }
  }

  /** One entry for each record, with its event. */
  ghost predicate Matches(rs: seq<Record>, es: seq<Entry>) {
    |es| == |rs| && forall i :: 0 <= i < |rs| ==> es[i].data == rs[i].data && (Relevant(es[i]) <==> MeasuresKey(rs[i]))
  }

  lemma {:induction false} EntriesMatch(records: seq<Record>)
    requires EntriesOf(records).Inside?
    ensures Matches(records, EntriesOf(records).value)
  {
    if records != [] {
      EntriesMatch(records[1..]);
    }
  }

  lemma {:induction false} KeysMatch(rs: seq<Record>, es: seq<Entry>)
    requires Matches(rs, es)
    ensures (forall e :: e in es ==> Relevant(e) ==> ListsInside(e.data))
            <==> forall r :: r in rs ==> MeasuresKey(r) ==> ListsInside(r.data)
  {
    if forall e :: e in es ==> Relevant(e) ==> ListsInside(e.data) {
      forall r | r in rs && MeasuresKey(r)
        ensures ListsInside(r.data)
      {
        var i :| 0 <= i < |rs| && rs[i] == r;
        assert es[i] in es;
      }
    }
    if forall r :: r in rs ==> MeasuresKey(r) ==> ListsInside(r.data) {
      forall e | e in es && Relevant(e)
        ensures ListsInside(e.data)
      {
        var i :| 0 <= i < |es| && es[i] == e;
        assert rs[i] in rs;
      }
    }
  }

  lemma {:induction false} NamesMatch(rs: seq<Record>, es: seq<Entry>)
    requires Matches(rs, es) && RecordsInside(rs) && forall r :: r in rs ==> Loggable(r)
    ensures forall e :: e in es ==> Relevant(e) ==> NameInside(e.data) && |e.data| < U32_LIMIT
  {
    forall e | e in es && Relevant(e)
      ensures NameInside(e.data) && |e.data| < U32_LIMIT
    {
      var i :| 0 <= i < |es| && es[i] == e;
      assert rs[i] in rs;
    }
  }

  /** The validation stays inside the log for exactly these logs. */
  lemma {:induction false} ChainInsideIff(log: seq<Byte>, decode: CertDecoder)
    ensures LogKeys(log, decode).Inside? <==> ChainInside(log)
  {
    LogInsideIff(log);
    if LogInside(log) {
      var (rs, es) := (Records(Body(log)), ParsedEntries(log).value);
      EntriesMatch(rs);
      ParsedPrefix(Body(log));
      NamesMatch(rs, es);
      KeysMatch(rs, es);
      KeyEventsInside(es, decode);
    }
  }

  lemma {:induction false} OneKeyEvent(e: Entry, decode: CertDecoder)
    requires Relevant(e)
    ensures KeyEvents([e], decode) == Next([], KeyEventOf(e, decode))
  {
    assert [e][..0] == [];
  }

  /** A log of one event that the analysis reads inside its data, and the validation does not. */
  lemma {:induction false} ChainReadOutside(r: Record, guid: seq<Byte>, decode: CertDecoder)
    requires |guid| == 16 && r.pcr == 7 && r.kind == EV_EFI_VARIABLE_BOOT && r.digests == []
    requires r.data == guid + LE64(0) + LE64(0xFFFF_FFFF_FFFF_FFE0)
    ensures ParsedEntries(Serialise([r])).Inside? && LogKeys(Serialise([r]), decode) == Outside(48)
  {
    ListsReadOutside(guid, decode);
    NameInsideIff(r.data, EventLogRender);
    NameInsideIff(r.data, ValidatorRender);
    OneEntry(r);
    OneKeyEvent(EntryOf(r).value, decode);
  }

  /** After every log that is read inside its events, the chain is valid if and only if the last
      SecureBoot variable is on, the last PK event has a certificate, some KEK event has one of
      Microsoft's, and some db event has one of the two UEFI CAs. */
  lemma {:induction false} ChainExact(log: seq<Byte>, decode: CertDecoder)
    requires ChainInside(log)
    ensures ParsedEntries(log).Inside? && LogKeys(log, decode).Inside?
    ensures var (es, ks) := (ParsedEntries(log).value, LogKeys(log, decode).value);
            ChainHolds(SecureBootOn(es), FindingsOf(ks)) <==>
              && LastSecureBootOn(es)
              && (exists i :: LastHasCerts(ks, "PK", i))
              && (exists i, n :: 0 <= i < |ks| && ks[i].name == "KEK" && 0 <= n < |ks[i].certs|
                                 && ks[i].certs[n].isMicrosoftCert)
              && (exists i, n :: 0 <= i < |ks| && ks[i].name == "db" && 0 <= n < |ks[i].certs|
                                 && (|| Contains(ks[i].certs[n].subject, "Microsoft Corporation UEFI CA 2011")
                                     || Contains(ks[i].certs[n].subject, "Microsoft UEFI CA 2023")
                                     || Contains(ks[i].certs[n].subject, "Windows UEFI CA 2023")))
  {
    ChainInsideIff(log, decode);
    var (es, ks) := (ParsedEntries(log).value, LogKeys(log, decode).value);
    LastDecides(es);
    LastCertsExact(ks, "PK");
    SomeCertExact(ks);
  }

  lemma {:induction false} SomeCertExact(ks: seq<KeyEvent>)
    ensures SomeCert(ks, "KEK", MICROSOFT) <==>
              exists i, n :: 0 <= i < |ks| && ks[i].name == "KEK" && 0 <= n < |ks[i].certs|
                             && ks[i].certs[n].isMicrosoftCert
    ensures SomeCert(ks, "db", UEFI_CA_2011) || SomeCert(ks, "db", UEFI_CA_2023) <==>
              exists i, n :: 0 <= i < |ks| && ks[i].name == "db" && 0 <= n < |ks[i].certs|
                             && (Has(ks[i].certs[n], UEFI_CA_2011) || Has(ks[i].certs[n], UEFI_CA_2023))
  {
  }

  // ---- The chain in terms of the records -------------------------------------

  /** A measurement of this variable into PCR 7. */
  predicate KeyRecord(r: Record, name: string) {
    && r.pcr == 7 && (r.kind == 0x8000_0001 || r.kind == 0x8000_0002)
    && VariableName(r.data, ValidatorRender) == Inside(name)
  }

  /** The certificates in its signature lists. */
  function CertsOf(r: Record, decode: CertDecoder): (certs: seq<CertInfo>) {
    match VariableCerts(r.data, decode)
    case Outside(_) => []
    case Inside(certs) => certs
  }

  function RecordKey(r: Record, decode: CertDecoder): (k: KeyEvent) {
    KeyEvent(match VariableName(r.data, ValidatorRender) case Outside(_) => "" case Inside(name) => name,
             CertsOf(r, decode))
  }

  function RecordKeys(rs: seq<Record>, decode: CertDecoder): (ks: seq<KeyEvent>) {
    if rs == [] then []
    else
      var (front, last) := (rs[..|rs| - 1], rs[|rs| - 1]);
      RecordKeys(front, decode) + (if MeasuresKey(last) then [RecordKey(last, decode)] else [])
  }

  lemma {:induction false} KeysOfRecords(rs: seq<Record>, es: seq<Entry>, decode: CertDecoder)
    requires Matches(rs, es) && KeyEvents(es, decode).Inside?
    ensures KeyEvents(es, decode) == Inside(RecordKeys(rs, decode))
    decreases |rs|
  {
    if rs != [] {
      var n := |rs| - 1;
      assert Matches(rs[..n], es[..n]) && KeyEvents(es[..n], decode).Inside?;
      KeysOfRecords(rs[..n], es[..n], decode);
      OneRecordKey(rs[n], es[n], decode);
      var front := RecordKeys(rs[..n], decode);
      assert front + [] == front;
    }
  }

  lemma {:induction false} OneRecordKey(r: Record, e: Entry, decode: CertDecoder)
    requires e.data == r.data
    ensures KeyEventOf(e, decode).Inside? ==> KeyEventOf(e, decode) == Inside(RecordKey(r, decode))
  {
  }

  /** Some measurement of this variable has a certificate of this kind. */
  ghost predicate SomeRecord(rs: seq<Record>, name: string, t: Trait, decode: CertDecoder) {
    exists i :: 0 <= i < |rs| && RecordHas(rs[i], name, t, decode)
  }

  predicate RecordHas(r: Record, name: string, t: Trait, decode: CertDecoder) {
    KeyRecord(r, name) && Any(CertsOf(r, decode), t)
  }

  /** The last measurement of this variable has certificates. */
  ghost predicate LastRecordHasCerts(rs: seq<Record>, name: string, decode: CertDecoder) {
    exists i :: LastKeyRecord(rs, name, i) && CertsOf(rs[i], decode) != []
  }

  ghost predicate LastKeyRecord(rs: seq<Record>, name: string, i: int) {
    0 <= i < |rs| && KeyRecord(rs[i], name) && forall j :: i < j < |rs| ==> !KeyRecord(rs[j], name)
  }

  lemma {:induction false} SomeRecordSnoc(rs: seq<Record>, r: Record, name: string, t: Trait, decode: CertDecoder)
    ensures SomeRecord(rs + [r], name, t, decode) <==> SomeRecord(rs, name, t, decode) || RecordHas(r, name, t, decode)
  {
    var more := rs + [r];
    assert more[|rs|] == r;
    if SomeRecord(rs, name, t, decode) {
      var i :| 0 <= i < |rs| && RecordHas(rs[i], name, t, decode);
      assert more[i] == rs[i];
    }
  }

  /** The name of every variable that is looked at can be read. */
  ghost predicate NamesInside(rs: seq<Record>) {
    forall i :: 0 <= i < |rs| ==> MeasuresKey(rs[i]) ==> VariableName(rs[i].data, ValidatorRender).Inside?
  }

  lemma {:induction false} KeyOfRecord(r: Record, name: string, t: Trait, decode: CertDecoder)
    requires MeasuresKey(r) ==> VariableName(r.data, ValidatorRender).Inside?
    ensures KeyRecord(r, name) <==> MeasuresKey(r) && RecordKey(r, decode).name == name
    ensures RecordHas(r, name, t, decode)
            <==> MeasuresKey(r) && RecordKey(r, decode).name == name && Any(RecordKey(r, decode).certs, t)
  {
  }

  lemma {:induction false} RecordKeysSnoc(front: seq<Record>, last: Record, decode: CertDecoder)
    ensures RecordKeys(front + [last], decode)
            == RecordKeys(front, decode) + (if MeasuresKey(last) then [RecordKey(last, decode)] else [])
  {
    assert (front + [last])[..|front|] == front;
  }

  lemma {:induction false} SomeAgree(rs: seq<Record>, name: string, t: Trait, decode: CertDecoder)
    requires NamesInside(rs)
    ensures SomeCert(RecordKeys(rs, decode), name, t) <==> SomeRecord(rs, name, t, decode)
    decreases |rs|
  {
    if rs != [] {
      var (front, last) := (rs[..|rs| - 1], rs[|rs| - 1]);
      assert rs == front + [last];
      SomeAgree(front, name, t, decode);
      SomeAgreeSnoc(front, last, name, t, decode, RecordKeys(front, decode));
    }
  }

  lemma {:induction false} SomeAgreeSnoc(front: seq<Record>, last: Record, name: string, t: Trait, decode: CertDecoder,
                                         ks: seq<KeyEvent>)
    requires MeasuresKey(last) ==> VariableName(last.data, ValidatorRender).Inside?
    requires ks == RecordKeys(front, decode) && (SomeCert(ks, name, t) <==> SomeRecord(front, name, t, decode))
    ensures SomeCert(RecordKeys(front + [last], decode), name, t) <==> SomeRecord(front + [last], name, t, decode)
  {
    RecordKeysSnoc(front, last, decode);
    SomeRecordSnoc(front, last, name, t, decode);
    KeyOfRecord(last, name, t, decode);
    if MeasuresKey(last) {
      SomeCertSnoc(ks, RecordKey(last, decode), name, t);
    } else {
      assert ks + [] == ks;
    }
  }

  lemma {:induction false} LastRecordSnoc(rs: seq<Record>, r: Record, name: string, decode: CertDecoder)
    ensures LastRecordHasCerts(rs + [r], name, decode)
            <==> if KeyRecord(r, name) then CertsOf(r, decode) != [] else LastRecordHasCerts(rs, name, decode)
  {
    var more := rs + [r];
    assert more[|rs|] == r && forall k :: 0 <= k < |rs| ==> more[k] == rs[k];
    if KeyRecord(r, name) {
      assert LastKeyRecord(more, name, |rs|);
    } else {
      forall i
        ensures LastKeyRecord(more, name, i) <==> LastKeyRecord(rs, name, i)
      {
        if LastKeyRecord(more, name, i) {
          assert i < |rs|;
          assert forall j :: i < j < |rs| ==> rs[j] == more[j];
        }
      }
    }
  }

  lemma {:induction false} LastAgrees(rs: seq<Record>, name: string, decode: CertDecoder)
    requires NamesInside(rs)
    ensures LastCerts(RecordKeys(rs, decode), name) != [] <==> LastRecordHasCerts(rs, name, decode)
    decreases |rs|
  {
    if rs != [] {
      var (front, last) := (rs[..|rs| - 1], rs[|rs| - 1]);
      assert rs == front + [last];
      LastAgrees(front, name, decode);
      LastAgreesSnoc(front, last, name, decode, RecordKeys(front, decode));
    }
  }

  lemma {:induction false} LastAgreesSnoc(front: seq<Record>, last: Record, name: string, decode: CertDecoder,
                                          ks: seq<KeyEvent>)
    requires MeasuresKey(last) ==> VariableName(last.data, ValidatorRender).Inside?
    requires ks == RecordKeys(front, decode) && (LastCerts(ks, name) != [] <==> LastRecordHasCerts(front, name, decode))
    ensures LastCerts(RecordKeys(front + [last], decode), name) != []
            <==> LastRecordHasCerts(front + [last], name, decode)
  {
    RecordKeysSnoc(front, last, decode);
    LastRecordSnoc(front, last, name, decode);
    KeyOfRecord(last, name, MICROSOFT, decode);
    if MeasuresKey(last) {
      LastCertsSnoc(ks, RecordKey(last, decode), name);
    } else {
      assert ks + [] == ks;
    }
  }

  predicate StandsAt(s: string, pattern: string, i: nat) {
    i + |pattern| <= |s| && s[i..i + |pattern|] == pattern
  }

  lemma {:induction false} StandsIsFound(s: string, pattern: string, i: nat)
    requires StandsAt(s, pattern, i)
    ensures Contains(s, pattern)
  {
    assert s[i..i + |pattern|] == s[i..][..|pattern|];
    assert JsonRoundTrip.Prefix(pattern, s[i..]);
    if !Contains(s, pattern) {
      JsonRoundTrip.NotFoundIsAbsent(s, pattern);
    }
  }

  /** A pattern is contained in a text exactly if it stands somewhere in it. */
  lemma {:induction false} ContainsIff(s: string, pattern: string)
    ensures Contains(s, pattern) <==> exists i: nat :: StandsAt(s, pattern, i)
  {
    if Contains(s, pattern) {
      JsonRoundTrip.FoundOccurs(s, pattern);
      var i :| 0 <= i <= |s| && JsonRoundTrip.Prefix(pattern, s[i..]);
      assert s[i..i + |pattern|] == s[i..][..|pattern|];
      assert StandsAt(s, pattern, i);
    } else if exists i: nat :: StandsAt(s, pattern, i) {
      var i: nat :| StandsAt(s, pattern, i);
      StandsIsFound(s, pattern, i);
    }
  }

  // The four things that are looked for, with the names and subjects written out.

  ghost predicate KnownPk(rs: seq<Record>, decode: CertDecoder) {
    exists r, c :: r in rs && KeyRecord(r, "PK") && c in CertsOf(r, decode) && c.isKnownOem
  }

  ghost predicate MicrosoftKek(rs: seq<Record>, decode: CertDecoder) {
    exists r, c :: r in rs && KeyRecord(r, "KEK") && c in CertsOf(r, decode) && c.isMicrosoftCert
  }

  ghost predicate UefiCaInDb(rs: seq<Record>, decode: CertDecoder) {
    exists r, c :: r in rs && KeyRecord(r, "db") && c in CertsOf(r, decode) && UefiSubject(c)
  }

  ghost predicate SubjectInDb(rs: seq<Record>, subject: string, decode: CertDecoder) {
    exists r, c :: r in rs && KeyRecord(r, "db") && c in CertsOf(r, decode) && Contains(c.subject, subject)
  }

  predicate UefiSubject(c: CertInfo) {
    || Contains(c.subject, "Microsoft Corporation UEFI CA 2011")
    || Contains(c.subject, "Microsoft UEFI CA 2023")
    || Contains(c.subject, "Windows UEFI CA 2023")
  }

  ghost predicate WindowsPcaInDb(rs: seq<Record>, decode: CertDecoder) {
    exists r, c :: r in rs && KeyRecord(r, "db") && c in CertsOf(r, decode) && PcaSubject(c)
  }

  predicate PcaSubject(c: CertInfo) {
    Contains(c.subject, "Microsoft Windows Production PCA 2011")
  }

  lemma {:induction false} SomeRecordIs(rs: seq<Record>, name: string, t: Trait, decode: CertDecoder)
    ensures SomeRecord(rs, name, t, decode)
            <==> exists r, c :: r in rs && KeyRecord(r, name) && c in CertsOf(r, decode) && Has(c, t)
  {
    if SomeRecord(rs, name, t, decode) {
      var i :| 0 <= i < |rs| && RecordHas(rs[i], name, t, decode);
      var n :| 0 <= n < |CertsOf(rs[i], decode)| && Has(CertsOf(rs[i], decode)[n], t);
      assert rs[i] in rs && CertsOf(rs[i], decode)[n] in CertsOf(rs[i], decode);
    }
    if exists r, c :: r in rs && KeyRecord(r, name) && c in CertsOf(r, decode) && Has(c, t) {
      var r, c :| r in rs && KeyRecord(r, name) && c in CertsOf(r, decode) && Has(c, t);
      var i :| 0 <= i < |rs| && rs[i] == r;
      var n :| 0 <= n < |CertsOf(r, decode)| && CertsOf(r, decode)[n] == c;
      assert RecordHas(rs[i], name, t, decode);
    }
  }

  lemma {:induction false} KeyConditions(rs: seq<Record>, decode: CertDecoder)
    ensures SomeRecord(rs, "PK", KNOWN_OEM, decode) <==> KnownPk(rs, decode)
    ensures SomeRecord(rs, "KEK", MICROSOFT, decode) <==> MicrosoftKek(rs, decode)
  {
    SomeRecordIs(rs, "PK", KNOWN_OEM, decode);
    SomeRecordIs(rs, "KEK", MICROSOFT, decode);
  }

  lemma {:induction false} UefiConditions(rs: seq<Record>, decode: CertDecoder)
    ensures SomeRecord(rs, "db", UEFI_CA_2011, decode) || SomeRecord(rs, "db", UEFI_CA_2023, decode)
            <==> UefiCaInDb(rs, decode)
  {
    SomeRecordIs(rs, "db", UEFI_CA_2011, decode);
    SomeRecordIs(rs, "db", UEFI_CA_2023, decode);
    forall c: CertInfo
      ensures UefiSubject(c) <==> Has(c, UEFI_CA_2011) || Has(c, UEFI_CA_2023)
    {
      SubjectsAre(c);
    }
  }

  lemma {:induction false} PcaConditions(rs: seq<Record>, decode: CertDecoder)
    ensures SomeRecord(rs, "db", WINDOWS_PCA_2011, decode) <==> WindowsPcaInDb(rs, decode)
  {
    SomeRecordIs(rs, "db", WINDOWS_PCA_2011, decode);
    forall c: CertInfo
      ensures PcaSubject(c) <==> Has(c, WINDOWS_PCA_2011)
    {
      SubjectsAre(c);
    }
  }

  lemma {:induction false} OlderConditions(rs: seq<Record>, decode: CertDecoder)
    ensures SomeRecord(rs, "db", UEFI_CA_2011, decode)
            <==> SubjectInDb(rs, "Microsoft Corporation UEFI CA 2011", decode)
  {
    SomeRecordIs(rs, "db", UEFI_CA_2011, decode);
  }

  lemma {:induction false} NewerConditions(rs: seq<Record>, decode: CertDecoder)
    ensures SomeRecord(rs, "db", UEFI_CA_2023, decode)
            <==> SubjectInDb(rs, "Microsoft UEFI CA 2023", decode) || SubjectInDb(rs, "Windows UEFI CA 2023", decode)
  {
    SomeRecordIs(rs, "db", UEFI_CA_2023, decode);
  }

  lemma {:induction false} SubjectsAre(c: CertInfo)
    ensures UefiSubject(c) <==> Has(c, UEFI_CA_2011) || Has(c, UEFI_CA_2023)
    ensures PcaSubject(c) <==> Has(c, WINDOWS_PCA_2011)
  {
  }

  lemma {:induction false} NamesAreInside(rs: seq<Record>)
    requires RecordsInside(rs)
    ensures NamesInside(rs)
  {
    forall i | 0 <= i < |rs| && MeasuresKey(rs[i])
      ensures VariableName(rs[i].data, ValidatorRender).Inside?
    {
      assert rs[i] in rs;
      NameInsideIff(rs[i].data, ValidatorRender);
    }
  }

  /** What the report of a log says, in terms of its records. */
  ghost predicate Reports(f: Findings, rs: seq<Record>, decode: CertDecoder) {
    && (f.pkCerts != [] <==> LastRecordHasCerts(rs, "PK", decode))
    && (f.pkIsKnownOem <==> KnownPk(rs, decode)) && (f.kekHasMicrosoft <==> MicrosoftKek(rs, decode))
    && (f.dbHasMicrosoftUefiCa2011 || f.dbHasMicrosoftUefiCa2023 <==> UefiCaInDb(rs, decode))
    && (f.dbHasMicrosoftUefiCa2011 <==> SubjectInDb(rs, "Microsoft Corporation UEFI CA 2011", decode))
    && (f.dbHasMicrosoftUefiCa2023
        <==> SubjectInDb(rs, "Microsoft UEFI CA 2023", decode) || SubjectInDb(rs, "Windows UEFI CA 2023", decode))
    && (f.dbHasWindowsPca2011 <==> WindowsPcaInDb(rs, decode))
  }

  /** The lists that it keeps, and the name of the manufacturer. */
  ghost predicate Keeps(f: Findings, rs: seq<Record>, decode: CertDecoder) {
    && LastList(rs, "PK", decode, f.pkCerts) && LastList(rs, "KEK", decode, f.kekCerts)
    && LastList(rs, "db", decode, f.dbCerts)
    && (exists dbx :: LastList(rs, "dbx", decode, dbx) && f.dbxHashCount == |dbx|)
    && OemIs(rs, decode, f.pkOemName)
  }

  /** The certificates of the last measurement of this variable; none if there is none. */
  ghost predicate LastList(rs: seq<Record>, name: string, decode: CertDecoder, certs: seq<CertInfo>) {
    || (certs == [] && forall i :: 0 <= i < |rs| ==> !KeyRecord(rs[i], name))
    || exists i :: LastKeyRecord(rs, name, i) && certs == CertsOf(rs[i], decode)
  }

  lemma {:induction false} LastListSnoc(rs: seq<Record>, r: Record, name: string, decode: CertDecoder,
                                        certs: seq<CertInfo>)
    requires LastList(rs, name, decode, certs)
    ensures LastList(rs + [r], name, decode, if KeyRecord(r, name) then CertsOf(r, decode) else certs)
  {
    var more := rs + [r];
    assert more[|rs|] == r && forall k :: 0 <= k < |rs| ==> more[k] == rs[k];
    if KeyRecord(r, name) {
      assert LastKeyRecord(more, name, |rs|);
    } else if exists i :: LastKeyRecord(rs, name, i) && certs == CertsOf(rs[i], decode) {
      var i :| LastKeyRecord(rs, name, i) && certs == CertsOf(rs[i], decode);
      assert LastKeyRecord(more, name, i);
    }
  }

  lemma {:induction false} ListAgrees(rs: seq<Record>, name: string, decode: CertDecoder)
    requires NamesInside(rs)
    ensures LastList(rs, name, decode, LastCerts(RecordKeys(rs, decode), name))
    decreases |rs|
  {
    if rs != [] {
      var (front, last) := (rs[..|rs| - 1], rs[|rs| - 1]);
      var ks := RecordKeys(front, decode);
      assert rs == front + [last];
      ListAgrees(front, name, decode);
      LastListSnoc(front, last, name, decode, LastCerts(ks, name));
      KeyOfRecord(last, name, MICROSOFT, decode);
      if MeasuresKey(last) {
        LastCertsSnoc(ks, RecordKey(last, decode), name);
      } else {
        assert ks + [] == ks;
      }
    }
  }

  /** A certificate of a known manufacturer in a measured PK. */
  predicate KnownAt(rs: seq<Record>, decode: CertDecoder, i: int, n: int) {
    0 <= i < |rs| && KnownIn(rs[i], decode, n)
  }

  predicate KnownIn(r: Record, decode: CertDecoder, n: int) {
    KeyRecord(r, "PK") && 0 <= n < |CertsOf(r, decode)| && CertsOf(r, decode)[n].isKnownOem
  }

  /** The last one: none in a later measurement, and none behind it in its own. */
  ghost predicate LastKnown(rs: seq<Record>, decode: CertDecoder, i: int, n: int) {
    KnownAt(rs, decode, i, n) && forall j, m :: KnownAt(rs, decode, j, m) ==> j < i || (j == i && m <= n)
  }

  /** The manufacturer is that of the last such certificate; no name if there is none. */
  ghost predicate OemIs(rs: seq<Record>, decode: CertDecoder, oem: string) {
    || (oem == "" && forall i, n :: !KnownAt(rs, decode, i, n))
    || exists i, n :: LastKnown(rs, decode, i, n) && oem == CertsOf(rs[i], decode)[n].oemName
  }

  /** The last certificate of a known manufacturer in one list. */
  predicate LastIn(certs: seq<CertInfo>, n: int) {
    0 <= n < |certs| && certs[n].isKnownOem && forall m :: n < m < |certs| ==> !certs[m].isKnownOem
  }

  lemma {:induction false} LastOemIs(certs: seq<CertInfo>, known: string) returns (n: int)
    ensures n < 0 ==> LastOem(certs, known) == known && forall m :: 0 <= m < |certs| ==> !certs[m].isKnownOem
    ensures n >= 0 ==> LastIn(certs, n) && LastOem(certs, known) == certs[n].oemName
    decreases |certs|
  {
    n := -1;
    if certs != [] {
      var front := certs[..|certs| - 1];
      if certs[|front|].isKnownOem {
        n := |front|;
      } else {
        n := LastOemIs(front, known);
        assert forall m :: 0 <= m < |front| ==> front[m] == certs[m];
      }
    }
  }

  /** A record without such a certificate changes nothing. */
  lemma {:induction false} NoneKnown(rs: seq<Record>, r: Record, decode: CertDecoder, oem: string)
    requires OemIs(rs, decode, oem) && forall n :: !KnownIn(r, decode, n)
    ensures OemIs(rs + [r], decode, oem)
  {
    var more := rs + [r];
    forall j, m
      ensures KnownAt(more, decode, j, m) <==> KnownAt(rs, decode, j, m)
    {
      if 0 <= j < |rs| {
        assert more[j] == rs[j];
      } else if j == |rs| {
        assert more[j] == r;
      }
    }
    if exists i, m :: LastKnown(rs, decode, i, m) && oem == CertsOf(rs[i], decode)[m].oemName {
      var i, m :| LastKnown(rs, decode, i, m) && oem == CertsOf(rs[i], decode)[m].oemName;
      assert more[i] == rs[i] && LastKnown(more, decode, i, m);
    }
  }

  lemma {:induction false} OemIsSnoc(rs: seq<Record>, r: Record, decode: CertDecoder, oem: string)
    requires OemIs(rs, decode, oem)
    ensures OemIs(rs + [r], decode, if KeyRecord(r, "PK") then LastOem(CertsOf(r, decode), oem) else oem)
  {
    var more := rs + [r];
    assert more[|rs|] == r;
    var n := LastOemIs(CertsOf(r, decode), oem);
    if KeyRecord(r, "PK") && n >= 0 {
      assert LastKnown(more, decode, |rs|, n);
    } else {
      NoneKnown(rs, r, decode, oem);
    }
  }

  lemma {:induction false} OemAgrees(rs: seq<Record>, decode: CertDecoder)
    requires NamesInside(rs)
    ensures OemIs(rs, decode, OemName(RecordKeys(rs, decode)))
    decreases |rs|
  {
    if rs != [] {
      var (front, last) := (rs[..|rs| - 1], rs[|rs| - 1]);
      var ks := RecordKeys(front, decode);
      assert rs == front + [last];
      OemAgrees(front, decode);
      OemIsSnoc(front, last, decode, OemName(ks));
      KeyOfRecord(last, "PK", MICROSOFT, decode);
      if MeasuresKey(last) {
        OemSnoc(ks, RecordKey(last, decode));
      } else {
        assert ks + [] == ks;
      }
    }
  }

  lemma {:induction false} FindingsKeep(rs: seq<Record>, decode: CertDecoder)
    requires NamesInside(rs)
    ensures Keeps(FindingsOf(RecordKeys(rs, decode)), rs, decode)
  {
    ListAgrees(rs, "PK", decode);
    ListAgrees(rs, "KEK", decode);
    ListAgrees(rs, "db", decode);
    ListAgrees(rs, "dbx", decode);
    OemAgrees(rs, decode);
  }

  lemma {:induction false} FindingsReport(rs: seq<Record>, decode: CertDecoder)
    requires NamesInside(rs)
    ensures Reports(FindingsOf(RecordKeys(rs, decode)), rs, decode)
  {
    SomeAgree(rs, "PK", KNOWN_OEM, decode);
    SomeAgree(rs, "KEK", MICROSOFT, decode);
    SomeAgree(rs, "db", UEFI_CA_2011, decode);
    SomeAgree(rs, "db", UEFI_CA_2023, decode);
    SomeAgree(rs, "db", WINDOWS_PCA_2011, decode);
    LastAgrees(rs, "PK", decode);
    KeyConditions(rs, decode);
    UefiConditions(rs, decode);
    PcaConditions(rs, decode);
    OlderConditions(rs, decode);
    NewerConditions(rs, decode);
  }

  /** After every log that is read inside its events, the chain is valid if and only if the last
      SecureBoot variable that was measured is on, the last measured PK has a certificate, some measured
      KEK has one of Microsoft's, and some measured db has one of the UEFI CAs. */
  lemma {:induction false} ChainOverRecords(log: seq<Byte>, decode: CertDecoder)
    requires ChainInside(log)
    ensures ParsedEntries(log).Inside? && LogKeys(log, decode).Inside?
    ensures var (on, f) := (SecureBootOn(ParsedEntries(log).value), FindingsOf(LogKeys(log, decode).value));
            var rs := Records(Body(log));
            && (on <==> LastRecordOn(rs)) && Reports(f, rs, decode) && Keeps(f, rs, decode)
            && (ChainHolds(on, f) <==>
                  LastRecordOn(rs) && LastRecordHasCerts(rs, "PK", decode) && MicrosoftKek(rs, decode)
                  && UefiCaInDb(rs, decode))
  {
    var rs := Records(Body(log));
    ChainInsideIff(log, decode);
    var es := ParsedEntries(log).value;
    EntriesMatch(rs);
    KeysOfRecords(rs, es, decode);
    NamesAreInside(rs);
    FindingsReport(rs, decode);
    FindingsKeep(rs, decode);
    EntriesExplain(rs);
    LastDecides(es);
    DecisionsAgree(es, rs);
  }

  /** A variable that was measured contributes what it was made of: its name, and the decodable
      certificates of its signature lists. */
  lemma {:induction false} KeyEventBack(e: Entry, guid: seq<Byte>, name: seq<U16>, lists: seq<SignatureList>,
                                        decode: CertDecoder)
    requires |guid| == 16 && |name| < 0x1000_0000 && |ListsBytes(lists)| < U32_LIMIT
    requires SignatureLists.AllWellFormed(lists)
    requires e.data == VariableBytes(guid, name, ListsBytes(lists))
    ensures KeyEventOf(e, decode) == Inside(KeyEvent(NameText(name, 0, ValidatorRender), ListsCerts(lists, decode)))
  {
    EventLogAnalysis.VariableRoundTrip(guid, name, ListsBytes(lists), ValidatorRender);
    SignatureLists.VariableRoundTrip(guid, name, lists, decode);
  }
}
