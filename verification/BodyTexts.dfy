/**
 The request bodies as texts: nested values are balanced and hide no key, so that a reader who
 searches for a key as the client does finds what was put in.
 */
module BodyTexts {
  import opened Bytes
  import opened Seqs
  import opened Json
  import opened JsonRoundTrip
  import opened TpmState
  import opened EnrollmentSpec
  import opened EnrollmentSafety
  import opened EnrollmentEndToEnd
  import opened EvidenceCoherence
  import opened CertMerge
  import Base64

  // ---- Nesting --------------------------------------------------------------

  /** Closed in itself: no bracket is closed that was not opened, and none stays open. */
  predicate Steady(v: string) {
    Depth(v, |v|) == 0 && forall n :: 0 <= n <= |v| ==> Depth(v, n) >= 0
  }

  predicate Flat(v: string) {
    forall i :: 0 <= i < |v| ==> !Opens(v[i]) && !Closes(v[i])
  }

  lemma {:induction false} FlatDepth(v: string, n: nat)
    requires Flat(v) && n <= |v|
    ensures Depth(v, n) == 0
  {
    if n > 0 {
      FlatDepth(v, n - 1);
    }
  }

  lemma {:induction false} FlatSteady(v: string)
    requires Flat(v)
    ensures Steady(v)
  {
    forall n | 0 <= n <= |v|
      ensures Depth(v, n) == 0
    {
      FlatDepth(v, n);
    }
  }

  lemma {:induction false} DepthFront(a: string, b: string, n: nat)
    requires n <= |a|
    ensures Depth(a + b, n) == Depth(a, n)
  {
    if n > 0 {
      DepthFront(a, b, n - 1);
    }
  }

  lemma {:induction false} DepthBehind(a: string, b: string, n: nat)
    requires n <= |b|
    ensures Depth(a + b, |a| + n) == Depth(a, |a|) + Depth(b, n)
  {
    if n == 0 {
      DepthFront(a, b, |a|);
    } else {
      DepthBehind(a, b, n - 1);
    }
  }

  lemma {:induction false} SteadyJoin(a: string, b: string)
    requires Steady(a) && Steady(b)
    ensures Steady(a + b)
  {
    forall n | 0 <= n <= |a + b|
      ensures Depth(a + b, n) >= 0
    {
      if n <= |a| {
        DepthFront(a, b, n);
      } else {
        DepthBehind(a, b, n - |a|);
      }
    }
    DepthBehind(a, b, |b|);
  }

  /** Inside a pair of brackets commas are harmless. */
  lemma {:induction false} Wrapped(open: char, v: string, close: char)
    requires Opens(open) && Closes(close) && Steady(v)
    ensures Balanced([open] + v + [close]) && Steady([open] + v + [close])
  {
    var w := [open] + v + [close];
    assert Depth([open], 1) == Depth([open], 0) + 1 == 1;
    forall n | 1 <= n <= |v| + 1
      ensures Depth(w, n) == 1 + Depth(v, n - 1)
    {
      DepthBehind([open], v, n - 1);
      DepthFront([open] + v, [close], n);
    }
    assert Depth(w, 0) == 0;
    assert w[|w| - 1] == close;
    assert Depth(w, |w|) == Depth(w, |w| - 1) - 1;
  }

  // ---- Hidden keys ----------------------------------------------------------

  /** No quote in the text is followed by a character that a key could start with. */
  predicate Guarded(v: string) {
    forall i :: 0 <= i < |v| - 1 && v[i] == '\"' ==> !Alnum(v[i + 1])
  }

  lemma {:induction false} GuardedHides(v: string, k: string)
    requires Guarded(v) && GoodKey(k)
    ensures !Occurs(Key(k), v)
  {
    forall i | 0 <= i <= |v|
      ensures !Prefix(Key(k), v[i..])
    {
      PrefixAt(Key(k), v[i..], 0);
      PrefixAt(Key(k), v[i..], 1);
      assert Key(k)[1] == k[0];
    }
  }

  lemma {:induction false} GuardedJoin(a: string, b: string)
    requires Guarded(a) && Guarded(b) && (b == "" || !Alnum(b[0]))
    ensures Guarded(a + b)
  {
  }

  /** A text without the first character of a key does not contain the key. */
  lemma {:induction false} AbsentHides(v: string, k: string, j: nat)
    requires j < |k| && k[j] !in v
    ensures !Occurs(Key(k), v)
  {
    forall i | 0 <= i <= |v|
      ensures !Prefix(Key(k), v[i..])
    {
      PrefixAt(Key(k), v[i..], j + 1);
      assert Key(k)[j + 1] == k[j];
    }
  }

  // ---- Certificate chains ---------------------------------------------------

  /** Text that needs no escapes but for line breaks, and has no brackets. */
  predicate Smooth(v: string) {
    Flat(v) && forall i :: 0 <= i < |v| ==> v[i] != '\"'
  }

  lemma {:induction false} SmoothEscape(v: string)
    requires Smooth(v)
    ensures Smooth(Escape(v))
  {
    if v != "" {
      SmoothEscape(v[1..]);
    }
  }

  lemma {:induction false} SmoothBase64(b: seq<Byte>)
    ensures Smooth(Base64.Encode(b))
  {
    Base64Plain(b);
  }

  lemma {:induction false} SmoothArmour()
    ensures Smooth(Base64.PEM_HEADER) && Smooth(Base64.PEM_FOOTER) && Base64.PEM_HEADER[0] == '-'
  {
  }

  lemma {:induction false} SmoothJoin(a: string, b: string, c: string)
    requires Smooth(a) && Smooth(b) && Smooth(c)
    ensures Smooth(a + b + c)
  {
  }

  lemma {:induction false} SmoothPem(der: seq<Byte>)
    ensures Smooth(Base64.Pem(der)) && Base64.Pem(der) != "" && Base64.Pem(der)[0] == '-'
  {
    SmoothBase64(der);
    SmoothArmour();
    SmoothJoin(Base64.PEM_HEADER, Base64.Encode(der), Base64.PEM_FOOTER);
  }

  lemma {:induction false} QuotedPem(der: seq<Byte>)
    ensures var q := Json.Quoted(Base64.Pem(der)); Guarded(q) && Flat(q) && q[0] == '\"'
  {
    var pem := Base64.Pem(der);
    SmoothPem(der);
    SmoothEscape(pem);
    assert Escape(pem)[0] == EscapeChar(pem[0])[0] == '-';
  }

  lemma {:induction false} PemListShape(certs: seq<Cert>)
    ensures Guarded(PemList(certs)) && Flat(PemList(certs))
    decreases |certs|
  {
    if certs != [] {
      var front, q := certs[..|certs| - 1], Json.Quoted(Base64.Pem(certs[|certs| - 1]));
      PemListShape(front);
      QuotedPem(certs[|certs| - 1]);
      if |certs| > 1 {
        GuardedJoin(PemList(front), ",");
        GuardedJoin(PemList(front) + ",", q);
      } else {
        assert "" + q == q;
      }
    }
  }

  /** The chain ends where it should, and no plain key is found in it. */
  lemma {:induction false} ChainShape(certs: seq<Cert>, k: string)
    requires GoodKey(k)
    ensures Balanced(PemArray(certs)) && PemArray(certs)[0] == '[' && !Occurs(Key(k), PemArray(certs))
  {
    PemListShape(certs);
    FlatSteady(PemList(certs));
    Wrapped('[', PemList(certs), ']');
    assert Guarded("[") && Guarded("]");
    assert PemList(certs) != "" ==> PemList(certs)[0] == '\"' by { PemListStart(certs); }
    GuardedJoin("[", PemList(certs));
    GuardedJoin("[" + PemList(certs), "]");
    GuardedHides(PemArray(certs), k);
  }

  lemma {:induction false} PemListStart(certs: seq<Cert>)
    ensures PemList(certs) != "" ==> PemList(certs)[0] == '\"'
    decreases |certs|
  {
    if certs != [] {
      PemListStart(certs[..|certs| - 1]);
    }
  }

  // ---- PCR values -----------------------------------------------------------

  /** Characters of the PCR object. */
  predicate PcrText(v: string) {
    forall i :: 0 <= i < |v| ==> '0' <= v[i] <= '9' || 'a' <= v[i] <= 'f' || v[i] in {'\"', ':', ',', 's', 'h'}
  }

  lemma {:induction false} DecimalText(n: nat)
    ensures PcrText(Decimal(n))
  {
    if n >= 10 {
      DecimalText(n / 10);
    }
  }

  lemma {:induction false} HexText(b: seq<Byte>)
    ensures PcrText(Hex(b))
  {
    if b != [] {
      HexText(b[1..]);
    }
  }

  lemma {:induction false} MembersText(values: seq<(nat, seq<Byte>)>)
    ensures PcrText(PcrMembers(values))
    decreases |values|
  {
    if values != [] {
      var (pcr, value) := values[|values| - 1];
      MembersText(values[..|values| - 1]);
      DecimalText(pcr);
      HexText(value);
      assert PcrText(PcrMember(pcr, value));
    }
  }

  lemma {:induction false} PcrJsonShape(values: seq<(nat, seq<Byte>)>)
    ensures Balanced(PcrJson(values)) && PcrJson(values)[0] == '{'
  {
    MembersText(values);
    PcrTextFlat("\"sha256\":");
    PcrTextFlat(PcrMembers(values));
    Nested("\"sha256\":", PcrMembers(values));
    PcrJsonParts(values);
  }

  lemma {:induction false} PcrTextFlat(v: string)
    requires PcrText(v)
    ensures Flat(v)
  {
  }

  lemma {:induction false} Nested(lead: string, inner: string)
    requires Flat(lead) && Flat(inner)
    ensures Balanced("{" + (lead + ("{" + inner + "}")) + "}")
  {
    FlatSteady(inner);
    Wrapped('{', inner, '}');
    FlatSteady(lead);
    SteadyJoin(lead, "{" + inner + "}");
    Wrapped('{', lead + ("{" + inner + "}"), '}');
  }

  lemma {:induction false} PcrJsonParts(values: seq<(nat, seq<Byte>)>)
    ensures PcrJson(values) == "{" + ("\"sha256\":" + ("{" + PcrMembers(values) + "}")) + "}"
  {
    var front := "\"sha256\":{";
    assert "{\"sha256\":{" == "{" + front && front == "\"sha256\":" + "{";
    assert PcrMembers(values) + "}}" == (PcrMembers(values) + "}") + "}";
    Assoc("{", front, PcrMembers(values) + "}}");
    Assoc3("\"sha256\":", "{", PcrMembers(values), "}");
    Assoc3("{", front, PcrMembers(values), "}");
  }

  /** No key with a letter outside its alphabet is found in it. */
  lemma {:induction false} PcrJsonHides(values: seq<(nat, seq<Byte>)>, k: string, j: nat)
    requires j < |k| && Alnum(k[j]) && k[j] !in {'s', 'h'} && !('0' <= k[j] <= '9') && !('a' <= k[j] <= 'f')
    ensures !Occurs(Key(k), PcrJson(values))
  {
    MembersText(values);
    var (head, tail) := ("{\"sha256\":{", "}}");
    assert forall i :: 0 <= i < |head| ==> head[i] in {'{', '\"', ':', 's', 'h', 'a', '2', '5', '6'};
    assert k[j] !in head && k[j] !in PcrMembers(values) && k[j] !in tail;
    AbsentHides(PcrJson(values), k, j);
  }

  // ---- The quote ------------------------------------------------------------

  lemma {:induction false} QuoteShape(quoted: seq<Byte>, signature: seq<Byte>, nonce: seq<Byte>)
    ensures var v := Build(QuoteFields(quoted, signature, nonce)); Balanced(v) && v[0] == '{'
  {
    var fields := QuoteFields(quoted, signature, nonce);
    Keys();
    FlatMember("nonce", nonce);
    FlatMember("quoted", quoted);
    FlatMember("signature", signature);
    FlatObject(ItemsOf(fields));
  }

  lemma {:induction false} FlatObject(items: seq<Item>)
    requires forall i :: 0 <= i < |items| ==> Flat(ItemText(items[i]))
    ensures Balanced(Json.Object(items)) && Json.Object(items)[0] == '{'
  {
    FlatItems(items);
    FlatSteady(ItemsText(items));
    Wrapped('{', ItemsText(items), '}');
  }

  lemma {:induction false} FlatMember(key: string, b: seq<Byte>)
    requires GoodKey(key)
    ensures Flat(ItemText(ItemOf((key, Base64.Encode(b)))))
  {
    SmoothBase64(b);
    SmoothEscape(Base64.Encode(b));
  }

  lemma {:induction false} FlatItems(items: seq<Item>)
    requires forall i :: 0 <= i < |items| ==> Flat(ItemText(items[i]))
    ensures Flat(ItemsText(items))
  {
    if items != [] {
      FlatRest(items[1..]);
    }
  }

  lemma {:induction false} FlatRest(items: seq<Item>)
    requires forall i :: 0 <= i < |items| ==> Flat(ItemText(items[i]))
    ensures Flat(RestText(items))
    decreases |items|
  {
    if items != [] {
      FlatRest(items[1..]);
    }
  }

  /** The reader of a quote finds the nonce, the attestation and the signature. */
  lemma {:induction false} QuoteRead(quoted: seq<Byte>, signature: seq<Byte>, nonce: seq<Byte>)
    ensures var text := Build(QuoteFields(quoted, signature, nonce));
            && Get(text, "nonce") == Base64.Encode(nonce)
            && Get(text, "quoted") == Base64.Encode(quoted)
            && Get(text, "signature") == Base64.Encode(signature)
  {
    Keys();
    var items := ItemsOf(QuoteFields(quoted, signature, nonce));
    assert items[0].key == "nonce" && items[1].key == "quoted" && items[2].key == "signature";
    assert |"nonce"| == 5 && |"quoted"| == 6 && |"signature"| == 9;
    forall i | 0 <= i < 3
      ensures Get(Json.Object(items), items[i].key) == items[i].value
    {
      var k := items[i].key;
      Base64Item("nonce", nonce, k);
      Base64Item("quoted", quoted, k);
      Base64Item("signature", signature, k);
      NothingClashes(items, i);
    }
  }

  /** A base64 value is read whole, hides nothing, and cannot clash with a key of a length that no
      base64 text has. */
  lemma {:induction false} Base64Item(key: string, b: seq<Byte>, k: string)
    requires |k| % 4 != 0
    ensures var item := ItemOf((key, Base64.Encode(b)));
            Readable(item) && !Occurs(Key(k), item.value) && !Clashes(item, k)
  {
    Base64Reads(key, b, k);
  }

  lemma {:induction false} NothingClashes(items: seq<Item>, i: nat)
    requires i < |items| && DistinctKeys(items)
    requires forall n :: 0 <= n < |items| ==> GoodKey(items[n].key)
    requires forall n :: 0 <= n < |items| ==> Readable(items[n]) && !Clashes(items[n], items[i].key)
    requires forall n :: 0 <= n < |items| ==> !Occurs(Key(items[i].key), items[n].value)
    ensures Get(Json.Object(items), items[i].key) == items[i].value
  {
    RoundTripIff(items, i);
  }

  // ---- The evidence ---------------------------------------------------------

  lemma {:induction false} LookupBehind(items: seq<Item>, n: nat, k: string)
    requires n <= |items| && forall m :: 0 <= m < n ==> PassedOver(items[m], k)
    ensures Lookup(items, k) == Lookup(items[n..], k) && Location(items, k) == Location(items[n..], k)
    decreases n
  {
    if n > 0 {
      LookupBehind(items[1..], n - 1, k);
      DropTwice(items, 1, n - 1);
    } else {
      assert items[0..] == items;
    }
  }

  /** A value behind items that are passed over is found, whether or not their own ends could be told. */
  lemma {:induction false} FoundBehind(items: seq<Item>, n: nat)
    requires n < |items| && (forall m :: 0 <= m < n ==> PassedOver(items[m], items[n].key))
    requires forall m :: 0 <= m < |items| ==> GoodKey(items[m].key)
    requires Readable(items[n])
    ensures Get(Json.Object(items), items[n].key) == items[n].value
  {
    var k := items[n].key;
    assert forall i :: n <= i < |items| ==> !Ahead(items, k, i);
    assert Usable(items, k);
    LocateObject(items, k);
    LookupBehind(items, n, k);
    ColonHere(ValueText(items[n]) + Tail(items[n..]));
    ReadValueText(items[n], Tail(items[n..]));
  }

  /** Where the first value clashes, the second one is returned. */
  lemma {:induction false} ClashReadsNext(items: seq<Item>, k: string)
    requires |items| > 1 && GoodKey(k) && Usable(items, k) && items[0].key != k && Clashes(items[0], k)
    requires Readable(items[1])
    ensures Get(Json.Object(items), k) == items[1].value
  {
    LocateObject(items, k);
    ColonBehind(items);
    ReadValueText(items[1], Tail(items[1..]));
  }

  /** Does this device id leave the search for the key alone? One that is printed as a string must
      neither be the key nor end in a quote followed by it; one that is copied as it is must not
      contain the quoted key. */
  predicate Harmless(deviceId: string, k: string) {
    if LooksRaw(deviceId) then !Occurs(Key(k), deviceId) else !Clashes(Text("deviceId", deviceId), k)
  }

  lemma {:induction false} PemPassedOver(der: seq<Byte>, k: string)
    requires GoodKey(k) && k != "ekCertPem"
    ensures var item := ItemOf(("ekCertPem", Base64.Pem(der))); PassedOver(item, k) && Readable(item)
  {
    Keys();
    SmoothPem(der);
    var pem := Base64.Pem(der);
    assert |k| < |pem| ==> pem[|pem| - |k| - 1..][0] == pem[|pem| - |k| - 1] != '\"';
    assert ("\"" + k)[0] == '\"';
  }

  lemma {:induction false} ChainPassedOver(certs: seq<Cert>, k: string)
    requires GoodKey(k) && k != "ekCertificateChain"
    ensures var item := ItemOf(("ekCertificateChain", PemArray(certs))); PassedOver(item, k) && Readable(item)
  {
    Keys();
    ChainShape(certs, k);
  }

  lemma {:induction false} LogPassedOver(log: seq<Byte>, k: string)
    requires GoodKey(k) && k != "eventLog" && |k| % 4 != 0
    ensures var item := ItemOf(("eventLog", Base64.Encode(log))); PassedOver(item, k) && Readable(item)
  {
    assert GoodKey("eventLog");
    Base64Item("eventLog", log, k);
  }

  /** The optional members between the device id and the PCR values. */
  function Between(i: CollectInput, chain: seq<Cert>): (r: Fields) {
    Optional(|i.ekCert| > 32, "ekCertPem", Base64.Pem(i.ekCert))
    + PemChain(chain)
    + Optional(i.eventLog != [], "eventLog", Base64.Encode(i.eventLog))
  }

  /** None of them is there. */
  predicate NoneBetween(i: CollectInput, chain: seq<Cert>) {
    |i.ekCert| <= 32 && chain == [] && i.eventLog == []
  }

  /** PCR values and a quote are different objects. */
  lemma {:induction false} OtherStart(values: seq<(nat, seq<Byte>)>, quoted: seq<Byte>, signature: seq<Byte>,
                                      nonce: seq<Byte>)
    ensures PcrJson(values) != Build(QuoteFields(quoted, signature, nonce))
  {
    var items := ItemsOf(QuoteFields(quoted, signature, nonce));
    var member := ItemText(items[0]);
    assert items[0].key == "nonce";
    assert member[1] == (("\"" + items[0].key)[1]) == 'n';
    assert Json.Object(items)[2] == ItemsText(items)[1] == member[1];
    assert PcrJson(values)[2] == "{\"sha256\":{"[2] == 's';
  }

  /** The last three members. */
  function Back(pcrs: string, quote: string, report: string): (r: Fields) {
    [("pcrValues", pcrs), ("quote", quote), ("secureBootChain", report)]
  }

  /** The members behind the device id. */
  function Members(i: CollectInput, chain: seq<Cert>, pcrs: string, quote: string): (r: Fields)
    ensures |r| >= 3
  {
    Between(i, chain) + Back(pcrs, quote, i.bootReport)
  }

  function IdMember(deviceId: string): (r: Fields) {
    Optional(deviceId != "", "deviceId", deviceId)
  }

  lemma {:induction false} EvidenceParts(i: CollectInput, chain: seq<Cert>, pcrs: string, quote: string)
    ensures EvidenceFields(i, pcrs, quote, chain) == IdMember(i.deviceId) + Members(i, chain, pcrs, quote)
  {
    Inner(IdMember(i.deviceId), Optional(|i.ekCert| > 32, "ekCertPem", Base64.Pem(i.ekCert)), PemChain(chain),
          Optional(i.eventLog != [], "eventLog", Base64.Encode(i.eventLog)), Back(pcrs, quote, i.bootReport));
  }

  // The members stand in the order of their keys.

  function Rank(key: string): (n: nat) {
    if key == "ekCertPem" then 0 else if key == "ekCertificateChain" then 1 else if key == "eventLog" then 2
    else if key == "pcrValues" then 3 else if key == "quote" then 4 else if key == "secureBootChain" then 5 else 6
  }

  lemma {:induction false} Ranks()
    ensures Rank("ekCertPem") == 0 && Rank("ekCertificateChain") == 1 && Rank("eventLog") == 2
    ensures Rank("pcrValues") == 3 && Rank("quote") == 4 && Rank("secureBootChain") == 5 && Rank("deviceId") == 6
  {
    assert |"ekCertPem"| == 9 && |"ekCertificateChain"| == 18 && |"eventLog"| == 8 && |"pcrValues"| == 9;
    assert |"quote"| == 5 && |"secureBootChain"| == 15 && |"deviceId"| == 8;
    assert "pcrValues"[0] == 'p' && "ekCertPem"[0] == 'e' && "eventLog"[0] == 'e' && "deviceId"[0] == 'd';
  }

  /** Keys of this rank, and that they are plain. */
  lemma {:induction false} RankedKey(k: string)
    requires Rank(k) < 6
    ensures GoodKey(k) && k != "deviceId" && (Rank(k) > 2 ==> |k| % 4 != 0)
  {
    Ranks();
    Keys();
    assert GoodKey("eventLog") && GoodKey("pcrValues") && GoodKey("quote") && GoodKey("secureBootChain");
    assert |"pcrValues"| == 9 && |"quote"| == 5 && |"secureBootChain"| == 15;
  }

  predicate Ranked(fields: Fields, from: nat, to: nat) {
    && (forall f :: f in fields ==> from <= Rank(f.0) < to)
    && forall m, n :: 0 <= m < n < |fields| ==> Rank(fields[m].0) < Rank(fields[n].0)
  }

  lemma {:induction false} RankedJoin(a: Fields, b: Fields, from: nat, middle: nat, to: nat)
    requires Ranked(a, from, middle) && Ranked(b, middle, to) && from <= middle <= to
    ensures Ranked(a + b, from, to)
  {
    forall m, n | 0 <= m < n < |a + b|
      ensures Rank((a + b)[m].0) < Rank((a + b)[n].0)
    {
      if m < |a| <= n {
        assert a[m] in a && b[n - |a|] in b;
      }
    }
  }

  lemma {:induction false} RankedOne(present: bool, key: string, value: string, r: nat)
    requires Rank(key) == r
    ensures Ranked(Optional(present, key, value), r, r + 1)
  {
  }

  lemma {:induction false} RankedBack(pcrs: string, quote: string, report: string)
    ensures Ranked(Back(pcrs, quote, report), 3, 6)
  {
    Ranks();
  }

  lemma {:induction false} RankedBetween(i: CollectInput, chain: seq<Cert>)
    ensures Ranked(Between(i, chain), 0, 3)
  {
    Ranks();
    var (pem, list) := (Optional(|i.ekCert| > 32, "ekCertPem", Base64.Pem(i.ekCert)), PemChain(chain));
    RankedOne(|i.ekCert| > 32, "ekCertPem", Base64.Pem(i.ekCert), 0);
    RankedOne(chain != [], "ekCertificateChain", PemArray(chain), 1);
    RankedOne(i.eventLog != [], "eventLog", Base64.Encode(i.eventLog), 2);
    RankedJoin(pem, list, 0, 1, 2);
    RankedJoin(pem + list, Optional(i.eventLog != [], "eventLog", Base64.Encode(i.eventLog)), 0, 2, 3);
  }

  lemma {:induction false} MembersRanked(i: CollectInput, chain: seq<Cert>, pcrs: string, quote: string)
    ensures Ranked(Members(i, chain, pcrs, quote), 0, 6)
  {
    RankedBetween(i, chain);
    RankedBack(pcrs, quote, i.bootReport);
    RankedJoin(Between(i, chain), Back(pcrs, quote, i.bootReport), 0, 3, 6);
  }

  /** What a member can be. */
  predicate IsMember(i: CollectInput, chain: seq<Cert>, pcrs: string, quote: string, f: (string, string)) {
    || f == ("ekCertPem", Base64.Pem(i.ekCert)) || f == ("ekCertificateChain", PemArray(chain))
    || (f == ("eventLog", Base64.Encode(i.eventLog)) && i.eventLog != [])
    || f == ("pcrValues", pcrs) || f == ("quote", quote) || f == ("secureBootChain", i.bootReport)
  }

  lemma {:induction false} MemberIs(i: CollectInput, chain: seq<Cert>, pcrs: string, quote: string, f: (string, string))
    requires f in Members(i, chain, pcrs, quote)
    ensures IsMember(i, chain, pcrs, quote, f)
  {
  }

  /** What the two nested objects look like to the reader, and what they do not hide. */
  ghost predicate NestedValues(pcrs: string, quote: string) {
    && Balanced(pcrs) && pcrs != "" && pcrs[0] == '{' && Balanced(quote) && quote != "" && quote[0] == '{'
    && !Occurs(Key("quote"), pcrs) && !Occurs(Key("secureBootChain"), pcrs) && !Occurs(Key("secureBootChain"), quote)
    && pcrs != quote
  }

  lemma {:induction false} QuoteHides(quoted: seq<Byte>, signature: seq<Byte>, nonce: seq<Byte>)
    ensures !Occurs(Key("secureBootChain"), Build(QuoteFields(quoted, signature, nonce)))
  {
    var (k, items) := ("secureBootChain", ItemsOf(QuoteFields(quoted, signature, nonce)));
    assert GoodKey(k) && |k| == 15 && |"nonce"| == 5 && |"quoted"| == 6 && |"signature"| == 9;
    Keys();
    Base64Item("nonce", nonce, k);
    Base64Item("quoted", quoted, k);
    Base64Item("signature", signature, k);
    assert items[0].key == "nonce" && items[1].key == "quoted" && items[2].key == "signature";
    ObjectHides(items, k);
  }

  lemma {:induction false} EvidenceNested(values: seq<(nat, seq<Byte>)>, quoted: seq<Byte>, signature: seq<Byte>,
                                          nonce: seq<Byte>)
    ensures NestedValues(PcrJson(values), Build(QuoteFields(quoted, signature, nonce)))
  {
    PcrJsonShape(values);
    assert "secureBootChain"[3] == 'u' && "quote"[0] == 'q';
    PcrJsonHides(values, "quote", 0);
    PcrJsonHides(values, "secureBootChain", 3);
    QuoteShape(quoted, signature, nonce);
    QuoteHides(quoted, signature, nonce);
    OtherStart(values, quoted, signature, nonce);
  }

  lemma {:induction false} PassesOn(i: CollectInput, chain: seq<Cert>, pcrs: string, quote: string,
                                    f: (string, string), k: string)
    requires NestedValues(pcrs, quote) && IsMember(i, chain, pcrs, quote, f) && Rank(f.0) < Rank(k) < 6
    ensures PassedOver(ItemOf(f), k)
  {
    Ranks();
    RankedKey(k);
    RankedKey(f.0);
    if f.0 == "ekCertPem" {
      PemPassedOver(i.ekCert, k);
    } else if f.0 == "ekCertificateChain" {
      ChainPassedOver(chain, k);
    } else if f.0 == "eventLog" {
      LogPassedOver(i.eventLog, k);
    }
  }

  lemma {:induction false} ReadableMember(i: CollectInput, chain: seq<Cert>, pcrs: string, quote: string,
                                          f: (string, string))
    requires NestedValues(pcrs, quote) && IsMember(i, chain, pcrs, quote, f) && f.0 != "secureBootChain"
    ensures Readable(ItemOf(f))
  {
    Ranks();
    if f.0 == "ekCertPem" {
      PemPassedOver(i.ekCert, "quote");
    } else if f.0 == "ekCertificateChain" {
      ChainPassedOver(chain, "quote");
    } else if f.0 == "eventLog" {
      LogPassedOver(i.eventLog, "quote");
    }
  }

  lemma {:induction false} IdPassedOver(deviceId: string, k: string)
    requires k != "deviceId"
    ensures PassedOver(ItemOf(("deviceId", deviceId)), k) <==> Harmless(deviceId, k)
  {
    Keys();
  }

  /** Members that can be searched for the key of the n-th one. */
  ghost predicate Searchable(members: Fields, n: nat) {
    && n < |members| && (forall m :: 0 <= m < |members| ==> GoodKey(members[m].0))
    && (forall m :: 0 <= m < n ==> PassedOver(ItemOf(members[m]), members[n].0))
    && Readable(ItemOf(members[0])) && Readable(ItemOf(members[n])) && members[n].0 != "deviceId"
  }

  lemma {:induction false} EvidenceSearchable(i: CollectInput, chain: seq<Cert>, pcrs: string, quote: string, n: nat)
    requires NestedValues(pcrs, quote) && n < |Members(i, chain, pcrs, quote)|
    requires Members(i, chain, pcrs, quote)[n].0 == "secureBootChain" ==>
               Readable(ItemOf(("secureBootChain", i.bootReport)))
    ensures Searchable(Members(i, chain, pcrs, quote), n)
  {
    var members := Members(i, chain, pcrs, quote);
    MembersRanked(i, chain, pcrs, quote);
    forall m | 0 <= m < |members|
      ensures GoodKey(members[m].0) && members[m].0 != "deviceId"
      ensures members[m].0 != "secureBootChain" || m == n ==> Readable(ItemOf(members[m]))
      ensures m < n ==> PassedOver(ItemOf(members[m]), members[n].0)
    {
      MemberIs(i, chain, pcrs, quote, members[m]);
      RankedKey(members[m].0);
      if members[m].0 != "secureBootChain" {
        ReadableMember(i, chain, pcrs, quote, members[m]);
      }
      if m < n {
        PassesOn(i, chain, pcrs, quote, members[m], members[n].0);
      }
    }
    Ranks();
    assert Rank(members[0].0) < Rank(members[1].0);
  }

  lemma {:induction false} HarmlessRead(deviceId: string, members: Fields, n: nat)
    requires Searchable(members, n) && Harmless(deviceId, members[n].0)
    ensures Get(Build(IdMember(deviceId) + members), members[n].0) == members[n].1
  {
    var (id, fields) := (IdMember(deviceId), IdMember(deviceId) + members);
    var items := ItemsOf(fields);
    IdPassedOver(deviceId, members[n].0);
    Keys();
    forall m | 0 <= m < |items|
      ensures GoodKey(items[m].key) && (m < |id| + n ==> PassedOver(items[m], members[n].0))
    {
      assert items[m] == if m < |id| then ItemOf(("deviceId", deviceId)) else ItemOf(members[m - |id|]);
    }
    assert items[|id| + n] == ItemOf(members[n]);
    FoundBehind(items, |id| + n);
  }

  lemma {:induction false} MisledRead(deviceId: string, members: Fields, n: nat)
    requires Searchable(members, n) && !LooksRaw(deviceId) && !Harmless(deviceId, members[n].0)
    ensures Get(Build([("deviceId", deviceId)] + members), members[n].0) == members[0].1
  {
    var (k, items) := (members[n].0, ItemsOf([("deviceId", deviceId)] + members));
    Keys();
    forall m | 0 <= m < |items|
      ensures GoodKey(items[m].key) && (0 < m <= n ==> PassedOver(items[m], k))
    {
      assert items[m] == if m == 0 then Text("deviceId", deviceId) else ItemOf(members[m - 1]);
    }
    assert items[n + 1] == ItemOf(members[n]);
    assert Usable(items, k);
    assert items[1] == ItemOf(members[0]);
    ClashReadsNext(items, k);
  }

  /** A device id that is copied as it is: the search goes on inside it, and the members behind are
      reached only if it does not contain the quoted key. */
  lemma {:induction false} RawIdRead(deviceId: string, behind: Fields, k: string)
    requires LooksRaw(deviceId) && GoodKey(k) && k != "deviceId"
    ensures var fields := [("deviceId", deviceId)] + behind;
            Get(Build(fields), k) == Get(deviceId + Tail(ItemsOf(fields)), k)
  {
    Keys();
    var items := ItemsOf([("deviceId", deviceId)] + behind);
    assert items[0..] == items;
    RawReached(items, 0, k);
  }

  /** What the reader of the evidence gets for the key of any member, whatever the device id is: its
      value, if the device id leaves the search for it alone; else the value of the first member, or, if
      the device id is copied as it is, what is found inside it or further on. */
  lemma {:induction false} EvidenceRead(i: CollectInput, values: seq<(nat, seq<Byte>)>, quoted: seq<Byte>,
                                        signature: seq<Byte>, nonce: seq<Byte>, chain: seq<Cert>, n: nat)
    requires n < |Members(i, chain, PcrJson(values), Build(QuoteFields(quoted, signature, nonce)))|
    requires Members(i, chain, PcrJson(values), Build(QuoteFields(quoted, signature, nonce)))[n].0 == "secureBootChain"
             ==> Readable(ItemOf(("secureBootChain", i.bootReport)))
    ensures var (pcrs, quote) := (PcrJson(values), Build(QuoteFields(quoted, signature, nonce)));
            var (fields, members) := (EvidenceFields(i, pcrs, quote, chain), Members(i, chain, pcrs, quote));
            Get(Build(fields), members[n].0)
            == if Harmless(i.deviceId, members[n].0) then members[n].1
               else if LooksRaw(i.deviceId) then Get(i.deviceId + Tail(ItemsOf(fields)), members[n].0)
               else members[0].1
  {
    EvidenceNested(values, quoted, signature, nonce);
    MemberRead(i, chain, PcrJson(values), Build(QuoteFields(quoted, signature, nonce)), n);
  }

  lemma {:induction false} MemberRead(i: CollectInput, chain: seq<Cert>, pcrs: string, quote: string, n: nat)
    requires NestedValues(pcrs, quote) && n < |Members(i, chain, pcrs, quote)|
    requires Members(i, chain, pcrs, quote)[n].0 == "secureBootChain" ==>
               Readable(ItemOf(("secureBootChain", i.bootReport)))
    ensures var (fields, members) := (EvidenceFields(i, pcrs, quote, chain), Members(i, chain, pcrs, quote));
            Get(Build(fields), members[n].0)
            == if Harmless(i.deviceId, members[n].0) then members[n].1
               else if LooksRaw(i.deviceId) then Get(i.deviceId + Tail(ItemsOf(fields)), members[n].0)
               else members[0].1
  {
    var members := Members(i, chain, pcrs, quote);
    EvidenceParts(i, chain, pcrs, quote);
    EvidenceSearchable(i, chain, pcrs, quote, n);
    if Harmless(i.deviceId, members[n].0) {
      HarmlessRead(i.deviceId, members, n);
    } else if LooksRaw(i.deviceId) {
      RawIdRead(i.deviceId, members, members[n].0);
    } else {
      EmptyIsHarmless(members[n].0);
      MisledRead(i.deviceId, members, n);
    }
  }

  lemma {:induction false} EmptyIsHarmless(k: string)
    requires k != ""
    ensures Harmless("", k)
  {
  }

  /** So a member is found exactly if the device id leaves the search for it alone, or the first member
      has the same value. Of a device id that is copied as it is and contains the key, only the lemma
      above speaks. */
  lemma {:induction false} EvidenceMemberIff(i: CollectInput, values: seq<(nat, seq<Byte>)>, quoted: seq<Byte>,
                                             signature: seq<Byte>, nonce: seq<Byte>, chain: seq<Cert>, n: nat)
    requires n < |Members(i, chain, PcrJson(values), Build(QuoteFields(quoted, signature, nonce)))|
    requires Members(i, chain, PcrJson(values), Build(QuoteFields(quoted, signature, nonce)))[n].0 == "secureBootChain"
             ==> Readable(ItemOf(("secureBootChain", i.bootReport)))
    ensures var (pcrs, quote) := (PcrJson(values), Build(QuoteFields(quoted, signature, nonce)));
            var (text, members) := (Build(EvidenceFields(i, pcrs, quote, chain)), Members(i, chain, pcrs, quote));
            (LooksRaw(i.deviceId) ==> Harmless(i.deviceId, members[n].0)) ==>
              (Get(text, members[n].0) == members[n].1
               <==> Harmless(i.deviceId, members[n].0) || members[0].1 == members[n].1)
  {
    EvidenceRead(i, values, quoted, signature, nonce, chain, n);
  }

  /** In particular the quote is found exactly if the device id leaves the search for it alone, and the
      PCR values exactly if it does or nothing stands between the two. */
  lemma {:induction false} EvidenceReadIff(i: CollectInput, values: seq<(nat, seq<Byte>)>, quoted: seq<Byte>,
                                           signature: seq<Byte>, nonce: seq<Byte>, chain: seq<Cert>)
    ensures var quote := Build(QuoteFields(quoted, signature, nonce));
            var text := Build(EvidenceFields(i, PcrJson(values), quote, chain));
            && ((LooksRaw(i.deviceId) ==> Harmless(i.deviceId, "pcrValues")) ==>
                  (Get(text, "pcrValues") == PcrJson(values)
                   <==> Harmless(i.deviceId, "pcrValues") || NoneBetween(i, chain)))
            && ((LooksRaw(i.deviceId) ==> Harmless(i.deviceId, "quote")) ==>
                  (Get(text, "quote") == quote <==> Harmless(i.deviceId, "quote")))
  {
    var (pcrs, quote) := (PcrJson(values), Build(QuoteFields(quoted, signature, nonce)));
    var (members, n) := (Members(i, chain, pcrs, quote), |Between(i, chain)|);
    EvidenceNested(values, quoted, signature, nonce);
    Ranks();
    assert members[n] == ("pcrValues", pcrs) && members[n + 1] == ("quote", quote);
    EvidenceMemberIff(i, values, quoted, signature, nonce, chain, n);
    EvidenceMemberIff(i, values, quoted, signature, nonce, chain, n + 1);
    FirstMember(i, chain, pcrs, quote);
  }

  lemma {:induction false} FirstMember(i: CollectInput, chain: seq<Cert>, pcrs: string, quote: string)
    requires NestedValues(pcrs, quote)
    ensures var value := Members(i, chain, pcrs, quote)[0].1;
            (value == pcrs <==> NoneBetween(i, chain)) && value != quote
  {
    var between := Between(i, chain);
    if between != [] {
      assert between[0] in between;
      BetweenStart(i, chain, between[0]);
    }
  }

  lemma {:induction false} BetweenStart(i: CollectInput, chain: seq<Cert>, f: (string, string))
    requires f in Between(i, chain)
    ensures f.1 != "" && f.1[0] != '{'
  {
    SmoothPem(i.ekCert);
    ChainShape(chain, "quote");
    if i.eventLog != [] {
      Base64NotEmpty(i.eventLog);
      Base64Plain(i.eventLog);
    }
  }

  lemma {:induction false} QuoteAsId()
    ensures !LooksRaw("quote") && !Harmless("quote", "quote") && Harmless("quote", "pcrValues")
  {
    assert |"quote"| == 5 && |"pcrValues"| == 9;
  }

  /** A device id that happens to be the name of a member sends the reader to another one. */
  lemma {:induction false} MisreadExample(i: CollectInput, values: seq<(nat, seq<Byte>)>, quoted: seq<Byte>,
                                          signature: seq<Byte>, nonce: seq<Byte>, chain: seq<Cert>)
    requires i.deviceId == "quote" && NoneBetween(i, chain)
    ensures var text := Build(EvidenceFields(i, PcrJson(values), Build(QuoteFields(quoted, signature, nonce)), chain));
            Get(text, "quote") == PcrJson(values) == Get(text, "pcrValues")
  {
    var (pcrs, quote) := (PcrJson(values), Build(QuoteFields(quoted, signature, nonce)));
    var members := Members(i, chain, pcrs, quote);
    EvidenceNested(values, quoted, signature, nonce);
    Ranks();
    assert members[0] == ("pcrValues", pcrs) && members[1] == ("quote", quote);
    QuoteAsId();
    MemberRead(i, chain, pcrs, quote, 0);
    MemberRead(i, chain, pcrs, quote, 1);
  }

  /** The evidence that a successful call hands out, read by anyone who reads JSON as the client does.
      Unless the device id gets in the way, the PCR values are those that the TPM had as they were
      read, and the quote is by the AK in the slot, over the nonce that was asked for and over exactly
      these PCRs, and the nonce it states is that nonce. */
  lemma {:induction false} EvidenceHandedOut(base: State, w: World, i: CollectInput)
    requires Inv(base, w) && i.nonce.Some? && Decodes(i.decode)
    ensures var (w', result, blob) := CollectEvidence(w, i);
            result == OK ==>
              && AK_SLOT in w.tpm.persistent && blob.Some?
              && StatesEvidence(w.tpm.dev, w.tpm.persistent[AK_SLOT], LeftToRead(w.tpm), i, blob.value)
  {
    InvNumbered(base, w);
    CollectCoherent(w.tpm, i);
    var (t, result, fields) := CollectFields(w.tpm, i);
    if result == OK {
      CoherentRead(w.tpm.dev, w.tpm.persistent[AK_SLOT], LeftToRead(w.tpm), i, fields);
    }
  }

  /** What the reader learns about one key, for evidence collected with n fates left. */
  ghost predicate StatesEvidence(dev: Device, key: TpmState.Object, n: nat, i: CollectInput, text: string)
    requires i.nonce.Some?
  {
    var nonce := i.decode(i.nonce.value);
    var (attest, quote) := (dev.attest(key, nonce, Covered(dev, n)), Get(text, "quote"));
    && (Harmless(i.deviceId, "pcrValues") ==> Get(text, "pcrValues") == PcrJson(Reported(dev, n, COLLECTED_PCRS)))
    && (Harmless(i.deviceId, "quote") ==>
          && i.decode(Get(quote, "nonce")) == nonce
          && i.decode(Get(quote, "quoted")) == attest
          && dev.sign(key, attest) <= i.decode(Get(quote, "signature")))
  }

  lemma {:induction false} CoherentRead(dev: Device, key: TpmState.Object, n: nat, i: CollectInput, fields: Fields)
    requires i.nonce.Some? && Decodes(i.decode) && Coherent(dev, key, i.decode(i.nonce.value), n, i, fields)
    ensures StatesEvidence(dev, key, n, i, Build(fields))
  {
    var (nonce, values) := (i.decode(i.nonce.value), Reported(dev, n, COLLECTED_PCRS));
    var attest := dev.attest(key, nonce, Covered(dev, n));
    var signature: seq<Byte>, chain: seq<Cert> :|
      dev.sign(key, attest) <= signature
      && fields == EvidenceFields(i, PcrJson(values), Json.Build(QuoteFields(attest, signature, nonce)), chain);
    var quote := Build(QuoteFields(attest, signature, nonce));
    var (members, at) := (Members(i, chain, PcrJson(values), quote), |Between(i, chain)|);
    EvidenceNested(values, attest, signature, nonce);
    Ranks();
    assert members[at] == ("pcrValues", PcrJson(values)) && members[at + 1] == ("quote", quote);
    MemberRead(i, chain, PcrJson(values), quote, at);
    if Harmless(i.deviceId, "quote") {
      MemberRead(i, chain, PcrJson(values), quote, at + 1);
      QuoteRead(attest, signature, nonce);
      assert i.decode(Base64.Encode(nonce)) == nonce && i.decode(Base64.Encode(attest)) == attest;
      assert i.decode(Base64.Encode(signature)) == signature;
    }
  }

  // ---- The enroll request ---------------------------------------------------

  lemma {:induction false} EnrollKeyFacts()
    ensures GoodKey("akPublicArea") && GoodKey("ekCertPem") && GoodKey("ekCertificateChain")
            && GoodKey("ekPublicKey") && GoodKey("platform")
    ensures |"akPublicArea"| == 12 && |"ekCertPem"| == 9 && |"ekCertificateChain"| == 18 && |"ekPublicKey"| == 11
            && |"platform"| == 8
  {
    Keys();
  }

  lemma {:induction false} Base64PassedOver(key: string, b: seq<Byte>, k: string)
    requires GoodKey(key) && GoodKey(k) && key != k && (|k| % 4 != 0 || Base64.Encode(b) != k)
    ensures var item := ItemOf((key, Base64.Encode(b))); PassedOver(item, k) && Readable(item)
  {
    Base64Reads(key, b, k);
  }

  /** A sized public area is far too short for its encoding to start like a word. */
  lemma {:induction false} TopDigit(x: int, y: int, z: int)
    requires 0 <= x <= 4 && 0 <= y < 256 && 0 <= z < 256
    ensures (x * 0x1_0000 + y * 0x100 + z) / 0x4_0000 % 64 <= 1
  {
    var t := x * 0x1_0000 + y * 0x100 + z;
    assert t / 0x4_0000 <= 1;
  }

  lemma {:induction false} AreaIsNoKey(area: PublicArea)
    ensures Base64.Encode(TPM2B(area))[0] in {'A', 'B'}
  {
    var b: seq<Byte> := TPM2B(area);
    assert b[0] <= 4;
    TopDigit(b[0] as int, Base64.At(b, 1) as int, Base64.At(b, 2) as int);
  }

  function EnrollFront(area: PublicArea, cert: Option<seq<Byte>>, chain: seq<Cert>): (r: Fields) {
    [("akPublicArea", Base64.Encode(TPM2B(area)))]
    + (if cert.Some? then [("ekCertPem", Base64.Pem(cert.value))] else [])
    + PemChain(chain)
  }

  lemma {:induction false} EnrollFrontPassedOver(area: PublicArea, cert: Option<seq<Byte>>, chain: seq<Cert>,
                                                 k: string, f: (string, string))
    requires k in {"ekCertPem", "ekCertificateChain", "ekPublicKey", "platform"}
    requires f in EnrollFront(area, cert, chain) && f.0 != k
    ensures PassedOver(ItemOf(f), k) && Readable(ItemOf(f))
  {
    EnrollKeyFacts();
    if f.0 == "akPublicArea" {
      AreaIsNoKey(area);
      Base64PassedOver("akPublicArea", TPM2B(area), k);
    } else if f.0 == "ekCertPem" {
      PemPassedOver(cert.value, k);
    } else {
      ChainPassedOver(chain, k);
    }
  }

  lemma {:induction false} FrontKeys(area: PublicArea, cert: Option<seq<Byte>>, chain: seq<Cert>)
    ensures var front := EnrollFront(area, cert, chain);
            && (forall j :: 0 < j < |front| ==> front[j].0 == "ekCertPem" || front[j].0 == "ekCertificateChain")
            && front[0].0 == "akPublicArea"
            && (forall i, j :: 0 <= i < j < |front| ==> front[i].0 != front[j].0)
  {
    EnrollKeyFacts();
  }

  lemma {:induction false} FrontReadable(area: PublicArea, cert: Option<seq<Byte>>, chain: seq<Cert>,
                                         f: (string, string))
    requires f in EnrollFront(area, cert, chain)
    ensures Readable(ItemOf(f)) && GoodKey(f.0) && f.0 in {"akPublicArea", "ekCertPem", "ekCertificateChain"}
  {
    EnrollKeyFacts();
    EnrollFrontPassedOver(area, cert, chain, "ekPublicKey", f);
  }

  /** The whole request, as its front and the last two members. */
  function EnrollBody(area: PublicArea, cert: Option<seq<Byte>>, ekPub: seq<Byte>, chain: seq<Cert>): (r: Fields) {
    EnrollFront(area, cert, chain) + [("ekPublicKey", Base64.Encode(ekPub)), ("platform", "windows")]
  }

  lemma {:induction false} EnrollBodyItems(area: PublicArea, cert: Option<seq<Byte>>, ekPub: seq<Byte>,
                                           chain: seq<Cert>, j: nat)
    requires j < |EnrollBody(area, cert, ekPub, chain)|
    ensures var item := ItemOf(EnrollBody(area, cert, ekPub, chain)[j]); GoodKey(item.key) && Readable(item)
  {
    EnrollKeyFacts();
    var front, fields := EnrollFront(area, cert, chain), EnrollBody(area, cert, ekPub, chain);
    if j < |front| {
      assert fields[j] == front[j] && front[j] in front;
      FrontReadable(area, cert, chain, front[j]);
    } else if j == |front| {
      Base64PassedOver("ekPublicKey", ekPub, "ekCertPem");
    }
  }

  lemma {:induction false} EnrollMemberRead(area: PublicArea, cert: Option<seq<Byte>>, ekPub: seq<Byte>,
                                            chain: seq<Cert>, n: nat)
    requires n < |EnrollBody(area, cert, ekPub, chain)|
    ensures var fields := EnrollBody(area, cert, ekPub, chain); Get(Build(fields), fields[n].0) == fields[n].1
  {
    EnrollKeyFacts();
    var front, fields := EnrollFront(area, cert, chain), EnrollBody(area, cert, ekPub, chain);
    var items, m, k := ItemsOf(fields), |front|, fields[n].0;
    forall j | 0 <= j < |items|
      ensures GoodKey(items[j].key) && Readable(items[j])
    {
      EnrollBodyItems(area, cert, ekPub, chain, j);
    }
    FrontKeys(area, cert, chain);
    forall j | 0 <= j < m && j < n
      ensures PassedOver(items[j], k)
    {
      assert fields[j] == front[j] && front[j] in front;
      FrontReadable(area, cert, chain, front[j]);
      assert n < m ==> fields[n] == front[n];
      EnrollFrontPassedOver(area, cert, chain, k, front[j]);
    }
    if n <= m {
      FoundBehind(items, n);
    } else {
      Base64PassedOver("ekPublicKey", ekPub, "ekCertPem");
      Base64Plain(ekPub);
      PlainValue("ekPublicKey", Base64.Encode(ekPub), k);
      LastFound(items, m);
    }
  }

  /** Every member of an enroll request is found again, whatever the keys and certificates are. Only
      the EK's public key could clash, with the platform right behind it, and there it does no harm. */
  lemma {:induction false} EnrollBodyRead(area: PublicArea, cert: Option<seq<Byte>>, ekPub: seq<Byte>, chain: seq<Cert>)
    ensures var ek := EkData(ekPub, if cert.Some? then Base64.Pem(cert.value) else "", chain);
            var fields := EnrollFields(ek, TPM2B(area));
            forall n :: 0 <= n < |fields| ==> Get(Build(fields), fields[n].0) == fields[n].1
  {
    if cert.Some? {
      SmoothPem(cert.value);
    }
    var ek := EkData(ekPub, if cert.Some? then Base64.Pem(cert.value) else "", chain);
    var fields := EnrollBody(area, cert, ekPub, chain);
    assert EnrollFields(ek, TPM2B(area)) == fields;
    forall n | 0 <= n < |fields|
      ensures Get(Build(fields), fields[n].0) == fields[n].1
    {
      EnrollMemberRead(area, cert, ekPub, chain, n);
    }
  }

  /** The last member is found even if the value in front of it clashes with its key. */
  lemma {:induction false} LastFound(items: seq<Item>, m: nat)
    requires |items| == m + 2 && forall j :: 0 <= j < |items| ==> GoodKey(items[j].key) && Readable(items[j])
    requires forall j :: 0 <= j < m ==> PassedOver(items[j], items[m + 1].key)
    requires items[m].key != items[m + 1].key && (items[m].Raw? ==> !Occurs(Key(items[m + 1].key), items[m].value))
    ensures Get(Json.Object(items), items[m + 1].key) == items[m + 1].value
  {
    var k := items[m + 1].key;
    NothingHidden(items, m, k);
    GetIsLookup(items, k);
    LookupBehind(items, m, k);
    LastLookup(items[m..], k);
  }

  lemma {:induction false} NothingHidden(items: seq<Item>, m: nat, k: string)
    requires |items| == m + 2 && k == items[m + 1].key
    requires forall j :: 0 <= j < |items| ==> GoodKey(items[j].key) && Readable(items[j])
    requires forall j :: 0 <= j < m ==> PassedOver(items[j], k)
    requires items[m].Raw? ==> !Occurs(Key(k), items[m].value)
    ensures Usable(items, k) && AllReadable(items, k)
  {
    assert !Ahead(items, k, m + 1);
  }

  lemma {:induction false} LastLookup(items: seq<Item>, k: string)
    requires |items| == 2 && items[0].key != k && items[1].key == k
    ensures Lookup(items, k) == items[1].value
  {
    assert items[1..][0] == items[1];
  }
}
