/**
 What evidence a successful collection hands out: the PCR values it reports are those of exactly the
 PCRs that the quote covers, the nonce it reports is the one that was signed, and the key that
 signed is the AK in the slot.
 */
module EvidenceCoherence {
  import opened Bytes
  import opened PcrSelection
  import opened TpmState
  import opened ClientSpec
  import opened TpmFrames
  import opened TpmEffects
  import opened EnrollmentSpec
  import opened EnrollmentSafety
  import opened EnrollmentEndToEnd
  import opened KeyTemplates
  import opened CertMerge
  import Json
  import Seqs

  // ---- PCR values -----------------------------------------------------------

  /** How much of a script of n fates is left after k commands. */
  function LeftAfter(n: nat, k: nat): (m: nat) {
    if n <= k then 0 else n - k
  }

  /** The indices, each with the value that the PCR had when it was read: one read after the other,
      with n fates left before the first. */
  function Reported(dev: Device, n: nat, pcrs: seq<nat>): (values: seq<(nat, seq<Byte>)>)
    ensures |values| == |pcrs|
    ensures forall j :: 0 <= j < |pcrs| ==> values[j] == (pcrs[j], dev.pcrs(LeftAfter(n, j + 1))(pcrs[j]))
  {
    if pcrs == [] then []
    else
      assert forall j: nat :: LeftAfter(LeftAfter(n, 1), j) == LeftAfter(n, j + 1);
      [(pcrs[0], dev.pcrs(LeftAfter(n, 1))(pcrs[0]))] + Reported(dev, LeftAfter(n, 1), pcrs[1..])
  }

  lemma {:induction false} OneSelected(pcr: nat, i: nat)
    requires i < PCR_COUNT
    ensures Selected(BitmapOf([pcr]), i) <==> i == pcr
  {
    BitmapSelects([pcr]);
    assert Selected(BitmapOf([pcr]), i) <==> i in [pcr];
  }

  lemma {:induction false} DigestsOfOne(s: State, selection: Bitmap, pcr: nat, from: nat)
    requires pcr < PCR_COUNT && from <= PCR_COUNT
    requires forall i :: 0 <= i < PCR_COUNT ==> (Selected(selection, i) <==> i == pcr)
    ensures PcrDigests(s, selection, from) == if from <= pcr then [Pcrs(s)(pcr)] else []
    decreases PCR_COUNT - from
  {
    if from < PCR_COUNT {
      DigestsOfOne(s, selection, pcr, from + 1);
    }
  }

  /** A selection of one PCR yields the one value. */
  lemma {:induction false} OneDigest(s: State, pcr: nat)
    requires pcr < PCR_COUNT
    ensures PcrDigests(s, BitmapOf([pcr]), 0) == [Pcrs(s)(pcr)]
  {
    forall i | 0 <= i < PCR_COUNT
      ensures Selected(BitmapOf([pcr]), i) <==> i == pcr
    {
      OneSelected(pcr, i);
    }
    DigestsOfOne(s, BitmapOf([pcr]), pcr, 0);
  }

  /** A value that arrives is the PCR's value when the command was executed. */
  lemma {:induction false} ReadPcrValue(s: State, ctx: nat, pcr: nat)
    requires pcr < PCR_COUNT
    ensures var (t, value) := ReadPcr(s, ctx, pcr);
            && Quiet(s, t)
            && (value != [] ==> |t.fates| == LeftAfter(|s.fates|, 1) && value == s.dev.pcrs(|t.fates|)(pcr))
  {
    IssueQuiet(s, ctx, PcrRead(BitmapOf([pcr])));
    OneDigest(NextFate(s).1, pcr);
  }

  /** PCRs that are all read are reported in order, each with its value when it was read. */
  lemma {:induction false} ReadPcrsReport(s: State, ctx: nat, pcrs: seq<nat>, acc: seq<(nat, seq<Byte>)>)
    requires forall p :: p in pcrs ==> p < PCR_COUNT
    ensures var (t, values) := ReadPcrs(s, ctx, pcrs, acc);
            && Quiet(s, t)
            && (values.Some? ==>
                  values.value == acc + Reported(s.dev, |s.fates|, pcrs) && |t.fates| == LeftAfter(|s.fates|, |pcrs|))
    decreases |pcrs|
  {
    if pcrs != [] {
      assert pcrs[0] in pcrs && forall p :: p in pcrs[1..] ==> p in pcrs;
      ReadPcrValue(s, ctx, pcrs[0]);
      var (s', value) := ReadPcr(s, ctx, pcrs[0]);
      if value != [] {
        ReadPcrsReport(s', ctx, pcrs[1..], acc + [(pcrs[0], value)]);
        Seqs.Assoc(acc, [(pcrs[0], value)], Reported(s.dev, LeftAfter(|s.fates|, 1), pcrs[1..]));
      }
    } else {
      assert acc + [] == acc;
    }
  }

  // ---- The quote ------------------------------------------------------------

  function PcrSet(pcrs: seq<nat>): (r: set<nat>) {
    set p | p in pcrs
  }

  /** What a quote of these PCRs covers, with m fates left. */
  function Quotable(dev: Device, m: nat, pcrs: seq<nat>): (values: map<nat, Digest>) {
    Values(dev.pcrs(m), PcrSet(pcrs))
  }

  /** A quote that arrives was made by the key behind the handle, over this nonce and over exactly
      these PCRs, with the values they had when the command was executed. */
  lemma {:induction false} QuoteSigned(s: State, ctx: nat, key: U32, nonce: seq<Byte>, pcrs: seq<nat>)
    requires forall p :: p in pcrs ==> p < PCR_COUNT
    ensures var (t, quote) := QuoteWith(s, ctx, key, nonce, pcrs);
            quote.Some? ==>
              && Resolve(s, ctx, key).Some?
              && var (o, values) := (Resolve(s, ctx, key).value, Quotable(s.dev, LeftAfter(|s.fates|, 1), pcrs));
                 var attest := s.dev.attest(o, nonce, values);
                 && t == s.(history := s.history + [QuoteDone(o, nonce, values)], fates := t.fates)
                 && quote.value.0 == attest && s.dev.sign(o, attest) <= quote.value.1
  {
    SelectedSetOf(pcrs);
    assert SelectedSet(BitmapOf(pcrs)) == PcrSet(pcrs);
  }

  /** What the quote of a collection covers, if the reading starts with n fates left. */
  function Covered(dev: Device, n: nat): (values: map<nat, Digest>) {
    Quotable(dev, LeftAfter(n, |COLLECTED_PCRS| + 1), COLLECTED_PCRS)
  }

  /** The evidence about one key and one nonce, collected with n fates left: all members but the quote
      and the PCR values come from the platform; the quote is by that key over that nonce, and it
      covers exactly the PCRs whose values are reported. The values are read just before. */
  ghost predicate Coherent(dev: Device, key: Object, nonce: seq<Byte>, n: nat, i: CollectInput, fields: Fields) {
    var attest := dev.attest(key, nonce, Covered(dev, n));
    exists signature: seq<Byte>, chain: seq<Cert> ::
      dev.sign(key, attest) <= signature
      && fields == EvidenceFields(i, PcrJson(Reported(dev, n, COLLECTED_PCRS)),
                                  Json.Build(QuoteFields(attest, signature, nonce)), chain)
  }

  /** The j-th PCR has two moments: when it is read, and when it is quoted. */
  lemma {:induction false} TwoMoments(dev: Device, n: nat, j: nat)
    requires j < |COLLECTED_PCRS|
    ensures var pcr := COLLECTED_PCRS[j];
            && Reported(dev, n, COLLECTED_PCRS)[j] == (pcr, dev.pcrs(LeftAfter(n, j + 1))(pcr))
            && pcr in Covered(dev, n) && Covered(dev, n)[pcr] == dev.pcrs(LeftAfter(n, |COLLECTED_PCRS| + 1))(pcr)
  {
    assert COLLECTED_PCRS[j] in PcrSet(COLLECTED_PCRS);
  }

  /** Does the quote cover the value that is reported of the j-th PCR? */
  predicate Agrees(dev: Device, n: nat, j: nat)
    requires j < |COLLECTED_PCRS|
  {
    var pcr := COLLECTED_PCRS[j];
    pcr in Covered(dev, n) && Covered(dev, n)[pcr] == Reported(dev, n, COLLECTED_PCRS)[j].1
  }

  /** The PCR has one value from the moment when `from` fates are left to that when `to` are. */
  ghost predicate Unextended(dev: Device, pcr: nat, from: nat, to: nat) {
    forall m :: to <= m <= from ==> dev.pcrs(m)(pcr) == dev.pcrs(to)(pcr)
  }

  /** A PCR that has been extended does not take an earlier value again: its values are a hash chain. */
  ghost predicate NeverReturns(dev: Device, pcr: nat) {
    forall m, k :: m <= k && dev.pcrs(k)(pcr) == dev.pcrs(m)(pcr) ==> Unextended(dev, pcr, k, m)
  }

  /** The values reported are the values quoted if no PCR is extended between its reading and the
      quote, and for PCRs only then. */
  lemma {:induction false} ReportedIsCovered(dev: Device, n: nat)
    ensures (forall j :: 0 <= j < |COLLECTED_PCRS| ==>
               Unextended(dev, COLLECTED_PCRS[j], LeftAfter(n, j + 1), LeftAfter(n, |COLLECTED_PCRS| + 1)))
            ==> forall j :: 0 <= j < |COLLECTED_PCRS| ==> Agrees(dev, n, j)
    ensures (forall j :: 0 <= j < |COLLECTED_PCRS| ==> NeverReturns(dev, COLLECTED_PCRS[j]) && Agrees(dev, n, j))
            ==> forall j :: 0 <= j < |COLLECTED_PCRS| ==>
                  Unextended(dev, COLLECTED_PCRS[j], LeftAfter(n, j + 1), LeftAfter(n, |COLLECTED_PCRS| + 1))
  {
    forall j | 0 <= j < |COLLECTED_PCRS|
      ensures var (read, quoted) := (LeftAfter(n, j + 1), LeftAfter(n, |COLLECTED_PCRS| + 1));
              && (Unextended(dev, COLLECTED_PCRS[j], read, quoted) ==> Agrees(dev, n, j))
              && (NeverReturns(dev, COLLECTED_PCRS[j]) && Agrees(dev, n, j)
                  ==> Unextended(dev, COLLECTED_PCRS[j], read, quoted))
    {
      TwoMoments(dev, n, j);
    }
  }

  /** PCRs that are extended just before the last command of a script. */
  function ExtendedLast(): (pcrs: nat -> Bank) {
    m => pcr => if m == 0 then [1] else [0]
  }

  lemma {:induction false} QuotedFields(dev: Device, key: Object, nonce: seq<Byte>, n: nat, i: CollectInput,
                                        quote: (seq<Byte>, seq<Byte>), chain: seq<Cert>)
    requires quote.0 == dev.attest(key, nonce, Covered(dev, n)) && dev.sign(key, quote.0) <= quote.1
    ensures Coherent(dev, key, nonce, n, i,
                     EvidenceFields(i, PcrJson(Reported(dev, n, COLLECTED_PCRS)),
                                    Json.Build(QuoteFields(quote.0, quote.1, nonce)), chain))
  {
  }

  lemma {:induction false} CoveredByQuote(s: State, ctx: nat, nonce: seq<Byte>, n: nat)
    requires |s.fates| == LeftAfter(n, |COLLECTED_PCRS|)
    ensures var (t, quote) := QuoteWith(s, ctx, AK_SLOT, nonce, COLLECTED_PCRS);
            quote.Some? ==>
              && Resolve(s, ctx, AK_SLOT).Some?
              && var o := Resolve(s, ctx, AK_SLOT).value;
                 && t.history == s.history + [QuoteDone(o, nonce, Covered(s.dev, n))]
                 && quote.value.0 == s.dev.attest(o, nonce, Covered(s.dev, n))
                 && s.dev.sign(o, quote.value.0) <= quote.value.1
  {
    QuoteSigned(s, ctx, AK_SLOT, nonce, COLLECTED_PCRS);
    assert LeftAfter(|s.fates|, 1) == LeftAfter(n, |COLLECTED_PCRS| + 1);
  }

  lemma {:induction false} CollectQuoteCoherent(s: State, ctx: nat, i: CollectInput, nonce: seq<Byte>, n: nat,
                                                values: seq<(nat, seq<Byte>)>)
    requires |s.fates| == LeftAfter(n, |COLLECTED_PCRS|) && values == Reported(s.dev, n, COLLECTED_PCRS)
    ensures var (t, result, fields) := CollectQuote(s, ctx, i, nonce, values);
            result == OK ==>
              && Resolve(s, ctx, AK_SLOT).Some?
              && var o := Resolve(s, ctx, AK_SLOT).value;
                 Coherent(s.dev, o, nonce, n, i, fields)
                 && t.history == s.history + [QuoteDone(o, nonce, Covered(s.dev, n))]
  {
    CoveredByQuote(s, ctx, nonce, n);
    var (s2, quote) := QuoteWith(s, ctx, AK_SLOT, nonce, COLLECTED_PCRS);
    if quote.Some? {
      ReadAllQuiet(s2, ctx, OdcaHandles(), []);
      var (s3, chain) := ReadAll(s2, ctx, OdcaHandles(), []);
      QuotedFields(s.dev, Resolve(s, ctx, AK_SLOT).value, nonce, n, i, quote.value, chain);
    }
  }

  lemma {:induction false} SlotKept(s: State, t: State, ctx: nat)
    requires Quiet(s, t)
    ensures Resolve(t, ctx, AK_SLOT) == Resolve(s, ctx, AK_SLOT) && t.dev == s.dev && t.history == s.history
  {
  }

  lemma {:induction false} CollectFromCoherent(s: State, ctx: nat, i: CollectInput, nonce: seq<Byte>)
    requires nonce == i.decode(i.nonce.GetOr(""))
    ensures var (t, result, fields) := CollectFrom(s, ctx, i);
            result == OK ==>
              && Resolve(s, ctx, AK_SLOT).Some?
              && var o := Resolve(s, ctx, AK_SLOT).value;
                 && nonce != [] && Coherent(s.dev, o, nonce, |s.fates|, i, fields)
                 && t.history == s.history + [QuoteDone(o, nonce, Covered(s.dev, |s.fates|))]
  {
    ReadPcrsReport(s, ctx, COLLECTED_PCRS, []);
    var (s1, values) := ReadPcrs(s, ctx, COLLECTED_PCRS, []);
    if values.Some? {
      assert values.value == Reported(s.dev, |s.fates|, COLLECTED_PCRS);
      SlotKept(s, s1, ctx);
      CollectQuoteCoherent(s1, ctx, i, nonce, |s.fates|, values.value);
    }
  }

  /** Two contexts and one presence check come first. */
  function LeftToRead(s: State): (n: nat) {
    LeftAfter(|s.fates|, 3)
  }

  /** Whatever else happens in between: a successful collection is coherent evidence by the AK in
      the slot, and one quote is all that the TPM did for it. */
  lemma {:induction false} CollectCoherent(s: State, i: CollectInput)
    requires Numbered(s)
    ensures var (t, result, fields) := CollectFields(s, i);
            var nonce := i.decode(i.nonce.GetOr(""));
            result == OK ==>
              && AK_SLOT in s.persistent && nonce != []
              && Coherent(s.dev, s.persistent[AK_SLOT], nonce, LeftToRead(s), i, fields)
              && t.history == s.history + [QuoteDone(s.persistent[AK_SLOT], nonce, Covered(s.dev, LeftToRead(s)))]
  {
    OpenEffect(s);
    var (s1, ctx) := OpenContext(s);
    if ctx.Some? {
      IssueQuiet(s1, ctx.value, ReadPublic(AK_SLOT));
      var (s2, present) := IsPresent(s1, ctx.value, AK_SLOT);
      OpenEffect(s2);
      var (s3, ctx2) := OpenContext(s2);
      if present && ctx2.Some? {
        assert |s3.fates| == LeftToRead(s);
        CollectFromCoherent(s3, ctx2.value, i, i.decode(i.nonce.GetOr("")));
      }
    }
  }

  /** Over every run: evidence that is handed out was signed by the AK that the slot held from the
      start, or by one that the TPM activated together with the EK created beside it. */
  lemma {:induction false} EvidenceOverRuns(s: State, calls: seq<Call>, i: CollectInput)
    requires Initial(s) && i.nonce.Some?
    ensures var w := Run(World(s, None), calls);
            var (w', result, blob) := CollectEvidence(w, i);
            result == OK ==>
              && AK_SLOT in w.tpm.persistent && blob.Some?
              && var key := w.tpm.persistent[AK_SLOT];
                 && (|| (AK_SLOT in s.persistent && key == s.persistent[AK_SLOT])
                     || (Enrolled(w.tpm.history, key)
                         && Attribute(key.template, 16) && Attribute(key.template, 18)))  // restricted, sign
                 && w'.tpm.history
                    == w.tpm.history + [QuoteDone(key, i.decode(i.nonce.value), Covered(s.dev, LeftToRead(w.tpm)))]
                 && exists fields: Fields ::
                      && blob.value == Json.Build(fields)
                      && Coherent(s.dev, key, i.decode(i.nonce.value), LeftToRead(w.tpm), i, fields)
  {
    InvInitial(s);
    RunKeepsInv(s, World(s, None), calls);
    var w := Run(World(s, None), calls);
    InvNumbered(s, w);
    CollectCoherent(w.tpm, i);
    AkTemplateFacts();
  }

  // ---- Success --------------------------------------------------------------

  ghost predicate NeverEmpty(dev: Device, pcr: nat) {
    forall m: nat :: dev.pcrs(m)(pcr) != []
  }

  lemma {:induction false} ReadPcrsSucceed(s: State, ctx: nat, pcrs: seq<nat>, acc: seq<(nat, seq<Byte>)>)
    requires Prompt(s) && ctx != 0 && ctx in s.contexts
    requires forall p :: p in pcrs ==> p < PCR_COUNT && NeverEmpty(s.dev, p)
    ensures var (t, values) := ReadPcrs(s, ctx, pcrs, acc); values.Some? && Prompt(t)
    decreases |pcrs|
  {
    if pcrs != [] {
      assert pcrs[0] in pcrs && forall p :: p in pcrs[1..] ==> p in pcrs;
      var c := PcrRead(BitmapOf([pcrs[0]]));
      PromptIssue(s, ctx, c);
      PromptKept(s, ctx, c);
      OneDigest(NextFate(s).1, pcrs[0]);
      IssueQuiet(s, ctx, c);
      var (s', value) := ReadPcr(s, ctx, pcrs[0]);
      ReadPcrsSucceed(s', ctx, pcrs[1..], acc + [(pcrs[0], value)]);
    }
  }

  const MAX_NONCE: nat := MAX_COMMAND - 43

  /** If no command fails, collecting with a signing key in the slot succeeds for every nonce that
      fits a command. */
  lemma {:induction false} CollectSucceeds(s: State, i: CollectInput)
    requires Numbered(s) && Prompt(s)
    requires AK_SLOT in s.persistent && Attribute(s.persistent[AK_SLOT].template, SIGN)
    requires forall p :: p in COLLECTED_PCRS ==> NeverEmpty(s.dev, p)
    requires 1 <= |i.decode(i.nonce.GetOr(""))| <= MAX_NONCE
    ensures CollectFields(s, i).1 == OK
  {
    FieldsDecided(s, i, i.decode(i.nonce.GetOr("")));
  }

  // ---- Every result ---------------------------------------------------------

  lemma {:induction false} QuoteDecided(s: State, ctx: nat, nonce: seq<Byte>, pcrs: seq<nat>)
    requires Prompt(s) && ctx != 0 && ctx in s.contexts && Vacant(s, ctx) && AK_SLOT in s.persistent
    ensures QuoteWith(s, ctx, AK_SLOT, nonce, pcrs).1.Some?
            <==> |nonce| <= MAX_NONCE && Attribute(s.persistent[AK_SLOT].template, SIGN)
  {
    if |nonce| <= MAX_NONCE {
      PromptIssue(s, ctx, Quote(AK_SLOT, nonce, BitmapOf(pcrs)));
    }
  }

  lemma {:induction false} CollectFromDecided(s: State, ctx: nat, i: CollectInput, nonce: seq<Byte>)
    requires Prompt(s) && ctx != 0 && ctx in s.contexts && Vacant(s, ctx) && AK_SLOT in s.persistent
    requires (forall p :: p in COLLECTED_PCRS ==> NeverEmpty(s.dev, p)) && nonce == i.decode(i.nonce.GetOr(""))
    ensures CollectFrom(s, ctx, i).1
            == if nonce == [] then INVALID_PARAM
               else if |nonce| <= MAX_NONCE && Attribute(s.persistent[AK_SLOT].template, SIGN) then OK
               else ATTESTATION_FAILED
  {
    ReadPcrsSucceed(s, ctx, COLLECTED_PCRS, []);
    ReadPcrsReport(s, ctx, COLLECTED_PCRS, []);
    QuoteDecided(ReadPcrs(s, ctx, COLLECTED_PCRS, []).0, ctx, nonce, COLLECTED_PCRS);
  }

  /** The contexts that a collection opens, and what it sees through the first one. */
  lemma {:induction false} TwoContexts(s: State)
    requires Numbered(s) && Prompt(s)
    ensures var (s1, c1) := OpenContext(s);
            && c1.Some?
            && var (s2, present) := IsPresent(s1, c1.value, AK_SLOT);
               && (present <==> AK_SLOT in s.persistent)
               && var (s3, c2) := OpenContext(s2);
                  && c2.Some? && Prompt(s3) && s3.dev == s.dev && s3.persistent == s.persistent
                  && c2.value != 0 && c2.value in s3.contexts && Vacant(s3, c2.value)
  {
    OpenEffect(s);
    var (s1, c1) := OpenContext(s);
    PromptIssue(s1, c1.value, ReadPublic(AK_SLOT));
    IssueQuiet(s1, c1.value, ReadPublic(AK_SLOT));
    OpenEffect(IsPresent(s1, c1.value, AK_SLOT).0);
  }

  lemma {:induction false} FieldsDecided(s: State, i: CollectInput, nonce: seq<Byte>)
    requires Numbered(s) && Prompt(s) && nonce == i.decode(i.nonce.GetOr(""))
    requires forall p :: p in COLLECTED_PCRS ==> NeverEmpty(s.dev, p)
    ensures CollectFields(s, i).1
            == if AK_SLOT !in s.persistent then NOT_ENROLLED
               else if nonce == [] then INVALID_PARAM
               else if |nonce| <= MAX_NONCE && Attribute(s.persistent[AK_SLOT].template, SIGN) then OK
               else ATTESTATION_FAILED
  {
    TwoContexts(s);
    var (s1, c1) := OpenContext(s);
    var (s2, present) := IsPresent(s1, c1.value, AK_SLOT);
    if present {
      var (s3, c2) := OpenContext(s2);
      CollectFromDecided(s3, c2.value, i, nonce);
    }
  }

  lemma {:induction false} FromOutcomes(s: State, ctx: nat, i: CollectInput)
    ensures var result := CollectFrom(s, ctx, i).1;
            && (result == OK || result == ATTESTATION_FAILED || result == INVALID_PARAM)
            && (result == INVALID_PARAM <==> i.decode(i.nonce.GetOr("")) == [])
  {
  }

  lemma {:induction false} FieldsOutcomes(s: State, i: CollectInput)
    ensures var result := CollectFields(s, i).1;
            && result != INTERNAL && result != ENROLLMENT_FAILED && result != ELEVATION_REQUIRED
            && (result == INVALID_PARAM ==> i.decode(i.nonce.GetOr("")) == [])
            && (result == OK ==> i.decode(i.nonce.GetOr("")) != [])
  {
    var (s1, c1) := OpenContext(s);
    if c1.Some? {
      var (s2, present) := IsPresent(s1, c1.value, AK_SLOT);
      var (s3, c2) := OpenContext(s2);
      if present && c2.Some? {
        FromOutcomes(s3, c2.value, i);
      }
    }
  }

  /** What the results of a collection mean, whatever fails. */
  lemma {:induction false} CollectOutcomes(w: World, i: CollectInput)
    ensures var (w', result, blob) := CollectEvidence(w, i);
            && (i.nonce.None? || !i.hasOut ==> (w', result) == (w, INVALID_PARAM))
            && (i.nonce.Some? && i.hasOut && result == INVALID_PARAM ==> i.decode(i.nonce.value) == [])
            && (result == OK ==> i.allocates && i.decode(i.nonce.GetOr("")) != [])
            && (result == INTERNAL ==> !i.allocates)
            && result != ENROLLMENT_FAILED && result != ELEVATION_REQUIRED && (blob.Some? <==> result == OK)
  {
    FieldsOutcomes(w.tpm, i);
  }

  /** Is the slot seen to be occupied, and can the TPM be opened once more? */
  lemma {:induction false} OpeningIff(s: State)
    requires Numbered(s) && forall h :: h in s.persistent ==> PERSISTENT_FIRST <= h
    ensures var (s1, c1) := OpenContext(s);
            && (c1.Some? <==> FateAt(s, 0).Deliver?)
            && (c1.Some? ==>
                  var (s2, present) := IsPresent(s1, c1.value, AK_SLOT);
                  && (present <==> FateAt(s, 1).Deliver? && AK_SLOT in s.persistent)
                  && (OpenContext(s2).1.Some? <==> FateAt(s, 2).Deliver?))
  {
    OpenEffect(s);
    var (s1, c1) := OpenContext(s);
    if c1.Some? {
      PresentIff(s1, c1.value, AK_SLOT);
    }
  }

  lemma {:induction false} FieldsOpening(s: State, i: CollectInput)
    requires Numbered(s) && forall h :: h in s.persistent ==> PERSISTENT_FIRST <= h
    ensures var result := CollectFields(s, i).1;
            var seen := FateAt(s, 0).Deliver? && FateAt(s, 1).Deliver? && AK_SLOT in s.persistent;
            && (result == NOT_ENROLLED <==> !seen)
            && (result == NO_TPM <==> seen && !FateAt(s, 2).Deliver?)
  {
    OpeningIff(s);
    var (s1, c1) := OpenContext(s);
    if c1.Some? {
      var (s2, present) := IsPresent(s1, c1.value, AK_SLOT);
      var (s3, c2) := OpenContext(s2);
      if present && c2.Some? {
        FromOutcomes(s3, c2.value, i);
      }
    }
  }

  /** The two ways in which a collection ends before it starts: no enrolled AK is seen, or the TPM cannot be
      opened for the evidence. */
  lemma {:induction false} CollectOpening(base: State, w: World, i: CollectInput)
    requires Inv(base, w) && i.nonce.Some? && i.hasOut
    ensures var (s, result) := (w.tpm, CollectEvidence(w, i).1);
            var seen := FateAt(s, 0).Deliver? && FateAt(s, 1).Deliver? && 0x8102_9301 in s.persistent;
            && (result == NOT_ENROLLED <==> !seen)
            && (result == NO_TPM <==> seen && !FateAt(s, 2).Deliver?)
  {
    InvNumbered(base, w);
    FieldsOpening(w.tpm, i);
  }

  /** If no command fails, the result of a collection is decided by its arguments and the slot: these are
      all the results there are, and the order in which they are told apart. */
  lemma {:induction false} CollectDecided(base: State, w: World, i: CollectInput)
    requires Inv(base, w) && Prompt(w.tpm)
    requires forall p :: p in [0, 1, 2, 3, 4, 7] ==> NeverEmpty(w.tpm.dev, p)
    ensures CollectEvidence(w, i).1
            == if i.nonce.None? || !i.hasOut then INVALID_PARAM
               else if 0x8102_9301 !in w.tpm.persistent then NOT_ENROLLED
               else if i.decode(i.nonce.value) == [] then INVALID_PARAM
               else if |i.decode(i.nonce.value)| > 4053 || !Attribute(w.tpm.persistent[0x8102_9301].template, 18)
               then ATTESTATION_FAILED
               else if !i.allocates then INTERNAL else OK
  {
    InvNumbered(base, w);
    if i.nonce.Some? {
      FieldsDecided(w.tpm, i, i.decode(i.nonce.value));
    }
  }

  /** No value that is reported is the one that is quoted. */
  ghost predicate Stale(dev: Device, n: nat) {
    forall j :: 0 <= j < |COLLECTED_PCRS| ==> !Agrees(dev, n, j)
  }

  lemma {:induction false} ExtendedIsStale(dev: Device)
    requires dev.pcrs == ExtendedLast()
    ensures Stale(dev, |COLLECTED_PCRS| + 1)
  {
    var n := |COLLECTED_PCRS| + 1;
    forall j | 0 <= j < |COLLECTED_PCRS|
      ensures !Agrees(dev, n, j)
    {
      TwoMoments(dev, n, j);
    }
  }

  lemma {:induction false} StillReady(s: State, i: CollectInput, dev: Device)
    requires Numbered(s) && Prompt(s) && dev == s.dev.(pcrs := ExtendedLast())
    requires AK_SLOT in s.persistent && Attribute(s.persistent[AK_SLOT].template, SIGN)
    requires 1 <= |i.decode(i.nonce.GetOr(""))| <= MAX_NONCE
    ensures Numbered(s.(dev := dev)) && CollectFields(s.(dev := dev), i).1 == OK
  {
    CollectSucceeds(s.(dev := dev), i);
  }

  /** Evidence that is out of date: every command succeeds, every PCR is extended between its reading
      and the quote, and the collection is handed out all the same. */
  lemma {:induction false} StaleExample(s: State, i: CollectInput)
    requires Numbered(s) && Prompt(s) && |s.fates| == |COLLECTED_PCRS| + 4
    requires AK_SLOT in s.persistent && Attribute(s.persistent[AK_SLOT].template, SIGN)
    requires 1 <= |i.decode(i.nonce.GetOr(""))| <= MAX_NONCE
    ensures var t := s.(dev := s.dev.(pcrs := ExtendedLast()));
            var (n, (_, result, fields)) := (LeftToRead(t), CollectFields(t, i));
            && result == OK && Stale(t.dev, n)
            && Coherent(t.dev, t.persistent[AK_SLOT], i.decode(i.nonce.GetOr("")), n, i, fields)
  {
    var dev := s.dev.(pcrs := ExtendedLast());
    StillReady(s, i, dev);
    CollectCoherent(s.(dev := dev), i);
    ExtendedIsStale(dev);
  }
}
