/**
 Safety of the enrollment over every run: any sequence of public calls, with any arguments, and any
 fate of any command in them.
 */
module EnrollmentSafety {
  import opened Bytes
  import opened PcrSelection
  import opened TpmState
  import opened ClientSpec
  import opened TpmFrames
  import opened TpmEffects
  import opened EnrollmentSpec

  // ---- Runs -----------------------------------------------------------------

  datatype Call = Begin(b: BeginInput) | Complete(c: CompleteInput) | Collect(e: CollectInput)

  function Perform(w: World, call: Call): (r: (World, Result, Option<string>)) {
    match call
    case Begin(b) => EnrollBegin(w, b)
    case Complete(c) => EnrollComplete(w, c)
    case Collect(e) => CollectEvidence(w, e)
  }

  function Run(w: World, calls: seq<Call>): (r: World)
    decreases |calls|
  {
    if calls == [] then w else Run(Perform(w, calls[0]).0, calls[1..])
  }

  // ---- The invariant --------------------------------------------------------

  /** A TPM in any state of use, with the bookkeeping still blank. */
  ghost predicate Initial(s: State) {
    && s.history == [] && s.peakObjects == |s.objects| && s.peakSessions == |s.sessions|
    && (forall c :: c in s.contexts ==> 0 < c <= s.lastContext)
    && (forall k :: k in s.objects ==> 0 < k.0 <= s.lastContext)
    && (forall k :: k in s.sessions ==> 0 < k.0 <= s.lastContext)
    && (forall h :: h in s.persistent ==> PERSISTENT_FIRST <= h)
  }

  /** The AK and EK of one context: created there from the client's templates. */
  ghost predicate CreatedPair(history: seq<Event>, ctx: nat, a: Object, e: Object) {
    && CreatedEvent(ctx, a) in history && CreatedEvent(ctx, e) in history
    && a.hierarchy == RH_OWNER && a.template == AkTemplate()
    && e.hierarchy == RH_ENDORSEMENT && e.template == EkTemplate()
  }

  /** The object went through TPM2_ActivateCredential together with the EK created beside it. */
  ghost predicate Enrolled(history: seq<Event>, o: Object) {
    exists ctx: nat, e: Object :: ActivationDone(ctx, o, e) in history && CreatedPair(history, ctx, o, e)
  }

  ghost predicate SlotSafe(base: State, s: State) {
    && SameSlotsBut(base.persistent, s.persistent, AK_SLOT)
    && (AK_SLOT in s.persistent ==>
          || (AK_SLOT in base.persistent && s.persistent[AK_SLOT] == base.persistent[AK_SLOT])
          || Enrolled(s.history, s.persistent[AK_SLOT]))
  }

  ghost predicate Tried(history: seq<Event>, serial: nat) {
    exists i :: 0 <= i < |history| && history[i].ActivationTried? && history[i].ak.serial == serial
  }

  /** No AK went through more than one activation attempt. */
  ghost predicate TriedOnce(history: seq<Event>) {
    forall i, j :: 0 <= i < j < |history| && history[i].ActivationTried? && history[j].ActivationTried?
      ==> history[i].ak.serial != history[j].ak.serial
  }

  ghost predicate SerialsBelow(s: State) {
    forall i :: 0 <= i < |s.history| && s.history[i].ActivationTried? ==> s.history[i].ak.serial < s.nextSerial
  }

  /** The resident provider owns one context, and in it exactly its EK and its AK. */
  ghost predicate Resident(base: State, s: State, p: Provider) {
    && base.lastContext < p.ctx <= s.lastContext && s.contexts == base.contexts + {p.ctx}
    && p.slot == AK_SLOT && p.ek != p.ak
    && TRANSIENT_FIRST <= p.ek < PERSISTENT_FIRST && TRANSIENT_FIRST <= p.ak < PERSISTENT_FIRST
    && (p.ctx, p.ek) in s.objects && (p.ctx, p.ak) in s.objects
    && var (a, e) := (s.objects[(p.ctx, p.ak)], s.objects[(p.ctx, p.ek)]);
       && s.objects == base.objects[(p.ctx, p.ek) := e][(p.ctx, p.ak) := a]
       && CreatedPair(s.history, p.ctx, a, e)
       && p.akPub == TPM2B(s.dev.publicOf(a.hierarchy, a.template))
       && a.serial < s.nextSerial && !Tried(s.history, a.serial)
  }

  ghost predicate Inv(base: State, w: World) {
    var s := w.tpm;
    && Initial(base)
    && s.dev == base.dev && base.lastContext <= s.lastContext
    && s.sessions == base.sessions
    && (if w.inflight.Some? then Resident(base, s, w.inflight.value)
        else s.contexts == base.contexts && s.objects == base.objects)
    && s.peakObjects <= |base.objects| + 4 && s.peakSessions <= |base.sessions| + 1
    && SlotSafe(base, s) && TriedOnce(s.history) && SerialsBelow(s)
  }

  lemma {:induction false} InvInitial(s: State)
    requires Initial(s)
    ensures Inv(s, World(s, None))
  {
  }

  // ---- Histories only grow --------------------------------------------------

  lemma {:induction false} HistoryGrows(h: seq<Event>, h': seq<Event>, e: Event)
    requires h <= h' && e in h
    ensures e in h'
  {
    var i :| 0 <= i < |h| && h[i] == e;
    assert h'[i] == e;
  }

  lemma {:induction false} EnrolledGrows(h: seq<Event>, h': seq<Event>, o: Object)
    requires h <= h' && Enrolled(h, o)
    ensures Enrolled(h', o)
  {
    var ctx: nat, e: Object :| ActivationDone(ctx, o, e) in h && CreatedPair(h, ctx, o, e);
    PairGrows(h, h', ctx, o, e);
    HistoryGrows(h, h', ActivationDone(ctx, o, e));
  }

  lemma {:induction false} PairGrows(h: seq<Event>, h': seq<Event>, ctx: nat, a: Object, e: Object)
    requires h <= h' && CreatedPair(h, ctx, a, e)
    ensures CreatedPair(h', ctx, a, e)
  {
    HistoryGrows(h, h', CreatedEvent(ctx, a));
    HistoryGrows(h, h', CreatedEvent(ctx, e));
  }

  /** Events other than attempts do not add attempts. */
  ghost predicate NoAttempts(h: seq<Event>, h': seq<Event>) {
    h <= h' && forall i :: |h| <= i < |h'| ==> !h'[i].ActivationTried?
  }

  // ---- The state between calls ----------------------------------------------

  /** What a call that ends with its contexts closed may have changed: nothing but the bookkeeping. */
  ghost predicate Settled(s: State, t: State) {
    && t == s.(lastContext := t.lastContext, nextSerial := t.nextSerial, history := t.history,
               peakObjects := t.peakObjects, peakSessions := t.peakSessions, fates := t.fates)
    && s.lastContext <= t.lastContext && s.nextSerial <= t.nextSerial && NoAttempts(s.history, t.history)
  }

  lemma {:induction false} SettledKeepsInv(base: State, w: World, t: State)
    requires Inv(base, w) && Settled(w.tpm, t)
    requires t.peakObjects <= |base.objects| + 4 && t.peakSessions <= |base.sessions| + 1
    ensures Inv(base, w.(tpm := t))
  {
    var s := w.tpm;
    if AK_SLOT in s.persistent && Enrolled(s.history, s.persistent[AK_SLOT]) {
      EnrolledGrows(s.history, t.history, s.persistent[AK_SLOT]);
    }
    if w.inflight.Some? {
      var p := w.inflight.value;
      PairGrows(s.history, t.history, p.ctx, s.objects[(p.ctx, p.ak)], s.objects[(p.ctx, p.ek)]);
    }
  }

  // ---- Gathering and collecting ---------------------------------------------

  /** Everything belongs to a context that was numbered already. */
  ghost predicate Numbered(s: State) {
    && (forall c :: c in s.contexts ==> c <= s.lastContext)
    && (forall k :: k in s.objects ==> k.0 <= s.lastContext)
    && (forall k :: k in s.sessions ==> k.0 <= s.lastContext)
  }

  lemma {:induction false} InvNumbered(base: State, w: World)
    requires Inv(base, w)
    ensures Numbered(w.tpm)
  {
    forall k | k in w.tpm.objects
      ensures k.0 <= w.tpm.lastContext
    {
      if k !in base.objects {
        assert w.inflight.Some? && k.0 == w.inflight.value.ctx;
      }
    }
  }

  /** Context ctx has just been opened. */
  ghost predicate Opened(s: State, ctx: nat, t: State) {
    && ctx == s.lastContext + 1
    && t == s.(contexts := s.contexts + {ctx}, lastContext := ctx, fates := t.fates)
  }

  /** Its number is new, so there is nothing in it. */
  lemma {:induction false} OpenEffect(s: State)
    requires Numbered(s)
    ensures var (t, ctx) := OpenContext(s);
            if ctx.None? then Quiet(s, t)
            else Opened(s, ctx.value, t) && Numbered(t) && Vacant(t, ctx.value) && ctx.value !in s.contexts
  {
  }

  /** Only quotes and the script: the evidence commands. */
  ghost predicate Observed(s: State, t: State) {
    t == s.(history := t.history, fates := t.fates) && NoAttempts(s.history, t.history)
  }

  /** A context in which nothing was created leaves nothing behind. */
  lemma {:induction false} ObserveAndClose(s: State, ctx: nat, t: State, u: State)
    requires Numbered(s) && Opened(s, ctx, t) && Observed(t, u)
    ensures var v := CloseContext(u, ctx);
            Settled(s, v) && v.peakObjects == s.peakObjects && v.peakSessions == s.peakSessions
  {
    CloseRestores(t, u, ctx);
    assert t.contexts - {ctx} == s.contexts;
  }

  lemma {:induction false} GatherSettles(s: State, src: EkSources)
    requires Numbered(s)
    ensures var t := GatherEk(s, src).0;
            Settled(s, t) && t.peakObjects == s.peakObjects && t.peakSessions == s.peakSessions
  {
    if src.ekPub != [] {
      OpenEffect(s);
      var (t, ctx) := OpenContext(s);
      if ctx.Some? {
        ReadAllQuiet(t, ctx.value, OdcaHandles(), []);
        ObserveAndClose(s, ctx.value, t, ReadAll(t, ctx.value, OdcaHandles(), []).0);
      }
    }
  }

  lemma {:induction false} ReadPcrsQuiet(s: State, ctx: nat, pcrs: seq<nat>, acc: seq<(nat, seq<Byte>)>)
    ensures Quiet(s, ReadPcrs(s, ctx, pcrs, acc).0)
    decreases |pcrs|
  {
    if pcrs != [] {
      IssueQuiet(s, ctx, PcrRead(BitmapOf([pcrs[0]])));
      var (s', value) := ReadPcr(s, ctx, pcrs[0]);
      if value != [] {
        ReadPcrsQuiet(s', ctx, pcrs[1..], acc + [(pcrs[0], value)]);
      }
    }
  }

  lemma {:induction false} QuoteObserves(s: State, ctx: nat, key: U32, nonce: seq<Byte>, pcrs: seq<nat>)
    ensures Observed(s, QuoteWith(s, ctx, key, nonce, pcrs).0)
  {
  }

  lemma {:induction false} CollectFromObserves(s: State, ctx: nat, i: CollectInput)
    ensures Observed(s, CollectFrom(s, ctx, i).0)
  {
    var nonce := i.decode(i.nonce.GetOr(""));
    if nonce != [] {
      ReadPcrsQuiet(s, ctx, COLLECTED_PCRS, []);
      var (s1, values) := ReadPcrs(s, ctx, COLLECTED_PCRS, []);
      if values.Some? {
        QuoteObserves(s1, ctx, AK_SLOT, nonce, COLLECTED_PCRS);
        var (s2, quote) := QuoteWith(s1, ctx, AK_SLOT, nonce, COLLECTED_PCRS);
        if quote.Some? {
          ReadAllQuiet(s2, ctx, OdcaHandles(), []);
        }
      }
    }
  }

  /** Evidence collection changes nothing in the TPM: no object, no session, no persistent slot. */
  lemma {:induction false} CollectSettles(s: State, i: CollectInput)
    requires Numbered(s)
    ensures var t := CollectFields(s, i).0;
            Settled(s, t) && t.peakObjects == s.peakObjects && t.peakSessions == s.peakSessions
  {
    OpenEffect(s);
    var (s1, ctx) := OpenContext(s);
    if ctx.Some? {
      var (s2, present) := IsPresent(s1, ctx.value, AK_SLOT);
      IssueQuiet(s1, ctx.value, ReadPublic(AK_SLOT));
      if !present {
        ObserveAndClose(s, ctx.value, s1, s2);
      } else {
        OpenEffect(s2);
        var (s3, ctx2) := OpenContext(s2);
        if ctx2.None? {
          ObserveAndClose(s, ctx.value, s1, s3);
        } else {
          var s4 := CollectFrom(s3, ctx2.value, i).0;
          CollectFromObserves(s3, ctx2.value, i);
          ObserveAndClose(s2, ctx2.value, s3, s4);
          CloseOuter(s, ctx.value, s1, CloseContext(s4, ctx2.value));
        }
      }
    }
  }

  /** The outer context closes after the inner one has come and gone. */
  lemma {:induction false} CloseOuter(s: State, ctx: nat, t: State, u: State)
    requires Numbered(s) && Opened(s, ctx, t) && Settled(t, u)
    requires u.peakObjects == t.peakObjects && u.peakSessions == t.peakSessions
    ensures var v := CloseContext(u, ctx);
            Settled(s, v) && v.peakObjects == s.peakObjects && v.peakSessions == s.peakSessions
  {
    CloseRestores(t, u.(lastContext := t.lastContext), ctx);
    assert t.contexts - {ctx} == s.contexts;
  }

  // ---- Begin ----------------------------------------------------------------

  /** A new context, and in it a new EK and a new AK. */
  ghost predicate NewKeys(s: State, t: State, p: Provider) {
    && p.ctx == s.lastContext + 1 && p.slot == AK_SLOT && p.ek != p.ak
    && TRANSIENT_FIRST <= p.ek < PERSISTENT_FIRST && TRANSIENT_FIRST <= p.ak < PERSISTENT_FIRST
    && t.dev == s.dev && t.lastContext == p.ctx && t.contexts == s.contexts + {p.ctx}
    && t.sessions == s.sessions && t.persistent == s.persistent
    && (p.ctx, p.ek) in t.objects && (p.ctx, p.ak) in t.objects
    && var (a, e) := (t.objects[(p.ctx, p.ak)], t.objects[(p.ctx, p.ek)]);
       && t.objects == s.objects[(p.ctx, p.ek) := e][(p.ctx, p.ak) := a]
       && CreatedPair(t.history, p.ctx, a, e) && NoAttempts(s.history, t.history)
       && p.akPub == TPM2B(t.dev.publicOf(a.hierarchy, a.template))
       && s.nextSerial <= a.serial < t.nextSerial
  }

  /** A context in which things were created and that is closed again. */
  lemma {:induction false} CreateAndClose(s: State, ctx: nat, t: State, u: State)
    requires Numbered(s) && Opened(s, ctx, t) && Around(t, u, ctx) && NoAttempts(t.history, u.history)
    ensures Settled(s, CloseContext(u, ctx))
  {
    CloseRestores(t, u, ctx);
    assert t.contexts - {ctx} == s.contexts;
  }

  ghost predicate TwoMore(s: State, t: State) {
    t.peakObjects <= Max(s.peakObjects, |s.objects| + 2) && t.peakSessions <= s.peakSessions
  }

  /** What CreateAk may do to the TPM whether or not it succeeds. */
  ghost predicate AkTried(s: State, t: State, ctx: nat) {
    Around(s, t, ctx) && NoAttempts(s.history, t.history) && TwoMore(s, t)
  }

  /** The EK and the AK have been created in the provider's context. */
  ghost predicate BothCreated(s: State, t: State, q: Provider) {
    && TRANSIENT_FIRST <= q.ek < PERSISTENT_FIRST && TRANSIENT_FIRST <= q.ak < PERSISTENT_FIRST && q.ek != q.ak
    && t.sessions == s.sessions
    && var e := Object(s.nextSerial, RH_ENDORSEMENT, EkTemplate());
       var a := Object(s.nextSerial + 1, RH_OWNER, AkTemplate());
       && t.objects == s.objects[(q.ctx, q.ek) := e][(q.ctx, q.ak) := a]
       && t.history == s.history + [CreatedEvent(q.ctx, e)] + [CreatedEvent(q.ctx, a)]
       && t.nextSerial == s.nextSerial + 2
       && q.akPub == TPM2B(s.dev.publicOf(RH_OWNER, AkTemplate()))
  }

  /** An object has been created under this handle. */
  ghost predicate KeyMade(s: State, t: State, ctx: nat, h: U32, o: Object) {
    && Around(s, t, ctx) && t.sessions == s.sessions && t.nextSerial == s.nextSerial + 1
    && TRANSIENT_FIRST <= h < PERSISTENT_FIRST && (ctx, h) !in s.objects
    && t.objects == s.objects[(ctx, h) := o] && t.history == s.history + [CreatedEvent(ctx, o)]
  }

  /** At most one object more, and no other event than its creation. */
  ghost predicate KeyTried(s: State, t: State, ctx: nat) {
    && Around(s, t, ctx) && NoAttempts(s.history, t.history)
    && t.peakObjects <= Max(s.peakObjects, |s.objects| + 1) && |t.objects| <= |s.objects| + 1
    && t.peakSessions == s.peakSessions
  }

  lemma {:induction false} KeyEffect(s: State, ctx: nat, hierarchy: U32, template: seq<Byte>)
    ensures var (t, h, pub) := CreateKey(s, ctx, hierarchy, template);
            && KeyTried(s, t, ctx)
            && (h != 0 ==> KeyMade(s, t, ctx, h, Object(s.nextSerial, hierarchy, template))
                           && pub == TPM2B(s.dev.publicOf(hierarchy, template)))
  {
    CreateKeyEffect(s, ctx, hierarchy, template);
  }

  lemma {:induction false} TwoTried(s: State, s1: State, t: State, ctx: nat)
    requires KeyTried(s, s1, ctx) && KeyTried(s1, t, ctx)
    ensures AkTried(s, t, ctx)
  {
    AroundTransitive(s, s1, t, ctx);
  }

  lemma {:induction false} TwoMade(s: State, s1: State, t: State, q: Provider)
    requires KeyMade(s, s1, q.ctx, q.ek, Object(s.nextSerial, RH_ENDORSEMENT, EkTemplate()))
    requires KeyMade(s1, t, q.ctx, q.ak, Object(s1.nextSerial, RH_OWNER, AkTemplate()))
    requires q.akPub == TPM2B(s1.dev.publicOf(RH_OWNER, AkTemplate()))
    ensures BothCreated(s, t, q)
  {
  }

  lemma {:induction false} FlushedTried(s: State, t: State, q: Provider)
    requires AkTried(s, t, q.ctx)
    ensures AkTried(s, FlushTransients(t, q).0, q.ctx)
  {
    FlushTransientsEffect(t, q);
    AroundTransitive(s, t, FlushTransients(t, q).0, q.ctx);
  }

  lemma {:induction false} AkBesideEffect(s: State, s1: State, p: Provider)
    requires KeyTried(s, s1, p.ctx) && KeyMade(s, s1, p.ctx, p.ek, Object(s.nextSerial, RH_ENDORSEMENT, EkTemplate()))
    ensures var (t, q, ok) := AkBeside(s1, p);
            && AkTried(s, t, p.ctx) && q.ctx == p.ctx && q.slot == p.slot
            && (ok ==> BothCreated(s, t, q))
  {
    var (t, ak, pub) := CreateKey(s1, p.ctx, RH_OWNER, AkTemplate());
    var q := p.(ak := ak, akPub := pub);
    KeyEffect(s1, p.ctx, RH_OWNER, AkTemplate());
    TwoTried(s, s1, t, p.ctx);
    if ak == 0 || pub == [] {
      FlushTransientsEffect(t, q);
      FlushedTried(s, t, q);
    } else {
      TwoMade(s, s1, t, q);
    }
  }

  lemma {:induction false} CreateAkEffect(s: State, p: Provider)
    requires p.ek == 0 && p.ak == 0 && Vacant(s, p.ctx)
    ensures var (t, q, ok) := CreateAk(s, p);
            && AkTried(s, t, p.ctx) && q.ctx == p.ctx && q.slot == p.slot
            && (ok ==> BothCreated(s, t, q))
  {
    FlushTransientsEffect(s, p);
    var (s1, ek, _) := CreateKey(s, p.ctx, RH_ENDORSEMENT, EkTemplate());
    KeyEffect(s, p.ctx, RH_ENDORSEMENT, EkTemplate());
    if ek != 0 {
      AkBesideEffect(s, s1, p.(ek := ek));
    }
  }

  /** The transients of one context are gone; sessions and bookkeeping are as they were. */
  ghost predicate Released(s: State, u: State, ctx: nat) {
    && Around(s, u, ctx) && u.history == s.history && u.nextSerial == s.nextSerial
    && u.peakObjects <= s.peakObjects && u.peakSessions <= s.peakSessions
  }

  lemma {:induction false} CloseProviderAfter(s: State, p: Provider)
    ensures var u := FlushTransients(s, p).0; Released(s, u, p.ctx) && CloseProvider(s, p) == CloseContext(u, p.ctx)
  {
    FlushTransientsEffect(s, p);
  }

  lemma {:induction false} CreatedAreNew(s: State, s1: State, s2: State, p: Provider)
    requires Numbered(s) && Opened(s, p.ctx, s1) && p.slot == AK_SLOT
    requires AkTried(s1, s2, p.ctx) && BothCreated(s1, s2, p)
    ensures NewKeys(s, s2, p)
  {
    var (a, e) := (s2.objects[(p.ctx, p.ak)], s2.objects[(p.ctx, p.ek)]);
    assert CreatedEvent(p.ctx, a) in s2.history && CreatedEvent(p.ctx, e) in s2.history;
  }

  lemma {:induction false} FailedBegin(s: State, s1: State, s2: State, p: Provider)
    requires Numbered(s) && Opened(s, p.ctx, s1) && AkTried(s1, s2, p.ctx)
    ensures Settled(s, CloseProvider(s2, p)) && TwoMore(s, CloseProvider(s2, p))
  {
    CloseProviderAfter(s2, p);
    var u := FlushTransients(s2, p).0;
    AroundTransitive(s1, s2, u, p.ctx);
    CreateAndClose(s, p.ctx, s1, u);
  }

  lemma {:induction false} BeginKeysEffect(s: State, allocates: bool)
    requires Numbered(s)
    ensures var (t, result, p) := BeginKeys(s, allocates);
            && TwoMore(s, t)
            && (if p.None? then Settled(s, t) && result != OK else result == OK && NewKeys(s, t, p.value))
  {
    OpenEffect(s);
    var (s1, ctx) := OpenContext(s);
    if ctx.Some? {
      var (s2, p, created) := CreateAk(s1, NewProvider(ctx.value));
      CreateAkEffect(s1, NewProvider(ctx.value));
      if created && p.akPub != [] && allocates {
        CreatedAreNew(s, s1, s2, p);
      } else {
        FailedBegin(s, s1, s2, p);
      }
    }
  }

  /** The successful end of EnrollBegin with nothing in flight before. */
  lemma {:induction false} NewKeysResident(base: State, w: World, t: State, p: Provider)
    requires Inv(base, w) && w.inflight.None? && NewKeys(w.tpm, t, p)
    requires t.peakObjects <= |base.objects| + 4 && t.peakSessions <= |base.sessions| + 1
    ensures Inv(base, World(t, Some(p)))
  {
    HistoryStep(base, w.tpm, t);
    var a := t.objects[(p.ctx, p.ak)];
    NotTriedYet(w.tpm, t, a.serial);
  }

  lemma {:induction false} HistoryStep(base: State, s: State, t: State)
    requires SlotSafe(base, s) && TriedOnce(s.history) && SerialsBelow(s)
    requires t.persistent == s.persistent && NoAttempts(s.history, t.history) && s.nextSerial <= t.nextSerial
    ensures SlotSafe(base, t) && TriedOnce(t.history) && SerialsBelow(t)
  {
    if AK_SLOT in s.persistent && Enrolled(s.history, s.persistent[AK_SLOT]) {
      EnrolledGrows(s.history, t.history, s.persistent[AK_SLOT]);
    }
  }

  lemma {:induction false} NotTriedYet(s: State, t: State, serial: nat)
    requires SerialsBelow(s) && NoAttempts(s.history, t.history) && s.nextSerial <= serial
    ensures !Tried(t.history, serial)
  {
  }

  lemma {:induction false} OneContext(base: set<nat>, all: set<nat>, q: nat, p: nat)
    requires all == base + {q} && q !in base && p != q
    ensures all - {q} == base && all + {p} - {q} == base + {p}
  {
  }

  /** The state with only the new enrollment in it. */
  ghost function Alone(base: State, t: State, p: Provider): (x: State)
    requires (p.ctx, p.ek) in t.objects && (p.ctx, p.ak) in t.objects
  {
    t.(objects := base.objects[(p.ctx, p.ek) := t.objects[(p.ctx, p.ek)]][(p.ctx, p.ak) := t.objects[(p.ctx, p.ak)]])
  }

  lemma {:induction false} AroundAlone(base: State, s: State, q: Provider, t: State, p: Provider, u: State)
    requires Initial(base) && Resident(base, s, q) && NewKeys(s, t, p) && Around(t, u, q.ctx)
    requires s.sessions == base.sessions && s.dev == base.dev
    ensures Around(Alone(base, t, p), u, q.ctx) && Vacant(Alone(base, t, p), q.ctx)
  {
    var (a, e) := (t.objects[(p.ctx, p.ak)], t.objects[(p.ctx, p.ek)]);
    TwoIn(base.objects, q.ctx, q.ek, q.ak, s.objects[(q.ctx, q.ek)], s.objects[(q.ctx, q.ak)]);
    TwoOnTop(base.objects, s.objects, q.ctx, (p.ctx, p.ek), (p.ctx, p.ak), e, a);
    assert SameElsewhere(Alone(base, t, p).objects, t.objects, q.ctx);
  }

  /** Releasing the earlier enrollment once the new one is in place. */
  lemma {:induction false} ReleaseObjects(base: State, s: State, q: Provider, t: State, p: Provider, u: State)
    requires Initial(base) && Resident(base, s, q) && NewKeys(s, t, p) && Around(t, u, q.ctx)
    requires s.sessions == base.sessions && s.dev == base.dev
    ensures var v := CloseContext(u, q.ctx);
            && v.objects == Alone(base, t, p).objects
            && v.sessions == base.sessions && v.contexts == base.contexts + {p.ctx}
  {
    AroundAlone(base, s, q, t, p, u);
    CloseRestores(Alone(base, t, p), u, q.ctx);
    OneContext(base.contexts, s.contexts, q.ctx, p.ctx);
  }

  lemma {:induction false} StillResident(base: State, s: State, t: State, v: State, p: Provider)
    requires NewKeys(s, t, p) && base.lastContext <= s.lastContext && SerialsBelow(s)
    requires v.dev == t.dev && v.lastContext == t.lastContext && v.contexts == base.contexts + {p.ctx}
    requires v.history == t.history && v.nextSerial == t.nextSerial
    requires v.objects == Alone(base, t, p).objects
    ensures Resident(base, v, p)
  {
    var (a, e) := (t.objects[(p.ctx, p.ak)], t.objects[(p.ctx, p.ek)]);
    NotTriedYet(s, v, a.serial);
    assert v.objects[(p.ctx, p.ak)] == a && v.objects[(p.ctx, p.ek)] == e;
  }

  lemma {:induction false} ReleaseOther(base: State, w: World, t: State, p: Provider)
    requires Inv(base, w) && w.inflight.Some? && NewKeys(w.tpm, t, p)
    requires t.peakObjects <= |base.objects| + 4 && t.peakSessions <= |base.sessions| + 1
    ensures Inv(base, World(CloseProvider(t, w.inflight.value), Some(p)))
  {
    var s, q := w.tpm, w.inflight.value;
    CloseProviderAfter(t, q);
    var v := CloseProvider(t, q);
    ReleaseObjects(base, s, q, t, p, FlushTransients(t, q).0);
    HistoryStep(base, s, v);
    StillResident(base, s, t, v, p);
  }

  lemma {:induction false} GatherKeepsInv(base: State, w: World, src: EkSources)
    requires Inv(base, w)
    ensures var w1 := w.(tpm := GatherEk(w.tpm, src).0); Inv(base, w1) && Numbered(w1.tpm)
  {
    InvNumbered(base, w);
    GatherSettles(w.tpm, src);
    SettledKeepsInv(base, w, GatherEk(w.tpm, src).0);
    InvNumbered(base, w.(tpm := GatherEk(w.tpm, src).0));
  }

  /** A call that starts an enrollment keeps the invariant, and leaves the one in flight alone if it
      fails. */
  ghost predicate BeginKept(base: State, inflight: Option<Provider>, outcome: (World, Result, Option<string>)) {
    && Inv(base, outcome.0)
    && if outcome.1 == OK then outcome.2.Some? else outcome.2.None? && outcome.0.inflight == inflight
  }

  lemma {:induction false} BeginWithKeepsInv(base: State, w: World, ek: EkData, allocates: bool)
    requires Inv(base, w) && Numbered(w.tpm)
    ensures BeginKept(base, w.inflight, BeginWith(w, ek, allocates))
  {
    BeginKeysEffect(w.tpm, allocates);
    InFlightCount(base, w);
    var (t, result, p) := BeginKeys(w.tpm, allocates);
    if p.None? {
      SettledKeepsInv(base, w, t);
    } else if w.inflight.Some? {
      ReleaseOther(base, w, t, p.value);
    } else {
      NewKeysResident(base, w, t, p.value);
    }
  }

  lemma {:induction false} BeginKeepsInv(base: State, w: World, i: BeginInput)
    requires Inv(base, w)
    ensures BeginKept(base, w.inflight, EnrollBegin(w, i))
  {
    if i.hasOut && i.elevated {
      GatherKeepsInv(base, w, i.ek);
      var (s, ek) := GatherEk(w.tpm, i.ek);
      if ek.Some? {
        BeginWithKeepsInv(base, w.(tpm := s), ek.value, i.allocates);
        assert EnrollBegin(w, i) == BeginWith(w.(tpm := s), ek.value, i.allocates);
      }
    }
  }

  lemma {:induction false} InFlightCount(base: State, w: World)
    requires Inv(base, w)
    ensures |w.tpm.objects| == |base.objects| + (if w.inflight.Some? then 2 else 0)
  {
    if w.inflight.Some? {
      var p, s := w.inflight.value, w.tpm;
      var (a, e) := (s.objects[(p.ctx, p.ak)], s.objects[(p.ctx, p.ek)]);
      assert (p.ctx, p.ek) !in base.objects && (p.ctx, p.ak) !in base.objects[(p.ctx, p.ek) := e];
    }
  }

  // ---- Complete -------------------------------------------------------------

  /** Everything in the resident context is released; what is left is the bookkeeping and the slot. */
  lemma {:induction false} ResidentReleased(base: State, w: World, u: State, p: Provider)
    requires Inv(base, w) && w.inflight == Some(p)
    requires u.dev == w.tpm.dev && u.contexts == w.tpm.contexts && u.lastContext == w.tpm.lastContext
    requires SameElsewhere(w.tpm.objects, u.objects, p.ctx) && SameElsewhere(w.tpm.sessions, u.sessions, p.ctx)
    requires u.peakObjects <= |base.objects| + 4 && u.peakSessions <= |base.sessions| + 1
    requires SlotSafe(base, u) && TriedOnce(u.history) && SerialsBelow(u)
    ensures Inv(base, World(CloseContext(u, p.ctx), None))
  {
    var x := w.tpm.(objects := base.objects);
    var u' := u.(persistent := x.persistent, history := x.history, nextSerial := x.nextSerial);
    TwoIn(base.objects, p.ctx, p.ek, p.ak, w.tpm.objects[(p.ctx, p.ek)], w.tpm.objects[(p.ctx, p.ak)]);
    assert Around(x, u', p.ctx);
    assert Vacant(x, p.ctx);
    CloseRestores(x, u', p.ctx);
    var v := CloseContext(u, p.ctx);
    assert v.objects == CloseContext(u', p.ctx).objects && v.sessions == CloseContext(u', p.ctx).sessions;
    OneContext(base.contexts, w.tpm.contexts, p.ctx, 0);
  }

  /** One more attempt on an AK that was not tried before. */
  lemma {:induction false} AttemptOnce(s: State, t: State, ctx: nat, a: Object, e: Object)
    requires TriedOnce(s.history) && SerialsBelow(s) && !Tried(s.history, a.serial) && a.serial < s.nextSerial
    requires Attempt(s.history, t.history, ctx, a, e) && s.nextSerial <= t.nextSerial
    ensures TriedOnce(t.history) && SerialsBelow(t) && s.history <= t.history
  {
  }

  lemma {:induction false} SlotAfterActivation(base: State, s: State, t: State, ctx: nat, a: Object, e: Object)
    requires SlotSafe(base, s) && CreatedPair(s.history, ctx, a, e)
    requires s.history <= t.history && ActivationDone(ctx, a, e) in t.history
    requires SameSlotsBut(s.persistent, t.persistent, AK_SLOT)
    requires AK_SLOT in t.persistent ==>
               t.persistent[AK_SLOT] == a || (AK_SLOT in s.persistent && t.persistent[AK_SLOT] == s.persistent[AK_SLOT])
    ensures SlotSafe(base, t)
  {
    PairGrows(s.history, t.history, ctx, a, e);
    assert Enrolled(t.history, a);
    if AK_SLOT in s.persistent && Enrolled(s.history, s.persistent[AK_SLOT]) {
      EnrolledGrows(s.history, t.history, s.persistent[AK_SLOT]);
    }
  }

  lemma {:induction false} SlotUnchanged(base: State, s: State, t: State)
    requires SlotSafe(base, s) && s.history <= t.history && t.persistent == s.persistent
    ensures SlotSafe(base, t)
  {
    if AK_SLOT in s.persistent && Enrolled(s.history, s.persistent[AK_SLOT]) {
      EnrolledGrows(s.history, t.history, s.persistent[AK_SLOT]);
    }
  }

  lemma {:induction false} CompleteKeysKeepsInv(base: State, w: World, p: Provider, params: seq<Byte>)
    requires Inv(base, w) && w.inflight == Some(p)
    ensures Inv(base, World(CompleteKeys(w.tpm, p, params).0, None))
  {
    var s := w.tpm;
    var (a, e) := (s.objects[(p.ctx, p.ak)], s.objects[(p.ctx, p.ek)]);
    assert HandlesApart(s, p.ctx);
    ActivateEffect(s, p.ctx, p.ak, p.ek, params);
    var (s1, secret) := ActivateAk(s, p, params);
    AttemptOnce(s, s1, p.ctx, a, e);
    if secret == [] {
      SlotUnchanged(base, s, s1);
      FlushTransientsEffect(s1, p);
      var u := FlushTransients(s1, p).0;
      SlotUnchanged(base, s1, u);
      ResidentReleased(base, w, u, p);
    } else {
      assert ActivationDone(p.ctx, a, e) in s1.history by {
        assert s1.history[|s.history| + 1] == ActivationDone(p.ctx, a, e);
      }
      PersistKeepsInv(base, w, p, s1);
    }
  }

  lemma {:induction false} PersistKeepsInv(base: State, w: World, p: Provider, s1: State)
    requires Inv(base, w) && w.inflight == Some(p)
    requires Step(w.tpm, s1, p.ctx, 0, 1) && s1.objects == w.tpm.objects
    requires TriedOnce(s1.history) && SerialsBelow(s1)
    requires ActivationDone(p.ctx, w.tpm.objects[(p.ctx, p.ak)], w.tpm.objects[(p.ctx, p.ek)]) in s1.history
    ensures var (s2, p2, ok) := PersistAk(s1, p);
            Inv(base, World(CloseProvider(s2, p2), None))
  {
    var s := w.tpm;
    var (a, e) := (s.objects[(p.ctx, p.ak)], s.objects[(p.ctx, p.ek)]);
    assert HandlesApart(s1, p.ctx);
    EvictEffect(s1, p.ctx, p.ak, AK_SLOT);
    var (s2, evicted) := Evict(s1, p.ctx, p.ak, AK_SLOT);
    SlotAfterActivation(base, s, s2, p.ctx, a, e);
    FlushTransientsEffect(s2, p);
    var (s3, p3) := FlushTransients(s2, p);
    SlotUnchanged(base, s2, s3);
    FlushTransientsEffect(s3, p3);
    ResidentReleased(base, w, s3, p);
  }

  lemma {:induction false} CompleteKeepsInv(base: State, w: World, i: CompleteInput)
    requires Inv(base, w)
    ensures var (w', result, blob) := EnrollComplete(w, i);
            && Inv(base, w')
            && (result == INVALID_PARAM ==> w' == w)
            && (result != INVALID_PARAM ==> w'.inflight == None)
            && (result == OK <==> blob.Some?)
  {
    if i.challenge.Some? && i.hasOut && w.inflight.Some? && Challenge(i.challenge.value).Some? {
      var (deviceId, blob, sealed) := Challenge(i.challenge.value).value;
      CompleteKeysKeepsInv(base, w, w.inflight.value, i.decode(blob) + i.decode(sealed));
    }
  }

  // ---- What each outcome of Complete means ----------------------------------

  /** The slot after CompleteKeys, result by result. */
  lemma {:induction false} KeysOutcome(base: State, w: World, p: Provider, params: seq<Byte>)
    requires Inv(base, w) && w.inflight == Some(p)
    ensures var (t, result, secret) := CompleteKeys(w.tpm, p, params);
            var (a, before, after) := (w.tpm.objects[(p.ctx, p.ak)], w.tpm.persistent, t.persistent);
            && result in {OK, ENROLLMENT_FAILED, ATTESTATION_FAILED}
            && (result == ATTESTATION_FAILED ==> after == before)
            && (result == OK ==> AK_SLOT in after && after[AK_SLOT] == a)
            && (result == ENROLLMENT_FAILED && AK_SLOT in after
               ==> after[AK_SLOT] == a || (AK_SLOT in before && after[AK_SLOT] == before[AK_SLOT]))
  {
    var s := w.tpm;
    assert HandlesApart(s, p.ctx);
    ActivateEffect(s, p.ctx, p.ak, p.ek, params);
    var (s1, secret) := ActivateAk(s, p, params);
    if secret == [] {
      FlushTransientsEffect(s1, p);
    } else {
      PersistOutcome(s, s1, p);
    }
  }

  lemma {:induction false} PersistOutcome(s: State, s1: State, p: Provider)
    requires p.ak != 0 && p.slot == AK_SLOT && Step(s, s1, p.ctx, 0, 1) && s1.objects == s.objects
    requires HandlesApart(s1, p.ctx) && (p.ctx, p.ak) in s.objects
    ensures var (s2, p2, ok) := PersistAk(s1, p);
            var (a, before, after) := (s.objects[(p.ctx, p.ak)], s.persistent, CloseProvider(s2, p2).persistent);
            if ok then AK_SLOT in after && after[AK_SLOT] == a
            else AK_SLOT in after ==> after[AK_SLOT] == a || (AK_SLOT in before && after[AK_SLOT] == before[AK_SLOT])
  {
    EvictEffect(s1, p.ctx, p.ak, AK_SLOT);
    var (s2, evicted) := Evict(s1, p.ctx, p.ak, AK_SLOT);
    FlushTransientsEffect(s2, p);
    var (s3, p3) := FlushTransients(s2, p);
    FlushTransientsEffect(s3, p3);
  }

  /** A challenge that does not open leaves the slot alone; success enrolls the AK in flight, and so
      does a call that only fails to allocate its answer; persisting that fails leaves in the slot the
      old object, the new one, or nothing. */
  lemma {:induction false} CompleteOutcomes(base: State, w: World, i: CompleteInput)
    requires Inv(base, w) && w.inflight.Some?
    ensures var (w', result, blob) := EnrollComplete(w, i);
            var p := w.inflight.value;
            var (a, before, after) := (w.tpm.objects[(p.ctx, p.ak)], w.tpm.persistent, w'.tpm.persistent);
            && (result == INVALID_PARAM || result == ATTESTATION_FAILED ==> after == before)
            && (result == OK || result == INTERNAL ==> AK_SLOT in after && after[AK_SLOT] == a)
            && (result == ENROLLMENT_FAILED && AK_SLOT in after ==>
                  after[AK_SLOT] == a || (AK_SLOT in before && after[AK_SLOT] == before[AK_SLOT]))
            && result in {OK, INTERNAL, INVALID_PARAM, ATTESTATION_FAILED, ENROLLMENT_FAILED}
  {
    if i.challenge.Some? && i.hasOut && Challenge(i.challenge.value).Some? {
      var (deviceId, blob, sealed) := Challenge(i.challenge.value).value;
      KeysOutcome(base, w, w.inflight.value, i.decode(blob) + i.decode(sealed));
    }
  }

  // ---- The theorems ---------------------------------------------------------

  /** Every call keeps the invariant, whatever its arguments and whatever becomes of its commands. */
  lemma {:induction false} PerformKeepsInv(base: State, w: World, call: Call)
    requires Inv(base, w)
    ensures Inv(base, Perform(w, call).0)
  {
    match call {
      case Begin(b) => BeginKeepsInv(base, w, b);
      case Complete(c) => CompleteKeepsInv(base, w, c);
      case Collect(e) =>
        if e.nonce.Some? && e.hasOut {
          InvNumbered(base, w);
          CollectSettles(w.tpm, e);
          SettledKeepsInv(base, w, CollectFields(w.tpm, e).0);
        }
    }
  }

  lemma {:induction false} RunKeepsInv(base: State, w: World, calls: seq<Call>)
    requires Inv(base, w)
    ensures Inv(base, Run(w, calls))
    decreases |calls|
  {
    if calls != [] {
      PerformKeepsInv(base, w, calls[0]);
      RunKeepsInv(base, Perform(w, calls[0]).0, calls[1..]);
    }
  }

  /** Over every run the AK slot holds what it held at first, or nothing, or an AK that the TPM
      activated together with the EK created beside it; no other persistent object ever changes. */
  lemma {:induction false} SlotSafety(s: State, calls: seq<Call>)
    requires Initial(s)
    ensures var t := Run(World(s, None), calls).tpm;
            && SameSlotsBut(s.persistent, t.persistent, AK_SLOT)
            && (AK_SLOT in t.persistent ==>
                  || (AK_SLOT in s.persistent && t.persistent[AK_SLOT] == s.persistent[AK_SLOT])
                  || Enrolled(t.history, t.persistent[AK_SLOT]))
  {
    InvInitial(s);
    RunKeepsInv(s, World(s, None), calls);
  }

  /** The objects and contexts are those of the start and those of one provider. */
  ghost predicate WithProvider(s: State, t: State, p: Provider) {
    && p.ctx !in s.contexts && t.contexts == s.contexts + {p.ctx}
    && p.ek != p.ak && t.objects.Keys == s.objects.Keys + {(p.ctx, p.ek), (p.ctx, p.ak)}
    && forall k :: k in s.objects ==> k in t.objects && t.objects[k] == s.objects[k]
  }

  /** No session is live but those of other processes, and of transients only the EK and the AK of
      the enrollment in flight, both or neither; and never were there more than four transients and
      one session besides those of others. */
  ghost predicate Conserved(s: State, w: World) {
    && w.tpm.sessions == s.sessions
    && w.tpm.peakObjects <= |s.objects| + 4 && w.tpm.peakSessions <= |s.sessions| + 1
    && match w.inflight
       case None => w.tpm.objects == s.objects && w.tpm.contexts == s.contexts
       case Some(p) => WithProvider(s, w.tpm, p)
  }

  lemma {:induction false} ResidentOnly(s: State, t: State, p: Provider)
    requires Initial(s) && Resident(s, t, p)
    ensures WithProvider(s, t, p)
  {
    assert forall k :: k in s.objects ==> k.0 != p.ctx;
  }

  lemma {:induction false} InvConserves(s: State, w: World)
    requires Inv(s, w)
    ensures Conserved(s, w)
  {
    if w.inflight.Some? {
      ResidentOnly(s, w.tpm, w.inflight.value);
    }
  }

  /** After every run of calls handles are conserved: what was created is gone, or in flight. */
  lemma {:induction false} HandleConservation(s: State, calls: seq<Call>)
    requires Initial(s)
    ensures Conserved(s, Run(World(s, None), calls))
  {
    InvInitial(s);
    RunKeepsInv(s, World(s, None), calls);
    InvConserves(s, Run(World(s, None), calls));
  }

  /** Over every run each AK is subjected to at most one activation. */
  lemma {:induction false} OneActivationPerBegin(s: State, calls: seq<Call>)
    requires Initial(s)
    ensures TriedOnce(Run(World(s, None), calls).tpm.history)
  {
    InvInitial(s);
    RunKeepsInv(s, World(s, None), calls);
  }

  /** What a call does to the enrollment in flight and to the TPM. */
  ghost predicate Disciplined(w: World, call: Call) {
    var (w', result, blob) := Perform(w, call);
    && (result == OK <==> blob.Some?)
    && match call
       case Begin(_) =>
         if result == OK then w'.inflight.Some? && w'.inflight != w.inflight else w'.inflight == w.inflight
       case Complete(_) => if result == INVALID_PARAM then w' == w else w'.inflight == None
       case Collect(_) =>
         && w'.inflight == w.inflight && w'.tpm.objects == w.tpm.objects && w'.tpm.sessions == w.tpm.sessions
         && w'.tpm.contexts == w.tpm.contexts && w'.tpm.persistent == w.tpm.persistent
  }

  lemma {:induction false} BeginDisciplined(base: State, w: World, i: BeginInput)
    requires Inv(base, w)
    ensures Disciplined(w, Begin(i))
  {
    BeginKeepsInv(base, w, i);
    if EnrollBegin(w, i).1 == OK {
      BeginIsNew(base, w, i);
    }
  }

  lemma {:induction false} CollectLeaves(w: World, i: CollectInput)
    requires Numbered(w.tpm)
    ensures var (w', result, blob) := CollectEvidence(w, i);
            && (result == OK <==> blob.Some?) && w'.inflight == w.inflight && Settled(w.tpm, w'.tpm)
  {
    CollectSettles(w.tpm, i);
  }

  lemma {:induction false} CollectDisciplined(base: State, w: World, i: CollectInput)
    requires Inv(base, w)
    ensures Disciplined(w, Collect(i))
  {
    InvNumbered(base, w);
    CollectLeaves(w, i);
  }

  /** In every reachable world: a failed Begin keeps the earlier enrollment in flight, Complete
      releases it unless its arguments are invalid, collecting evidence changes no object, session
      or slot, and a call hands out a blob exactly when it succeeds. */
  lemma {:induction false} InFlightDiscipline(s: State, calls: seq<Call>, call: Call)
    requires Initial(s)
    ensures Disciplined(Run(World(s, None), calls), call)
  {
    InvInitial(s);
    RunKeepsInv(s, World(s, None), calls);
    var w := Run(World(s, None), calls);
    match call {
      case Begin(i) => BeginDisciplined(s, w, i);
      case Complete(i) => CompleteKeepsInv(s, w, i);
      case Collect(i) => CollectDisciplined(s, w, i);
    }
  }

  lemma {:induction false} BeginWithIsNew(w: World, ek: EkData, allocates: bool)
    requires Numbered(w.tpm) && BeginWith(w, ek, allocates).1 == OK
    requires w.inflight.Some? ==> w.inflight.value.ctx <= w.tpm.lastContext
    ensures var w' := BeginWith(w, ek, allocates).0;
            w'.inflight.Some? && (w.inflight.Some? ==> w'.inflight.value.ctx > w.inflight.value.ctx)
  {
    BeginKeysEffect(w.tpm, allocates);
  }

  lemma {:induction false} BeginIsNew(base: State, w: World, i: BeginInput)
    requires Inv(base, w) && EnrollBegin(w, i).1 == OK
    ensures var w' := EnrollBegin(w, i).0;
            w'.inflight.Some? && (w.inflight.Some? ==> w'.inflight.value.ctx > w.inflight.value.ctx)
  {
    var (s1, ek) := GatherEk(w.tpm, i.ek);
    GatherKeepsInv(base, w, i.ek);
    InvNumbered(base, w.(tpm := s1));
    assert EnrollBegin(w, i) == BeginWith(w.(tpm := s1), ek.value, i.allocates);
    BeginWithIsNew(w.(tpm := s1), ek.value, i.allocates);
  }
}
