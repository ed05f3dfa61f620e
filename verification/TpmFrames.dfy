/** What one command can change, whatever its fate: nothing outside its own context, and persistent
    objects only through EvictControl. */
module TpmFrames {
  import opened Bytes
  import opened PcrSelection
  import opened TpmState
  import opened TpmCodec
  import opened ClientSpec

  ghost predicate SameElsewhere<T>(m: map<(nat, U32), T>, n: map<(nat, U32), T>, ctx: nat) {
    forall k: (nat, U32) :: k.0 != ctx ==> (k in m <==> k in n) && (k in m && k in n ==> m[k] == n[k])
  }

  /** Two entries in one context, and the same two entries on top of maps that agree elsewhere. */
  lemma {:induction false} TwoIn<T>(m: map<(nat, U32), T>, ctx: nat, h: U32, k: U32, a: T, b: T)
    ensures SameElsewhere(m, m[(ctx, h) := a][(ctx, k) := b], ctx)
  {
  }

  lemma {:induction false} TwoOnTop<T>(m: map<(nat, U32), T>, n: map<(nat, U32), T>, ctx: nat, x: (nat, U32),
                                       y: (nat, U32), a: T, b: T)
    requires SameElsewhere(m, n, ctx)
    ensures SameElsewhere(m[x := a][y := b], n[x := a][y := b], ctx)
  {
  }

  /** At most the objects and sessions of one context differ, and the bookkeeping has grown. */
  ghost predicate Around(s: State, t: State, ctx: nat) {
    && t.dev == s.dev && t.contexts == s.contexts && t.lastContext == s.lastContext
    && t.persistent == s.persistent
    && s.nextSerial <= t.nextSerial && s.history <= t.history
    && SameElsewhere(s.objects, t.objects, ctx)
    && SameElsewhere(s.sessions, t.sessions, ctx)
  }

  /** Only the script has moved on. */
  ghost predicate Quiet(s: State, t: State) {
    t == s.(fates := t.fates)
  }

  lemma {:induction false} AroundTransitive(s: State, t: State, u: State, ctx: nat)
    requires Around(s, t, ctx) && Around(t, u, ctx)
    ensures Around(s, u, ctx)
  {
  }

  /** The bounds on the high-water marks that one step respects. */
  ghost predicate Grows(s: State, t: State, objects: nat, sessions: nat) {
    && t.peakObjects <= (if objects > 0 then Max(s.peakObjects, |s.objects| + objects) else s.peakObjects)
    && t.peakSessions <= (if sessions > 0 then Max(s.peakSessions, |s.sessions| + sessions) else s.peakSessions)
    && |t.objects| <= |s.objects| + objects
  }

  ghost predicate Step(s: State, t: State, ctx: nat, objects: nat, sessions: nat) {
    Around(s, t, ctx) && Grows(s, t, objects, sessions)
  }

  lemma {:induction false} CreateStep(s: State, ctx: nat, hierarchy: U32, template: seq<Byte>, hint: nat)
    ensures Step(s, ExecCreatePrimary(s, ctx, hierarchy, template, hint).0, ctx, 1, 0)
  {
    var (t, reply) := ExecCreatePrimary(s, ctx, hierarchy, template, hint);
    if reply.Some? {
      assert t.objects.Keys == s.objects.Keys + {(ctx, reply.value.handle)};
    }
  }

  lemma {:induction false} RemovedElsewhere<T>(m: map<(nat, U32), T>, ctx: nat, handle: U32)
    ensures SameElsewhere(m, m - {(ctx, handle)}, ctx) && |m - {(ctx, handle)}| <= |m|
  {
    assert (m - {(ctx, handle)}).Keys == m.Keys - {(ctx, handle)};
    Fewer(m.Keys, {(ctx, handle)});
  }

  lemma {:induction false} FewerStep(s: State, t: State, ctx: nat)
    requires t == s.(objects := t.objects, sessions := t.sessions) && |t.objects| <= |s.objects|
    requires SameElsewhere(s.objects, t.objects, ctx) && SameElsewhere(s.sessions, t.sessions, ctx)
    ensures Step(s, t, ctx, 0, 0)
  {
  }

  lemma {:induction false} FlushStep(s: State, ctx: nat, handle: U32)
    ensures Step(s, ExecFlush(s, ctx, handle).0, ctx, 0, 0)
  {
    var t := ExecFlush(s, ctx, handle).0;
    if (ctx, handle) in s.objects {
      RemovedElsewhere(s.objects, ctx, handle);
      assert t.objects == s.objects - {(ctx, handle)};
    } else if (ctx, handle) in s.sessions {
      RemovedElsewhere(s.sessions, ctx, handle);
      assert t.sessions == s.sessions - {(ctx, handle)};
    }
    FewerStep(s, t, ctx);
  }

  /** Whatever comes of it, an activation only adds to the history. */
  lemma {:induction false} ActivateRecords(s: State, ctx: nat, ak: U32, ek: U32, session: U32, params: seq<Byte>)
    ensures var t := ExecActivate(s, ctx, ak, ek, session, params).0;
            t == s.(history := t.history) && s.history <= t.history
  {
  }

  lemma {:induction false} ActivateStep(s: State, ctx: nat, ak: U32, ek: U32, session: U32, params: seq<Byte>)
    ensures Step(s, ExecActivate(s, ctx, ak, ek, session, params).0, ctx, 0, 0)
  {
    ActivateRecords(s, ctx, ak, ek, session, params);
    HistoryStep(s, ExecActivate(s, ctx, ak, ek, session, params).0, ctx);
  }

  lemma {:induction false} HistoryStep(s: State, t: State, ctx: nat)
    requires t == s.(history := t.history) && s.history <= t.history
    ensures Step(s, t, ctx, 0, 0)
  {
  }

  function NewObjects(c: Command): nat { if c.CreatePrimary? then 1 else 0 }

  function NewSessions(c: Command): nat { if c.StartPolicySession? then 1 else 0 }

  lemma {:induction false} SessionStep(s: State, ctx: nat, hint: nat)
    ensures Step(s, ExecStartSession(s, ctx, hint).0, ctx, 0, 1)
  {
  }

  lemma {:induction false} PolicyStep(s: State, ctx: nat, authority: U32, session: U32)
    ensures Step(s, ExecPolicySecret(s, ctx, authority, session).0, ctx, 0, 0)
  {
  }

  lemma {:induction false} QuoteStep(s: State, ctx: nat, key: U32, nonce: seq<Byte>, selection: Bitmap)
    ensures Step(s, ExecQuote(s, ctx, key, nonce, selection).0, ctx, 0, 0)
  {
  }

  lemma {:induction false} NoStep(s: State, ctx: nat)
    ensures Step(s, s, ctx, 0, 0)
  {
  }

  lemma {:induction false} ExecStep(s: State, ctx: nat, c: Command, hint: nat)
    requires !c.EvictControl?
    ensures Step(s, Exec(s, ctx, c, hint).0, ctx, NewObjects(c), NewSessions(c))
  {
    match c {
      case CreatePrimary(hierarchy, template) => CreateStep(s, ctx, hierarchy, template, hint);
      case StartPolicySession => SessionStep(s, ctx, hint);
      case PolicySecret(authority, session) => PolicyStep(s, ctx, authority, session);
      case ActivateCredential(ak, ek, session, params) => ActivateStep(s, ctx, ak, ek, session, params);
      case FlushContext(handle) => FlushStep(s, ctx, handle);
      case Quote(key, nonce, selection) => QuoteStep(s, ctx, key, nonce, selection);
      case _ => NoStep(s, ctx);
    }
  }

  lemma {:induction false} ConductStep(s: State, ctx: nat, c: Command, fate: Fate)
    requires !c.EvictControl?
    ensures Step(s, Conduct(s, ctx, c, fate).0, ctx, NewObjects(c), NewSessions(c))
  {
    if fate.Deliver? || fate.Lose? {
      ExecStep(s, ctx, c, fate.hint);
    }
  }

  lemma {:induction false} QuietThenStep(s: State, s1: State, t: State, ctx: nat, objects: nat, sessions: nat)
    requires Quiet(s, s1) && Step(s1, t, ctx, objects, sessions)
    ensures Step(s, t, ctx, objects, sessions)
  {
  }

  /** High-water marks rise only where something is created, and by one. */
  lemma {:induction false} IssueStep(s: State, ctx: nat, c: Command)
    requires !c.EvictControl?
    ensures Step(s, Issue(s, ctx, c).0, ctx, NewObjects(c), NewSessions(c))
  {
    var (fate, s1) := NextFate(s);
    ConductStep(s1, ctx, c, fate);
    QuietThenStep(s, s1, Conduct(s1, ctx, c, fate).0, ctx, NewObjects(c), NewSessions(c));
  }

  /** Reading commands leave everything as it is. */
  predicate Reads(c: Command) {
    c.ReadPublic? || c.PcrRead? || c.NvReadPublic? || c.NvRead?
  }

  lemma {:induction false} IssueQuiet(s: State, ctx: nat, c: Command)
    requires Reads(c)
    ensures Quiet(s, Issue(s, ctx, c).0)
  {
  }

  lemma {:induction false} Fewer<T>(a: set<T>, b: set<T>)
    ensures |a - b| <= |a|
  {
    assert a == (a - b) + (a * b);
  }

  // ---- Contexts -------------------------------------------------------------

  /** A context without anything in it. */
  ghost predicate Vacant(s: State, ctx: nat) {
    && (forall k :: k in s.objects ==> k.0 != ctx)
    && (forall k :: k in s.sessions ==> k.0 != ctx)
  }

  /** Closing a context undoes whatever happened in it since it was opened. */
  lemma {:induction false} CloseRestores(s: State, t: State, ctx: nat)
    requires Around(s, t, ctx) && Vacant(s, ctx)
    ensures var u := CloseContext(t, ctx);
            && u.objects == s.objects && u.sessions == s.sessions && u.contexts == s.contexts - {ctx}
            && u == t.(contexts := u.contexts, objects := u.objects, sessions := u.sessions)
  {
    var u := CloseContext(t, ctx);
    forall k | k in s.objects
      ensures k in u.objects && u.objects[k] == s.objects[k]
    {
      assert k.0 != ctx;
    }
    forall k | k in u.objects
      ensures k in s.objects
    {
      assert k.0 != ctx;
    }
    assert u.objects.Keys == s.objects.Keys;
    forall k | k in s.sessions
      ensures k in u.sessions && u.sessions[k] == s.sessions[k]
    {
      assert k.0 != ctx;
    }
    forall k | k in u.sessions
      ensures k in s.sessions
    {
      assert k.0 != ctx;
    }
    assert u.sessions.Keys == s.sessions.Keys;
  }

  // ---- Keys -----------------------------------------------------------------

  lemma {:induction false} CreateIssued(s: State, ctx: nat, hierarchy: U32, template: seq<Byte>)
    ensures var (t, reply) := Issue(s, ctx, CreatePrimary(hierarchy, template));
            var o := Object(s.nextSerial, hierarchy, template);
            && t.sessions == s.sessions && t.peakSessions == s.peakSessions
            && (t.history == s.history || t.history == s.history + [CreatedEvent(ctx, o)])
            && (reply.Some? ==>
                  && reply.value.Created? && reply.value.pub == s.dev.publicOf(hierarchy, template)
                  && var h := reply.value.handle;
                     && TRANSIENT_FIRST <= h < PERSISTENT_FIRST && (ctx, h) !in s.objects
                     && t.objects == s.objects[(ctx, h) := o] && t.nextSerial == s.nextSerial + 1
                     && t.history == s.history + [CreatedEvent(ctx, o)])
  {
  }

  lemma {:induction false} CreateKeyEffect(s: State, ctx: nat, hierarchy: U32, template: seq<Byte>)
    ensures var (t, h, pub) := CreateKey(s, ctx, hierarchy, template);
            var o := Object(s.nextSerial, hierarchy, template);
            && Around(s, t, ctx) && t.sessions == s.sessions && t.peakSessions == s.peakSessions
            && t.peakObjects <= Max(s.peakObjects, |s.objects| + 1) && |t.objects| <= |s.objects| + 1
            && (t.history == s.history || t.history == s.history + [CreatedEvent(ctx, o)])
            && (h != 0 ==>
                  && TRANSIENT_FIRST <= h < PERSISTENT_FIRST && (ctx, h) !in s.objects
                  && t.objects == s.objects[(ctx, h) := o] && t.nextSerial == s.nextSerial + 1
                  && t.history == s.history + [CreatedEvent(ctx, o)]
                  && pub == TPM2B(s.dev.publicOf(hierarchy, template)))
  {
    IssueStep(s, ctx, CreatePrimary(hierarchy, template));
    CreateIssued(s, ctx, hierarchy, template);
  }

  lemma {:induction false} FlushEffect(s: State, ctx: nat, handle: U32)
    ensures var t := Flush(s, ctx, handle);
            && Around(s, t, ctx) && t.history == s.history && t.nextSerial == s.nextSerial
            && t.peakObjects <= s.peakObjects && t.peakSessions <= s.peakSessions && |t.objects| <= |s.objects|
            && ((ctx, handle) !in s.objects ==> t.objects == s.objects)
  {
    IssueStep(s, ctx, FlushContext(handle));
  }

  lemma {:induction false} FlushTransientsEffect(s: State, p: Provider)
    ensures var (t, q) := FlushTransients(s, p);
            && Around(s, t, p.ctx) && t.history == s.history && t.nextSerial == s.nextSerial
            && t.peakObjects <= s.peakObjects && t.peakSessions <= s.peakSessions && |t.objects| <= |s.objects|
            && q == p.(ek := 0, ak := 0)
            && (p.ek == 0 && p.ak == 0 ==> t == s)
  {
    if p.ak != 0 {
      FlushEffect(s, p.ctx, p.ak);
    }
    var s1 := if p.ak != 0 then Flush(s, p.ctx, p.ak) else s;
    if p.ek != 0 {
      FlushEffect(s1, p.ctx, p.ek);
    }
  }
}
