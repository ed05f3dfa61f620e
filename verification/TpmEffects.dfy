/** What the client's compound operations leave behind, over every fate of their commands. */
module TpmEffects {
  import opened Bytes
  import opened TpmState
  import opened TpmCodec
  import opened ClientSpec
  import opened TpmFrames

  // ---- Activation -----------------------------------------------------------

  /** The activation was not reached, was refused, or succeeded. */
  ghost predicate Attempt(h: seq<Event>, h': seq<Event>, ctx: nat, a: Object, e: Object) {
    || h' == h
    || h' == h + [ActivationTried(ctx, a, e)]
    || h' == h + [ActivationTried(ctx, a, e), ActivationDone(ctx, a, e)]
  }

  lemma {:induction false} ExecActivateEvent(s: State, ctx: nat, ak: U32, ek: U32, session: U32, params: seq<Byte>)
    requires (ctx, ak) in s.objects && (ctx, ek) in s.objects
    ensures var (t, reply) := ExecActivate(s, ctx, ak, ek, session, params);
            var (a, e) := (s.objects[(ctx, ak)], s.objects[(ctx, ek)]);
            && t == s.(history := t.history) && Attempt(s.history, t.history, ctx, a, e)
            && (reply.Some? ==> t.history == s.history + [ActivationTried(ctx, a, e), ActivationDone(ctx, a, e)])
  {
    var (a, e) := (s.objects[(ctx, ak)], s.objects[(ctx, ek)]);
    assert s.history + [ActivationTried(ctx, a, e)] + [ActivationDone(ctx, a, e)]
           == s.history + [ActivationTried(ctx, a, e), ActivationDone(ctx, a, e)];
  }

  lemma {:induction false} IssueActivateEvent(s: State, ctx: nat, ak: U32, ek: U32, session: U32, params: seq<Byte>)
    requires (ctx, ak) in s.objects && (ctx, ek) in s.objects
    ensures var (t, reply) := Issue(s, ctx, ActivateCredential(ak, ek, session, params));
            var (a, e) := (s.objects[(ctx, ak)], s.objects[(ctx, ek)]);
            && t == s.(history := t.history, fates := t.fates) && Attempt(s.history, t.history, ctx, a, e)
            && (reply.Some? ==> t.history == s.history + [ActivationTried(ctx, a, e), ActivationDone(ctx, a, e)])
  {
    var (fate, s1) := NextFate(s);
    ExecActivateEvent(s1, ctx, ak, ek, session, params);
  }

  lemma {:induction false} StartSessionEffect(s: State, ctx: nat)
    ensures var (t, reply) := Issue(s, ctx, StartPolicySession);
            && Step(s, t, ctx, 0, 1) && t.objects == s.objects && t.history == s.history && t.nextSerial == s.nextSerial
            && (SessionOf(reply).Some? ==> SESSION_FIRST <= SessionOf(reply).value < TRANSIENT_FIRST)
  {
    IssueStep(s, ctx, StartPolicySession);
  }

  lemma {:induction false} PolicySecretEffect(s: State, ctx: nat, session: U32)
    ensures var t := Issue(s, ctx, PolicySecret(RH_ENDORSEMENT, session)).0;
            && Step(s, t, ctx, 0, 0) && t.objects == s.objects && t.history == s.history && t.nextSerial == s.nextSerial
  {
    IssueStep(s, ctx, PolicySecret(RH_ENDORSEMENT, session));
  }

  /** Handles of transient objects lie in their own range, as those of persistent objects do. */
  ghost predicate HandlesApart(s: State, ctx: nat) {
    && (forall h :: (ctx, h) in s.objects ==> TRANSIENT_FIRST <= h < PERSISTENT_FIRST)
    && (forall h :: h in s.persistent ==> PERSISTENT_FIRST <= h)
  }

  /** Whatever happens, the objects stay, at most one session is added, and one attempt recorded;
      a secret only comes out of an activation of exactly these two objects. */
  lemma {:induction false} ActivateEffect(s: State, ctx: nat, ak: U32, ek: U32, params: seq<Byte>)
    requires (ctx, ak) in s.objects && (ctx, ek) in s.objects && HandlesApart(s, ctx)
    ensures var (t, secret) := Activate(s, ctx, ak, ek, params);
            var (a, e) := (s.objects[(ctx, ak)], s.objects[(ctx, ek)]);
            && Step(s, t, ctx, 0, 1) && t.objects == s.objects && t.nextSerial == s.nextSerial
            && Attempt(s.history, t.history, ctx, a, e)
            && (secret != [] ==> t.history == s.history + [ActivationTried(ctx, a, e), ActivationDone(ctx, a, e)])
  {
    var (s1, reply) := Issue(s, ctx, StartPolicySession);
    StartSessionEffect(s, ctx);
    if SessionOf(reply).Some? {
      var session := SessionOf(reply).value;
      ActivateInEffect(s1, ctx, ak, ek, session, params);
      var (s3, secret) := ActivateIn(s1, ctx, ak, ek, session, params);
      FlushEffect(s3, ctx, session);
    }
  }

  lemma {:induction false} ActivateInEffect(s: State, ctx: nat, ak: U32, ek: U32, session: U32, params: seq<Byte>)
    requires (ctx, ak) in s.objects && (ctx, ek) in s.objects
    ensures var (t, secret) := ActivateIn(s, ctx, ak, ek, session, params);
            var (a, e) := (s.objects[(ctx, ak)], s.objects[(ctx, ek)]);
            && Step(s, t, ctx, 0, 0) && t.objects == s.objects && t.nextSerial == s.nextSerial
            && Attempt(s.history, t.history, ctx, a, e)
            && (secret != [] ==> t.history == s.history + [ActivationTried(ctx, a, e), ActivationDone(ctx, a, e)])
  {
    var (s2, reply) := Issue(s, ctx, PolicySecret(RH_ENDORSEMENT, session));
    PolicySecretEffect(s, ctx, session);
    if reply.Some? {
      IssueActivateEvent(s2, ctx, ak, ek, session, params);
      IssueStep(s2, ctx, ActivateCredential(ak, ek, session, params));
    }
  }

  // ---- Persisting -----------------------------------------------------------

  /** The slots of persistent memory other than this one. */
  ghost predicate SameSlotsBut(m: map<U32, Object>, n: map<U32, Object>, slot: U32) {
    forall h :: h != slot ==> (h in m <==> h in n) && (h in m && h in n ==> m[h] == n[h])
  }

  /** Nothing but persistent memory and the script. */
  ghost predicate OnlyPersistent(s: State, t: State) {
    t == s.(persistent := t.persistent, fates := t.fates)
  }

  lemma {:induction false} ClearEffect(s: State, ctx: nat, slot: U32)
    requires HandlesApart(s, ctx) && PERSISTENT_FIRST <= slot < PERSISTENT_LIMIT
    ensures var (t, ok) := EvictTo(s, ctx, slot, slot);
            && OnlyPersistent(s, t) && (t.persistent == s.persistent || t.persistent == s.persistent - {slot})
            && (ok ==> slot !in t.persistent)
  {
  }

  lemma {:induction false} MoveEffect(s: State, ctx: nat, handle: U32, slot: U32)
    requires HandlesApart(s, ctx) && PERSISTENT_FIRST <= slot < PERSISTENT_LIMIT && (ctx, handle) in s.objects
    ensures var (t, ok) := EvictTo(s, ctx, handle, slot);
            var o := s.objects[(ctx, handle)];
            && OnlyPersistent(s, t)
            && (t.persistent == s.persistent || (slot !in s.persistent && t.persistent == s.persistent[slot := o]))
            && (ok ==> slot in t.persistent && t.persistent[slot] == o)
  {
  }

  /** Afterwards the slot holds what it held, or nothing, or this object; on success, this object. */
  lemma {:induction false} EvictEffect(s: State, ctx: nat, handle: U32, slot: U32)
    requires HandlesApart(s, ctx) && PERSISTENT_FIRST <= slot < PERSISTENT_LIMIT && (ctx, handle) in s.objects
    ensures var (t, ok) := Evict(s, ctx, handle, slot);
            var o := s.objects[(ctx, handle)];
            && OnlyPersistent(s, t) && SameSlotsBut(s.persistent, t.persistent, slot)
            && (slot in t.persistent ==>
                  t.persistent[slot] == o || (slot in s.persistent && t.persistent[slot] == s.persistent[slot]))
            && (ok ==> slot in t.persistent && t.persistent[slot] == o)
  {
    var (s1, present) := IsPresent(s, ctx, slot);
    IssueQuiet(s, ctx, ReadPublic(slot));
    if !present {
      MoveEffect(s1, ctx, handle, slot);
    } else {
      ClearEffect(s1, ctx, slot);
      var (s2, cleared) := EvictTo(s1, ctx, slot, slot);
      if cleared {
        MoveEffect(s2, ctx, handle, slot);
      }
    }
  }

  /** The fate of the n-th command from here. */
  function FateAt(s: State, n: nat): (fate: Fate) {
    if n < |s.fates| then s.fates[n] else Deliver(0)
  }

  predicate Executed(fate: Fate) {
    fate.Deliver? || fate.Lose?
  }

  /** May the object be made persistent by the owner? */
  predicate Evictable(o: Object) {
    o.hierarchy == RH_OWNER && !Attribute(o.template, ST_CLEAR)
  }

  lemma {:induction false} PresentIff(s: State, ctx: nat, slot: U32)
    requires HandlesApart(s, ctx) && ctx != 0 && ctx in s.contexts && PERSISTENT_FIRST <= slot < PERSISTENT_LIMIT
    ensures var (t, present) := IsPresent(s, ctx, slot);
            && OnlyPersistent(s, t) && t.persistent == s.persistent
            && FateAt(t, 0) == FateAt(s, 1) && FateAt(t, 1) == FateAt(s, 2)
            && (present <==> FateAt(s, 0).Deliver? && slot in s.persistent)
  {
  }

  lemma {:induction false} ClearIff(s: State, ctx: nat, slot: U32)
    requires HandlesApart(s, ctx) && ctx != 0 && ctx in s.contexts && slot in s.persistent
    requires PERSISTENT_FIRST <= slot < PERSISTENT_LIMIT
    ensures var (t, ok) := EvictTo(s, ctx, slot, slot);
            && OnlyPersistent(s, t) && FateAt(t, 0) == FateAt(s, 1)
            && t.persistent == (if Executed(FateAt(s, 0)) then s.persistent - {slot} else s.persistent)
            && (ok <==> FateAt(s, 0).Deliver?)
  {
  }

  lemma {:induction false} MoveIff(s: State, ctx: nat, handle: U32, slot: U32)
    requires HandlesApart(s, ctx) && ctx != 0 && ctx in s.contexts && (ctx, handle) in s.objects
    requires PERSISTENT_FIRST <= slot < PERSISTENT_LIMIT
    ensures var (t, o) := (EvictTo(s, ctx, handle, slot).0, s.objects[(ctx, handle)]);
            t.persistent
            == if slot !in s.persistent && Executed(FateAt(s, 0)) && Evictable(o) then s.persistent[slot := o]
               else s.persistent
  {
  }

  /** Clearing the slot and moving the object in are two commands. An occupied slot ends up empty
      exactly if it was seen to be occupied and was cleared, and then either the client was not told, so
      that it gave up, or the move was not executed or not allowed. */
  lemma {:induction false} EvictEmptiesIff(s: State, ctx: nat, handle: U32, slot: U32)
    requires HandlesApart(s, ctx) && ctx != 0 && ctx in s.contexts && (ctx, handle) in s.objects
    requires PERSISTENT_FIRST <= slot < PERSISTENT_LIMIT && slot in s.persistent
    ensures var (t, o) := (Evict(s, ctx, handle, slot).0, s.objects[(ctx, handle)]);
            var (look, clear, move) := (FateAt(s, 0), FateAt(s, 1), FateAt(s, 2));
            slot !in t.persistent
            <==> look.Deliver? && (clear.Lose? || (clear.Deliver? && (move.Refuse? || move.Drop? || !Evictable(o))))
  {
    PresentIff(s, ctx, slot);
    var (s1, present) := IsPresent(s, ctx, slot);
    if present {
      ClearIff(s1, ctx, slot);
      var (s2, cleared) := EvictTo(s1, ctx, slot, slot);
      if cleared {
        MoveIff(s2, ctx, handle, slot);
      }
    } else {
      MoveIff(s1, ctx, handle, slot);
    }
  }

  /** The AK is flushed first, then the EK: each is gone exactly if its command was executed. */
  lemma {:induction false} FlushIff(s: State, p: Provider)
    requires p.ctx != 0 && p.ctx in s.contexts && p.ak != 0 && p.ek != 0 && p.ak != p.ek
    requires (p.ctx, p.ak) in s.objects && (p.ctx, p.ek) in s.objects
    ensures var t := FlushTransients(s, p).0;
            forall k :: k in t.objects <==>
                          k in s.objects && (k == (p.ctx, p.ak) ==> !Executed(FateAt(s, 0)))
                          && (k == (p.ctx, p.ek) ==> !Executed(FateAt(s, 1)))
  {
    FlushOne(s, p.ctx, p.ak);
    FlushOne(Flush(s, p.ctx, p.ak), p.ctx, p.ek);
  }

  lemma {:induction false} FlushOne(s: State, ctx: nat, handle: U32)
    requires ctx != 0 && ctx in s.contexts && (ctx, handle) in s.objects
    ensures var t := Flush(s, ctx, handle);
            && t.contexts == s.contexts && FateAt(t, 0) == FateAt(s, 1)
            && t.objects == if Executed(FateAt(s, 0)) then s.objects - {(ctx, handle)} else s.objects
  {
  }

  /** If the slot is empty beforehand, nothing that persistent memory holds can be lost. */
  lemma {:induction false} EmptySlotKeepsAll(s: State, ctx: nat, handle: U32, slot: U32)
    requires HandlesApart(s, ctx) && PERSISTENT_FIRST <= slot < PERSISTENT_LIMIT && (ctx, handle) in s.objects
    requires slot !in s.persistent
    ensures var t := Evict(s, ctx, handle, slot).0;
            forall h :: h in s.persistent ==> h in t.persistent && t.persistent[h] == s.persistent[h]
  {
    EvictEffect(s, ctx, handle, slot);
  }

  /** A response to the clear that is lost: the slot is empty, and the client has given up. */
  lemma {:induction false} EvictNotAtomic(s: State, ctx: nat, handle: U32, slot: U32)
    requires HandlesApart(s, ctx) && ctx != 0 && ctx in s.contexts && (ctx, handle) in s.objects
    requires PERSISTENT_FIRST <= slot < PERSISTENT_LIMIT && slot in s.persistent
    requires s.fates == [Deliver(0), Lose(0)]
    ensures var (t, ok) := Evict(s, ctx, handle, slot); !ok && slot !in t.persistent
  {
    EvictEmptiesIff(s, ctx, handle, slot);
    EvictEffect(s, ctx, handle, slot);
  }

  // ---- Reading --------------------------------------------------------------

  lemma {:induction false} ChunkQuiet(s: State, ctx: nat, index: U32, size: U16, offset: nat, most: nat)
    requires offset < size
    ensures Quiet(s, ReadChunk(s, ctx, index, size, offset, most).0)
  {
    IssueQuiet(s, ctx, NvRead(index, if size - offset > most then most else size - offset, offset));
  }

  lemma {:induction false} NvLoopQuiet(s: State, ctx: nat, index: U32, size: U16, acc: seq<Byte>, most: nat,
                                       all: (State, Option<seq<Byte>>))
    requires NvLoop(s, ctx, index, size, acc, most) == all
    ensures Quiet(s, all.0)
    decreases size - |acc|
  {
    if |acc| < size {
      var next := ReadChunk(s, ctx, index, size, |acc|, most);
      ChunkQuiet(s, ctx, index, size, |acc|, most);
      NvGoesOn(s, ctx, index, size, acc, most, next, all);
      if next.1 != [] {
        NvLoopQuiet(next.0, ctx, index, size, acc + next.1, most, all);
      }
    }
  }

  lemma {:induction false} WholeLoopQuiet(s: State, ctx: nat, index: U32, size: U16)
    ensures Quiet(s, NvLoop(s, ctx, index, size, [], NV_CHUNK).0)
  {
    NvLoopQuiet(s, ctx, index, size, [], NV_CHUNK, NvLoop(s, ctx, index, size, [], NV_CHUNK));
  }

  lemma {:induction false} ReadNvQuiet(s: State, ctx: nat, index: U32)
    ensures Quiet(s, ReadNv(s, ctx, index).0)
  {
    IssueQuiet(s, ctx, NvReadPublic(index));
    var (s', reply) := Issue(s, ctx, NvReadPublic(index));
    WholeLoopQuiet(s', ctx, index, NvSizeOf(reply));
  }

  lemma {:induction false} ReadAllQuiet(s: State, ctx: nat, indices: seq<U32>, acc: seq<seq<Byte>>)
    ensures Quiet(s, ReadAll(s, ctx, indices, acc).0)
    decreases |indices|
  {
    if indices != [] {
      ReadNvQuiet(s, ctx, indices[0]);
      var (s', cert) := ReadNv(s, ctx, indices[0]);
      ReadAllQuiet(s', ctx, indices[1..], if cert.Some? then acc + [cert.value] else acc);
    }
  }
}
