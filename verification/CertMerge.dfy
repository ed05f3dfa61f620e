/** The intermediate CA certificates sent at enrollment: those in TPM NV, then those of the Windows
    store that are not there yet, at most eight. */
module CertMerge {
  import opened Bytes
  import opened Seqs

  type Cert = seq<Byte>

  const MAX_INTERMEDIATES: nat := 8

  /** SHA-256, or an empty fingerprint where the platform cannot compute it. */
  type Hash = Cert -> seq<Byte>

  function First<T>(s: seq<T>, n: nat): (r: seq<T>) {
    if |s| <= n then s else s[..n]
  }

  /** The known fingerprints after one more certificate; an empty one is not remembered. */
  function Note(seen: set<seq<Byte>>, fp: seq<Byte>): (r: set<seq<Byte>>) {
    if fp == [] then seen else seen + {fp}
  }

  function Noted(certs: seq<Cert>, sha: Hash): (r: set<seq<Byte>>)
  {
    if certs == [] then {} else Note(Noted(certs[..|certs| - 1], sha), sha(certs[|certs| - 1]))
  }

  /** The certificates whose fingerprint is not known yet, each one once. */
  function Unseen(certs: seq<Cert>, seen: set<seq<Byte>>, sha: Hash): (r: seq<Cert>) {
    if certs == [] then []
    else if sha(certs[0]) in seen then Unseen(certs[1..], seen, sha)
    else [certs[0]] + Unseen(certs[1..], Note(seen, sha(certs[0])), sha)
  }

  /** The specification: no early exit, no resizing. */
  function Merged(nv: seq<Cert>, store: seq<Cert>, sha: Hash): (r: seq<Cert>) {
    First(nv + Unseen(store, Noted(nv, sha), sha), MAX_INTERMEDIATES)
  }

  method FingerprintKnown(seen: seq<seq<Byte>>, fp: seq<Byte>) returns (dup: bool)
    ensures dup <==> fp in seen
  {
    dup := false;
    for i := 0 to |seen|
      invariant fp !in seen[..i]
    {
      if |seen[i]| == |fp| && seen[i] == fp {
        return true;
      }
    }
  }

  /** The source's loop: it stops at the cap and cuts the list down at the end. */
  method MergeIntermediates(nv: seq<Cert>, store: seq<Cert>, sha: Hash) returns (intermediates: seq<Cert>)
    ensures intermediates == Merged(nv, store, sha)
  {
    intermediates := nv;
    var seen: seq<seq<Byte>> := [];
    for i := 0 to |nv|
      invariant forall fp :: fp in seen <==> fp in Noted(nv[..i], sha)
    {
      assert nv[..i + 1][..i] == nv[..i];
      var fp := sha(nv[i]);
      if fp != [] {
        seen := seen + [fp];
      }
    }
    assert nv[..|nv|] == nv;

    ghost var known := Noted(nv, sha);
    ghost var all := nv + Unseen(store, known, sha);
    var j := 0;
    while j < |store|
      invariant j <= |store|
      invariant forall fp :: fp in seen <==> fp in known
      invariant |nv| <= |intermediates|
      invariant intermediates + Unseen(store[j..], known, sha) == all
    {
      if |intermediates| >= MAX_INTERMEDIATES {
        break;
      }
      DropTwice(store, j, 1);
      var cert := store[j];
      var fp := sha(cert);
      var dup := FingerprintKnown(seen, fp);
      j := j + 1;
      if dup {
        continue;
      }
      Assoc(intermediates, [cert], Unseen(store[j..], Note(known, fp), sha));
      known := Note(known, fp);
      if fp != [] {
        seen := seen + [fp];
      }
      intermediates := intermediates + [cert];
    }
    Cut(intermediates, all, MAX_INTERMEDIATES);
    if |intermediates| > MAX_INTERMEDIATES {
      intermediates := intermediates[..MAX_INTERMEDIATES];
    }
  }

  lemma {:induction false} Cut<T>(s: seq<T>, all: seq<T>, n: nat)
    ensures s <= all && (s == all || |s| >= n) ==> First(s, n) == First(all, n)
  {
  }

  // ---- The merge without a list of what was seen ------------------------------

  /** The fingerprint of the k-th certificate of the store occurs neither in NV nor earlier in the store;
      one without a fingerprint is always new. */
  predicate New(nv: seq<Cert>, store: seq<Cert>, sha: Hash, k: nat)
    requires k < |store|
  {
    var fp := sha(store[k]);
    fp == [] || ((forall c :: c in nv ==> sha(c) != fp) && forall j :: 0 <= j < k ==> sha(store[j]) != fp)
  }

  /** The new ones among the first n certificates of the store, in order. */
  function NewOnes(nv: seq<Cert>, store: seq<Cert>, sha: Hash, n: nat): (certs: seq<Cert>)
    requires n <= |store|
  {
    if n == 0 then []
    else NewOnes(nv, store, sha, n - 1) + (if New(nv, store, sha, n - 1) then [store[n - 1]] else [])
  }

  /** The fingerprint of one of the first k certificates of the store. */
  ghost predicate Earlier(store: seq<Cert>, sha: Hash, k: nat, fp: seq<Byte>)
    requires k <= |store|
  {
    exists j :: 0 <= j < k && sha(store[j]) == fp
  }

  /** What is known when the loop has come to certificate k of the store. */
  ghost predicate Knows(seen: set<seq<Byte>>, nv: seq<Cert>, store: seq<Cert>, sha: Hash, k: nat)
    requires k <= |store|
  {
    forall fp :: fp in seen <==> fp != [] && ((exists c :: c in nv && sha(c) == fp) || Earlier(store, sha, k, fp))
  }

  lemma {:induction false} KnowsMore(seen: set<seq<Byte>>, nv: seq<Cert>, store: seq<Cert>, sha: Hash, k: nat)
    requires k < |store| && Knows(seen, nv, store, sha, k)
    ensures sha(store[k]) !in seen <==> New(nv, store, sha, k)
    ensures Knows(Note(seen, sha(store[k])), nv, store, sha, k + 1)
  {
    var next := k + 1;
    forall fp
      ensures Earlier(store, sha, next, fp) <==> Earlier(store, sha, k, fp) || sha(store[k]) == fp
    {
    }
  }

  lemma {:induction false} UnseenStep(seen: set<seq<Byte>>, store: seq<Cert>, sha: Hash, k: nat)
    requires k < |store|
    ensures var fp := sha(store[k]);
            Unseen(store[k..], seen, sha)
            == if fp in seen then Unseen(store[k + 1..], seen, sha)
               else [store[k]] + Unseen(store[k + 1..], Note(seen, fp), sha)
  {
    DropTwice(store, k, 1);
  }

  lemma {:induction false} UnseenFrom(seen: set<seq<Byte>>, nv: seq<Cert>, store: seq<Cert>, sha: Hash, k: nat)
    requires k <= |store| && Knows(seen, nv, store, sha, k)
    ensures NewOnes(nv, store, sha, k) + Unseen(store[k..], seen, sha) == NewOnes(nv, store, sha, |store|)
    decreases |store| - k
  {
    var before := NewOnes(nv, store, sha, k);
    if k == |store| {
      assert before + [] == before;
    } else {
      var fp := sha(store[k]);
      KnowsMore(seen, nv, store, sha, k);
      UnseenStep(seen, store, sha, k);
      UnseenFrom(Note(seen, fp), nv, store, sha, k + 1);
      if fp in seen {
        assert Note(seen, fp) == seen && before + [] == before;
      } else {
        Assoc(before, [store[k]], Unseen(store[k + 1..], Note(seen, fp), sha));
      }
    }
  }

  /** The merged list is the first eight of the NV certificates and the new ones of the store. */
  lemma {:induction false} MergedIs(nv: seq<Cert>, store: seq<Cert>, sha: Hash)
    ensures Merged(nv, store, sha)
            == var all := nv + NewOnes(nv, store, sha, |store|);
               if |all| <= 8 then all else all[..8]
  {
    KnowsNv(nv, store, sha);
    UnseenFrom(Noted(nv, sha), nv, store, sha, 0);
    assert store[0..] == store && [] + Unseen(store, Noted(nv, sha), sha) == Unseen(store, Noted(nv, sha), sha);
  }

  lemma {:induction false} KnowsNv(nv: seq<Cert>, store: seq<Cert>, sha: Hash)
    ensures Knows(Noted(nv, sha), nv, store, sha, 0)
  {
    forall fp
      ensures fp in Noted(nv, sha) <==> fp != [] && exists c :: c in nv && sha(c) == fp
    {
      NotedContains(nv, sha, fp);
      if exists c :: c in nv && sha(c) == fp {
        var c :| c in nv && sha(c) == fp;
        var i :| 0 <= i < |nv| && nv[i] == c;
        assert sha(nv[i]) == fp;
      }
    }
  }

  // ---- What the merge guarantees --------------------------------------------

  /** No fingerprint occurs twice; an empty one says nothing. */
  predicate Distinct(certs: seq<Cert>, sha: Hash) {
    forall i, j :: 0 <= i < j < |certs| ==> sha(certs[i]) != sha(certs[j]) || sha(certs[i]) == []
  }

  lemma {:induction false} NotedContains(certs: seq<Cert>, sha: Hash, fp: seq<Byte>)
    ensures fp in Noted(certs, sha) <==> fp != [] && exists i :: 0 <= i < |certs| && sha(certs[i]) == fp
  {
    if certs != [] {
      var front, last := certs[..|certs| - 1], certs[|certs| - 1];
      NotedContains(front, sha, fp);
      if exists i :: 0 <= i < |front| && sha(front[i]) == fp {
        var i :| 0 <= i < |front| && sha(front[i]) == fp;
        assert sha(certs[i]) == fp;
      }
      assert sha(certs[|certs| - 1]) == sha(last);
    }
  }

  /** New fingerprints are new: to what was seen and to each other. */
  lemma {:induction false} UnseenFresh(certs: seq<Cert>, seen: set<seq<Byte>>, sha: Hash)
    requires [] !in seen
    ensures var r := Unseen(certs, seen, sha);
            (forall i :: 0 <= i < |r| ==> sha(r[i]) !in seen && r[i] in certs) && Distinct(r, sha)
  {
    if certs != [] {
      if sha(certs[0]) in seen {
        UnseenFresh(certs[1..], seen, sha);
      } else {
        UnseenFresh(certs[1..], Note(seen, sha(certs[0])), sha);
      }
    }
  }

  /** Nothing new is left out: every fingerprint of the store is known or among the results. */
  lemma {:induction false} UnseenCovers(certs: seq<Cert>, seen: set<seq<Byte>>, sha: Hash, c: Cert)
    requires c in certs
    ensures sha(c) in seen
            || exists i :: 0 <= i < |Unseen(certs, seen, sha)| && sha(Unseen(certs, seen, sha)[i]) == sha(c)
  {
    var fp := sha(certs[0]);
    if fp in seen {
      if sha(c) != fp {
        assert c in certs[1..];
        UnseenCovers(certs[1..], seen, sha, c);
        assert Unseen(certs, seen, sha) == Unseen(certs[1..], seen, sha);
      }
    } else if sha(c) == fp {
      assert Unseen(certs, seen, sha)[0] == certs[0];
    } else {
      var rest := Unseen(certs[1..], Note(seen, fp), sha);
      UnseenCovers(certs[1..], Note(seen, fp), sha, c);
      if sha(c) !in seen {
        var i :| 0 <= i < |rest| && sha(rest[i]) == sha(c);
        assert Unseen(certs, seen, sha)[i + 1] == rest[i];
      }
    }
  }

  /** What is added to the NV certificates repeats no fingerprint of them. */
  lemma {:induction false} AddedDistinct(nv: seq<Cert>, store: seq<Cert>, sha: Hash)
    ensures Distinct(nv, sha) ==> Distinct(nv + Unseen(store, Noted(nv, sha), sha), sha)
  {
    var added := Unseen(store, Noted(nv, sha), sha);
    var all := nv + added;
    NotedContains(nv, sha, []);
    UnseenFresh(store, Noted(nv, sha), sha);
    forall i, j | 0 <= i < |nv| <= j < |all|
      ensures sha(all[i]) != sha(all[j]) || sha(all[i]) == []
    {
      NotedContains(nv, sha, sha(nv[i]));
      assert all[i] == nv[i] && all[j] == added[j - |nv|];
    }
    assert forall i :: 0 <= i < |nv| ==> all[i] == nv[i];
    assert forall i :: |nv| <= i < |all| ==> all[i] == added[i - |nv|];
  }

  lemma {:induction false} PrefixDistinct(part: seq<Cert>, whole: seq<Cert>, sha: Hash)
    requires part <= whole && Distinct(whole, sha)
    ensures Distinct(part, sha)
  {
    assert forall i :: 0 <= i < |part| ==> part[i] == whole[i];
  }

  /** The result is free of duplicates exactly if the NV certificates it starts with are: the loop does
      not compare these with each other, and those it cuts off do no harm. */
  lemma {:induction false} DistinctIff(nv: seq<Cert>, store: seq<Cert>, sha: Hash)
    ensures Distinct(Merged(nv, store, sha), sha) <==> Distinct(First(nv, 8), sha)
  {
    var all := nv + Unseen(store, Noted(nv, sha), sha);
    if Distinct(Merged(nv, store, sha), sha) {
      PrefixDistinct(First(nv, MAX_INTERMEDIATES), Merged(nv, store, sha), sha);
    }
    if |nv| < MAX_INTERMEDIATES && Distinct(nv, sha) {
      AddedDistinct(nv, store, sha);
      PrefixDistinct(First(all, MAX_INTERMEDIATES), all, sha);
    }
  }

  /** Every fingerprint of the store is in the result, unless that is full. */
  lemma {:induction false} StoreCovered(nv: seq<Cert>, store: seq<Cert>, sha: Hash, c: Cert)
    requires c in store && |Merged(nv, store, sha)| < MAX_INTERMEDIATES
    ensures var r := Merged(nv, store, sha); exists i :: 0 <= i < |r| && sha(r[i]) == sha(c)
  {
    var (added, r) := (Unseen(store, Noted(nv, sha), sha), Merged(nv, store, sha));
    UnseenCovers(store, Noted(nv, sha), sha, c);
    NotedContains(nv, sha, sha(c));
    if sha(c) in Noted(nv, sha) {
      var i :| 0 <= i < |nv| && sha(nv[i]) == sha(c);
      assert r[i] == nv[i];
    } else {
      var i :| 0 <= i < |added| && sha(added[i]) == sha(c);
      assert r[|nv| + i] == added[i];
    }
  }

  /** At most eight; the NV certificates first and in order; no fingerprint twice exactly if the NV
      certificates among them have none twice; and a store certificate is missing only if its
      fingerprint is present or the list is full. */
  lemma {:induction false} MergeGuarantees(nv: seq<Cert>, store: seq<Cert>, sha: Hash)
    ensures var r := Merged(nv, store, sha);
            && |r| <= 8
            && First(nv, 8) <= r
            && (forall c :: c in r ==> c in nv || c in store)
            && (Distinct(r, sha) <==> Distinct(First(nv, 8), sha))
            && (|r| < 8 ==>
                  forall c :: c in store ==> exists i :: 0 <= i < |r| && sha(r[i]) == sha(c))
  {
    DistinctIff(nv, store, sha);
    NotedContains(nv, sha, []);
    UnseenFresh(store, Noted(nv, sha), sha);
    if |Merged(nv, store, sha)| < MAX_INTERMEDIATES {
      forall c | c in store
        ensures exists i :: 0 <= i < |Merged(nv, store, sha)| && sha(Merged(nv, store, sha)[i]) == sha(c)
      {
        StoreCovered(nv, store, sha, c);
      }
    }
  }

  /** Duplicates within NV survive. */
  lemma {:induction false} NvDuplicates(c: Cert, sha: Hash)
    requires sha(c) != []
    ensures Merged([c, c], [], sha) == [c, c] && !Distinct([c, c], sha)
  {
    assert [c, c] + [] == [c, c];
    assert [c, c][0] == [c, c][1];
  }
}
