/** Copying into the caller's buffers. */
module Buffers {

  /** The heap objects behind an optional buffer. */
  ghost function Target<T>(dst: array?<T>): (r: set<object>) {
    if dst == null then {} else {dst}
  }

  /** `now` is `before` with `text` written at `at`. */
  ghost predicate Filled<T>(now: seq<T>, before: seq<T>, at: nat, text: seq<T>) {
    && at + |text| <= |before| == |now|
    && now == before[..at] + text + before[at + |text|..]
  }

  /** memcpy(dst + at, text, |text|) */
  method Copy<T>(text: seq<T>, dst: array<T>, at: nat)
    requires at + |text| <= dst.Length
    modifies dst
    ensures Filled(dst[..], old(dst[..]), at, text)
  {
    forall i | 0 <= i < |text| {
      dst[at + i] := text[i];
    }
  }

  /** A buffer that holds `a` from `at` on receives `b` behind it. */
  lemma {:induction false} Chain<T>(before: seq<T>, one: seq<T>, two: seq<T>, at: nat, off: nat, a: seq<T>,
                                     b: seq<T>)
    requires Filled(one, before, at, a) && off == at + |a| && Filled(two, one, off, b)
    ensures Filled(two, before, at, a + b)
  {
    assert one[..at + |a|] == before[..at] + a;
    assert one[at + |a| + |b|..] == before[at + |a| + |b|..];
  }
}
