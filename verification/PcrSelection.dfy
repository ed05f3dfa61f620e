/** The three-byte PCR selection bitmap of a TPMS_PCR_SELECTION, as both platforms build it. */
module PcrSelection {
  import opened Bytes

  const PCR_COUNT: nat := 24

  type Bitmap = b: seq<Byte> | |b| == 3 witness [0, 0, 0]

  const EMPTY: Bitmap := [0, 0, 0]

  /** How a TPM reads the bitmap: PCR i is bit i % 8 of byte i / 8. */
  predicate Selected(bitmap: Bitmap, i: nat) {
    i < PCR_COUNT && Bit(bitmap[i / 8], i % 8)
  }

  function SelectedSet(bitmap: Bitmap): (pcrs: set<nat>) {
    set i | 0 <= i < PCR_COUNT && Selected(bitmap, i)
  }

  function Mark(bitmap: Bitmap, pcr: nat): (r: Bitmap) {
    if pcr < PCR_COUNT then bitmap[pcr / 8 := SetBit(bitmap[pcr / 8], pcr % 8)] else bitmap
  }

  function BitmapOf(pcrs: seq<nat>): (r: Bitmap) {
    if pcrs == [] then EMPTY else Mark(BitmapOf(pcrs[..|pcrs| - 1]), pcrs[|pcrs| - 1])
  }

  lemma {:induction false} MarkSelects(bitmap: Bitmap, pcr: nat, i: nat)
    requires i < PCR_COUNT
    ensures Selected(Mark(bitmap, pcr), i) <==> i == pcr || Selected(bitmap, i)
  {
    if pcr < PCR_COUNT && pcr / 8 == i / 8 {
      OrBits(bitmap[i / 8], pcr % 8, i % 8);
    }
  }

  /** The bitmap selects exactly the requested indices below 24: order and duplicates do not
      matter, and larger indices are dropped. */
  lemma {:induction false} BitmapSelects(pcrs: seq<nat>)
    ensures forall i: nat :: Selected(BitmapOf(pcrs), i) <==> i < PCR_COUNT && i in pcrs
  {
    if pcrs == [] {
      forall i: nat | i < PCR_COUNT
        ensures !Selected(EMPTY, i)
      {
        ZeroBits(i % 8);
      }
    } else {
      var front, last := pcrs[..|pcrs| - 1], pcrs[|pcrs| - 1];
      BitmapSelects(front);
      assert pcrs == front + [last];
      forall i: nat | i < PCR_COUNT
        ensures Selected(BitmapOf(pcrs), i) <==> i in pcrs
      {
        MarkSelects(BitmapOf(front), last, i);
      }
    }
  }

  lemma {:induction false} SelectedSetOf(pcrs: seq<nat>)
    requires forall i :: i in pcrs ==> i < PCR_COUNT
    ensures SelectedSet(BitmapOf(pcrs)) == set i | i in pcrs
  {
    BitmapSelects(pcrs);
  }

  /** The bitmap of TpmCommands::Quote. */
  method BuildBitmap(pcrs: seq<nat>) returns (bitmap: array<Byte>)
    ensures fresh(bitmap) && bitmap.Length == 3 && bitmap[..] == BitmapOf(pcrs)
  {
    bitmap := new Byte[3](_ => 0);
    for n := 0 to |pcrs|
      invariant bitmap[..] == BitmapOf(pcrs[..n])
    {
      var pcr := pcrs[n];
      assert pcrs[..n + 1][..n] == pcrs[..n];
      if pcr < PCR_COUNT {
        bitmap[pcr / 8] := SetBit(bitmap[pcr / 8], pcr % 8);
      }
    }
    assert pcrs[..|pcrs|] == pcrs;
  }

  /** The bitmap of TpmCommands::PcrRead: one index, assigned instead of OR-ed. */
  method BuildSingleBitmap(pcr: nat) returns (bitmap: array<Byte>)
    ensures fresh(bitmap) && bitmap.Length == 3 && bitmap[..] == BitmapOf([pcr])
  {
    bitmap := new Byte[3](_ => 0);
    assert BitmapOf([pcr]) == Mark(EMPTY, pcr) by {
      assert [pcr][..0] == [];
    }
    if pcr < PCR_COUNT {
      OrZero(pcr % 8);
      assert Pow2(8) == 256;
      OrWidth(0, pcr % 8, 8);
      bitmap[pcr / 8] := Pow2(pcr % 8);
    }
  }

  lemma {:induction false} OrZero(k: nat)
    ensures Or(0, k) == Pow2(k)
  {
    if k > 0 {
      OrZero(k - 1);
    }
  }

  /** The bitmap of tpm_quote on Linux, whose loop also stops after 24 list entries. */
  method BuildBitmapCapped(pcrs: seq<nat>) returns (bitmap: array<Byte>)
    ensures fresh(bitmap) && bitmap.Length == 3
    ensures bitmap[..] == BitmapOf(Capped(pcrs))
  {
    bitmap := new Byte[3](_ => 0);
    var i := 0;
    while i < |pcrs| && i < 24
      invariant i <= |pcrs| && i <= 24
      invariant bitmap[..] == BitmapOf(pcrs[..i])
    {
      var idx := pcrs[i];
      assert pcrs[..i + 1][..i] == pcrs[..i];
      if idx < PCR_COUNT {
        bitmap[idx / 8] := SetBit(bitmap[idx / 8], idx % 8);
      }
      i := i + 1;
    }
    assert pcrs[..i] == Capped(pcrs);
  }

  function Capped(pcrs: seq<nat>): (r: seq<nat>) {
    if |pcrs| <= 24 then pcrs else pcrs[..24]
  }

  /** A byte is determined by its bits. */
  lemma {:induction false} SameByte(a: Byte, b: Byte)
    requires forall j :: 0 <= j < 8 ==> Bit(a, j) == Bit(b, j)
    ensures a == b
  {
    assert Pow2(8) == 256;
    SameBits(a, b, 8);
  }

  lemma {:induction false} SameBits(a: nat, b: nat, width: nat)
    requires a < Pow2(width) && b < Pow2(width)
    requires forall j :: 0 <= j < width ==> Bit(a, j) == Bit(b, j)
    ensures a == b
  {
    if width > 0 {
      assert Bit(a, 0) == Bit(b, 0);
      forall j | 0 <= j < width - 1
        ensures Bit(a / 2, j) == Bit(b / 2, j)
      {
        assert Bit(a, j + 1) == Bit(b, j + 1);
      }
      SameBits(a / 2, b / 2, width - 1);
    }
  }

  /** The platforms send the same selection exactly when every valid index of the list already
      occurs among its first 24 entries; a list of at most 24 entries always qualifies. */
  lemma {:induction false} PlatformsAgreeIff(pcrs: seq<nat>)
    ensures BitmapOf(Capped(pcrs)) == BitmapOf(pcrs)
            <==> forall i :: i in pcrs && i < PCR_COUNT ==> i in Capped(pcrs)
  {
    BitmapSelects(pcrs);
    BitmapSelects(Capped(pcrs));
    var a, b := BitmapOf(Capped(pcrs)), BitmapOf(pcrs);
    if forall i :: i in pcrs && i < PCR_COUNT ==> i in Capped(pcrs) {
      forall n | 0 <= n < 3
        ensures a[n] == b[n]
      {
        forall j | 0 <= j < 8
          ensures Bit(a[n], j) == Bit(b[n], j)
        {
          assert Selected(a, 8 * n + j) == Selected(b, 8 * n + j);
        }
        SameByte(a[n], b[n]);
      }
    }
  }
}
