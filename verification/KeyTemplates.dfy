/**
 The two key templates field by field, with the numbers of the TPM 2.0 Library, Part 2: object
 attributes of section 8.3, algorithm identifiers of section 6.3, the layout of TPMT_PUBLIC.
 */
module KeyTemplates {
  import opened Bytes
  import opened Seqs
  import opened TpmState
  import opened ClientSpec

  // ---- Attribute words ------------------------------------------------------

  lemma {:induction false} NextByte(b: nat, k: nat)
    ensures Bit(b, k + 8) == Bit(b / 0x100, k)
  {
    assert Bit(b, k + 8) == Bit(b / 2, k + 7) == Bit(b / 2 / 2, k + 6) == Bit(b / 2 / 2 / 2, k + 5);
    var c := b / 2 / 2 / 2;
    assert Bit(c, k + 5) == Bit(c / 2, k + 4) == Bit(c / 2 / 2, k + 3) == Bit(c / 2 / 2 / 2, k + 2);
    var d := c / 2 / 2 / 2;
    assert Bit(d, k + 2) == Bit(d / 2, k + 1) == Bit(d / 2 / 2, k);
    assert d / 2 / 2 == b / 0x100;
  }

  lemma {:induction false} NoBits(k: nat)
    ensures !Bit(0, k)
    decreases k
  {
    if k > 0 {
      NoBits(k - 1);
    }
  }

  lemma {:induction false} HighByte(b: nat, k: nat)
    requires b == 0x5 || b == 0x3
    ensures Bit(b, k) <==> k in (if b == 0x5 then {0, 2} else {0, 1})
  {
    if k >= 3 {
      assert Bit(b, k) == Bit(b / 2, k - 1) == Bit(b / 2 / 2, k - 2) == Bit(0, k - 3);
      NoBits(k - 3);
    }
  }

  lemma {:induction false} ClearByte(b: nat, k: nat)
    requires k < 8 && (b == 0x500 || b == 0x300)
    ensures !Bit(b, k)
  {
    assert Bit(0x500, 4) == Bit(0x280, 3) == Bit(0x140, 2) == Bit(0xA0, 1) == Bit(0x50, 0);
    assert Bit(0x500, 7) == Bit(0x50, 3) == Bit(0x28, 2) == Bit(0x14, 1) == Bit(0xA, 0);
    assert Bit(0x300, 4) == Bit(0x180, 3) == Bit(0xC0, 2) == Bit(0x60, 1) == Bit(0x30, 0);
    assert Bit(0x300, 7) == Bit(0x30, 3) == Bit(0x18, 2) == Bit(0xC, 1) == Bit(0x6, 0);
  }

  lemma {:induction false} LowHalf(v: nat, k: nat)
    ensures k >= 4 ==> Bit(v, k) == Bit(v / 16, k - 4)
  {
    if k >= 4 {
      assert Bit(v, k) == Bit(v / 2, k - 1) == Bit(v / 2 / 2, k - 2) == Bit(v / 2 / 2 / 2, k - 3);
      assert v / 2 / 2 / 2 / 2 == v / 16;
    }
  }

  /** fixedTPM, fixedParent, sensitiveDataOrigin, userWithAuth, restricted, sign */
  lemma {:induction false} AkBits(k: nat)
    ensures Bit(AK_ATTRIBUTES, k) <==> k in {1, 4, 5, 6, 16, 18}
  {
    assert AK_ATTRIBUTES == 0x5_0072;
    if k >= 16 {
      NextByte(0x5_0072, k - 8);
      NextByte(0x500, k - 16);
      HighByte(0x5, k - 16);
    } else if k >= 8 {
      NextByte(0x5_0072, k - 8);
      ClearByte(0x500, k - 8);
    } else {
      assert Bit(0x5_0072, 1) == Bit(0x2_8039, 0) && Bit(0x5_0072, 2) == Bit(0x2_8039, 1) == Bit(0x1_401C, 0);
      assert Bit(0x5_0072, 3) == Bit(0x2_8039, 2) == Bit(0x1_401C, 1) == Bit(0xA00E, 0);
      LowHalf(0x5_0072, k);
      assert Bit(0x5007, 1) == Bit(0x2803, 0) && Bit(0x5007, 2) == Bit(0x2803, 1) == Bit(0x1401, 0);
      assert Bit(0x5007, 3) == Bit(0x2803, 2) == Bit(0x1401, 1) == Bit(0xA00, 0);
    }
  }

  /** fixedTPM, fixedParent, sensitiveDataOrigin, adminWithPolicy, restricted, decrypt */
  lemma {:induction false} EkBits(k: nat)
    ensures Bit(EK_ATTRIBUTES, k) <==> k in {1, 4, 5, 7, 16, 17}
  {
    assert EK_ATTRIBUTES == 0x3_00B2;
    if k >= 16 {
      NextByte(0x3_00B2, k - 8);
      NextByte(0x300, k - 16);
      HighByte(0x3, k - 16);
    } else if k >= 8 {
      NextByte(0x3_00B2, k - 8);
      ClearByte(0x300, k - 8);
    } else {
      assert Bit(0x3_00B2, 1) == Bit(0x1_8059, 0) && Bit(0x3_00B2, 2) == Bit(0x1_8059, 1) == Bit(0xC02C, 0);
      assert Bit(0x3_00B2, 3) == Bit(0x1_8059, 2) == Bit(0xC02C, 1) == Bit(0x6016, 0);
      LowHalf(0x3_00B2, k);
      assert Bit(0x300B, 1) == Bit(0x1805, 0) && Bit(0x300B, 2) == Bit(0x1805, 1) == Bit(0xC02, 0);
      assert Bit(0x300B, 3) == Bit(0x1805, 2) == Bit(0xC02, 1) == Bit(0x601, 0);
    }
  }

  // ---- The templates --------------------------------------------------------

  /** The two bytes at this offset hold this number. */
  predicate Says16(b: seq<Byte>, at: nat, v: U16) {
    at + 2 <= |b| && ReadBE16(b, at) == v
  }

  lemma {:induction false} Field16(b: seq<Byte>, front: seq<Byte>, v: U16, rest: seq<Byte>)
    requires b == front + BE16(v) + rest
    ensures Says16(b, |front|, v)
  {
    assert b[|front|..|front| + 2] == BE16(v);
    BE16At(b, |front|, v);
  }

  lemma {:induction false} Field32(b: seq<Byte>, front: seq<Byte>, v: U32, rest: seq<Byte>)
    requires b == front + BE32(v) + rest
    ensures |front| + 4 <= |b| && ReadBE32(b, |front|) == v
  {
    BE32Within(b, front, v, rest);
  }

  /** The AK is an RSA-2048 key with a SHA-256 Name and no policy, that signs with RSASSA and SHA-256,
      and what it signs must have been made by the TPM: it is restricted. */
  lemma {:induction false} AkTemplateFacts()
    ensures var t := AkTemplate();
            && |t| == 280 && (forall k :: Attribute(t, k) <==> k in {1, 4, 5, 6, 16, 18})
            && Says16(t, 0, 0x0001) && Says16(t, 2, 0x000B) && Says16(t, 8, 0) && Says16(t, 10, 0x0010)
            && Says16(t, 12, 0x0014) && Says16(t, 14, 0x000B) && Says16(t, 16, 2048)
            && ReadBE32(t, 18) == 0 && Says16(t, 22, 256) && (forall k :: 24 <= k < 280 ==> t[k] == 0)
  {
    var t := AkTemplate();
    var f4 := BE16(0x0001) + BE16(0x000B);
    var f8 := f4 + BE32(AK_ATTRIBUTES);
    Tail(t, f8, 0, 0x0010, 0x0014, 0x000B);
    assert t == f4 + BE32(AK_ATTRIBUTES) + t[8..];
    Field32(t, f4, AK_ATTRIBUTES, t[8..]);
    Front(t, 0x0001, 0x000B, t[4..]);
    forall k
      ensures Attribute(t, k) <==> k in {1, 4, 5, 6, 16, 18}
    {
      AkBits(k);
    }
  }

  lemma {:induction false} Front(t: seq<Byte>, a: U16, b: U16, rest: seq<Byte>)
    requires t == BE16(a) + BE16(b) + rest
    ensures Says16(t, 0, a) && Says16(t, 2, b)
  {
    assert t[0..] == BE16(a) + (BE16(b) + rest);
    Head16(t, 0, a, BE16(b) + rest);
    Head16(t, 2, b, rest);
  }

  /** What follows the policy: four numbers, 2048 key bits, the default exponent, an empty modulus. */
  lemma {:induction false} Tail(t: seq<Byte>, front: seq<Byte>, a: U16, b: U16, c: U16, d: U16)
    requires t == front + BE16(a) + BE16(b) + BE16(c) + BE16(d) + BE16(2048) + BE32(0) + BE16(256) + Zeros(256)
    ensures var at := |front|;
            && |t| == at + 272 && t == front + t[at..]
            && Says16(t, at, a) && Says16(t, at + 2, b) && Says16(t, at + 4, c) && Says16(t, at + 6, d)
            && Says16(t, at + 8, 2048) && ReadBE32(t, at + 10) == 0 && Says16(t, at + 14, 256)
            && forall k :: at + 16 <= k < |t| ==> t[k] == 0
  {
    var at := |front|;
    var zeros: seq<Byte> := Zeros(256);
    var r7 := BE16(256) + zeros;
    var r6 := BE32(0) + r7;
    var r5 := BE16(2048) + r6;
    var r4 := BE16(d) + r5;
    var r3 := BE16(c) + r4;
    var r2 := BE16(b) + r3;
    Nested(front, BE16(a), BE16(b), BE16(c), BE16(d), BE16(2048), BE32(0), BE16(256), zeros);
    DropHead(front, BE16(a) + r2);
    Head16(t, at, a, r2);
    Head16(t, at + 2, b, r3);
    Head16(t, at + 4, c, r4);
    Head16(t, at + 6, d, r5);
    KeySize(t, at + 8, zeros);
  }

  lemma {:induction false} KeySize(t: seq<Byte>, at: nat, zeros: seq<Byte>)
    requires at <= |t| && zeros == Zeros(256) && t[at..] == BE16(2048) + (BE32(0) + (BE16(256) + zeros))
    ensures |t| == at + 264 && Says16(t, at, 2048) && ReadBE32(t, at + 2) == 0 && Says16(t, at + 6, 256)
    ensures forall k :: at + 8 <= k < |t| ==> t[k] == 0
  {
    Head16(t, at, 2048, BE32(0) + (BE16(256) + zeros));
    Head32(t, at + 2, 0, BE16(256) + zeros);
    Head16(t, at + 6, 256, zeros);
    LastZeros(t, at + 8);
  }

  lemma {:induction false} LastZeros(t: seq<Byte>, at: nat)
    requires at <= |t| && t[at..] == Zeros(256)
    ensures forall k :: at <= k < |t| ==> t[k] == 0
  {
    assert forall k :: at <= k < |t| ==> t[k] == t[at..][k - at];
  }

  /** The EK is an RSA-2048 key with a SHA-256 Name that decrypts with AES-128 in CFB mode; it is used
      under the endorsement policy. */
  lemma {:induction false} EkTemplateFacts()
    ensures var t := EkTemplate();
            && |t| == 314 && (forall k :: Attribute(t, k) <==> k in {1, 4, 5, 7, 16, 17})
            && Says16(t, 0, 0x0001) && Says16(t, 2, 0x000B) && Says16(t, 8, 32)
            && AuthPolicy(t) == t[10..42] == [
                 0x83, 0x71, 0x97, 0x67, 0x44, 0x84, 0xB3, 0xF8, 0x1A, 0x90, 0xCC, 0x8D, 0x46, 0xA5, 0xD7, 0x24,
                 0xFD, 0x52, 0xD7, 0x6E, 0x06, 0x52, 0x0B, 0x64, 0xF2, 0xA1, 0xDA, 0x1B, 0x33, 0x14, 0x69, 0xAA]
            && Says16(t, 42, 0x0006) && Says16(t, 44, 128) && Says16(t, 46, 0x0043) && Says16(t, 48, 0x0010)
            && Says16(t, 50, 2048) && ReadBE32(t, 52) == 0 && Says16(t, 56, 256)
            && (forall k :: 58 <= k < 314 ==> t[k] == 0)
  {
    var t := EkTemplate();
    var f4 := BE16(0x0001) + BE16(0x000B);
    var f8 := f4 + BE32(EK_ATTRIBUTES);
    var f42 := f8 + BE16(32) + EK_POLICY;
    Tail(t, f42, 0x0006, 128, 0x0043, 0x0010);
    EkHead(t, f4, f8, t[42..]);
    Front(t, 0x0001, 0x000B, t[4..]);
  }

  lemma {:induction false} Nested<T>(f: seq<T>, a: seq<T>, b: seq<T>, c: seq<T>, d: seq<T>, e: seq<T>, g: seq<T>,
                                     h: seq<T>, i: seq<T>)
    ensures f + a + b + c + d + e + g + h + i == f + (a + (b + (c + (d + (e + (g + (h + i)))))))
  {
    Assoc(f + a + b + c + d + e + g, h, i);
    Assoc(f + a + b + c + d + e, g, h + i);
    Assoc(f + a + b + c + d, e, g + (h + i));
    Assoc(f + a + b + c, d, e + (g + (h + i)));
    Assoc(f + a + b, c, d + (e + (g + (h + i))));
    Assoc(f + a, b, c + (d + (e + (g + (h + i)))));
    Assoc(f, a, b + (c + (d + (e + (g + (h + i))))));
  }

  lemma {:induction false} Head16(t: seq<Byte>, at: nat, v: U16, rest: seq<Byte>)
    requires at <= |t| && t[at..] == BE16(v) + rest
    ensures Says16(t, at, v) && t[at + 2..] == rest
  {
    assert t[at..at + 2] == t[at..][..2] == BE16(v);
    BE16At(t, at, v);
    assert t[at + 2..] == t[at..][2..];
  }

  lemma {:induction false} Head32(t: seq<Byte>, at: nat, v: U32, rest: seq<Byte>)
    requires at <= |t| && t[at..] == BE32(v) + rest
    ensures at + 4 <= |t| && ReadBE32(t, at) == v && t[at + 4..] == rest
  {
    assert t[at..at + 4] == t[at..][..4] == BE32(v);
    BE32At(t, at, v);
    assert t[at + 4..] == t[at..][4..];
  }

  lemma {:induction false} EkHead(t: seq<Byte>, f4: seq<Byte>, f8: seq<Byte>, tail: seq<Byte>)
    requires |f4| == 4 && f8 == f4 + BE32(EK_ATTRIBUTES) && t == f8 + BE16(32) + EK_POLICY + tail
    ensures (forall k :: Attribute(t, k) <==> k in {1, 4, 5, 7, 16, 17}) && Says16(t, 8, 32)
    ensures AuthPolicy(t) == t[10..42] == EK_POLICY
  {
    assert t == f4 + BE32(EK_ATTRIBUTES) + t[8..];
    Field32(t, f4, EK_ATTRIBUTES, t[8..]);
    assert t == f8 + BE16(32) + t[10..];
    Field16(t, f8, 32, t[10..]);
    assert t[8..] == TPM2B(EK_POLICY) + tail;
    TakeTPM2BOf(EK_POLICY, tail);
    forall k
      ensures Attribute(t, k) <==> k in {1, 4, 5, 7, 16, 17}
    {
      EkBits(k);
    }
  }

  lemma {:induction false} TemplateLengths()
    ensures |AkTemplate()| == 280 && |EkTemplate()| == 314
  {
    AkTemplateFacts();
    EkTemplateFacts();
  }
}
