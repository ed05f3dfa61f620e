/** Bytes and the fixed-width integers that the marshallers and parsers move through buffers. */
module Bytes {

  type Byte = b: int | 0 <= b < 256

  datatype Option<+T> = None | Some(value: T) {
    function GetOr(default: T): T {
      if Some? then value else default
    }
  }

  /** The outcome of reading or writing memory: a value, or the first offset outside the buffer. */
  datatype Access<+T> = Inside(value: T) | Outside(at: nat)

  /** The first offset outside the data at which a read from `from` on arrives. */
  function FirstOutside<T>(data: seq<T>, from: nat): (at: nat) {
    if from < |data| then |data| else from
  }

  /** What comes behind `front`, unless it was cut short. */
  function Prepend<T>(front: seq<T>, r: Access<seq<T>>): (whole: Access<seq<T>>) {
    match r
    case Outside(at) => Outside(at)
    case Inside(back) => Inside(front + back)
  }

  lemma {:induction false} PrependTwice<T>(a: seq<T>, b: seq<T>, r: Access<seq<T>>)
    ensures Prepend(a, Prepend(b, r)) == Prepend(a + b, r)
  {
    if r.Inside? {
      assert a + (b + r.value) == a + b + r.value;
    }
  }

  lemma {:induction false} PrependNothing<T>(r: Access<seq<T>>)
    ensures Prepend([], r) == r
  {
    if r.Inside? {
      assert [] + r.value == r.value;
    }
  }

  const U16_LIMIT: nat := 0x1_0000
  const U32_LIMIT: nat := 0x1_0000_0000
  const U64_LIMIT: nat := 0x1_0000_0000_0000_0000

  type U16 = v: nat | v < 0x1_0000
  type U32 = v: nat | v < 0x1_0000_0000

  /** (uint16_t)v */
  function Cast16(v: nat): (r: U16)
    ensures v < U16_LIMIT ==> r == v
  {
    if v < U16_LIMIT then v else v % 0x1_0000
  }

  /** (uint32_t)v */
  function Cast32(v: nat): (r: U32)
    ensures v < U32_LIMIT ==> r == v
  {
    if v < U32_LIMIT then v else v % 0x1_0000_0000
  }

  /** (uint64_t)v */
  function Cast64(v: nat): (r: nat)
    ensures r < U64_LIMIT && (v < U64_LIMIT ==> r == v)
  {
    if v < U64_LIMIT then v else v % 0x1_0000_0000_0000_0000
  }

  // Big-endian writers. Like the casts in the source they keep the low bits only.

  function BE16(v: nat): (b: seq<Byte>)
    ensures |b| == 2
  {
    [v / 0x100 % 0x100, v % 0x100]
  }

  function BE32(v: nat): (b: seq<Byte>)
    ensures |b| == 4
  {
    [v / 0x100_0000 % 0x100, v / 0x1_0000 % 0x100, v / 0x100 % 0x100, v % 0x100]
  }

  function ReadBE16(b: seq<Byte>, at: nat): (v: U16)
    requires at + 2 <= |b|
  {
    (b[at] as int) * 0x100 + b[at + 1]
  }

  function ReadBE32(b: seq<Byte>, at: nat): (v: U32)
    requires at + 4 <= |b|
  {
    (b[at] as int) * 0x100_0000 + (b[at + 1] as int) * 0x1_0000 + (b[at + 2] as int) * 0x100 + b[at + 3]
  }

  // Little-endian, for the firmware structures.

  function LE16(v: nat): (b: seq<Byte>)
    ensures |b| == 2
  {
    [v % 0x100, v / 0x100 % 0x100]
  }

  function LE32(v: nat): (b: seq<Byte>)
    ensures |b| == 4
  {
    [v % 0x100, v / 0x100 % 0x100, v / 0x1_0000 % 0x100, v / 0x100_0000 % 0x100]
  }

  function LE64(v: nat): (b: seq<Byte>)
    ensures |b| == 8
  {
    LE32(v % 0x1_0000_0000) + LE32(v / 0x1_0000_0000)
  }

  function ReadLE16(b: seq<Byte>, at: nat): (v: U16)
    requires at + 2 <= |b|
  {
    b[at] as int + (b[at + 1] as int) * 0x100
  }

  function ReadLE32(b: seq<Byte>, at: nat): (v: U32)
    requires at + 4 <= |b|
  {
    b[at] as int + (b[at + 1] as int) * 0x100 + (b[at + 2] as int) * 0x1_0000 + (b[at + 3] as int) * 0x100_0000
  }

  function ReadLE64(b: seq<Byte>, at: nat): (v: nat)
    requires at + 8 <= |b|
    ensures v < U64_LIMIT
  {
    ReadLE32(b, at) + ReadLE32(b, at + 4) * 0x1_0000_0000
  }

  /** A value that fits its field is read back wherever its encoding lies in a buffer. */
  lemma {:induction false} BE16At(b: seq<Byte>, at: nat, v: nat)
    requires at + 2 <= |b| && b[at..at + 2] == BE16(v) && v < U16_LIMIT
    ensures ReadBE16(b, at) == v
  {
    assert b[at] == b[at..at + 2][0] && b[at + 1] == b[at..at + 2][1];
  }

  lemma {:induction false} BE32At(b: seq<Byte>, at: nat, v: nat)
    requires at + 4 <= |b| && b[at..at + 4] == BE32(v) && v < U32_LIMIT
    ensures ReadBE32(b, at) == v
  {
    assert b[at] == BE32(v)[0] && b[at + 1] == BE32(v)[1] && b[at + 2] == BE32(v)[2] && b[at + 3] == BE32(v)[3];
    FourDigits(v);
  }

  /** Reading and writing again gives the bytes back: the encoding is unique. */
  lemma {:induction false} BE16Again(b: seq<Byte>, at: nat)
    requires at + 2 <= |b|
    ensures BE16(ReadBE16(b, at)) == b[at..at + 2]
  {
  }

  lemma {:induction false} BE32Again(b: seq<Byte>, at: nat)
    requires at + 4 <= |b|
    ensures BE32(ReadBE32(b, at)) == b[at..at + 4]
  {
    var x := (b[at] as int) * 0x1_0000 + (b[at + 1] as int) * 0x100 + b[at + 2];
    assert ReadBE32(b, at) == x * 0x100 + b[at + 3];
    assert ReadBE32(b, at) / 0x100 == x;
    assert ReadBE32(b, at) / 0x1_0000 == (b[at] as int) * 0x100 + b[at + 1];
    assert ReadBE32(b, at) / 0x100_0000 == b[at];
  }

  /** The four bytes of a value make up the value. */
  lemma {:induction false} FourDigits(v: nat)
    requires v < U32_LIMIT
    ensures v == v % 0x100 + v / 0x100 % 0x100 * 0x100 + v / 0x1_0000 % 0x100 * 0x1_0000
            + v / 0x100_0000 % 0x100 * 0x100_0000
  {
    var q := v / 0x100;
    var r := q / 0x100;
    var t := r / 0x100;
    assert v == q * 0x100 + v % 0x100;
    assert q == r * 0x100 + q % 0x100;
    assert r == t * 0x100 + r % 0x100;
    assert r == v / 0x1_0000 && t == v / 0x100_0000 && t < 0x100;
  }

  lemma {:induction false} LE32At(b: seq<Byte>, at: nat, v: nat)
    requires at + 4 <= |b| && b[at..at + 4] == LE32(v) && v < U32_LIMIT
    ensures ReadLE32(b, at) == v
  {
    assert b[at] == LE32(v)[0] && b[at + 1] == LE32(v)[1] && b[at + 2] == LE32(v)[2] && b[at + 3] == LE32(v)[3];
    FourDigits(v);
  }

  lemma {:induction false} LE16At(b: seq<Byte>, at: nat, v: nat)
    requires at + 2 <= |b| && b[at..at + 2] == LE16(v) && v < U16_LIMIT
    ensures ReadLE16(b, at) == v
  {
    assert b[at] == b[at..at + 2][0] && b[at + 1] == b[at..at + 2][1];
  }

  lemma {:induction false} LE64At(b: seq<Byte>, at: nat, v: nat)
    requires at + 8 <= |b| && b[at..at + 8] == LE64(v) && v < U64_LIMIT
    ensures ReadLE64(b, at) == v
  {
    assert b[at..at + 4] == b[at..at + 8][..4] == LE32(v % 0x1_0000_0000);
    assert b[at + 4..at + 8] == b[at..at + 8][4..] == LE32(v / 0x1_0000_0000);
    LE32At(b, at, v % 0x1_0000_0000);
    LE32At(b, at + 4, v / 0x1_0000_0000);
  }

  lemma {:induction false} LE16Again(b: seq<Byte>, at: nat)
    requires at + 2 <= |b|
    ensures LE16(ReadLE16(b, at)) == b[at..at + 2]
  {
  }

  lemma {:induction false} LE32Again(b: seq<Byte>, at: nat)
    requires at + 4 <= |b|
    ensures LE32(ReadLE32(b, at)) == b[at..at + 4]
  {
    var v := ReadLE32(b, at);
    assert v / 0x100_0000 == b[at + 3];
    assert v / 0x1_0000 == (b[at + 3] as int) * 0x100 + b[at + 2];
    assert v / 0x100 == (b[at + 3] as int) * 0x1_0000 + (b[at + 2] as int) * 0x100 + b[at + 1];
  }

  /** A sized buffer, TPM2B: a 16-bit length and that many bytes. */
  function TPM2B(data: seq<Byte>): (b: seq<Byte>)
    ensures |b| == 2 + |data|
  {
    BE16(|data|) + data
  }

  /** Splits one sized buffer off the front. */
  function TakeTPM2B(b: seq<Byte>): (r: Option<(seq<Byte>, seq<Byte>)>)
    ensures r.Some? ==> |r.value.0| < U16_LIMIT && b == TPM2B(r.value.0) + r.value.1
  {
    if |b| < 2 || 2 + ReadBE16(b, 0) > |b| then None
    else
      var n := ReadBE16(b, 0);
      BE16Again(b, 0);
      Some((b[2..2 + n], b[2 + n..]))
  }

  lemma {:induction false} TakeTPM2BOf(data: seq<Byte>, rest: seq<Byte>)
    requires |data| < U16_LIMIT
    ensures TakeTPM2B(TPM2B(data) + rest) == Some((data, rest))
  {
    var b := TPM2B(data) + rest;
    BE16At(b, 0, |data|);
    assert b[2..2 + |data|] == data;
    assert b[2 + |data|..] == rest;
  }

  // Fields inside a larger buffer, at the offset where the parsers look for them.

  lemma {:induction false} BE32Within(b: seq<Byte>, head: seq<Byte>, v: U32, rest: seq<Byte>)
    requires b == head + BE32(v) + rest
    ensures ReadBE32(b, |head|) == v
  {
    assert b[|head|..|head| + 4] == BE32(v);
    BE32At(b, |head|, v);
  }

  lemma {:induction false} TPM2BWithin(b: seq<Byte>, head: seq<Byte>, data: seq<Byte>, rest: seq<Byte>)
    requires b == head + TPM2B(data) + rest && |data| < U16_LIMIT
    ensures var at := |head|;
            && ReadBE16(b, at) == |data|
            && b[at..at + 2 + |data|] == TPM2B(data)
            && b[at + 2..at + 2 + |data|] == data
            && b[at + 2 + |data|..] == rest
  {
    var at := |head|;
    assert b[at..at + 2 + |data|] == TPM2B(data);
    assert b[at..at + 2] == TPM2B(data)[..2] == BE16(|data|);
    BE16At(b, at, |data|);
    assert b[at + 2..at + 2 + |data|] == data;
  }

  /** Decimal digits, as std::to_string writes them. */
  function Decimal(n: nat): (text: string) {
    if n < 10 then [('0' as int + n) as char] else Decimal(n / 10) + [('0' as int + n % 10) as char]
  }

  // ---- Bits of a byte -------------------------------------------------------

  function Pow2(n: nat): (p: nat)
    ensures p > 0
  {
    if n == 0 then 1 else 2 * Pow2(n - 1)
  }

  /** (b >> k) & 1 */
  predicate Bit(b: nat, k: nat) {
    if k == 0 then b % 2 == 1 else Bit(b / 2, k - 1)
  }

  /** b | (1 << k) */
  function Or(b: nat, k: nat): (r: nat) {
    if k == 0 then b + 1 - b % 2 else 2 * Or(b / 2, k - 1) + b % 2
  }

  lemma {:induction false} OrBits(b: nat, k: nat, j: nat)
    ensures Bit(Or(b, k), j) <==> j == k || Bit(b, j)
  {
    if k > 0 && j > 0 {
      OrBits(b / 2, k - 1, j - 1);
    }
  }

  lemma {:induction false} OrWidth(b: nat, k: nat, width: nat)
    requires k < width && b < Pow2(width)
    ensures Or(b, k) < Pow2(width)
  {
    if k > 0 {
      OrWidth(b / 2, k - 1, width - 1);
    }
  }

  lemma {:induction false} ZeroBits(k: nat)
    ensures !Bit(0, k)
  {
    if k > 0 {
      ZeroBits(k - 1);
    }
  }

  /** The update a bitmap byte undergoes for one selected index. */
  function SetBit(b: Byte, k: nat): (r: Byte)
    requires k < 8
  {
    assert Pow2(8) == 256;
    OrWidth(b, k, 8);
    Or(b, k)
  }
}
