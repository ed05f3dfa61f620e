/** The base64 codec of the Linux client (RFC 4648, section 4), writing into caller buffers, and the
    PEM armour around it. */
module Base64 {
  import opened Bytes
  import opened Seqs
  import opened Buffers

  // ---- Symbols --------------------------------------------------------------

  /** b64_table */
  function Symbol(n: nat): (c: char)
    requires n < 64
    ensures c != '='
  {
    if n < 26 then 'A' + n as char
    else if n < 52 then 'a' + (n - 26) as char
    else if n < 62 then '0' + (n - 52) as char
    else if n == 62 then '+' else '/'
  }

  /** b64_decode_char */
  function SymbolValue(c: char): (v: int)
    ensures -1 <= v < 64
  {
    if 'A' <= c <= 'Z' then c as int - 'A' as int
    else if 'a' <= c <= 'z' then c as int - 'a' as int + 26
    else if '0' <= c <= '9' then c as int - '0' as int + 52
    else if c == '+' then 62
    else if c == '/' then 63
    else -1
  }

  predicate IsSymbol(c: char) { SymbolValue(c) >= 0 }

  lemma {:induction false} SymbolBack(n: nat)
    requires n < 64
    ensures SymbolValue(Symbol(n)) == n
  {
  }

  lemma {:induction false} SymbolAgain(c: char)
    requires IsSymbol(c)
    ensures Symbol(SymbolValue(c)) == c
  {
  }

  // ---- Groups ---------------------------------------------------------------

  function At(b: seq<Byte>, i: nat): (v: Byte) {
    if i < |b| then b[i] else 0
  }

  /** The four characters for the first one, two or three bytes. */
  function EncodeGroup(b: seq<Byte>): (s: string)
    requires b != []
    ensures |s| == 4
  {
    var triple := (b[0] as int) * 0x1_0000 + (At(b, 1) as int) * 0x100 + At(b, 2) as int;
    [Symbol(triple / 0x4_0000 % 64),
     Symbol(triple / 0x1000 % 64),
     if |b| > 1 then Symbol(triple / 0x40 % 64) else '=',
     if |b| > 2 then Symbol(triple % 64) else '=']
  }

  function Rest(b: seq<Byte>): (r: seq<Byte>)
    ensures b != [] ==> |r| < |b|
  {
    if |b| > 3 then b[3..] else []
  }

  function Encode(b: seq<Byte>): (s: string)
    decreases |b|
  {
    if b == [] then "" else EncodeGroup(b) + Encode(Rest(b))
  }

  /** Four characters for every started group of three bytes. */
  lemma {:induction false} EncodeLength(b: seq<Byte>)
    ensures |Encode(b)| == 4 * ((|b| + 2) / 3)
    decreases |b|
  {
    if b != [] {
      GroupCount(|b|, |Rest(b)|);
      EncodeLength(Rest(b));
    }
  }

  lemma {:induction false} GroupCount(n: nat, rest: nat)
    requires n > 0 && rest == if n > 3 then n - 3 else 0
    ensures (n + 2) / 3 == 1 + (rest + 2) / 3
  {
    assert n > 3 ==> n + 2 == 3 + (rest + 2);
  }

  /** A character's contribution: 0 if it is missing or not a symbol. */
  function Value(s: string, i: nat): (v: nat)
    ensures v < 64
  {
    if i < |s| && SymbolValue(s[i]) >= 0 then SymbolValue(s[i]) else 0
  }

  function DecodeGroup(s: string): (b: seq<Byte>)
    ensures |b| == 3
  {
    var triple := Value(s, 0) * 0x4_0000 + Value(s, 1) * 0x1000 + Value(s, 2) * 0x40 + Value(s, 3);
    [triple / 0x1_0000 % 0x100, triple / 0x100 % 0x100, triple % 0x100]
  }

  /** Three bytes for every started group of four characters. */
  function Triples(s: string): (b: seq<Byte>)
    ensures |b| == 3 * ((|s| + 3) / 4)
    decreases |s|
  {
    if s == "" then [] else DecodeGroup(s) + Triples(if |s| > 4 then s[4..] else "")
  }

  function Padding(s: string): (n: nat)
    ensures n <= 2 && n <= |s|
  {
    (if |s| > 0 && s[|s| - 1] == '=' then 1 else 0) + (if |s| > 1 && s[|s| - 2] == '=' then 1 else 0)
  }

  /** out_len before it is taken modulo 2^64; negative when a text of fewer than four characters is padded. */
  function OutLength(s: string): (n: int)
    ensures n <= 3 * ((|s| + 3) / 4)
    ensures n < 0 ==> |s| < 4
  {
    |s| / 4 * 3 - Padding(s)
  }

  function Decode(s: string): (b: seq<Byte>)
    requires OutLength(s) >= 0
    ensures |b| == OutLength(s)
  {
    Triples(s)[..OutLength(s)]
  }

  // ---- Decoding inverts encoding --------------------------------------------

  lemma {:induction false} GroupBack(b: seq<Byte>, tail: string)
    requires b != []
    ensures DecodeGroup(EncodeGroup(b) + tail) == [b[0], At(b, 1), At(b, 2)]
  {
    var s := EncodeGroup(b) + tail;
    var (x, y, z) := (b[0] as int, At(b, 1) as int, At(b, 2) as int);
    var t := x * 0x1_0000 + y * 0x100 + z;
    SymbolBack(t / 0x4_0000 % 64);
    SymbolBack(t / 0x1000 % 64);
    SymbolBack(t / 0x40 % 64);
    SymbolBack(t % 64);
    assert s[..4] == EncodeGroup(b);
    ThreeBytes(x, y, z);
    FourSixes(t);
    TrailingZeros(x, y, z);
    assert |b| == 1 ==> y == 0 && z == 0;
    assert |b| == 2 ==> z == 0;
    assert Value(s, 0) == t / 0x4_0000 % 64;
    assert Value(s, 1) == t / 0x1000 % 64;
    assert Value(s, 2) == t / 0x40 % 64;
    assert Value(s, 3) == t % 64;
  }

  /** Four six-bit digits put back together. */
  lemma {:induction false} FourSixes(t: nat)
    requires t < 0x100_0000
    ensures (t / 0x4_0000 % 64) * 0x4_0000 + (t / 0x1000 % 64) * 0x1000 + (t / 0x40 % 64) * 0x40 + t % 64 == t
  {
    var q := t / 0x40;
    var r := q / 0x40;
    var u := r / 0x40;
    assert t == q * 0x40 + t % 0x40 && q == r * 0x40 + q % 0x40 && r == u * 0x40 + r % 0x40;
    assert r == t / 0x1000 && u == t / 0x4_0000 && u < 64;
  }

  lemma {:induction false} ThreeBytes(x: nat, y: nat, z: nat)
    requires x < 256 && y < 256 && z < 256
    ensures var t := x * 0x1_0000 + y * 0x100 + z;
            t < 0x100_0000 && t / 0x1_0000 % 0x100 == x && t / 0x100 % 0x100 == y && t % 0x100 == z
  {
    var t := x * 0x1_0000 + y * 0x100 + z;
    assert t / 0x100 == x * 0x100 + y;
    assert t / 0x1_0000 == x;
  }

  lemma {:induction false} TrailingZeros(x: nat, y: nat, z: nat)
    requires x < 256 && y < 256 && z < 256
    ensures var t := x * 0x1_0000 + y * 0x100 + z;
            && (z == 0 ==> t % 64 == 0)
            && (y == 0 && z == 0 ==> t / 0x40 % 64 == 0)
  {
    var t := x * 0x1_0000 + y * 0x100 + z;
    if z == 0 {
      assert t == (x * 0x400 + y * 4) * 64;
      if y == 0 {
        assert t / 0x40 == x * 0x400 == x * 16 * 64;
      }
    }
  }

  function Zeros(n: nat): (b: seq<Byte>)
    ensures |b| == n
  {
    seq(n, _ => 0)
  }

  lemma {:induction false} RestEncodes(b: seq<Byte>)
    requires b != []
    ensures if |b| > 3 then |Encode(Rest(b))| >= 4 else Encode(Rest(b)) == ""
  {
  }

  lemma {:induction false} PaddingBehind(front: string, t: string)
    requires |t| >= 2
    ensures Padding(front + t) == Padding(t)
  {
    var s := front + t;
    assert |s| == |front| + |t|;
    assert s[|s| - 1] == t[|t| - 1];
    assert s[|s| - 2] == t[|t| - 2];
  }

  lemma {:induction false} PaddingStep(b: seq<Byte>)
    requires b != []
    ensures Padding(Encode(b)) == if |b| > 3 then Padding(Encode(Rest(b))) else 3 - |b|
  {
    RestEncodes(b);
    if |b| > 3 {
      PaddingBehind(EncodeGroup(b), Encode(Rest(b)));
    } else {
      assert EncodeGroup(b) + "" == EncodeGroup(b);
    }
  }

  /** How many bytes are missing to a whole number of groups. */
  function Missing(b: seq<Byte>): (n: nat)
    decreases |b|
  {
    if b == [] then 0 else if |b| > 3 then Missing(Rest(b)) else 3 - |b|
  }

  lemma {:induction false} MissingIs(b: seq<Byte>)
    ensures Missing(b) == 3 * ((|b| + 2) / 3) - |b|
    decreases |b|
  {
    if b != [] {
      GroupCount(|b|, |Rest(b)|);
      MissingIs(Rest(b));
    }
  }

  lemma {:induction false} ZerosAfter(b: seq<Byte>)
    requires b != []
    ensures b + Zeros(Missing(b)) == [b[0], At(b, 1), At(b, 2)] + (Rest(b) + Zeros(if |b| > 3 then Missing(b) else 0))
  {
  }

  lemma {:induction false} TriplesCons(group: string, rest: string)
    requires |group| == 4
    ensures Triples(group + rest) == DecodeGroup(group + rest) + Triples(rest)
  {
    DropHead(group, rest);
  }

  lemma {:induction false} TriplesBack(b: seq<Byte>)
    ensures Triples(Encode(b)) == b + Zeros(Missing(b)) && Padding(Encode(b)) == Missing(b)
    decreases |b|
  {
    if b != [] {
      TriplesCons(EncodeGroup(b), Encode(Rest(b)));
      GroupBack(b, Encode(Rest(b)));
      TriplesBack(Rest(b));
      PaddingStep(b);
      ZerosAfter(b);
      assert |b| <= 3 ==> Missing(Rest(b)) == 0;
    }
  }

  /** Decoding the encoding of any bytes gives them back, with the exact length. */
  lemma {:induction false} RoundTrip(b: seq<Byte>)
    ensures OutLength(Encode(b)) == |b| && Decode(Encode(b)) == b
  {
    var groups := (|b| + 2) / 3;
    EncodeLength(b);
    TriplesBack(b);
    MissingIs(b);
    WholeGroups(groups);
    DropHead(b, Zeros(3 * groups - |b|));
  }

  lemma {:induction false} WholeGroups(n: nat)
    ensures 4 * n / 4 * 3 == 3 * n
  {
  }

  // ---- Encoding inverts decoding, on canonical texts ------------------------

  /** Canonical texts: whole groups of symbols; only the last one may be padded, and then the bits
      that its last symbol does not carry over are zero. */
  predicate Canonical(s: string)
    decreases |s|
  {
    if s == "" then true
    else if |s| < 4 then false
    else if |s| > 4 then IsSymbol(s[0]) && IsSymbol(s[1]) && IsSymbol(s[2]) && IsSymbol(s[3]) && Canonical(s[4..])
    else
      && IsSymbol(s[0]) && IsSymbol(s[1])
      && ((IsSymbol(s[2]) && IsSymbol(s[3]))
          || (IsSymbol(s[2]) && s[3] == '=' && SymbolValue(s[2]) % 4 == 0)
          || (s[2] == '=' && s[3] == '=' && SymbolValue(s[1]) % 16 == 0))
  }

  lemma {:induction false} CanonicalWhole(s: string)
    requires Canonical(s)
    ensures |s| % 4 == 0
    decreases |s|
  {
    if |s| > 4 {
      CanonicalWhole(s[4..]);
    }
  }

  lemma {:induction false} GroupSymbols(b: seq<Byte>)
    requires b != []
    ensures var s := EncodeGroup(b);
            && IsSymbol(s[0]) && IsSymbol(s[1])
            && (|b| > 1 ==> IsSymbol(s[2])) && (|b| > 2 ==> IsSymbol(s[3]))
            && (|b| == 1 ==> SymbolValue(s[1]) % 16 == 0 && s[2] == '=' && s[3] == '=')
            && (|b| == 2 ==> SymbolValue(s[2]) % 4 == 0 && s[3] == '=')
  {
    var (x, y, z) := (b[0] as int, At(b, 1) as int, At(b, 2) as int);
    var t := x * 0x1_0000 + y * 0x100 + z;
    SymbolBack(t / 0x4_0000 % 64);
    SymbolBack(t / 0x1000 % 64);
    SymbolBack(t / 0x40 % 64);
    SymbolBack(t % 64);
    LastDigits(x, y, z);
  }

  lemma {:induction false} Remainder(n: int, k: int, r: int)
    requires n == 64 * k + r && 0 <= r < 64
    ensures n % 64 == r
  {
  }

  /** A multiple of 4 leaves one modulo 64, and of 16 likewise. */
  lemma {:induction false} Multiples(q: int)
    ensures q * 4 % 64 % 4 == 0 && q * 16 % 64 % 16 == 0
  {
    Remainder(q * 4, q / 16, 4 * (q % 16));
    Remainder(q * 16, q / 4, 16 * (q % 4));
  }

  lemma {:induction false} LastDigits(x: int, y: int, z: int)
    requires 0 <= x < 256 && 0 <= y < 256 && 0 <= z < 256
    ensures var t := x * 0x1_0000 + y * 0x100 + z;
            && (z == 0 ==> t / 0x40 % 64 % 4 == 0)
            && (y == 0 && z == 0 ==> t / 0x1000 % 64 % 16 == 0)
  {
    var t := x * 0x1_0000 + y * 0x100 + z;
    if z == 0 {
      var q := x * 0x100 + y;
      assert t / 0x40 == q * 4;
      Multiples(q);
      if y == 0 {
        assert t / 0x1000 == x * 16;
        Multiples(x);
      }
    }
  }

  lemma {:induction false} EncodeCanonical(b: seq<Byte>)
    ensures Canonical(Encode(b))
    decreases |b|
  {
    if b != [] {
      GroupSymbols(b);
      EncodeCanonical(Rest(b));
      if |b| <= 3 {
        assert Encode(b) == EncodeGroup(b);
      } else {
        CanonicalCons(EncodeGroup(b), Encode(Rest(b)));
      }
    }
  }

  lemma {:induction false} CanonicalCons(group: string, rest: string)
    requires |group| == 4 && Canonical(rest) && rest != ""
    requires IsSymbol(group[0]) && IsSymbol(group[1]) && IsSymbol(group[2]) && IsSymbol(group[3])
    ensures Canonical(group + rest)
  {
    assert (group + rest)[4..] == rest;
  }

  /** Four six-bit digits are three bytes, and their sum has them as its digits. */
  lemma {:induction false} JoinDigits(a: int, b: int, c: int, d: int)
    requires 0 <= a < 64 && 0 <= b < 64 && 0 <= c < 64 && 0 <= d < 64
    ensures var t := a * 0x4_0000 + b * 0x1000 + c * 0x40 + d;
            && t / 0x1_0000 % 0x100 == a * 4 + b / 16
            && t / 0x100 % 0x100 == b % 16 * 16 + c / 4
            && t % 0x100 == c % 4 * 64 + d
            && t / 0x4_0000 % 64 == a && t / 0x1000 % 64 == b && t / 0x40 % 64 == c && t % 64 == d
  {
    var (x, y, z) := (a * 4 + b / 16, b % 16 * 16 + c / 4, c % 4 * 64 + d);
    var t := a * 0x4_0000 + b * 0x1000 + c * 0x40 + d;
    assert b == b / 16 * 16 + b % 16 && c == c / 4 * 4 + c % 4;
    assert t == x * 0x1_0000 + y * 0x100 + z;
    ThreeBytes(x, y, z);
    SixBits(a, b, c, d);
  }

  lemma {:induction false} SixBits(a: int, b: int, c: int, d: int)
    requires 0 <= a < 64 && 0 <= b < 64 && 0 <= c < 64 && 0 <= d < 64
    ensures var t := a * 0x4_0000 + b * 0x1000 + c * 0x40 + d;
            t / 0x4_0000 % 64 == a && t / 0x1000 % 64 == b && t / 0x40 % 64 == c && t % 64 == d
  {
    var t := a * 0x4_0000 + b * 0x1000 + c * 0x40 + d;
    assert t / 0x40 == a * 0x1000 + b * 0x40 + c;
    assert t / 0x1000 == a * 0x40 + b;
    assert t / 0x4_0000 == a;
  }

  /** The group's bytes, and re-encoding as many of them as the padding leaves. */
  lemma {:induction false} GroupAgain(s: string, n: nat)
    requires |s| >= 4 && 1 <= n <= 3 && IsSymbol(s[0]) && IsSymbol(s[1])
    requires if n == 1 then s[2] == '=' && s[3] == '=' && SymbolValue(s[1]) % 16 == 0
             else if n == 2 then IsSymbol(s[2]) && s[3] == '=' && SymbolValue(s[2]) % 4 == 0
             else IsSymbol(s[2]) && IsSymbol(s[3])
    ensures EncodeGroup(DecodeGroup(s)[..n]) == s[..4]
  {
    var (a, b, c, d) := (Value(s, 0), Value(s, 1), Value(s, 2), Value(s, 3));
    GroupSum(a, b, c, d, n);
    Reencode(DecodeGroup(s)[..n], a, b, c, d);
    SymbolAgain(s[0]);
    SymbolAgain(s[1]);
    if n > 1 { SymbolAgain(s[2]); }
    if n > 2 { SymbolAgain(s[3]); }
  }

  /** Dropping the bytes that the padding stands for loses nothing. */
  lemma {:induction false} GroupSum(a: nat, b: nat, c: nat, d: nat, n: nat)
    requires a < 64 && b < 64 && c < 64 && d < 64 && 1 <= n <= 3
    requires n == 1 ==> b % 16 == 0 && c == 0 && d == 0
    requires n == 2 ==> c % 4 == 0 && d == 0
    ensures var t := a * 0x4_0000 + b * 0x1000 + c * 0x40 + d;
            (t / 0x1_0000 % 0x100) * 0x1_0000 + (if n > 1 then (t / 0x100 % 0x100) * 0x100 else 0)
              + (if n > 2 then t % 0x100 else 0) == t
  {
    JoinDigits(a, b, c, d);
    ByteSum(a * 0x4_0000 + b * 0x1000 + c * 0x40 + d);
  }

  lemma {:induction false} Reencode(g: seq<Byte>, a: nat, b: nat, c: nat, d: nat)
    requires a < 64 && b < 64 && c < 64 && d < 64 && 1 <= |g| <= 3
    requires (g[0] as int) * 0x1_0000 + (At(g, 1) as int) * 0x100 + At(g, 2) as int
             == a * 0x4_0000 + b * 0x1000 + c * 0x40 + d
    ensures EncodeGroup(g)
            == [Symbol(a), Symbol(b), if |g| > 1 then Symbol(c) else '=', if |g| > 2 then Symbol(d) else '=']
  {
    SixBits(a, b, c, d);
  }

  lemma {:induction false} ByteSum(t: int)
    requires 0 <= t < 0x100_0000
    ensures (t / 0x1_0000 % 0x100) * 0x1_0000 + (t / 0x100 % 0x100) * 0x100 + t % 0x100 == t
  {
    assert t / 0x100 / 0x100 == t / 0x1_0000;
  }

  /** The last group, padded or not. */
  lemma {:induction false} LastGroupAgain(s: string)
    requires |s| == 4 && Canonical(s)
    ensures OutLength(s) >= 1 && Encode(Decode(s)) == s
  {
    var n := 3 - Padding(s);
    var b := Decode(s);
    assert Triples(s) == DecodeGroup(s) + [];
    assert b == DecodeGroup(s)[..n];
    GroupAgain(s, n);
    assert Rest(b) == [] && Encode(b) == EncodeGroup(b) + "" == EncodeGroup(b);
    assert s[..4] == s;
  }

  lemma {:induction false} DecodeStep(s: string)
    requires |s| > 4 && |s| % 4 == 0
    ensures OutLength(s) == 3 + OutLength(s[4..]) && OutLength(s[4..]) >= 0
    ensures Decode(s) == DecodeGroup(s) + Decode(s[4..])
  {
    assert s[4..][|s| - 5] == s[|s| - 1] && s[4..][|s| - 6] == s[|s| - 2];
  }

  lemma {:induction false} EncodeCons(first: seq<Byte>, rest: seq<Byte>)
    requires |first| == 3 && rest != []
    ensures Encode(first + rest) == EncodeGroup(first) + Encode(rest)
  {
    assert Rest(first + rest) == rest;
    assert EncodeGroup(first + rest) == EncodeGroup(first);
  }

  lemma {:induction false} Again(s: string)
    requires Canonical(s)
    ensures OutLength(s) >= 0 && Encode(Decode(s)) == s
    ensures s != "" ==> OutLength(s) >= 1
    decreases |s|
  {
    CanonicalWhole(s);
    if |s| == 4 {
      LastGroupAgain(s);
    } else if |s| > 4 {
      Again(s[4..]);
      DecodeStep(s);
      GroupAgain(s, 3);
      assert DecodeGroup(s)[..3] == DecodeGroup(s);
      EncodeCons(DecodeGroup(s), Decode(s[4..]));
      assert s == s[..4] + s[4..];
    }
  }

  /** Re-encoding gives a text back exactly when it is canonical; the lenient decoder accepts many more. */
  lemma {:induction false} AgainIff(s: string)
    requires OutLength(s) >= 0
    ensures Encode(Decode(s)) == s <==> Canonical(s)
  {
    if Canonical(s) {
      Again(s);
    }
    EncodeCanonical(Decode(s));
  }

  // ---- The encoder ----------------------------------------------------------

  function Left(b: seq<Byte>, i: nat): (r: seq<Byte>) {
    if i < |b| then b[i..] else []
  }

  lemma {:induction false} EncodeFrom(b: seq<Byte>, i: nat)
    requires i < |b|
    ensures Encode(Left(b, i)) == EncodeGroup(b[i..]) + Encode(Left(b, i + 3))
  {
    if i + 3 < |b| {
      DropTwice(b, i, 3);
    }
  }

  lemma {:induction false} NextGroup(src: seq<Byte>, i: nat, done: string)
    requires i < |src| && done + Encode(Left(src, i)) == Encode(src)
    ensures (done + EncodeGroup(src[i..])) + Encode(Left(src, i + 3)) == Encode(src)
    ensures |Encode(Left(src, i))| == 4 + |Encode(Left(src, i + 3))|
  {
    EncodeFrom(src, i);
    Assoc(done, EncodeGroup(src[i..]), Encode(Left(src, i + 3)));
  }

  /** One round of the encoder: four characters for the bytes from i on. */
  method PutGroup(src: seq<Byte>, i: nat, dst: array<char>, p: nat)
    requires i < |src| && p + 4 <= dst.Length
    modifies dst
    ensures dst[..] == old(dst[..])[..p] + EncodeGroup(src[i..]) + old(dst[..])[p + 4..]
  {
    var a: nat := src[i];
    var b: nat := if i + 1 < |src| then src[i + 1] else 0;
    var c: nat := if i + 2 < |src| then src[i + 2] else 0;
    var triple := a * 0x1_0000 + b * 0x100 + c;
    dst[p] := Symbol(triple / 0x4_0000 % 64);
    dst[p + 1] := Symbol(triple / 0x1000 % 64);
    dst[p + 2] := if i + 1 < |src| then Symbol(triple / 0x40 % 64) else '=';
    dst[p + 3] := if i + 2 < |src| then Symbol(triple % 64) else '=';
  }

  /** base64_encode(src, src_len, dst + at, dst_len) */
  method Base64Encode(src: seq<Byte>, dst: array?<char>, at: nat, dstLen: nat) returns (n: nat)
    requires dst != null ==> at + dstLen <= dst.Length
    modifies Target(dst)
    ensures dst == null || dstLen < |Encode(src)| + 1 ==>
              n == |Encode(src)| + 1 && (dst != null ==> dst[..] == old(dst[..]))
    ensures dst != null && dstLen >= |Encode(src)| + 1 ==>
              n == |Encode(src)| && dst[..] == old(dst[..])[..at] + Encode(src) + ['\0'] + old(dst[..])[at + n + 1..]
  {
    var needed := 4 * ((|src| + 2) / 3) + 1;
    EncodeLength(src);
    if dst == null || dstLen < needed {
      return needed;
    }
    n := EncodeInto(src, dst, at);
    dst[at + n] := '\0';
  }

  /** The buffer while the encoder is at byte i: `done` has been written, and what is still to come
      completes it. */
  ghost predicate Encoding(now: string, before: string, src: seq<Byte>, at: nat, i: nat, done: string) {
    done + Encode(Left(src, i)) == Encode(src) && Filled(now, before, at, done)
  }

  lemma {:induction false} EncodingStarts(before: string, src: seq<Byte>, at: nat)
    requires at <= |before|
    ensures Encoding(before, before, src, at, 0, "")
  {
    assert "" + Encode(src) == Encode(src) && (src != [] ==> src[0..] == src);
  }

  lemma {:induction false} EncodingEnds(now: string, before: string, src: seq<Byte>, at: nat, i: nat, done: string)
    requires Encoding(now, before, src, at, i, done) && i >= |src|
    ensures done == Encode(src) && Filled(now, before, at, Encode(src))
  {
    assert done + "" == done;
  }

  lemma {:induction false} RoundDone(one: string, two: string, before: string, src: seq<Byte>, at: nat, i: nat,
                                     done: string, group: string)
    requires Encoding(one, before, src, at, i, done) && Filled(two, one, at + |done|, group)
    requires (done + group) + Encode(Left(src, i + 3)) == Encode(src)
    ensures Encoding(two, before, src, at, i + 3, done + group)
  {
    Chain(before, one, two, at, at + |done|, done, group);
  }

  lemma {:induction false} RoomLeft(now: string, before: string, src: seq<Byte>, at: nat, i: nat, done: string)
    requires i < |src| && at + |Encode(src)| <= |before| && Encoding(now, before, src, at, i, done)
    ensures at + |done| + 4 <= |before| == |now|
  {
    NextGroup(src, i, done);
  }

  /** The round at byte i, with the place where it writes: at + di, the length of what is done. */
  method EncodeRound(src: seq<Byte>, i: nat, dst: array<char>, at: nat, di: nat, ghost before: string,
                     ghost done: string)
    returns (ghost more: string)
    requires i < |src| && di == |done| && at + |Encode(src)| <= dst.Length
             && Encoding(dst[..], before, src, at, i, done)
    modifies dst
    ensures |more| == di + 4 && Encoding(dst[..], before, src, at, i + 3, more)
  {
    ghost var one := dst[..];
    RoomLeft(one, before, src, at, i, done);
    PutGroup(src, i, dst, at + di);
    more := done + EncodeGroup(src[i..]);
    NextGroup(src, i, done);
    RoundDone(one, dst[..], before, src, at, i, done, EncodeGroup(src[i..]));
  }

  /** The encoder's loop, with enough room. */
  method EncodeInto(src: seq<Byte>, dst: array<char>, at: nat) returns (di: nat)
    requires at + |Encode(src)| <= dst.Length
    modifies dst
    ensures di == |Encode(src)| && dst[..] == old(dst[..])[..at] + Encode(src) + old(dst[..])[at + di..]
  {
    di := 0;
    var i := 0;
    ghost var before, done := dst[..], "";
    EncodingStarts(before, src, at);
    while i < |src|
      invariant |done| == di && Encoding(dst[..], before, src, at, i, done)
    {
      done := EncodeRound(src, i, dst, at, di, before, done);
      di := di + 4;
      i := i + 3;
    }
    EncodingEnds(dst[..], before, src, at, i, done);
  }

  // ---- The decoder ----------------------------------------------------------

  /** out_len as the unsigned size it is computed as. */
  function OutSize(s: string): (n: nat) {
    if OutLength(s) < 0 then U64_LIMIT + OutLength(s) else OutLength(s)
  }

  function LeftText(s: string, i: nat): (r: string) {
    if i < |s| then s[i..] else ""
  }

  lemma {:induction false} TriplesFrom(s: string, i: nat)
    requires i < |s|
    ensures Triples(LeftText(s, i)) == DecodeGroup(s[i..]) + Triples(LeftText(s, i + 4))
  {
    if i + 4 < |s| {
      DropTwice(s, i, 4);
    }
  }

  /** One round of the decoder: as many of the group's three bytes as there is room for. */
  method PutTriple(group: seq<Byte>, dst: array<Byte>, at: nat, outLen: nat) returns (di: nat)
    requires |group| == 3 && at <= outLen <= dst.Length
    modifies dst
    ensures di == if at + 3 <= outLen then at + 3 else outLen
    ensures dst[..] == old(dst[..])[..at] + group[..di - at] + old(dst[..])[di..]
  {
    di := at;
    if di < outLen { dst[di] := group[0]; di := di + 1; }
    if di < outLen { dst[di] := group[1]; di := di + 1; }
    if di < outLen { dst[di] := group[2]; di := di + 1; }
  }

  /** The three bytes of the group that starts at i. */
  method ReadGroup(src: string, i: nat) returns (group: seq<Byte>)
    requires i < |src|
    ensures group == DecodeGroup(src[i..])
  {
    var a, b := SymbolValue(src[i]), if i + 1 < |src| then SymbolValue(src[i + 1]) else 0;
    var c := if i + 2 < |src| then SymbolValue(src[i + 2]) else 0;
    var d := if i + 3 < |src| then SymbolValue(src[i + 3]) else 0;
    if a < 0 { a := 0; }
    if b < 0 { b := 0; }
    if c < 0 { c := 0; }
    if d < 0 { d := 0; }
    var triple := a * 0x4_0000 + b * 0x1000 + c * 0x40 + d;
    group := [triple / 0x1_0000 % 0x100, triple / 0x100 % 0x100, triple % 0x100];
  }

  /** base64_decode(src, src_len, dst, dst_len); no object is as large as half the address space. */
  method Base64Decode(src: string, dst: array?<Byte>, dstLen: nat) returns (n: nat)
    requires dst != null ==> dstLen <= dst.Length
    requires dstLen < 0x8000_0000_0000_0000
    modifies Target(dst)
    ensures src == "" ==> n == 0
    ensures src != "" && (dst == null || dstLen < OutSize(src)) ==> n == OutSize(src)
    ensures dst != null && (src == "" || dstLen < OutSize(src)) ==> dst[..] == old(dst[..])
    ensures src != "" && dst != null && dstLen >= OutSize(src) ==>
              OutLength(src) >= 0 && n == OutLength(src) && dst[..] == Decode(src) + old(dst[..])[n..]
  {
    if |src| == 0 { return 0; }
    var outLen := DecodedSize(src);
    if dst == null || dstLen < outLen {
      return outLen;
    }
    n := FillDecoded(src, dst, outLen);
  }

  method DecodedSize(src: string) returns (outLen: nat)
    requires src != ""
    ensures outLen == OutSize(src)
  {
    var padding := 0;
    if src[|src| - 1] == '=' { padding := padding + 1; }
    if |src| > 1 && src[|src| - 2] == '=' { padding := padding + 1; }
    var whole := |src| / 4 * 3;
    outLen := if whole < padding then U64_LIMIT + whole - padding else whole - padding;
  }

  /** The buffer while the decoder is at character i: of the bytes of all groups, those before k have
      been decoded, and as many of them written as there is room for. */
  ghost predicate Decoding(now: seq<Byte>, before: seq<Byte>, src: string, i: nat, k: nat, di: nat, outLen: nat) {
    var all := Triples(src);
    && k <= |all| && all[k..] == Triples(LeftText(src, i))
    && di == (if k <= outLen then k else outLen) && outLen <= |before| && outLen <= |all|
    && now == all[..di] + before[di..]
  }

  lemma {:induction false} DecodingStarts(before: seq<Byte>, src: string, outLen: nat)
    requires outLen <= |before| && outLen <= |Triples(src)|
    ensures Decoding(before, before, src, 0, 0, 0, outLen)
  {
    assert src != "" ==> src[0..] == src;
  }

  lemma {:induction false} DecodingEnds(now: seq<Byte>, before: seq<Byte>, src: string, i: nat, k: nat, di: nat,
                                        outLen: nat)
    requires Decoding(now, before, src, i, k, di, outLen) && i >= |src| && outLen == OutLength(src)
    ensures di == outLen && now == Decode(src) + before[di..]
  {
  }

  lemma {:induction false} DecodingGoesOn(one: seq<Byte>, two: seq<Byte>, before: seq<Byte>, src: string, i: nat,
                                          k: nat, at: nat, di: nat, outLen: nat, group: seq<Byte>)
    requires i < |src| && Decoding(one, before, src, i, k, at, outLen) && group == DecodeGroup(src[i..])
    requires at <= di <= |one| && di - at <= 3 && di == (if at + 3 <= outLen then at + 3 else outLen)
    requires two == one[..at] + group[..di - at] + one[di..]
    ensures Decoding(two, before, src, i + 4, k + 3, di, outLen)
  {
    TriplesFrom(src, i);
    GroupWithin(Triples(src), k, group, Triples(LeftText(src, i + 4)));
    AllFilled(Triples(src), before, at, di, group);
  }

  method FillDecoded(src: string, dst: array<Byte>, outLen: nat) returns (di: nat)
    requires OutLength(src) == outLen <= dst.Length
    modifies dst
    ensures di == outLen && dst[..] == Decode(src) + old(dst[..])[di..]
  {
    di := 0;
    var i := 0;
    ghost var before, k := dst[..], 0;
    DecodingStarts(before, src, outLen);
    while i < |src|
      invariant i >= 0 && k >= 0 && Decoding(dst[..], before, src, i, k, di, outLen)
    {
      di := DecodeRound(src, i, dst, di, outLen, before, k);
      i := i + 4;
      k := k + 3;
    }
    DecodingEnds(dst[..], before, src, i, k, di, outLen);
  }

  /** One round of the decoder's loop. */
  method DecodeRound(src: string, i: nat, dst: array<Byte>, at: nat, outLen: nat, ghost before: seq<Byte>, ghost k: nat)
    returns (di: nat)
    requires i < |src| && outLen <= dst.Length && Decoding(dst[..], before, src, i, k, at, outLen)
    modifies dst
    ensures Decoding(dst[..], before, src, i + 4, k + 3, di, outLen)
  {
    ghost var one := dst[..];
    var group := ReadGroup(src, i);
    di := PutTriple(group, dst, at, outLen);
    DecodingGoesOn(one, dst[..], before, src, i, k, at, di, outLen, group);
  }

  lemma {:induction false} GroupWithin(all: seq<Byte>, k: nat, group: seq<Byte>, rest: seq<Byte>)
    requires k <= |all| && |group| == 3 && all[k..] == group + rest
    ensures k + 3 <= |all| && all[k..k + 3] == group && all[k + 3..] == rest
  {
    assert all[k..][..3] == group && all[k..][3..] == rest;
  }

  lemma {:induction false} AllFilled(all: seq<Byte>, before: seq<Byte>, at: nat, di: nat, group: seq<Byte>)
    requires at <= di <= |all| && di <= |before| && di <= at + 3 && |group| == 3
    requires at < di ==> at + 3 <= |all| && all[at..at + 3] == group
    ensures var now := all[..at] + before[at..];
            now[..at] + group[..di - at] + now[di..] == all[..di] + before[di..]
  {
    var now := all[..at] + before[at..];
    assert now[..at] == all[..at];
    assert now[di..] == before[di..];
    if at < di {
      assert group[..di - at] == all[at..di];
    }
    assert all[..at] + group[..di - at] == all[..di];
  }

  // ---- PEM ------------------------------------------------------------------

  const PEM_HEADER := "-----BEGIN CERTIFICATE-----\n"
  const PEM_FOOTER := "\n-----END CERTIFICATE-----"

  function Pem(der: seq<Byte>): (text: string) {
    Armoured(PEM_HEADER, der, PEM_FOOTER)
  }

  function Armoured(header: string, der: seq<Byte>, footer: string): (text: string) {
    header + Encode(der) + footer
  }

  method Armour(header: string, der: seq<Byte>, footer: string, pem: array<char>, pemLen: nat) returns (rc: int)
    requires pemLen <= pem.Length && footer != ""
    modifies pem
    ensures rc == if pemLen < |Armoured(header, der, footer)| + 1 then -1 else 0
    ensures rc == -1 ==> pem[..] == old(pem[..])
    ensures rc == 0 ==>
              pem[..] == Armoured(header, der, footer) + ['\0'] + old(pem[..])[|Armoured(header, der, footer)| + 1..]
  {
    var b64Len := 4 * ((|der| + 2) / 3);
    EncodeLength(der);
    var needed := |header| + b64Len + |footer| + 1;
    if pemLen < needed {
      return -1;
    }
    WriteParts(header, der, footer, pem);
    rc := 0;
  }

  /** The encoder, where there is room enough behind the offset. */
  method EncodeBehind(der: seq<Byte>, pem: array<char>, off: nat) returns (n: nat)
    requires off + |Encode(der)| < pem.Length
    modifies pem
    ensures n == |Encode(der)| && pem[..] == old(pem[..])[..off] + Encode(der) + ['\0'] + old(pem[..])[off + n + 1..]
  {
    n := Base64Encode(der, pem, off, pem.Length - off);
  }

  /** The header and the body, with the encoder's terminator behind them. */
  method WriteBody(header: string, der: seq<Byte>, pem: array<char>) returns (off: nat)
    requires |header| + |Encode(der)| < pem.Length
    modifies pem
    ensures var text := header + Encode(der);
            off == |text| && pem[..] == text + ['\0'] + old(pem[..])[off + 1..]
  {
    ghost var before := pem[..];
    off := |header|;
    Copy(header, pem, 0);
    ghost var one := pem[..];
    var n := EncodeBehind(der, pem, off);
    off := off + n;
    BehindHeader(before, one, pem[..], header, Encode(der), off);
  }

  lemma {:induction false} BehindHeader(before: string, one: string, two: string, header: string, body: string,
                                        off: nat)
    requires off == |header| + |body| < |before| && one == before[..0] + header + before[0 + |header|..]
    requires two == one[..|header|] + body + ['\0'] + one[off + 1..]
    ensures off == |header + body| && two == (header + body) + ['\0'] + before[off + 1..]
  {
    assert one[..|header|] == header;
    assert one[off + 1..] == before[off + 1..];
  }

  /** Header, body and footer, and the terminator behind them; the footer overwrites the encoder's. */
  method WriteParts(header: string, der: seq<Byte>, footer: string, pem: array<char>)
    requires footer != "" && |Armoured(header, der, footer)| < pem.Length
    modifies pem
    ensures pem[..] == Armoured(header, der, footer) + ['\0'] + old(pem[..])[|Armoured(header, der, footer)| + 1..]
  {
    ghost var before := pem[..];
    var off := WriteBody(header, der, pem);
    ghost var two := pem[..];
    Copy(footer, pem, off);
    ghost var now := pem[..];
    Overwritten(before, header + Encode(der), footer, two, now, Armoured(header, der, footer));
    pem[off + |footer|] := '\0';
    assert pem[..] == now[off + |footer| := '\0'];
  }

  lemma {:induction false} Overwritten(before: string, text: string, f: string, two: string, now: string, whole: string)
    requires f != "" && |text| + |f| < |before| && two == text + ['\0'] + before[|text| + 1..]
    requires Filled(now, two, |text|, f) && whole == text + f
    ensures |now| == |before| && now[|text| + |f| := '\0'] == whole + ['\0'] + before[|whole| + 1..]
  {
    assert two[..|text|] == text && two[|text| + |f|..] == before[|text| + |f|..];
  }

  /** der_to_pem: -1 and nothing written when the buffer is too small, else the text and its NUL. */
  method DerToPem(der: seq<Byte>, pem: array<char>, pemLen: nat) returns (rc: int)
    requires pemLen <= pem.Length
    modifies pem
    ensures rc == if pemLen < |Pem(der)| + 1 then -1 else 0
    ensures rc == -1 ==> pem[..] == old(pem[..])
    ensures rc == 0 ==> pem[..] == Pem(der) + ['\0'] + old(pem[..])[|Pem(der)| + 1..]
  {
    rc := Armour(PEM_HEADER, der, PEM_FOOTER, pem, pemLen);
  }

  /** The text up to the first newline. */
  function Line(s: string): (r: string) {
    if s == "" || s[0] == '\n' then "" else [s[0]] + Line(s[1..])
  }

  lemma {:induction false} LineOf(a: string, rest: string)
    requires '\n' !in a
    ensures Line(a + "\n" + rest) == a
  {
    if a == "" {
      assert a + "\n" + rest == "\n" + rest;
    } else {
      LineOf(a[1..], rest);
      assert (a + "\n" + rest)[1..] == a[1..] + "\n" + rest;
    }
  }

  lemma {:induction false} GroupNoNewline(b: seq<Byte>)
    requires b != []
    ensures '\n' !in EncodeGroup(b)
  {
  }

  lemma {:induction false} Absent<T>(c: T, a: seq<T>, b: seq<T>)
    requires c !in a && c !in b
    ensures c !in a + b
  {
  }

  lemma {:induction false} NoNewline(b: seq<Byte>)
    ensures '\n' !in Encode(b)
    decreases |b|
  {
    if b != [] {
      GroupNoNewline(b);
      NoNewline(Rest(b));
      Absent('\n', EncodeGroup(b), Encode(Rest(b)));
    }
  }

  lemma {:induction false} ArmourBody(header: string, der: seq<Byte>, footer: string)
    ensures var text := Armoured(header, der, "\n" + footer);
            |header| <= |text| && text[..|header|] == header && Line(text[|header|..]) == Encode(der)
  {
    var text := Armoured(header, der, "\n" + footer);
    Assoc(header, Encode(der), "\n" + footer);
    Assoc(Encode(der), "\n", footer);
    DropHead(header, Encode(der) + ("\n" + footer));
    NoNewline(der);
    LineOf(Encode(der), footer);
  }

  /** A reader that takes the line behind the header and decodes it gets the certificate. */
  lemma {:induction false} PemBody(der: seq<Byte>)
    ensures Pem(der) == "-----BEGIN CERTIFICATE-----\n" + Encode(der) + "\n-----END CERTIFICATE-----"
    ensures |PEM_HEADER| <= |Pem(der)| && Pem(der)[..|PEM_HEADER|] == PEM_HEADER
    ensures var body := Line(Pem(der)[|PEM_HEADER|..]);
            OutLength(body) == |der| && Decode(body) == der
  {
    ArmourBody(PEM_HEADER, der, PEM_FOOTER[1..]);
    assert PEM_FOOTER == "\n" + PEM_FOOTER[1..];
    RoundTrip(der);
  }
}
