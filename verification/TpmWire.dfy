/**
 The command grammar of TPM 2.0 (TPM 2.0 Library Part 1, section 18), independent of any one
 command: header, handle area, authorization area, parameters. It is what the device model uses
 to understand the bytes that the client submits.
 */
module TpmWire {
  import opened Bytes
  import Seqs

  const ST_NO_SESSIONS: nat := 0x8001
  const ST_SESSIONS: nat := 0x8002

  const CC_PCR_READ: nat := 0x17E
  const CC_QUOTE: nat := 0x158
  const CC_FLUSH_CONTEXT: nat := 0x165
  const CC_CREATE_PRIMARY: nat := 0x131
  const CC_ACTIVATE_CREDENTIAL: nat := 0x147
  const CC_START_AUTH_SESSION: nat := 0x176
  const CC_POLICY_SECRET: nat := 0x151
  const CC_EVICT_CONTROL: nat := 0x120
  const CC_READ_PUBLIC: nat := 0x173
  const CC_NV_READ: nat := 0x14E
  const CC_NV_READ_PUBLIC: nat := 0x169

  /** TPMS_AUTH_COMMAND */
  datatype Auth = Auth(session: U32, nonce: seq<Byte>, attributes: Byte, hmac: seq<Byte>)

  datatype Command = Command(tag: U16, code: U32, handles: seq<U32>, auths: seq<Auth>, params: seq<Byte>)

  /** The number of handles each command carries. */
  function HandleCount(code: nat): (n: nat) {
    if code == CC_PCR_READ then 0
    else if code == CC_QUOTE || code == CC_CREATE_PRIMARY || code == CC_READ_PUBLIC || code == CC_NV_READ_PUBLIC then 1
    else if code == CC_FLUSH_CONTEXT then 0  // the flushed handle is a parameter
    else 2
  }

  // ---- Writing --------------------------------------------------------------

  function HandleBytes(handles: seq<U32>): (b: seq<Byte>)
    ensures |b| == 4 * |handles|
  {
    if handles == [] then [] else BE32(handles[0]) + HandleBytes(handles[1..])
  }

  function AuthBytes(a: Auth): (b: seq<Byte>) {
    BE32(a.session) + TPM2B(a.nonce) + [a.attributes] + TPM2B(a.hmac)
  }

  function AuthListBytes(auths: seq<Auth>): (b: seq<Byte>) {
    if auths == [] then [] else AuthBytes(auths[0]) + AuthListBytes(auths[1..])
  }

  function SessionArea(tag: nat, auths: seq<Auth>): (b: seq<Byte>) {
    if tag == ST_SESSIONS then BE32(|AuthListBytes(auths)|) + AuthListBytes(auths) else []
  }

  /** Everything after the ten-byte header. */
  function Tail(c: Command): (b: seq<Byte>) {
    HandleBytes(c.handles) + SessionArea(c.tag, c.auths) + c.params
  }

  function Marshal(c: Command): (b: seq<Byte>) {
    BE16(c.tag) + BE32(10 + |Tail(c)|) + BE32(c.code) + Tail(c)
  }

  /** The two buffers of an authorization fit their 16-bit lengths. */
  predicate Sized(a: Auth) {
    |a.nonce| < U16_LIMIT && |a.hmac| < U16_LIMIT
  }

  predicate AllSized(auths: seq<Auth>) {
    forall a :: a in auths ==> Sized(a)
  }

  ghost predicate WellFormed(c: Command) {
    && (c.tag == ST_SESSIONS || (c.tag == ST_NO_SESSIONS && c.auths == []))
    && |c.handles| == HandleCount(c.code)
    && AllSized(c.auths)
    && 10 + |Tail(c)| < U32_LIMIT
  }

  // ---- Reading --------------------------------------------------------------

  function TakeHandles(b: seq<Byte>, n: nat): (r: Option<(seq<U32>, seq<Byte>)>)
    ensures r.Some? ==> |r.value.0| == n && b == HandleBytes(r.value.0) + r.value.1
  {
    if n == 0 then Some(([], b))
    else if |b| < 4 then None
    else
      match TakeHandles(b[4..], n - 1)
      case None => None
      case Some(more) =>
        BE32Again(b, 0);
        Some(([ReadBE32(b, 0)] + more.0, more.1))
  }

  /** The parts of an authorization, put together again. */
  lemma {:induction false} AuthAgain(b: seq<Byte>, nonce: seq<Byte>, rest: seq<Byte>, hmac: seq<Byte>, more: seq<Byte>)
    requires |b| >= 4 && b[4..] == TPM2B(nonce) + rest && rest != [] && rest[1..] == TPM2B(hmac) + more
    ensures b == AuthBytes(Auth(ReadBE32(b, 0), nonce, rest[0], hmac)) + more && |more| < |b|
  {
    BE32Again(b, 0);
    Pieces(b, BE32(ReadBE32(b, 0)), TPM2B(nonce), rest, TPM2B(hmac), more);
  }

  lemma {:induction false} Pieces(b: seq<Byte>, first: seq<Byte>, second: seq<Byte>, rest: seq<Byte>,
                                  third: seq<Byte>, more: seq<Byte>)
    requires |b| >= 4 && b[0..4] == first && b[4..] == second + rest && rest != [] && rest[1..] == third + more
    ensures b == first + second + [rest[0]] + third + more
  {
    assert b == b[0..4] + b[4..] && rest == [rest[0]] + rest[1..];
  }

  function TakeAuth(b: seq<Byte>): (r: Option<(Auth, seq<Byte>)>)
    ensures r.Some? ==> |r.value.1| < |b| && b == AuthBytes(r.value.0) + r.value.1
    ensures r.Some? ==> Sized(r.value.0)
  {
    if |b| < 4 then None
    else
      match TakeTPM2B(b[4..])
      case None => None
      case Some((nonce, rest)) =>
        if rest == [] then None
        else
          match TakeTPM2B(rest[1..])
          case None => None
          case Some((hmac, rest')) =>
            AuthAgain(b, nonce, rest, hmac, rest');
            Some((Auth(ReadBE32(b, 0), nonce, rest[0], hmac), rest'))
  }

  function TakeAuthList(b: seq<Byte>): (r: Option<seq<Auth>>)
    ensures r.Some? ==> AuthListBytes(r.value) == b
    ensures r.Some? ==> AllSized(r.value)
    decreases |b|
  {
    if b == [] then Some([])
    else
      match TakeAuth(b)
      case None => None
      case Some((a, rest)) =>
        match TakeAuthList(rest)
        case None => None
        case Some(more) => Some([a] + more)
  }

  lemma {:induction false} ThreePieces(b: seq<Byte>, first: seq<Byte>, second: seq<Byte>, size: nat)
    requires 4 + size <= |b| && first == b[0..4] && second == b[4..4 + size]
    ensures b == first + second + b[4 + size..] && |second| == size
  {
  }

  function TakeSessionArea(tag: nat, b: seq<Byte>): (r: Option<(seq<Auth>, seq<Byte>)>)
    ensures r.Some? ==> b == SessionArea(tag, r.value.0) + r.value.1
    ensures r.Some? ==> tag == ST_SESSIONS || (tag == ST_NO_SESSIONS && r.value.0 == [])
    ensures r.Some? ==> AllSized(r.value.0)
  {
    if tag == ST_NO_SESSIONS then Some(([], b))
    else if tag != ST_SESSIONS || |b| < 4 || 4 + ReadBE32(b, 0) > |b| then None
    else
      var size := ReadBE32(b, 0);
      BE32Again(b, 0);
      match TakeAuthList(b[4..4 + size])
      case None => None
      case Some(auths) =>
        ThreePieces(b, BE32(size), AuthListBytes(auths), size);
        Some((auths, b[4 + size..]))
  }

  function Unmarshal(b: seq<Byte>): (r: Option<Command>) {
    if |b| < 10 || ReadBE32(b, 2) != |b| then None
    else
      var tag, code := ReadBE16(b, 0), ReadBE32(b, 6);
      match TakeHandles(b[10..], HandleCount(code))
      case None => None
      case Some((handles, rest)) =>
        match TakeSessionArea(tag, rest)
        case None => None
        case Some((auths, params)) => Some(Command(tag, code, handles, auths, params))
  }

  // ---- Round trips ----------------------------------------------------------

  lemma {:induction false} HandlesBack(handles: seq<U32>, rest: seq<Byte>)
    ensures TakeHandles(HandleBytes(handles) + rest, |handles|) == Some((handles, rest))
  {
    var b := HandleBytes(handles) + rest;
    if handles == [] {
      assert b == rest;
    } else {
      HandlesBack(handles[1..], rest);
      assert b[..4] == BE32(handles[0]);
      assert b[4..] == HandleBytes(handles[1..]) + rest;
      BE32At(b, 0, handles[0]);
      assert handles == [handles[0]] + handles[1..];
    }
  }

  lemma {:induction false} AuthBack(a: Auth, rest: seq<Byte>)
    requires |a.nonce| < U16_LIMIT && |a.hmac| < U16_LIMIT
    ensures TakeAuth(AuthBytes(a) + rest) == Some((a, rest))
  {
    var b := AuthBytes(a) + rest;
    var tail := [a.attributes] + TPM2B(a.hmac) + rest;
    Apart(BE32(a.session), TPM2B(a.nonce), a.attributes, TPM2B(a.hmac), rest);
    BE32At(b, 0, a.session);
    TakeTPM2BOf(a.nonce, tail);
    TakeTPM2BOf(a.hmac, rest);
  }

  lemma {:induction false} Apart(first: seq<Byte>, second: seq<Byte>, one: Byte, third: seq<Byte>, rest: seq<Byte>)
    requires |first| == 4
    ensures var b := first + second + [one] + third + rest;
            var tail := [one] + third + rest;
            b[0..4] == first && b[4..] == second + tail && tail[0] == one && tail[1..] == third + rest
  {
  }

  lemma {:induction false} NextAuthBack(b: seq<Byte>, a: Auth, rest: seq<Byte>, more: seq<Auth>)
    requires TakeAuth(b) == Some((a, rest)) && TakeAuthList(rest) == Some(more)
    ensures TakeAuthList(b) == Some([a] + more)
  {
  }

  lemma {:induction false} AuthListBack(auths: seq<Auth>)
    requires AllSized(auths)
    ensures TakeAuthList(AuthListBytes(auths)) == Some(auths)
  {
    if auths != [] {
      var (a, more) := (auths[0], auths[1..]);
      SizedParts(auths);
      AuthListBack(more);
      AuthBack(a, AuthListBytes(more));
      NextAuthBack(AuthListBytes(auths), a, AuthListBytes(more), more);
      assert auths == [a] + more;
    }
  }

  lemma {:induction false} SizedParts(auths: seq<Auth>)
    requires auths != [] && AllSized(auths)
    ensures Sized(auths[0]) && AllSized(auths[1..])
  {
  }

  lemma {:induction false} SessionAreaBack(c: Command)
    requires WellFormed(c)
    ensures TakeSessionArea(c.tag, SessionArea(c.tag, c.auths) + c.params) == Some((c.auths, c.params))
  {
    var b := SessionArea(c.tag, c.auths) + c.params;
    if c.tag == ST_SESSIONS {
      var area := AuthListBytes(c.auths);
      assert b[0..4] == BE32(|area|);
      BE32At(b, 0, |area|);
      assert b[4..4 + |area|] == area;
      assert b[4 + |area|..] == c.params;
      AuthListBack(c.auths);
    } else {
      assert b == c.params;
    }
  }

  lemma {:induction false} HeaderBack(b: seq<Byte>, tag: U16, code: U32, tail: seq<Byte>)
    requires b == BE16(tag) + BE32(10 + |tail|) + BE32(code) + tail && 10 + |tail| < U32_LIMIT
    ensures ReadBE16(b, 0) == tag && ReadBE32(b, 2) == |b| && ReadBE32(b, 6) == code && b[10..] == tail
  {
    assert b[0..2] == BE16(tag) && b[2..6] == BE32(|b|) && b[6..10] == BE32(code);
    BE16At(b, 0, tag);
    BE32At(b, 2, |b|);
    BE32At(b, 6, code);
  }

  lemma {:induction false} TailBack(c: Command)
    requires WellFormed(c)
    ensures TakeHandles(Tail(c), HandleCount(c.code)) == Some((c.handles, SessionArea(c.tag, c.auths) + c.params))
  {
    Seqs.Assoc(HandleBytes(c.handles), SessionArea(c.tag, c.auths), c.params);
    HandlesBack(c.handles, SessionArea(c.tag, c.auths) + c.params);
  }

  /** Every well-formed command is read back exactly as it was written. */
  lemma {:induction false} UnmarshalMarshal(c: Command)
    requires WellFormed(c)
    ensures Unmarshal(Marshal(c)) == Some(c)
  {
    HeaderBack(Marshal(c), c.tag, c.code, Tail(c));
    TailBack(c);
    SessionAreaBack(c);
  }

  /** And nothing else reads as that command: the grammar has one encoding per command. */
  lemma {:induction false} MarshalUnmarshal(b: seq<Byte>)
    requires Unmarshal(b).Some?
    ensures Marshal(Unmarshal(b).value) == b && WellFormed(Unmarshal(b).value)
  {
    var c := Unmarshal(b).value;
    TailAgain(b, c);
    HeaderAgain(b, c);
  }

  lemma {:induction false} HeaderAgain(b: seq<Byte>, c: Command)
    requires |b| >= 10 && ReadBE32(b, 2) == |b|
    requires c.tag == ReadBE16(b, 0) && c.code == ReadBE32(b, 6) && Tail(c) == b[10..]
    ensures Marshal(c) == b
  {
    BE16Again(b, 0);
    BE32Again(b, 2);
    BE32Again(b, 6);
    FourPieces(b, BE16(c.tag), BE32(10 + |Tail(c)|), BE32(c.code), Tail(c));
  }

  lemma {:induction false} FourPieces(b: seq<Byte>, tag: seq<Byte>, size: seq<Byte>, code: seq<Byte>, tail: seq<Byte>)
    requires |b| >= 10 && tag == b[0..2] && size == b[2..6] && code == b[6..10] && tail == b[10..]
    ensures tag + size + code + tail == b
  {
  }

  lemma {:induction false} PartsAgain(b: seq<Byte>, c: Command, rest: seq<Byte>)
    requires Unmarshal(b) == Some(c) && TakeHandles(b[10..], HandleCount(c.code)) == Some((c.handles, rest))
    ensures rest == SessionArea(c.tag, c.auths) + c.params
  {
  }

  lemma {:induction false} TailAgain(b: seq<Byte>, c: Command)
    requires Unmarshal(b) == Some(c)
    ensures Tail(c) == b[10..]
  {
    var rest := TakeHandles(b[10..], HandleCount(c.code)).value.1;
    PartsAgain(b, c, rest);
    TailJoined(b[10..], c, HandleBytes(c.handles), SessionArea(c.tag, c.auths), rest);
  }

  lemma {:induction false} TailJoined(tail: seq<Byte>, c: Command, handles: seq<Byte>, area: seq<Byte>, rest: seq<Byte>)
    requires handles == HandleBytes(c.handles) && area == SessionArea(c.tag, c.auths)
    requires tail == handles + rest && rest == area + c.params
    ensures Tail(c) == tail
  {
    Seqs.Assoc(handles, area, c.params);
  }

  // ---- The size field -------------------------------------------------------

  /** A command as the builders leave it: the size field is still the placeholder 0. */
  function Unsized(c: Command): (b: seq<Byte>) {
    BE16(c.tag) + BE32(0) + BE32(c.code) + Tail(c)
  }

  /** SendCommand's back-patch of bytes 2..5. */
  function PatchSize(b: seq<Byte>): (r: seq<Byte>)
    ensures |r| == |b|
  {
    if |b| >= 6 then b[..2] + BE32(|b|) + b[6..] else b
  }

  lemma {:induction false} PatchedIsMarshalled(c: Command)
    ensures PatchSize(Unsized(c)) == Marshal(c)
  {
    var u := Unsized(c);
    assert u[..2] == BE16(c.tag);
    assert u[6..] == BE32(c.code) + Tail(c);
  }
}
