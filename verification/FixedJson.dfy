/**
 The Linux client's JSON helpers: a printer that appends to the caller's buffer and a scanner that
 copies a value into one. C strings are texts without the zero character; in a buffer the zero
 marks their end.
 */
module FixedJson {
  import opened Bytes
  import opened Seqs
  import opened Buffers
  import opened Json
  import opened JsonRoundTrip

  const NUL: char := '\0'

  // ---- Scanning -------------------------------------------------------------

  predicate Blank(c: char) { c == ' ' || c == '\t' || c == '\n' || c == '\r' }

  function SkipSpace(s: string): (r: string)
    ensures |r| <= |s|
  {
    if s != "" && Blank(s[0]) then SkipSpace(s[1..]) else s
  }

  function Unescape(c: char): (r: char) {
    if c == 'n' then '\n' else if c == 't' then '\t' else c
  }

  /** A string value, read from behind its opening quote. */
  function ReadText(s: string): (r: string)
    decreases |s|
  {
    if s == "" || s[0] == '\"' then ""
    else if s[0] == '\\' && |s| > 1 then [Unescape(s[1])] + ReadText(s[2..])
    else [s[0]] + ReadText(s[1..])
  }

  function ReadAny(s: string): (r: string) {
    if s != "" && s[0] == '\"' then ReadText(s[1..]) else ReadRaw(s, 0)
  }

  /** The size of the buffer in which the quoted key is put together. */
  const SEARCH_SIZE: nat := 256

  /** Where the value of a key starts; None when there is none to be found. */
  function ValueStart(json: string, key: string): (r: Option<string>) {
    if |Key(key)| >= SEARCH_SIZE then None
    else
      match After(json, Key(key))
      case None => None
      case Some(rest) =>
        var colon := SkipSpace(rest);
        if colon == "" || colon[0] != ':' then None else Some(SkipSpace(colon[1..]))
  }

  /** What json_get extracts, however long it is. */
  function Lookup(json: string, key: string): (value: string) {
    match ValueStart(json, key)
    case None => ""
    case Some(start) => ReadAny(start)
  }

  function Min(a: nat, b: nat): (r: nat) { if a < b then a else b }

  /** A buffer after a value has been copied into it: as much of the value as fits in front of the
      terminator, and behind that what was there before. */
  ghost predicate Holds(now: string, before: string, value: string, size: nat) {
    && 0 < size <= |before| && |now| == |before|
    && var n := Min(|value|, size - 1);
       now[..n] == value[..n] && now[n] == NUL && now[n + 1..] == before[n + 1..]
  }

  // ---- The source's loops ---------------------------------------------------

  // A pointer into the text is modelled by the text from there on.

  method SkipBlanks(start: string) returns (pos: string)
    ensures pos == SkipSpace(start)
  {
    pos := start;
    while pos != "" && Blank(pos[0])
      invariant SkipSpace(pos) == SkipSpace(start)
      decreases |pos|
    {
      pos := pos[1..];
    }
  }

  /** The buffer while a value is being copied into it. */
  ghost predicate Copied(now: string, before: string, value: string, size: nat) {
    && 0 < size <= |before| && |now| == |before|
    && var n := Min(|value|, size - 1);
       now[..n] == value[..n] && now[n..] == before[n..]
  }

  /** Stores one character if there is room for it and the terminator. */
  method Put(ch: char, dst: array<char>, size: nat, di: nat, ghost before: string, ghost value: string)
    requires size <= dst.Length && di == |value| && Copied(dst[..], before, value, size)
    modifies dst
    ensures Copied(dst[..], before, value + [ch], size)
  {
    ghost var now := dst[..];
    if di + 1 < size {
      dst[di] := ch;
      assert dst[..] == now[di := ch];
      assert dst[..][..di + 1] == now[..di] + [ch] == value + [ch];
      assert now[di..][1..] == before[di..][1..];
    } else {
      assert (value + [ch])[..size - 1] == value[..size - 1];
    }
  }

  method Terminate(dst: array<char>, size: nat, di: nat, ghost before: string, ghost value: string)
    requires size <= dst.Length && di == |value| && Copied(dst[..], before, value, size)
    modifies dst
    ensures Holds(dst[..], before, value, size)
  {
    ghost var now, n := dst[..], Min(di, size - 1);
    assert now[n..][1..] == before[n..][1..];
    if di < size {
      dst[di] := NUL;
    } else {
      dst[size - 1] := NUL;
    }
    assert dst[..] == now[n := NUL];
  }

  method CopyText(start: string, dst: array<char>, size: nat) returns (di: nat)
    requires 0 < size <= dst.Length
    modifies dst
    ensures di == |ReadText(start)| && Holds(dst[..], old(dst[..]), ReadText(start), size)
  {
    ghost var before, value := dst[..], "";
    var pos := start;
    di := 0;
    while pos != "" && pos[0] != '\"'
      invariant di == |value| && value + ReadText(pos) == ReadText(start)
      invariant Copied(dst[..], before, value, size)
      decreases |pos|
    {
      var ch, next := pos[0], pos[1..];
      if pos[0] == '\\' && |pos| > 1 {
        ch := Unescape(pos[1]);
        next := pos[2..];
      }
      Put(ch, dst, size, di, before, value);
      Assoc(value, [ch], ReadText(next));
      value := value + [ch];
      di := di + 1;
      pos := next;
    }
    assert value + "" == value;
    Terminate(dst, size, di, before, value);
  }

  /** The nesting depth behind a character of a raw value; None if the value ends in front of it. */
  function DepthBehind(ch: char, depth: nat): (next: Option<nat>) {
    if Opens(ch) then Some(depth + 1)
    else if Closes(ch) then (if depth == 0 then None else Some(depth - 1))
    else if depth == 0 && (ch == ',' || ch == '}') then None
    else Some(depth)
  }

  lemma {:induction false} RawStep(pos: string, depth: nat, value: string, all: string)
    requires pos != "" && value + ReadRaw(pos, depth) == all
    ensures match DepthBehind(pos[0], depth)
            case None => value == all
            case Some(next) => (value + [pos[0]]) + ReadRaw(pos[1..], next) == all
  {
    var next := DepthBehind(pos[0], depth);
    if next.Some? {
      Assoc(value, [pos[0]], ReadRaw(pos[1..], next.value));
    } else {
      assert value + "" == value;
    }
  }

  method CopyRaw(start: string, dst: array<char>, size: nat) returns (di: nat)
    requires 0 < size <= dst.Length
    modifies dst
    ensures di == |ReadRaw(start, 0)| && Holds(dst[..], old(dst[..]), ReadRaw(start, 0), size)
  {
    ghost var before, value, all := dst[..], "", ReadRaw(start, 0);
    var pos := start;
    var depth: nat := 0;
    di := 0;
    assert "" + all == all;
    while pos != ""
      invariant di == |value| && value + ReadRaw(pos, depth) == all
      invariant Copied(dst[..], before, value, size)
      decreases |pos|
    {
      var next := DepthBehind(pos[0], depth);
      RawStep(pos, depth, value, all);
      if next.None? {
        break;
      }
      Put(pos[0], dst, size, di, before, value);
      value := value + [pos[0]];
      di, depth, pos := di + 1, next.value, pos[1..];
    }
    assert value + "" == value;
    Terminate(dst, size, di, before, value);
  }

  method FindValue(json: string, key: string) returns (start: Option<string>)
    ensures start == ValueStart(json, key)
  {
    var search := "\"" + key + "\"";
    if |search| >= SEARCH_SIZE {
      return None;
    }
    var found := Find(json, search, 0);
    assert json[0..] == json;
    if found < 0 {
      return None;
    }
    var pos := SkipBlanks(json[found + |search|..]);
    if pos == "" || pos[0] != ':' {
      return None;
    }
    pos := SkipBlanks(pos[1..]);
    start := Some(pos);
  }

  /** Returns the full length of the value, whether or not it fits. */
  method JsonGet(json: Option<string>, key: Option<string>, dst: array?<char>, size: nat) returns (n: nat)
    requires dst != null ==> size <= dst.Length
    modifies Target(dst)
    ensures json.None? || key.None? || dst == null || size == 0 ==> n == 0 && (dst != null ==> dst[..] == old(dst[..]))
    ensures json.Some? && key.Some? && dst != null && size > 0 ==>
              n == |Lookup(json.value, key.value)| && Holds(dst[..], old(dst[..]), Lookup(json.value, key.value), size)
  {
    if json.None? || key.None? || dst == null || size == 0 {
      return 0;
    }
    ghost var before := dst[..];
    dst[0] := NUL;
    n := 0;
    var start := FindValue(json.value, key.value);
    if start.Some? {
      if start.value != "" && start.value[0] == '\"' {
        n := CopyText(start.value[1..], dst, size);
      } else {
        n := CopyRaw(start.value, dst, size);
      }
      Cleared(dst[..], before, Lookup(json.value, key.value), size);
    }
  }

  /** That the first character was cleared beforehand makes no difference. */
  lemma {:induction false} Cleared(now: string, before: string, value: string, size: nat)
    requires before != "" && Holds(now, before[0 := NUL], value, size)
    ensures Holds(now, before, value, size)
  {
    var n := Min(|value|, size - 1);
    assert before[0 := NUL][n + 1..] == before[n + 1..];
  }

  // ---- Printing -------------------------------------------------------------

  /** As much of the value as the escaping loop appends with this much room. */
  function Clip(value: string, room: nat): (r: string) {
    if value == "" || room <= 2 then ""
    else [value[0]] + Clip(value[1..], room - |EscapeChar(value[0])|)
  }

  /** What is appended behind the opening quote of the value. */
  function Body(value: string, room: nat): (text: string) {
    var escaped := Escape(Clip(value, room));
    if |escaped| + 1 < room then escaped + "\"" else escaped
  }

  function Opening(key: string): (text: string) {
    "\"" + key + "\":" + "\""
  }

  function Lead(key: string, first: bool): (text: string) {
    (if first then "" else ",") + Opening(key)
  }

  lemma {:induction false} ClipFits(value: string, room: nat)
    requires room > 0
    ensures |Escape(Clip(value, room))| < room
  {
    if value != "" && room > 2 {
      ClipFits(value[1..], room - |EscapeChar(value[0])|);
      assert Clip(value, room)[1..] == Clip(value[1..], room - |EscapeChar(value[0])|);
    }
  }

  lemma {:induction false} ClipWhole(value: string, room: nat)
    requires |Escape(value)| + 1 < room
    ensures Clip(value, room) == value
  {
    if value != "" {
      var rest, less := value[1..], room - |EscapeChar(value[0])|;
      assert |Escape(value)| == |EscapeChar(value[0])| + |Escape(rest)|;
      ClipWhole(rest, less);
      assert value == [value[0]] + rest;
    }
  }

  /** The member is appended whole if and only if there is room for it and a terminator. */
  lemma {:induction false} WholeIff(value: string, room: nat)
    requires room > 0
    ensures Body(value, room) == Escape(value) + "\"" <==> |Escape(value)| + 1 < room
  {
    if |Escape(value)| + 1 < room {
      ClipWhole(value, room);
    } else {
      ClipFits(value, room);
    }
  }

  /** One character, escaped. */
  method AppendChar(buf: array<char>, start: nat, off: nat, c: char, ghost before: string, ghost done: string)
    returns (next: nat)
    requires off == start + |Escape(done)| && off + 2 < buf.Length == |before|
    requires Filled(buf[..], before, start, Escape(done))
    modifies buf
    ensures next == off + |EscapeChar(c)| == start + |Escape(done + [c])| <= off + 2
    ensures Filled(buf[..], before, start, Escape(done + [c]))
  {
    var text := if c == '\"' || c == '\\' then ['\\', c] else if c == '\n' then "\\n" else [c];
    assert text == EscapeChar(c);
    EscapeSnoc(done, c);
    ghost var one := buf[..];
    Copy(text, buf, off);
    Chain(before, one, buf[..], start, off, Escape(done), text);
    next := off + |text|;
  }

  /** The escaping loop, up to the end of the value or of the room. */
  method AppendEscapes(buf: array<char>, bufLen: nat, start: nat, value: string) returns (off: nat)
    requires start < bufLen <= buf.Length
    modifies buf
    ensures var text := Escape(Clip(value, bufLen - start));
            off == start + |text| < bufLen && Filled(buf[..], old(buf[..]), start, text)
  {
    off := start;
    ghost var before, done, all := buf[..], "", Clip(value, bufLen - start);
    var p := value;
    while p != "" && off + 2 < bufLen
      invariant off == start + |Escape(done)| < bufLen && done + Clip(p, bufLen - off) == all
      invariant Filled(buf[..], before, start, Escape(done))
      decreases |p|
    {
      Assoc(done, [p[0]], Clip(p[1..], bufLen - off - |EscapeChar(p[0])|));
      off := AppendChar(buf, start, off, p[0], before, done);
      done := done + [p[0]];
      p := p[1..];
    }
    assert done + "" == done;
  }

  /** The escaping loop and the closing quote. */
  method AppendValue(buf: array<char>, bufLen: nat, start: nat, value: string) returns (off: nat)
    requires start < bufLen <= buf.Length
    modifies buf
    ensures var text := Body(value, bufLen - start);
            off == start + |text| < bufLen && Filled(buf[..], old(buf[..]), start, text)
  {
    ghost var before, escaped := buf[..], Escape(Clip(value, bufLen - start));
    off := AppendEscapes(buf, bufLen, start, value);
    if off + 1 < bufLen {
      ghost var one := buf[..];
      Copy("\"", buf, off);
      Chain(before, one, buf[..], start, off, escaped, "\"");
      off := off + 1;
    }
  }

  function Member(key: string, value: string, first: bool, room: nat): (text: string)
    requires |Lead(key, first)| <= room
  {
    Lead(key, first) + Body(value, room - |Lead(key, first)|)
  }

  /** Where the key is written: behind a comma, unless there is no room for one. */
  function KeyStart(bufLen: nat, offset: nat, first: bool): (start: nat) {
    if !first && offset + 1 < bufLen then offset + 1 else offset
  }

  /** The new offset, or the first write behind the room. From an offset behind the room, what is left
      of it is a huge number, and the key is written there; otherwise it is the terminator, which goes
      behind the whole key no matter how much of the key was written. */
  function Appended(bufLen: nat, offset: nat, key: string, value: string, first: bool): (r: Access<nat>) {
    if offset > bufLen then Outside(offset)
    else if KeyStart(bufLen, offset, first) + |Opening(key)| >= bufLen
    then Outside(KeyStart(bufLen, offset, first) + |Opening(key)|)
    else Inside(offset + |Member(key, value, first, bufLen - offset)|)
  }

  /** A buffer into which a text and a terminator have been written. */
  function Terminated(before: string, at: nat, text: string): (now: string)
    requires at + |text| < |before|
    ensures |now| == |before|
  {
    before[..at] + (text + [NUL]) + before[at + |text| + 1..]
  }

  /** The buffer after an append that does not stay inside: the key as far as it goes, terminated. */
  function Cut(before: string, bufLen: nat, offset: nat, lead: string): (now: string)
    requires bufLen <= |before| && (offset < bufLen ==> bufLen - offset - 1 <= |lead|)
  {
    if offset >= bufLen then before
    else Terminated(before, offset, lead[..bufLen - offset - 1])
  }

  /** Every write stays inside the room exactly if the comma, the key and a terminator fit. */
  lemma {:induction false} AppendInsideIff(bufLen: nat, offset: nat, key: string, value: string, first: bool)
    ensures Appended(bufLen, offset, key, value, first).Inside? <==> offset + |Lead(key, first)| < bufLen
    ensures Appended(bufLen, offset, key, value, first).Outside?
            ==> Appended(bufLen, offset, key, value, first).at >= bufLen
  {
  }

  /** A value that is clipped fills the room up to the terminator. */
  lemma {:induction false} ClippedIsFull(value: string, room: nat)
    requires room > 0 && |Escape(value)| + 1 >= room
    ensures |Body(value, room)| == room - 1
  {
    if value != "" && room > 2 {
      var (rest, less) := (value[1..], room - |EscapeChar(value[0])|);
      assert |Escape(value)| == |EscapeChar(value[0])| + |Escape(rest)|;
      ClippedIsFull(rest, less);
      assert Clip(value, room)[1..] == Clip(rest, less);
      assert |Escape(Clip(value, room))| == |EscapeChar(value[0])| + |Escape(Clip(rest, less))|;
    }
  }

  lemma {:induction false} ClippedEnds(bufLen: nat, offset: nat, key: string, value: string, first: bool)
    requires offset + |Lead(key, first)| < bufLen <= offset + |Lead(key, first)| + |Escape(value)| + 1
    ensures Appended(bufLen, offset, key, value, first) == Inside(bufLen - 1)
  {
    AppendInsideIff(bufLen, offset, key, value, first);
    ClippedIsFull(value, bufLen - offset - |Lead(key, first)|);
  }

  lemma {:induction false} NoRoomLeft(bufLen: nat, key: string, value: string)
    requires bufLen > 0
    ensures Appended(bufLen, bufLen - 1, key, value, false) == Outside(bufLen - 1 + |Opening(key)|)
  {
  }

  /** So whatever is appended behind a clipped value is written outside. */
  lemma {:induction false} NextIsOutside(bufLen: nat, offset: nat, key: string, value: string, first: bool,
                                         nextKey: string, nextValue: string)
    requires offset + |Lead(key, first)| < bufLen <= offset + |Lead(key, first)| + |Escape(value)| + 1
    ensures Appended(bufLen, offset, key, value, first) == Inside(bufLen - 1)
    ensures Appended(bufLen, bufLen - 1, nextKey, nextValue, false) == Outside(bufLen - 1 + |Opening(nextKey)|)
  {
    ClippedEnds(bufLen, offset, key, value, first);
    NoRoomLeft(bufLen, nextKey, nextValue);
  }

  /** What snprintf leaves at `at`, with room for `size` characters. */
  function Printed(before: string, at: nat, size: nat, text: string): (now: string)
    requires at + size <= |before|
  {
    if size == 0 then before
    else
      Terminated(before, at, text[..Min(|text|, size - 1)])
  }

  /** snprintf(buf + at, size, "%s", text) */
  method Snprintf(buf: array<char>, at: nat, size: nat, text: string)
    requires at + size <= buf.Length
    modifies buf
    ensures buf[..] == Printed(old(buf[..]), at, size, text)
  {
    if size > 0 {
      var n := if |text| < size then |text| else size - 1;
      Copy(text[..n] + [NUL], buf, at);
    }
  }

  function Comma(bufLen: nat, offset: nat, first: bool): (text: string) {
    if !first && offset + 1 < bufLen then "," else ""
  }

  method AppendComma(buf: array<char>, bufLen: nat, offset: nat, first: bool) returns (off: nat)
    requires offset <= bufLen <= buf.Length
    modifies buf
    ensures off == KeyStart(bufLen, offset, first)
    ensures Filled(buf[..], old(buf[..]), offset, Comma(bufLen, offset, first))
  {
    off := offset;
    if !first && off + 1 < bufLen {
      Copy(",", buf, off);
      off := off + 1;
    }
  }

  /** The buffer once the comma and the key have been written. */
  function Keyed(before: string, bufLen: nat, offset: nat, key: string, first: bool): (now: string)
    requires offset <= bufLen <= |before|
  {
    var end := KeyStart(bufLen, offset, first) + |Opening(key)|;
    if end < bufLen then Terminated(before, offset, Lead(key, first))
    else Cut(before, bufLen, offset, Lead(key, first))
  }

  /** As much of the comma and the key as there is room for. */
  function LeadPart(key: string, first: bool, room: nat): (part: string) {
    if room < |Lead(key, first)| then Lead(key, first)[..room] else Lead(key, first)
  }

  lemma {:induction false} KeyedPart(before: string, bufLen: nat, offset: nat, key: string, first: bool)
    requires offset < bufLen <= |before|
    ensures Keyed(before, bufLen, offset, key, first)
            == Terminated(before, offset, LeadPart(key, first, bufLen - offset - 1))
  {
  }

  /** A text and a terminator that go where a buffer already holds something else. */
  lemma {:induction false} Terminates(before: string, one: string, at: nat, a: string, b: string, whole: string)
    requires Filled(one, before, at, a) && at + |a| + |b| < |before| && a + (b + [NUL]) == whole + [NUL]
    ensures Terminated(one, at + |a|, b) == Terminated(before, at, whole)
  {
    Chain(before, one, Terminated(one, at + |a|, b), at, at + |a|, a, b + [NUL]);
  }

  /** The buffer `one` with the comma in it, and then with the key as well. */
  lemma {:induction false} KeyWritten(before: string, one: string, two: string, bufLen: nat, offset: nat, key: string,
                                      first: bool)
    requires offset <= bufLen <= |before| && Filled(one, before, offset, Comma(bufLen, offset, first))
    requires var start := KeyStart(bufLen, offset, first);
             |one| == |before| && two == Printed(one, start, bufLen - start, Opening(key))
    ensures two == Keyed(before, bufLen, offset, key, first)
  {
    var (start, comma) := (KeyStart(bufLen, offset, first), Comma(bufLen, offset, first));
    if start < bufLen {
      var (part, n) := (LeadPart(key, first, bufLen - offset - 1), Min(|Opening(key)|, bufLen - start - 1));
      KeyText(key, comma, first, bufLen - offset - 1, n);
      Terminates(before, one, offset, comma, Opening(key)[..n], part);
      KeyedPart(before, bufLen, offset, key, first);
    } else {
      assert one == before;
    }
  }

  /** A comma and the start of the key make up the start of both. */
  lemma {:induction false} KeyText(key: string, comma: string, first: bool, room: nat, n: nat)
    requires comma == (if !first && room > 0 then "," else "") && n == Min(|Opening(key)|, room - |comma|)
    ensures comma + (Opening(key)[..n] + [NUL]) == LeadPart(key, first, room) + [NUL]
  {
    var lead := Lead(key, first);
    if room < |lead| {
      assert lead[..room] == comma + Opening(key)[..n];
    }
  }

  /** The comma and the key. */
  method AppendKey(buf: array<char>, bufLen: nat, offset: nat, key: string, first: bool) returns (off: nat)
    requires offset <= bufLen <= buf.Length
    modifies buf
    ensures off == KeyStart(bufLen, offset, first) + |Opening(key)|
    ensures buf[..] == Keyed(old(buf[..]), bufLen, offset, key, first)
  {
    ghost var before := buf[..];
    off := AppendComma(buf, bufLen, offset, first);
    ghost var one := buf[..];
    Snprintf(buf, off, bufLen - off, Opening(key));
    KeyWritten(before, one, buf[..], bufLen, offset, key, first);
    off := off + |Opening(key)|;
  }

  /** The buffer after the call. */
  function Written(before: string, bufLen: nat, offset: nat, key: string, value: string, first: bool): (now: string)
    requires bufLen <= |before|
  {
    if offset + |Lead(key, first)| < bufLen then
      var text := Member(key, value, first, bufLen - offset);
      ClipFits(value, bufLen - offset - |Lead(key, first)|);
      Terminated(before, offset, text)
    else Cut(before, bufLen, offset, Lead(key, first))
  }

  /** Writes the terminator. */
  method Finish(buf: array<char>, start: nat, off: nat, ghost before: string, ghost text: string)
    requires off == start + |text| < buf.Length && Filled(buf[..], before, start, text)
    modifies buf
    ensures buf[..] == Terminated(before, start, text)
  {
    ghost var one := buf[..];
    Copy([NUL], buf, off);
    Chain(before, one, buf[..], start, off, text, [NUL]);
  }

  /** A buffer that holds `a` and a terminator receives `b` in place of the terminator. */
  lemma {:induction false} Joined(before: string, one: string, two: string, at: nat, a: string, b: string)
    requires at + |a| + |b| < |before|
    requires one == Terminated(before, at, a) && two == Terminated(one, at + |a|, b)
    ensures two == Terminated(before, at, a + b)
  {
    assert one[..at + |a|] == before[..at] + a;
    assert one[at + |a| + |b| + 1..] == before[at + |a| + |b| + 1..];
    Assoc(a, b, [NUL]);
  }

  /** The value, its closing quote and the terminator. */
  method AppendRest(buf: array<char>, bufLen: nat, start: nat, value: string) returns (off: nat)
    requires start < bufLen <= buf.Length
    modifies buf
    ensures var text := Body(value, bufLen - start);
            off == start + |text| < bufLen && buf[..] == Terminated(old(buf[..]), start, text)
  {
    ghost var before := buf[..];
    off := AppendValue(buf, bufLen, start, value);
    Finish(buf, start, off, before, Body(value, bufLen - start));
  }

  lemma {:induction false} KeyedInside(before: string, bufLen: nat, offset: nat, key: string, first: bool, lead: string)
    requires lead == Lead(key, first) && offset + |lead| < bufLen <= |before|
    ensures Keyed(before, bufLen, offset, key, first) == Terminated(before, offset, lead)
    ensures KeyStart(bufLen, offset, first) + |Opening(key)| == offset + |lead|
  {
  }

  lemma {:induction false} WrittenInside(before: string, two: string, bufLen: nat, offset: nat, key: string,
                                         value: string, first: bool, lead: string, body: string)
    requires lead == Lead(key, first) && offset + |lead| < bufLen <= |before|
    requires body == Body(value, bufLen - offset - |lead|) && offset + |lead| + |body| < bufLen
    requires two == Terminated(before, offset, lead + body)
    ensures two == Written(before, bufLen, offset, key, value, first)
  {
    assert Member(key, value, first, bufLen - offset) == lead + body;
  }

  lemma {:induction false} WholeWritten(before: string, two: string, bufLen: nat, offset: nat, key: string,
                                        value: string, first: bool, start: nat)
    requires offset <= bufLen <= |before| && start == KeyStart(bufLen, offset, first) + |Opening(key)| < bufLen
    requires var (one, body) := (Keyed(before, bufLen, offset, key, first), Body(value, bufLen - start));
             && |one| == |before| && start + |body| < bufLen && two == Terminated(one, start, body)
    ensures two == Written(before, bufLen, offset, key, value, first)
    ensures Appended(bufLen, offset, key, value, first) == Inside(start + |Body(value, bufLen - start)|)
  {
    var (lead, body) := (Lead(key, first), Body(value, bufLen - start));
    KeyedInside(before, bufLen, offset, key, first, lead);
    Joined(before, Keyed(before, bufLen, offset, key, first), two, offset, lead, body);
    WrittenInside(before, two, bufLen, offset, key, value, first, lead, body);
  }

  /** json_append_string: the member, and a terminator that is not counted. */
  method JsonAppendString(buf: array<char>, bufLen: nat, offset: nat, key: string, value: string, first: bool)
    returns (r: Access<nat>)
    requires bufLen <= buf.Length
    modifies buf
    ensures r == Appended(bufLen, offset, key, value, first)
    ensures buf[..] == Written(old(buf[..]), bufLen, offset, key, value, first)
  {
    if offset > bufLen {
      return Outside(offset);
    }
    ghost var before := buf[..];
    var start := AppendKey(buf, bufLen, offset, key, first);
    if start >= bufLen {
      return Outside(start);
    }
    var off := AppendRest(buf, bufLen, start, value);
    WholeWritten(before, buf[..], bufLen, offset, key, value, first, start);
    r := Inside(off);
  }

  // ---- Round trip -----------------------------------------------------------

  lemma {:induction false} WholeWithLead(key: string, value: string, first: bool, room: nat)
    requires |Lead(key, first)| + |Escape(value)| + 1 < room
    ensures Member(key, value, first, room) == (if first then "" else ",") + ItemText(Text(key, value))
  {
    var left := room - |Lead(key, first)|;
    WholeIff(value, left);
    WholeMember(key, value, left);
    Assoc(if first then "" else ",", Opening(key), Body(value, left));
  }

  /** With enough room the buffer grows from one object's text to that of the next. */
  lemma {:induction false} AppendGrowsObject(items: seq<Item>, key: string, value: string, room: nat)
    requires |Lead(key, items == [])| + |Escape(value)| + 1 < room
    ensures "{" + ItemsText(items) + Member(key, value, items == [], room)
            == "{" + ItemsText(items + [Text(key, value)])
  {
    var item := Text(key, value);
    WholeWithLead(key, value, items == [], room);
    ItemsTextSnoc(items, item);
    if items == [] {
      Regrouped("{", "", "", ItemText(item));
    } else {
      Regrouped("{", ItemsText(items), ",", ItemText(item));
    }
  }

  lemma {:induction false} Regrouped(a: string, b: string, c: string, d: string)
    ensures (a + b) + (c + d) == a + ((b + c) + d)
  {
  }

  lemma {:induction false} WholeMember(key: string, value: string, room: nat)
    requires Body(value, room) == Escape(value) + "\""
    ensures Opening(key) + Body(value, room) == ItemText(Text(key, value))
  {
    var k := "\"" + key + "\":";
    Assoc(k, "\"", Body(value, room));
    Assoc("\"", Escape(value), "\"");
  }

  lemma {:induction false} TextStep(c: char, tail: string)
    ensures ReadText(EscapeChar(c) + tail) == [c] + ReadText(tail)
  {
    var s := EscapeChar(c) + tail;
    if |EscapeChar(c)| == 2 {
      assert s[2..] == tail;
    } else {
      assert s[1..] == tail;
    }
  }

  lemma {:induction false} TextBack(v: string, rest: string)
    ensures ReadText(Escape(v) + "\"" + rest) == v
  {
    if v != "" {
      var tail := Escape(v[1..]) + "\"" + rest;
      TextBack(v[1..], rest);
      TextStep(v[0], tail);
      Assoc3(EscapeChar(v[0]), Escape(v[1..]), "\"", rest);
      assert v == [v[0]] + v[1..];
    }
  }

  /** Values that the C scanner takes whole: it also skips line breaks in front of a value. */
  predicate Plainly(item: Item) {
    Readable(item) && (item.Raw? && item.value != "" ==> item.value[0] !in {'\n', '\r'})
  }

  lemma {:induction false} ValueBack(item: Item, tail: string)
    requires Plainly(item) && tail != "" && (tail[0] == ',' || tail[0] == '}')
    ensures ReadAny(SkipSpace(ValueText(item) + tail)) == item.value
  {
    if item.Text? {
      Seqs.Assoc3("\"", Escape(item.value), "\"", tail);
      TextBack(item.value, tail);
      OpensText(Escape(item.value) + "\"" + tail);
    } else {
      RawBack(item.value, tail);
    }
  }

  lemma {:induction false} OpensText(rest: string)
    ensures ReadAny(SkipSpace("\"" + rest)) == ReadText(rest)
  {
    assert ("\"" + rest)[1..] == rest;
  }

  lemma {:induction false} RawBack(v: string, tail: string)
    requires Balanced(v) && (v != "" ==> v[0] !in {' ', '\t', '\"', '\n', '\r'})
    requires tail != "" && (tail[0] == ',' || tail[0] == '}')
    ensures ReadAny(SkipSpace(v + tail)) == v
  {
    assert v[0..] == v;
    ReadBalanced(v, tail, 0);
    assert (v + tail)[0] == if v == "" then tail[0] else v[0];
  }

  /** The value, unless an earlier one clashes with the key; then nothing. */
  function Found(items: seq<Item>, k: string): (r: string)
    decreases |items|
  {
    if items == [] then ""
    else if items[0].key == k then items[0].value
    else if Clashes(items[0], k) then ""
    else Found(items[1..], k)
  }

  function AtLocation(found: Option<string>): (value: string) {
    if found.None? then ""
    else
      var colon := SkipSpace(found.value);
      if colon == "" || colon[0] != ':' then "" else ReadAny(SkipSpace(colon[1..]))
  }

  lemma {:induction false} FoundAtLocation(items: seq<Item>, k: string)
    requires forall i :: 0 <= i < |items| ==> Plainly(items[i])
    ensures AtLocation(Location(items, k)) == Found(items, k)
    decreases |items|
  {
    if items != [] {
      if items[0].key == k {
        var value := ValueText(items[0]) + Tail(items);
        assert (":" + value)[1..] == value;
        ValueBack(items[0], Tail(items));
      } else if !Clashes(items[0], k) {
        FoundAtLocation(items[1..], k);
      }
    }
  }

  /** The exact result on a printed object. */
  lemma {:induction false} LookupIsFound(items: seq<Item>, k: string)
    requires GoodKey(k) && |k| < 254 && Usable(items, k)
    requires forall i :: 0 <= i < |items| ==> Plainly(items[i])
    ensures Lookup(Object(items), k) == Found(items, k)
  {
    LocateObject(items, k);
    FoundAtLocation(items, k);
  }

  lemma {:induction false} FoundFrom(items: seq<Item>, i: nat, n: nat)
    requires DistinctKeys(items) && n <= i < |items|
    requires forall m :: 0 <= m < n ==> !Clashes(items[m], items[i].key)
    ensures Found(items[n..], items[i].key) == if FirstStop(items, i) == i then items[i].value else ""
    decreases i - n
  {
    if n < i {
      assert items[n].key != items[i].key;
      if !Clashes(items[n], items[i].key) {
        assert items[n..][1..] == items[n + 1..];
        FoundFrom(items, i, n + 1);
      }
    }
  }

  /** The value is recovered exactly when no earlier value clashes with its key, or it is empty. */
  lemma {:induction false} RoundTripIff(items: seq<Item>, i: nat)
    requires i < |items| && DistinctKeys(items) && Usable(items, items[i].key) && |items[i].key| < 254
    requires forall i :: 0 <= i < |items| ==> Plainly(items[i])
    ensures Lookup(Object(items), items[i].key) == items[i].value
            <==> (forall n :: 0 <= n < i ==> !Clashes(items[n], items[i].key)) || items[i].value == ""
  {
    LookupIsFound(items, items[i].key);
    assert items[0..] == items;
    FoundFrom(items, i, 0);
    var j := FirstStop(items, i);
    assert j < i ==> Clashes(items[j], items[i].key);
  }

  // ---- A body in its buffer --------------------------------------------------

  /** One append after the other: the buffer, and the offset or a write outside. */
  function AppendAll(now: string, bufLen: nat, offset: nat, items: seq<Item>, first: bool): (r: (string, Access<nat>))
    requires bufLen <= |now|
    ensures |r.0| == |now|
    decreases |items|
  {
    if items == [] then (now, Inside(offset))
    else
      var (next, to) := (Written(now, bufLen, offset, items[0].key, items[0].value, first),
                         Appended(bufLen, offset, items[0].key, items[0].value, first));
      SameLength(now, bufLen, offset, items[0].key, items[0].value, first);
      if to.Outside? then (next, to) else AppendAll(next, bufLen, to.value, items[1..], false)
  }

  lemma {:induction false} SameLength(now: string, bufLen: nat, offset: nat, key: string, value: string, first: bool)
    requires bufLen <= |now|
    ensures |Written(now, bufLen, offset, key, value, first)| == |now|
  {
  }

  /** The buffer holds the opening brace and these members. */
  predicate Holding(now: string, bufLen: nat, done: seq<Item>, offset: nat) {
    offset == 1 + |ItemsText(done)| < bufLen <= |now| && now[..offset] == "{" + ItemsText(done)
  }

  lemma {:induction false} MemberLength(key: string, value: string, first: bool)
    ensures (if first then 0 else 1) + |ItemText(Text(key, value))| == |Lead(key, first)| + |Escape(value)| + 1
  {
  }

  lemma {:induction false} NextLength(done: seq<Item>, item: Item)
    ensures |ItemsText(done + [item])| == |ItemsText(done)| + (if done == [] then 0 else 1) + |ItemText(item)|
  {
    ItemsTextSnoc(done, item);
  }

  lemma {:induction false} RestLonger(a: seq<Item>, b: seq<Item>)
    ensures |RestText(a)| <= |RestText(a + b)|
    decreases |a|
  {
    if a != [] {
      assert (a + b)[1..] == a[1..] + b;
      RestLonger(a[1..], b);
    }
  }

  lemma {:induction false} TextLonger(a: seq<Item>, b: seq<Item>)
    ensures |ItemsText(a)| <= |ItemsText(a + b)|
  {
    if a != [] {
      assert (a + b)[1..] == a[1..] + b;
      RestLonger(a[1..], b);
    }
  }

  lemma {:induction false} TerminatedFront(before: string, at: nat, text: string)
    requires at + |text| < |before|
    ensures Terminated(before, at, text)[..at + |text|] == before[..at] + text
  {
    assert Terminated(before, at, text)[..at + |text|] == (before[..at] + text)[..at + |text|];
  }

  lemma {:induction false} WrittenFront(now: string, bufLen: nat, offset: nat, key: string, value: string, first: bool,
                                        member: string)
    requires bufLen <= |now| && offset + |Lead(key, first)| < bufLen
    requires member == Member(key, value, first, bufLen - offset)
    ensures var next := Written(now, bufLen, offset, key, value, first);
            |next| == |now| && offset + |member| < bufLen && next[..offset + |member|] == now[..offset] + member
  {
    ClipFits(value, bufLen - offset - |Lead(key, first)|);
    TerminatedFront(now, offset, member);
  }

  /** An append for which there is room: the buffer, the offset, and the member that was written. */
  lemma {:induction false} AppendOne(now: string, bufLen: nat, offset: nat, key: string, value: string, first: bool)
    returns (member: string)
    requires offset + |Lead(key, first)| < bufLen <= |now|
    ensures member == Member(key, value, first, bufLen - offset) && offset + |member| < bufLen
    ensures Appended(bufLen, offset, key, value, first) == Inside(offset + |member|)
    ensures var next := Written(now, bufLen, offset, key, value, first);
            |next| == |now| && next[..offset + |member|] == now[..offset] + member
  {
    member := Member(key, value, first, bufLen - offset);
    WrittenFront(now, bufLen, offset, key, value, first, member);
    AppendInsideIff(bufLen, offset, key, value, first);
  }

  lemma {:induction false} HoldingMore(now: string, next: string, bufLen: nat, done: seq<Item>, more: seq<Item>,
                                       offset: nat, member: string)
    requires Holding(now, bufLen, done, offset)
    requires |next| == |now| && offset + |member| < bufLen && next[..offset + |member|] == now[..offset] + member
    requires "{" + ItemsText(done) + member == "{" + ItemsText(more)
    ensures Holding(next, bufLen, more, offset + |member|)
  {
    assert |"{" + ItemsText(more)| == offset + |member|;
  }

  lemma {:induction false} RoomForMember(bufLen: nat, done: seq<Item>, key: string, value: string, first: bool)
    requires first == (done == []) && 1 + |ItemsText(done + [Text(key, value)])| < bufLen
    ensures 1 + |ItemsText(done)| + |Lead(key, first)| + |Escape(value)| + 1 < bufLen
  {
    NextLength(done, Text(key, value));
    MemberLength(key, value, first);
  }

  lemma {:induction false} AppendNext(now: string, bufLen: nat, done: seq<Item>, offset: nat, key: string,
                                      value: string, first: bool)
    requires Holding(now, bufLen, done, offset) && first == (done == [])
    requires 1 + |ItemsText(done + [Text(key, value)])| < bufLen
    ensures var to := Appended(bufLen, offset, key, value, first);
            to.Inside? && Holding(Written(now, bufLen, offset, key, value, first), bufLen, done + [Text(key, value)],
                                  to.value)
  {
    RoomForMember(bufLen, done, key, value, first);
    var member := AppendOne(now, bufLen, offset, key, value, first);
    AppendGrowsObject(done, key, value, bufLen - offset);
    HoldingMore(now, Written(now, bufLen, offset, key, value, first), bufLen, done, done + [Text(key, value)], offset,
                member);
  }

  lemma {:induction false} AllAppended(now: string, bufLen: nat, done: seq<Item>, items: seq<Item>, offset: nat)
    requires Holding(now, bufLen, done, offset) && 1 + |ItemsText(done + items)| < bufLen
    requires forall i :: 0 <= i < |items| ==> items[i].Text?
    ensures var (now', to) := AppendAll(now, bufLen, offset, items, done == []);
            to.Inside? && Holding(now', bufLen, done + items, to.value)
    decreases |items|
  {
    if items == [] {
      assert done + items == done;
    } else {
      var (key, value, first) := (items[0].key, items[0].value, done == []);
      Assoc(done, [Text(key, value)], items[1..]);
      assert items == [Text(key, value)] + items[1..];
      TextLonger(done + [Text(key, value)], items[1..]);
      AppendNext(now, bufLen, done, offset, key, value, first);
      AllAppended(Written(now, bufLen, offset, key, value, first), bufLen, done + [Text(key, value)], items[1..],
                  Appended(bufLen, offset, key, value, first).value);
    }
  }

  /** The buffer of a request: a brace, the members, and a brace behind them if there is room for it. */
  function BodyIn(before: string, bufLen: nat, items: seq<Item>): (r: Access<string>)
    requires 2 <= bufLen <= |before|
    ensures r.Inside? ==> |r.value| == |before|
  {
    var (now, to) := AppendAll(before[0 := '{'][1 := NUL], bufLen, 1, items, true);
    match to
    case Outside(at) => Outside(at)
    case Inside(off) =>
      if off >= bufLen then Outside(off)
      else if off + 1 < bufLen then Inside(now[off := '}'][off + 1 := NUL])
      else Inside(now[off := NUL])
  }

  /** A body that fits its buffer is the object of its members, with a terminator. */
  lemma {:induction false} BodyIsObject(before: string, bufLen: nat, items: seq<Item>)
    requires 2 <= bufLen <= |before| && |Object(items)| < bufLen
    requires forall i :: 0 <= i < |items| ==> items[i].Text?
    ensures var body := BodyIn(before, bufLen, items);
            body.Inside? && body.value[..|Object(items)|] == Object(items) && body.value[|Object(items)|] == NUL
  {
    var start := before[0 := '{'][1 := NUL];
    assert [] + items == items && start[..1] == "{" + ItemsText([]);
    AllAppended(start, bufLen, [], items, 1);
    var (now, to) := AppendAll(start, bufLen, 1, items, true);
    Closed(now, to.value);
  }

  lemma {:induction false} Closed(now: string, off: nat)
    requires off + 1 < |now|
    ensures var end := now[off := '}'][off + 1 := NUL]; end[..off + 1] == now[..off] + "}" && end[off + 1] == NUL
  {
  }

  /** From buffer to buffer: a value that was appended to a body that fits is read back from it exactly
      when no earlier value clashes with its key, or it is empty. */
  lemma {:induction false} BodyRoundTripIff(before: string, bufLen: nat, items: seq<Item>, i: nat)
    requires 2 <= bufLen <= |before| && |Object(items)| < bufLen && i < |items| && DistinctKeys(items)
    requires forall i :: 0 <= i < |items| ==> items[i].Text? && GoodKey(items[i].key)
    requires |items[i].key| < 254
    ensures var body := BodyIn(before, bufLen, items);
            && body.Inside? && body.value[|Object(items)|] == NUL
            && (Lookup(body.value[..|Object(items)|], items[i].key) == items[i].value
                <==> (forall n :: 0 <= n < i ==> !Clashes(items[n], items[i].key)) || items[i].value == "")
  {
    BodyIsObject(before, bufLen, items);
    RoundTripIff(items, i);
  }

  /** For keys of 254 characters and more nothing is ever found. */
  lemma {:induction false} LongKey(json: string, key: string)
    ensures |key| >= 254 ==> Lookup(json, key) == ""
  {
  }
}
