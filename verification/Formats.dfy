/**
 The formats written out, with readers of their own: base64 by its alphabet (RFC 4648, section 4),
 strings and flat objects by the JSON grammar (RFC 8259, sections 4 and 7), event records, EFI variables
 and signature lists by the offsets of their fields, which are little-endian.
 */
module Formats {
  import opened Bytes
  import opened Seqs
  import opened EventLog
  import opened Json
  import opened JsonRoundTrip
  import EventLogAnalysis
  import SignatureLists
  import Base64
  import FixedJson

  // ---- base64 ---------------------------------------------------------------

  /** Sixteen symbols a line. */
  function Line(k: nat): (symbols: string) {
    if k == 0 then "ABCDEFGHIJKLMNOP" else if k == 1 then "QRSTUVWXYZabcdef"
    else if k == 2 then "ghijklmnopqrstuv" else "wxyz0123456789+/"
  }

  function Digit64(n: nat): (c: char)
    requires n < 64
  {
    LineLength(n / 16);
    Line(n / 16)[n % 16]
  }

  lemma {:induction false} LineLength(k: nat)
    ensures |Line(k)| == 16
  {
  }

  lemma {:induction false} SymbolIs(n: nat)
    requires n < 64
    ensures Base64.Symbol(n) == Digit64(n)
  {
    LineIs(n / 16, n % 16);
  }

  lemma {:induction false} LineIs(k: nat, i: nat)
    requires k < 4 && i < 16
    ensures |Line(k)| == 16 && Line(k)[i] == Base64.Symbol(16 * k + i)
  {
    assert i < 8 || i >= 8;
  }

  /** A byte of the data, or 0 behind its end. */
  function Padded(b: seq<Byte>, i: nat): (v: Byte)
  {
    if i < |b| then b[i] else 0
  }

  /** The four characters for n bytes whose six-bit digits these are. */
  function Four(p: nat, q: nat, r: nat, s: nat, n: nat): (text: string)
    requires p < 64 && q < 64 && r < 64 && s < 64
    ensures |text| == 4
  {
    [Digit64(p), Digit64(q), if n > 1 then Digit64(r) else '=', if n > 2 then Digit64(s) else '=']
  }

  /** The digits of a 24-bit number to the base 64. */
  predicate Digits64(t: nat, p: nat, q: nat, r: nat, s: nat) {
    p < 64 && q < 64 && r < 64 && s < 64 && p * 0x4_0000 + q * 0x1000 + r * 0x40 + s == t
  }

  function Triple(b: seq<Byte>, i: nat): (t: nat)
    ensures t < 0x100_0000
  {
    (Padded(b, i) as nat) * 0x1_0000 + (Padded(b, i + 1) as nat) * 0x100 + Padded(b, i + 2)
  }

  lemma {:induction false} DigitsOf(t: nat) returns (p: nat, q: nat, r: nat, s: nat)
    requires t < 0x100_0000
    ensures Digits64(t, p, q, r, s)
    ensures p == t / 0x4_0000 % 64 && q == t / 0x1000 % 64 && r == t / 0x40 % 64 && s == t % 64
  {
    p, q, r, s := t / 0x4_0000 % 64, t / 0x1000 % 64, t / 0x40 % 64, t % 64;
    Base64.FourSixes(t);
  }

  lemma {:induction false} FourIs(p: nat, q: nat, r: nat, s: nat, n: nat)
    requires p < 64 && q < 64 && r < 64 && s < 64
    ensures Four(p, q, r, s, n)
            == [Base64.Symbol(p), Base64.Symbol(q), if n > 1 then Base64.Symbol(r) else '=',
                if n > 2 then Base64.Symbol(s) else '=']
  {
    SymbolIs(p);
    SymbolIs(q);
    SymbolIs(r);
    SymbolIs(s);
  }

  lemma {:induction false} GroupSymbols(b: seq<Byte>, t: nat, p: nat, q: nat, r: nat, s: nat)
    requires b != [] && t == (b[0] as int) * 0x1_0000 + (Base64.At(b, 1) as int) * 0x100 + Base64.At(b, 2) as int
    requires t / 0x4_0000 % 64 == p && t / 0x1000 % 64 == q && t / 0x40 % 64 == r && t % 64 == s
    ensures Base64.EncodeGroup(b)
            == [Base64.Symbol(p), Base64.Symbol(q), if |b| > 1 then Base64.Symbol(r) else '=',
                if |b| > 2 then Base64.Symbol(s) else '=']
  {
  }

  lemma {:induction false} FirstGroup(b: seq<Byte>) returns (p: nat, q: nat, r: nat, s: nat)
    requires b != []
    ensures Digits64(Triple(b, 0), p, q, r, s) && Base64.EncodeGroup(b) == Four(p, q, r, s, |b|)
  {
    p, q, r, s := DigitsOf(Triple(b, 0));
    GroupSymbols(b, Triple(b, 0), p, q, r, s);
    FourIs(p, q, r, s, |b|);
  }

  lemma {:induction false} GroupAt(b: seq<Byte>, k: nat, text: string)
    requires 3 * k < |b| && text == Base64.Encode(b)
    ensures 4 * k + 4 <= |text| && text[4 * k..4 * k + 4] == Base64.EncodeGroup(b[3 * k..])
    decreases k
  {
    var (group, rest) := (Base64.EncodeGroup(b), Base64.Rest(b));
    var tail := Base64.Encode(rest);
    if k == 0 {
      assert (group + tail)[0..4] == group && b[0..] == b;
    } else {
      GroupAt(rest, k - 1, tail);
      GroupBehind(b, rest, k, group, tail);
    }
  }

  lemma {:induction false} GroupBehind(b: seq<Byte>, rest: seq<Byte>, k: nat, group: string, tail: string)
    requires k > 0 && 3 * k < |b| && rest == b[3..] && |group| == 4 && 4 * k <= |tail|
    ensures b[3 * k..] == rest[3 * (k - 1)..]
    ensures (group + tail)[4 * k..4 * k + 4] == tail[4 * (k - 1)..4 * (k - 1) + 4]
  {
    DropTwice(b, 3, 3 * (k - 1));
    Later(group, tail, 4 * (k - 1), 4);
  }

  /** Every group of the encoding, padded or not: three bytes are the four digits to the base 64 that
      the characters stand for. */
  lemma {:induction false} EncodeIs(b: seq<Byte>, k: nat) returns (p: nat, q: nat, r: nat, s: nat)
    requires 3 * k < |b|
    ensures Digits64(Triple(b, 3 * k), p, q, r, s)
    ensures var text := Base64.Encode(b);
            4 * k + 4 <= |text| == 4 * ((|b| + 2) / 3) && text[4 * k..4 * k + 4] == Four(p, q, r, s, |b| - 3 * k)
  {
    Base64.EncodeLength(b);
    GroupAt(b, k, Base64.Encode(b));
    TripleShifted(b, 3 * k);
    p, q, r, s := FirstGroup(b[3 * k..]);
  }

  lemma {:induction false} TripleShifted(b: seq<Byte>, i: nat)
    requires i < |b|
    ensures Triple(b, i) == Triple(b[i..], 0)
  {
  }

  ghost predicate InAlphabet(c: char) {
    exists n: nat :: n < 64 && Digit64(n) == c
  }

  lemma {:induction false} SymbolsAre(c: char)
    ensures Base64.IsSymbol(c) <==> InAlphabet(c)
  {
    if Base64.IsSymbol(c) {
      Base64.SymbolAgain(c);
      SymbolIs(Base64.SymbolValue(c));
    }
    if InAlphabet(c) {
      var n: nat :| n < 64 && Digit64(n) == c;
      SymbolIs(n);
      Base64.SymbolBack(n);
    }
  }

  /** The text in whole groups, with an A for everything that is not in the alphabet, or missing. */
  ghost predicate Cleaned(s: string, t: string) {
    && |t| == 4 * ((|s| + 3) / 4)
    && forall i :: 0 <= i < |t| ==> t[i] == if i < |s| && InAlphabet(s[i]) then s[i] else 'A'
  }

  lemma {:induction false} CleanTail(s: string, t: string)
    requires Cleaned(s, t) && |s| > 4
    ensures |t| > 4 && Cleaned(s[4..], t[4..])
  {
    var n := (|s| + 3) / 4;
    assert (|s[4..]| + 3) / 4 == n - 1;
    forall i | 0 <= i < |t[4..]|
      ensures t[4..][i] == if i < |s[4..]| && InAlphabet(s[4..][i]) then s[4..][i] else 'A'
    {
      assert t[4..][i] == t[i + 4] && (i < |s[4..]| ==> s[4..][i] == s[i + 4]);
    }
  }

  lemma {:induction false} CleanTriples(s: string, t: string)
    requires Cleaned(s, t)
    ensures Base64.Triples(s) == Base64.Triples(t)
    decreases |s|
  {
    if |s| > 4 {
      CleanTail(s, t);
      CleanGroup(s, t);
      CleanTriples(s[4..], t[4..]);
    } else if s != "" {
      CleanGroup(s, t);
    }
  }

  lemma {:induction false} CleanValue(s: string, t: string, i: nat)
    requires Cleaned(s, t) && i < |t|
    ensures Base64.Value(s, i) == Base64.Value(t, i)
  {
    SymbolsAre(t[i]);
    if i < |s| {
      SymbolsAre(s[i]);
    }
  }

  lemma {:induction false} SameGroup(s: string, t: string)
    requires Base64.Value(s, 0) == Base64.Value(t, 0) && Base64.Value(s, 1) == Base64.Value(t, 1)
    requires Base64.Value(s, 2) == Base64.Value(t, 2) && Base64.Value(s, 3) == Base64.Value(t, 3)
    ensures Base64.DecodeGroup(s) == Base64.DecodeGroup(t)
  {
  }

  lemma {:induction false} CleanGroup(s: string, t: string)
    requires s != "" && Cleaned(s, t)
    ensures |t| >= 4 && Base64.DecodeGroup(s) == Base64.DecodeGroup(t)
  {
    CleanValue(s, t, 0);
    CleanValue(s, t, 1);
    CleanValue(s, t, 2);
    CleanValue(s, t, 3);
    SameGroup(s, t);
  }

  lemma {:induction false} CleanSymbols(s: string, t: string)
    requires Cleaned(s, t)
    ensures forall i :: 0 <= i < |t| ==> Base64.IsSymbol(t[i])
  {
    assert Base64.IsSymbol('A');
    forall i | 0 <= i < |t|
      ensures Base64.IsSymbol(t[i])
    {
      SymbolsAre(t[i]);
    }
  }

  lemma {:induction false} CleanCanonical(t: string)
    requires |t| % 4 == 0 && forall i :: 0 <= i < |t| ==> Base64.IsSymbol(t[i])
    ensures Base64.Canonical(t) && Base64.Padding(t) == 0
    decreases |t|
  {
    assert !Base64.IsSymbol('=');
    if |t| > 4 {
      CleanCanonical(t[4..]);
    }
  }

  lemma {:induction false} CleanLengths(t: string, groups: nat)
    requires Base64.Padding(t) == 0 && |t| == 4 * groups
    ensures Base64.OutLength(t) == 3 * groups == |Base64.Triples(t)|
  {
    WholeText(|t|, groups);
  }

  lemma {:induction false} CleanDecode(t: string)
    requires Base64.OutLength(t) >= 0 && Base64.OutLength(t) == |Base64.Triples(t)|
    ensures Base64.Decode(t) == Base64.Triples(t)
  {
  }

  lemma {:induction false} CleanAgain(t: string, groups: nat)
    requires Base64.Canonical(t) && Base64.Padding(t) == 0 && |t| == 4 * groups
    ensures Base64.Encode(Base64.Triples(t)) == t && |Base64.Triples(t)| == 3 * groups
  {
    CleanLengths(t, groups);
    CleanDecode(t);
    Base64.Again(t);
  }

  /** The lenient decoder, on any text: it yields the bytes that encode the cleaned text, less one for each of
      the last two characters that is =. */
  lemma {:induction false} DecodeIs(s: string, t: string) returns (whole: seq<Byte>)
    requires Base64.OutLength(s) >= 0 && Cleaned(s, t)
    ensures Base64.Encode(whole) == t && |whole| == 3 * ((|s| + 3) / 4)
    ensures var padding := (if |s| > 0 && s[|s| - 1] == '=' then 1 else 0)
                           + (if |s| > 1 && s[|s| - 2] == '=' then 1 else 0);
            0 <= |s| / 4 * 3 - padding <= |whole| && Base64.Decode(s) == whole[..|s| / 4 * 3 - padding]
  {
    var groups := (|s| + 3) / 4;
    whole := Base64.Triples(s);
    CleanTriples(s, t);
    CleanSymbols(s, t);
    WholeText(|t|, groups);
    CleanCanonical(t);
    CleanAgain(t, groups);
  }

  lemma {:induction false} WholeText(length: nat, groups: nat)
    requires length == 4 * groups
    ensures length % 4 == 0 && length / 4 * 3 == 3 * groups && 3 * ((length + 3) / 4) == 3 * groups
  {
  }

  // ---- JSON -----------------------------------------------------------------

  /** What the character behind a backslash stands for. The printers never write \\u. */
  function Escaped(c: char): (r: Option<char>) {
    if c == '\"' || c == '\\' || c == '/' then Some(c)
    else if c == 'b' then Some(8 as char) else if c == 'f' then Some(12 as char)
    else if c == 'n' then Some('\n') else if c == 'r' then Some('\r') else if c == 't' then Some('\t')
    else None
  }

  /** A string, read from behind its opening quote, and what follows its closing quote. A control character
      may not stand in one unescaped. */
  function StringFrom(s: string): (r: Option<(string, string)>)
    ensures r.Some? ==> |r.value.1| < |s|
    decreases |s|
  {
    if s == "" || (s[0] as int) < 0x20 then None
    else if s[0] == '\"' then Some(("", s[1..]))
    else if s[0] != '\\' then Before(s[0], StringFrom(s[1..]))
    else if |s| < 2 || Escaped(s[1]).None? then None
    else Before(Escaped(s[1]).value, StringFrom(s[2..]))
  }

  function Before(c: char, r: Option<(string, string)>): (all: Option<(string, string)>) {
    if r.None? then None else Some(([c] + r.value.0, r.value.1))
  }

  /** No control characters but line feeds: the others are not escaped. */
  predicate Printable(v: string) {
    forall i :: 0 <= i < |v| ==> v[i] as int >= 0x20 || v[i] == '\n'
  }

  lemma {:induction false} PrintableCons(v: string)
    requires v != ""
    ensures Printable(v) <==> (v[0] as int >= 0x20 || v[0] == '\n') && Printable(v[1..])
  {
    if (v[0] as int >= 0x20 || v[0] == '\n') && Printable(v[1..]) {
      forall i | 0 <= i < |v|
        ensures v[i] as int >= 0x20 || v[i] == '\n'
      {
        assert i > 0 ==> v[i] == v[1..][i - 1];
      }
    }
  }

  /** A printed string is a JSON string exactly if the value has no control character but line feeds, and
      then it is that value. */
  lemma {:induction false} QuotedSays(v: string, rest: string)
    ensures StringFrom(Escape(v) + "\"" + rest) == if Printable(v) then Some((v, rest)) else None
    decreases |v|
  {
    if v == "" {
      assert Escape(v) + "\"" + rest == "\"" + rest && ("\"" + rest)[1..] == rest;
    } else {
      QuotedSays(v[1..], rest);
      PrintableCons(v);
      EscapeMore(v, rest);
      OneCharacter(v[0], Escape(v[1..]) + "\"" + rest);
      assert v == [v[0]] + v[1..];
    }
  }

  lemma {:induction false} EscapeMore(v: string, rest: string)
    requires v != ""
    ensures Escape(v) + "\"" + rest == EscapeChar(v[0]) + (Escape(v[1..]) + "\"" + rest)
  {
    Assoc3(EscapeChar(v[0]), Escape(v[1..]), "\"", rest);
  }

  lemma {:induction false} OneCharacter(c: char, more: string)
    ensures StringFrom(EscapeChar(c) + more)
            == if c as int >= 0x20 || c == '\n' then Before(c, StringFrom(more)) else None
  {
    var s := EscapeChar(c) + more;
    if |EscapeChar(c)| == 1 {
      assert s[1..] == more;
    } else {
      assert s[2..] == more;
    }
  }

  type Pair = (string, string)

  /** A member whose value is a string, and what follows it. No blanks are printed. */
  function MemberFrom(s: string): (r: Option<(Pair, string)>)
    ensures r.Some? ==> |r.value.1| < |s|
  {
    if s == "" || s[0] != '\"' then None
    else
      match StringFrom(s[1..])
      case None => None
      case Some((key, rest)) =>
        if |rest| < 2 || rest[0] != ':' || rest[1] != '\"' then None
        else
          match StringFrom(rest[2..])
          case None => None
          case Some((value, behind)) => Some(((key, value), behind))
  }

  function MembersFrom(s: string): (r: Option<seq<Pair>>)
    decreases |s|
  {
    match MemberFrom(s)
    case None => None
    case Some((member, rest)) =>
      if rest == "}" then Some([member])
      else if rest == "" || rest[0] != ',' then None
      else
        match MembersFrom(rest[1..])
        case None => None
        case Some(more) => Some([member] + more)
  }

  /** The members of a flat object of strings, in order. */
  function ObjectSays(s: string): (r: Option<seq<Pair>>) {
    if s == "{}" then Some([]) else if s != "" && s[0] == '{' then MembersFrom(s[1..]) else None
  }

  function PairsOf(items: seq<Item>): (pairs: seq<Pair>)
    ensures |pairs| == |items|
    ensures forall i :: 0 <= i < |items| ==> pairs[i] == (items[i].key, items[i].value)
  {
    if items == [] then [] else [(items[0].key, items[0].value)] + PairsOf(items[1..])
  }

  predicate AllPrintable(items: seq<Item>) {
    forall i :: 0 <= i < |items| ==> Printable(items[i].value)
  }

  predicate Strings(items: seq<Item>) {
    forall i :: 0 <= i < |items| ==> items[i].Text? && GoodKey(items[i].key)
  }

  lemma {:induction false} KeyPrintable(k: string)
    requires AllAlnum(k)
    ensures Escape(k) == k && Printable(k)
  {
    EscapeAlnum(k);
  }

  lemma {:induction false} MemberPieces(key: string, value: string, rest: string, behind: string, text: string)
    requires behind == ":\"" + (value + "\"" + rest)
    requires text == "\"" + key + "\":" + ("\"" + value + "\"") + rest
    ensures text != "" && text[0] == '\"' && text[1..] == key + "\"" + behind
    ensures |behind| >= 2 && behind[0] == ':' && behind[1] == '\"' && behind[2..] == value + "\"" + rest
  {
    var inner := value + "\"" + rest;
    assert behind[2..] == inner;
    assert text == ("\"" + key + "\":" + "\"") + inner;
    assert text == "\"" + (key + "\"" + (":\"" + inner));
  }

  /** A member, from the text of its two strings. */
  lemma {:induction false} MemberRead(text: string, behind: string, key: string, value: Option<(string, string)>)
    requires text != "" && text[0] == '\"' && StringFrom(text[1..]) == Some((key, behind))
    requires |behind| >= 2 && behind[0] == ':' && behind[1] == '\"' && StringFrom(behind[2..]) == value
    ensures MemberFrom(text) == if value.None? then None else Some(((key, value.value.0), value.value.1))
  {
  }

  lemma {:induction false} MemberSays(item: Item, rest: string)
    requires item.Text? && GoodKey(item.key)
    ensures MemberFrom(ItemText(item) + rest)
            == if Printable(item.value) then Some(((item.key, item.value), rest)) else None
  {
    var behind := ":\"" + (Escape(item.value) + "\"" + rest);
    KeyPrintable(item.key);
    QuotedSays(item.key, behind);
    QuotedSays(item.value, rest);
    MemberPieces(item.key, Escape(item.value), rest, behind, ItemText(item) + rest);
    var value := if Printable(item.value) then Some((item.value, rest)) else None;
    MemberRead(ItemText(item) + rest, behind, item.key, value);
  }

  lemma {:induction false} LastMember(s: string, member: Pair)
    ensures MemberFrom(s) == Some((member, "}")) ==> MembersFrom(s) == Some([member])
    ensures MemberFrom(s) == None ==> MembersFrom(s) == None
  {
  }

  lemma {:induction false} NextMember(s: string, member: Pair, more: string)
    requires MemberFrom(s) == Some((member, "," + more))
    ensures MembersFrom(s)
            == if MembersFrom(more).None? then None else Some([member] + MembersFrom(more).value)
  {
    assert ("," + more)[1..] == more && ("," + more)[0] == ',' && "}"[0] == '}';
  }

  lemma {:induction false} MembersText(items: seq<Item>)
    requires items != []
    ensures var (first, more) := (ItemText(items[0]), items[1..]);
            ItemsText(items) + "}" == if more == [] then first + "}" else first + ("," + (ItemsText(more) + "}"))
  {
    var (first, more) := (ItemText(items[0]), items[1..]);
    if more == [] {
      assert RestText(more) == "" && first + "" == first;
    } else {
      Assoc(first, "," + ItemsText(more), "}");
      Assoc(",", ItemsText(more), "}");
    }
  }

  lemma {:induction false} MembersSay(items: seq<Item>)
    requires items != [] && Strings(items)
    ensures MembersFrom(ItemsText(items) + "}") == if AllPrintable(items) then Some(PairsOf(items)) else None
    decreases |items|
  {
    var (item, more) := (items[0], items[1..]);
    var (member, text) := ((item.key, item.value), ItemsText(items) + "}");
    AllPrintableCons(items);
    MembersText(items);
    if more == [] {
      assert PairsOf(items) == [member];
      MemberSays(item, "}");
      LastMember(text, member);
    } else {
      var rest := ItemsText(more) + "}";
      MemberSays(item, "," + rest);
      MembersSay(more);
      if Printable(item.value) {
        NextMember(text, member, rest);
      } else {
        LastMember(text, member);
      }
    }
  }

  lemma {:induction false} AllPrintableCons(items: seq<Item>)
    requires items != []
    ensures AllPrintable(items) <==> Printable(items[0].value) && AllPrintable(items[1..])
  {
    if Printable(items[0].value) && AllPrintable(items[1..]) {
      forall i | 0 <= i < |items|
        ensures Printable(items[i].value)
      {
        assert i > 0 ==> items[i] == items[1..][i - 1];
      }
    }
    if AllPrintable(items) {
      assert Printable(items[0].value);
      forall i | 0 <= i < |items[1..]|
        ensures Printable(items[1..][i].value)
      {
        assert items[1..][i] == items[i + 1];
      }
    }
  }

  /** An object of strings is JSON exactly if no value has a control character but line feeds, and then it
      says what was printed. */
  lemma {:induction false} ObjectSaysIff(items: seq<Item>)
    requires Strings(items)
    ensures ObjectSays(Json.Object(items)) == if AllPrintable(items) then Some(PairsOf(items)) else None
  {
    var text := Json.Object(items);
    if items == [] {
      assert text == "{}";
    } else {
      MembersSay(items);
      assert text == "{" + (ItemsText(items) + "}");
      assert text[1..] == ItemsText(items) + "}" && text[0] == '{';
      assert ItemsText(items)[0] == '\"' && text[1] == '\"';
    }
  }

  /** A device id with a tab in it is printed as it is, which is not JSON. */
  lemma {:induction false} TabExample()
    ensures ObjectSays(Build([("deviceId", "a\tb")])) == None
  {
    var items := ItemsOf([("deviceId", "a\tb")]);
    assert items[0] == Text("deviceId", "a\tb") && |items| == 1;
    assert AllAlnum("deviceId");
    assert "a\tb"[1] == '\t';
    assert !Printable(items[0].value);
    ObjectSaysIff(items);
  }

  /** Values that are copied as they are: literals, and what looks like an object or an array. */
  lemma {:induction false} OneField(k: string, v: string)
    ensures var verbatim := v == "true" || v == "false" || v == "null" || (v != "" && (v[0] == '{' || v[0] == '['));
            Build([(k, v)]) == "{\"" + k + "\":" + (if verbatim then v else "\"" + Escape(v) + "\"") + "}"
  {
    var items := ItemsOf([(k, v)]);
    assert items == [ItemOf((k, v))] && items[1..] == [];
    assert ItemsText(items) == ItemText(items[0]) + "" == ItemText(items[0]);
    var value := ValueText(items[0]);
    assert "{" + ("\"" + k + "\":" + value) + "}" == "{\"" + k + "\":" + value + "}";
  }

  // ---- Texts of other printers ----------------------------------------------

  /** None of these characters stands behind a backslash of the string. */
  predicate Unescaped(s: string, special: set<char>)
    decreases |s|
  {
    if s == "" || s[0] == '\"' then true
    else if s[0] == '\\' && |s| > 1 then s[1] !in special && Unescaped(s[2..], special)
    else Unescaped(s[1..], special)
  }

  /** The Windows reader reads a JSON string as what it says exactly if it has none of these escapes: the
      letter stays where a control character is meant. */
  lemma {:induction false} ReadStringIff(s: string)
    requires StringFrom(s).Some?
    ensures |ReadString(s)| == |StringFrom(s).value.0|
    ensures ReadString(s) == StringFrom(s).value.0 <==> Unescaped(s, {'b', 'f', 'r', 't'})
    decreases |s|
  {
    if s[0] == '\"' {
    } else if s[0] == '\\' {
      ReadStringIff(s[2..]);
      SameHead(ReadString(s), StringFrom(s).value.0);
      assert ReadString(s)[1..] == ReadString(s[2..]) && StringFrom(s).value.0[1..] == StringFrom(s[2..]).value.0;
    } else {
      ReadStringIff(s[1..]);
      SameHead(ReadString(s), StringFrom(s).value.0);
      assert ReadString(s)[1..] == ReadString(s[1..]) && StringFrom(s).value.0[1..] == StringFrom(s[1..]).value.0;
    }
  }

  /** The Linux reader also knows the tab. */
  lemma {:induction false} ReadTextIff(s: string)
    requires StringFrom(s).Some?
    ensures |FixedJson.ReadText(s)| == |StringFrom(s).value.0|
    ensures FixedJson.ReadText(s) == StringFrom(s).value.0 <==> Unescaped(s, {'b', 'f', 'r'})
    decreases |s|
  {
    if s[0] == '\"' {
    } else if s[0] == '\\' {
      ReadTextIff(s[2..]);
      SameHead(FixedJson.ReadText(s), StringFrom(s).value.0);
      assert FixedJson.ReadText(s)[1..] == FixedJson.ReadText(s[2..]);
      assert StringFrom(s).value.0[1..] == StringFrom(s[2..]).value.0;
    } else {
      ReadTextIff(s[1..]);
      SameHead(FixedJson.ReadText(s), StringFrom(s).value.0);
      assert FixedJson.ReadText(s)[1..] == FixedJson.ReadText(s[1..]);
      assert StringFrom(s).value.0[1..] == StringFrom(s[1..]).value.0;
    }
  }

  lemma {:induction false} SameHead(a: string, b: string)
    requires a != "" && b != ""
    ensures a == b <==> a[0] == b[0] && a[1..] == b[1..]
  {
    assert a == [a[0]] + a[1..] && b == [b[0]] + b[1..];
  }

  predicate Among(s: string, chars: set<char>) {
    forall i :: 0 <= i < |s| ==> s[i] in chars
  }

  /** The Windows reader finds the string behind any spelling of the colon: nothing with a colon in it before,
      and blanks and tabs, but not line breaks, behind. */
  lemma {:induction false} WindowsFinds(text: string, k: string, gap: string, blanks: string, s: string)
    requires After(text, Key(k)) == Some(gap + ":" + blanks + "\"" + s)
    requires ':' !in gap && Among(blanks, {' ', '\t'})
    ensures Get(text, k) == ReadString(s)
  {
    var rest := blanks + "\"" + s;
    assert gap + ":" + blanks + "\"" + s == gap + (":" + rest);
    ColonBehindGap(gap, rest);
    BlanksSkipped(blanks, "\"" + s);
    assert blanks + ("\"" + s) == rest && ("\"" + s)[1..] == s;
  }

  lemma {:induction false} ColonBehindGap(gap: string, rest: string)
    requires ':' !in gap
    ensures After(gap + (":" + rest), ":") == Some(rest)
    decreases |gap|
  {
    var s := gap + (":" + rest);
    if gap == "" {
      assert s == ":" + rest && s[..1] == ":" && s[1..] == rest;
    } else {
      assert s[1..] == gap[1..] + (":" + rest) && s[..1][0] == gap[0] && ":"[0] == ':';
      assert gap[0] in gap && forall c :: c in gap[1..] ==> c in gap;
      ColonBehindGap(gap[1..], rest);
    }
  }

  lemma {:induction false} BlanksSkipped(blanks: string, rest: string)
    requires Among(blanks, {' ', '\t'}) && rest != "" && rest[0] == '\"'
    ensures SkipBlanks(blanks + rest) == rest
    decreases |blanks|
  {
    if blanks == "" {
      assert blanks + rest == rest;
    } else {
      assert (blanks + rest)[1..] == blanks[1..] + rest && (blanks + rest)[0] == blanks[0];
      BlanksSkipped(blanks[1..], rest);
    }
  }

  /** The Linux reader: white space of every kind on both sides of the colon. */
  lemma {:induction false} LinuxFinds(text: string, k: string, gap: string, blanks: string, s: string)
    requires After(text, Key(k)) == Some(gap + (":" + (blanks + ("\"" + s)))) && |k| < 254
    requires Among(gap, {' ', '\t', '\n', '\r'}) && Among(blanks, {' ', '\t', '\n', '\r'})
    ensures FixedJson.Lookup(text, k) == FixedJson.ReadText(s)
  {
    var value := "\"" + s;
    SpaceSkipped(gap, ":" + (blanks + value));
    SpaceSkipped(blanks, value);
    assert (":" + (blanks + value))[1..] == blanks + value && value[1..] == s;
  }

  lemma {:induction false} SpaceSkipped(space: string, rest: string)
    requires Among(space, {' ', '\t', '\n', '\r'}) && rest != "" && !FixedJson.Blank(rest[0])
    ensures FixedJson.SkipSpace(space + rest) == rest
    decreases |space|
  {
    if space == "" {
      assert space + rest == rest;
    } else {
      assert (space + rest)[1..] == space[1..] + rest && (space + rest)[0] == space[0];
      SpaceSkipped(space[1..], rest);
    }
  }

  // ---- Firmware structures --------------------------------------------------

  /** A number of `width` bytes, least significant byte first. */
  function Little(b: seq<Byte>, at: nat, width: nat): (v: nat)
    requires at + width <= |b|
    decreases width
  {
    if width == 0 then 0 else b[at] + 0x100 * Little(b, at + 1, width - 1)
  }

  lemma {:induction false} Little2(b: seq<Byte>, at: nat, v: nat)
    requires at + 2 <= |b| && b[at..at + 2] == LE16(v) && v < U16_LIMIT
    ensures Little(b, at, 2) == v
  {
    LE16At(b, at, v);
    assert Little(b, at, 2) == b[at] + 0x100 * Little(b, at + 1, 1);
  }

  lemma {:induction false} Little4(b: seq<Byte>, at: nat, v: nat)
    requires at + 4 <= |b| && b[at..at + 4] == LE32(v) && v < U32_LIMIT
    ensures Little(b, at, 4) == v
  {
    LE32At(b, at, v);
    LittleSum(b, at);
  }

  lemma {:induction false} LittleSum(b: seq<Byte>, at: nat)
    requires at + 4 <= |b|
    ensures Little(b, at, 4)
            == b[at] as int + (b[at + 1] as int) * 0x100 + (b[at + 2] as int) * 0x1_0000
               + (b[at + 3] as int) * 0x100_0000
  {
    assert Little(b, at + 3, 1) == b[at + 3] as nat;
    assert Little(b, at + 2, 2) == b[at + 2] + 0x100 * Little(b, at + 3, 1);
    assert Little(b, at + 1, 3) == b[at + 1] + 0x100 * Little(b, at + 2, 2);
  }

  /** A long number is its low half and its high half. */
  lemma {:induction false} Little8(b: seq<Byte>, at: nat, v: nat)
    requires at + 8 <= |b| && b[at..at + 8] == LE64(v) && v < U64_LIMIT
    ensures Little(b, at, 8) == v
  {
    var (low, high) := (v % 0x1_0000_0000, v / 0x1_0000_0000);
    assert b[at..at + 4] == b[at..at + 8][..4] == LE32(low);
    assert b[at + 4..at + 8] == b[at..at + 8][4..] == LE32(high);
    Little4(b, at, low);
    Little4(b, at + 4, high);
    LittleHalves(b, at);
  }

  lemma {:induction false} LittleHalves(b: seq<Byte>, at: nat)
    requires at + 8 <= |b|
    ensures Little(b, at, 8) == Little(b, at, 4) + 0x1_0000_0000 * Little(b, at + 4, 4)
  {
    LittleSum(b, at);
    assert Little(b, at + 3, 5) == b[at + 3] + 0x100 * Little(b, at + 4, 4);
    assert Little(b, at + 2, 6) == b[at + 2] + 0x100 * Little(b, at + 3, 5);
    assert Little(b, at + 1, 7) == b[at + 1] + 0x100 * Little(b, at + 2, 6);
  }

  /** How many bytes the first k digests take. */
  function Span(digests: seq<Digest>, k: nat): (n: nat)
    requires k <= |digests|
  {
    if k == 0 then 0 else Span(digests, k - 1) + 2 + |digests[k - 1].value|
  }

  lemma {:induction false} SpanShifted(digests: seq<Digest>, k: nat)
    requires 1 <= k <= |digests|
    ensures Span(digests, k) == 2 + |digests[0].value| + Span(digests[1..], k - 1)
  {
    if k > 1 {
      SpanShifted(digests, k - 1);
      assert digests[1..][k - 2] == digests[k - 1];
    } else {
      assert Span(digests, 0) == 0 && Span(digests[1..], 0) == 0;
    }
  }

  /** A digest lies here: its algorithm in two bytes, and its value. */
  predicate Lies(b: seq<Byte>, at: nat, d: Digest) {
    && at + 2 + |d.value| <= |b|
    && Little(b, at, 2) == d.alg && b[at + 2..at + 2 + |d.value|] == d.value
  }

  lemma {:induction false} LiesFirst(d: Digest, rest: seq<Byte>)
    ensures Lies(LE16(d.alg) + d.value + rest, 0, d)
  {
    var b := LE16(d.alg) + d.value + rest;
    assert b[0..2] == LE16(d.alg);
    Little2(b, 0, d.alg);
  }

  lemma {:induction false} LiesLater(front: seq<Byte>, back: seq<Byte>, at: nat, d: Digest)
    requires Lies(back, at, d)
    ensures Lies(front + back, |front| + at, d)
  {
    var (b, n) := (front + back, |front| + at);
    LittleLater(front, back, at, 2);
    Later(front, back, at + 2, |d.value|);
  }

  lemma {:induction false} LittleLater(front: seq<Byte>, back: seq<Byte>, at: nat, width: nat)
    requires at + width <= |back|
    ensures Little(front + back, |front| + at, width) == Little(back, at, width)
    decreases width
  {
    if width > 0 {
      LittleLater(front, back, at + 1, width - 1);
      assert (front + back)[|front| + at] == back[at];
    }
  }

  lemma {:induction false} SpanIsLength(digests: seq<Digest>)
    ensures |DigestBytes(digests)| == Span(digests, |digests|)
    decreases |digests|
  {
    if digests != [] {
      SpanIsLength(digests[1..]);
      SpanShifted(digests, |digests|);
    }
  }

  /** The digests lie one behind the other. */
  lemma {:induction false} DigestsLie(digests: seq<Digest>, k: nat)
    requires k < |digests|
    ensures Lies(DigestBytes(digests), Span(digests, k), digests[k])
    decreases |digests|
  {
    var (d, more) := (digests[0], digests[1..]);
    if k == 0 {
      LiesFirst(d, DigestBytes(more));
    } else {
      DigestsLie(more, k - 1);
      SpanShifted(digests, k);
      LiesLater(LE16(d.alg) + d.value, DigestBytes(more), Span(more, k - 1), more[k - 1]);
    }
  }

  lemma {:induction false} RecordParts(head: seq<Byte>, digests: seq<Byte>, size: seq<Byte>, data: seq<Byte>)
    requires |head| == 12 && |size| == 4
    ensures var (b, n) := (head + digests + (size + data), 12 + |digests|);
            && |b| == n + 4 + |data| && b[..12] == head && b[12..n] == digests && b[n..n + 4] == size
            && b[n + 4..] == data
  {
  }

  lemma {:induction false} ThreeFields(b: seq<Byte>, x: U32, y: U32, z: U32)
    requires |b| >= 12 && b[..12] == LE32(x) + LE32(y) + LE32(z)
    ensures Little(b, 0, 4) == x && Little(b, 4, 4) == y && Little(b, 8, 4) == z
  {
    assert b[0..4] == b[..12][0..4] && b[4..8] == b[..12][4..8] && b[8..12] == b[..12][8..12];
    Little4(b, 0, x);
    Little4(b, 4, y);
    Little4(b, 8, z);
  }

  lemma {:induction false} RecordLies(r: Record)
    ensures var (b, n) := (RecordBytes(r), 12 + |DigestBytes(r.digests)|);
            && |b| == n + 4 + |r.data| && b[..12] == LE32(r.pcr) + LE32(r.kind) + LE32(|r.digests|)
            && b[12..n] == DigestBytes(r.digests) && b[n..n + 4] == LE32(|r.data|) && b[n + 4..] == r.data
  {
    var head := LE32(r.pcr) + LE32(r.kind) + LE32(|r.digests|);
    RecordParts(head, DigestBytes(r.digests), LE32(|r.data|), r.data);
  }

  /** A record starts with the PCR, the event type and the number of digests. */
  lemma {:induction false} RecordHeadIs(r: Record)
    requires Loggable(r)
    ensures var b := RecordBytes(r); Little(b, 0, 4) == r.pcr && Little(b, 4, 4) == r.kind
                                     && Little(b, 8, 4) == |r.digests|
  {
    RecordLies(r);
    ThreeFields(RecordBytes(r), r.pcr, r.kind, |r.digests|);
  }

  /** Every digest lies behind those before it. */
  ghost predicate AllLie(b: seq<Byte>, digests: seq<Digest>) {
    forall k :: 0 <= k < |digests| ==> Lies(b, Span(digests, k), digests[k])
  }

  lemma {:induction false} TheyAllLie(digests: seq<Digest>)
    ensures AllLie(DigestBytes(digests), digests)
  {
    forall k | 0 <= k < |digests|
      ensures Lies(DigestBytes(digests), Span(digests, k), digests[k])
    {
      DigestsLie(digests, k);
    }
  }

  /** Behind them come the digests, the size of the data, and the data. */
  lemma {:induction false} RecordRestIs(r: Record, n: nat)
    requires Loggable(r) && n == 12 + Span(r.digests, |r.digests|)
    ensures var b := RecordBytes(r);
            && |b| == n + 4 + |r.data| && AllLie(b[12..n], r.digests) && Little(b, n, 4) == |r.data|
            && b[n + 4..] == r.data
  {
    SpanIsLength(r.digests);
    RecordLies(r);
    TheyAllLie(r.digests);
    Little4(RecordBytes(r), n, |r.data|);
  }

  /** The header: a PCR, event type 3, a SHA-1 digest, the size of the data, and the data. */
  lemma {:induction false} HeaderIs(pcr: U32, sha1: seq<Byte>, data: seq<Byte>)
    requires |sha1| == 20 && |data| < U32_LIMIT
    ensures var b := HeaderBytes(pcr, sha1, data);
            && |b| == 32 + |data| && Little(b, 0, 4) == pcr && Little(b, 4, 4) == 3 && b[8..28] == sha1
            && Little(b, 28, 4) == |data| && b[32..] == data
  {
    var b := HeaderBytes(pcr, sha1, data);
    assert b[0..4] == LE32(pcr) && b[4..8] == LE32(3) && b[28..32] == LE32(|data|);
    Little4(b, 0, pcr);
    Little4(b, 4, 3);
    Little4(b, 28, |data|);
  }

  lemma {:induction false} Later<T>(front: seq<T>, back: seq<T>, at: nat, size: nat)
    requires at + size <= |back|
    ensures (front + back)[|front| + at..|front| + at + size] == back[at..at + size]
  {
  }

  lemma {:induction false} NameLies(name: seq<U16>, k: nat)
    requires k < |name|
    ensures Little(EventLogAnalysis.NameBytes(name), 2 * k, 2) == name[k]
    decreases |name|
  {
    var (first, rest) := (LE16(name[0]), EventLogAnalysis.NameBytes(name[1..]));
    if k == 0 {
      assert (first + rest)[0..2] == first;
      Little2(first + rest, 0, name[0]);
    } else {
      NameLies(name[1..], k - 1);
      LittleLater(first, rest, 2 * (k - 1), 2);
    }
  }

  /** A variable event: its GUID, the number of characters of its name, the size of its value, the name in
      UTF-16, and the value. */
  lemma {:induction false} VariableIs(guid: seq<Byte>, name: seq<U16>, value: seq<Byte>)
    requires |guid| == 16 && |name| < U64_LIMIT && |value| < U64_LIMIT
    ensures var (b, n) := (EventLogAnalysis.VariableBytes(guid, name, value), 32 + 2 * |name|);
            && |b| == n + |value| && b[..16] == guid && Little(b, 16, 8) == |name| && Little(b, 24, 8) == |value|
            && b[n..] == value && forall k :: 0 <= k < |name| ==> Little(b[32..n], 2 * k, 2) == name[k]
  {
    var (b, n) := (EventLogAnalysis.VariableBytes(guid, name, value), 32 + 2 * |name|);
    var text := EventLogAnalysis.NameBytes(name);
    VariableParts(guid, LE64(|name|), LE64(|value|), text, value);
    Little8(b, 16, |name|);
    Little8(b, 24, |value|);
    assert b[32..n] == text;
    forall k | 0 <= k < |name|
      ensures Little(text, 2 * k, 2) == name[k]
    {
      NameLies(name, k);
    }
  }

  lemma {:induction false} VariableParts(guid: seq<Byte>, x: seq<Byte>, y: seq<Byte>, text: seq<Byte>, value: seq<Byte>)
    requires |guid| == 16 && |x| == |y| == 8
    ensures var (b, n) := (guid + x + y + text + value, 32 + |text|);
            && |b| == n + |value| && b[..16] == guid && b[16..24] == x && b[24..32] == y && b[32..n] == text
            && b[n..] == value
  {
  }

  /** The type of an X.509 list, a5c059a1-94e4-4aa7-87b5-ab155c2bf072: three numbers and eight bytes. */
  lemma {:induction false} X509Guid()
    ensures var g := SignatureLists.X509_GUID;
            && |g| == 16 && Little(g, 0, 4) == 0xA5C0_59A1 && Little(g, 4, 2) == 0x94E4 && Little(g, 6, 2) == 0x4AA7
            && g[8..] == [0x87, 0xB5, 0xAB, 0x15, 0x5C, 0x2B, 0xF0, 0x72]
  {
    var g := SignatureLists.X509_GUID;
    LittleSum(g, 0);
    assert Little(g, 5, 1) == 0x94 && Little(g, 7, 1) == 0x4A;
  }

  lemma {:induction false} EntryLies(entries: seq<seq<Byte>>, size: nat, k: nat)
    requires SignatureLists.Uniform(entries, size) && k < |entries|
    ensures var b := SignatureLists.EntryBytes(entries);
            && |b| == size * |entries| && size * k + size <= |b| && b[size * k..size * k + size] == entries[k]
    decreases |entries|
  {
    var (first, more) := (entries[0], entries[1..]);
    var rest := SignatureLists.EntryBytes(more);
    if more == [] {
      assert rest == [] && first + rest == first;
    } else {
      EntryLies(more, size, if k == 0 then 0 else k - 1);
      Multiple(size, |entries|);
      if k > 0 {
        Multiple(size, k);
        Later(first, rest, size * (k - 1), size);
      }
    }
  }

  lemma {:induction false} Multiple(size: nat, k: nat)
    requires k > 0
    ensures size * k == size + size * (k - 1)
  {
  }

  /** A signature list: its type, its size, the sizes of its header and of an entry, the header, and the entries. */
  lemma {:induction false} ListIs(l: SignatureLists.SignatureList)
    requires SignatureLists.WellFormed(l)
    ensures var (b, n) := (SignatureLists.ListBytes(l), 28 + |l.header|);
            && b[..16] == l.kind && Little(b, 16, 4) == |b| && Little(b, 20, 4) == |l.header|
            && Little(b, 24, 4) == l.sigSize && |b| >= n && b[28..n] == l.header
            && forall k :: 0 <= k < |l.entries| ==> EntryAt(b[n..], l.sigSize, k, l.entries[k])
  {
    var b := SignatureLists.ListBytes(l);
    var body := SignatureLists.EntryBytes(l.entries);
    ListParts(l.kind, LE32(SignatureLists.ListSize(l)), LE32(|l.header|), LE32(l.sigSize), l.header, body);
    Little4(b, 16, SignatureLists.ListSize(l));
    Little4(b, 20, |l.header|);
    Little4(b, 24, l.sigSize);
    forall k | 0 <= k < |l.entries|
      ensures EntryAt(body, l.sigSize, k, l.entries[k])
    {
      EntryLies(l.entries, l.sigSize, k);
    }
  }

  predicate EntryAt(b: seq<Byte>, size: nat, k: nat, entry: seq<Byte>) {
    size * k + size <= |b| && b[size * k..size * k + size] == entry
  }

  lemma {:induction false} ListParts(kind: seq<Byte>, x: seq<Byte>, y: seq<Byte>, z: seq<Byte>, header: seq<Byte>,
                                     body: seq<Byte>)
    requires |kind| == 16 && |x| == |y| == |z| == 4
    ensures var (b, n) := (kind + x + y + z + (header + body), 28 + |header|);
            && |b| == n + |body| && b[..16] == kind && b[16..20] == x && b[20..24] == y && b[24..28] == z
            && b[28..n] == header && b[n..] == body
  {
  }
}
