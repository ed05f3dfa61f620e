/**
 Readers for the nested texts that the client hands out: hexadecimal, the object of PCR values, an array
 of strings. They are written from the notation alone, and what the client prints is proved to be read
 back by them.
 */
module Readings {
  import opened Bytes
  import opened Seqs
  import opened Json
  import opened JsonRoundTrip
  import opened EnrollmentSpec
  import opened BodyTexts
  import opened CertMerge
  import Base64

  // ---- Hexadecimal ----------------------------------------------------------

  function DigitValue(c: char): (v: int) {
    if '0' <= c <= '9' then c as int - '0' as int
    else if 'a' <= c <= 'f' then c as int - 'a' as int + 10
    else -1
  }

  /** Two digits are one byte, the high one first. */
  function Unhex(text: string): (b: seq<int>) {
    if |text| < 2 then [] else [16 * DigitValue(text[0]) + DigitValue(text[1])] + Unhex(text[2..])
  }

  lemma {:induction false} DigitBack(n: nat)
    requires n < 16
    ensures DigitValue(HexDigit(n)) == n
  {
    assert "0123456789abcdef"[10..] == "abcdef";
    if n < 10 {
      assert "0123456789"[n] == ('0' as int + n) as char;
    } else {
      assert "abcdef"[n - 10] == ('a' as int + n - 10) as char;
    }
  }

  lemma {:induction false} HexLength(b: seq<Byte>)
    ensures |Hex(b)| == 2 * |b|
  {
    if b != [] {
      HexLength(b[1..]);
    }
  }

  /** The digits of the k-th byte. */
  lemma {:induction false} HexDigitsAt(b: seq<Byte>, k: nat)
    requires k < |b|
    ensures |Hex(b)| == 2 * |b|
    ensures DigitValue(Hex(b)[2 * k]) == b[k] / 16 && DigitValue(Hex(b)[2 * k + 1]) == b[k] % 16
  {
    HexLength(b);
    if k == 0 {
      DigitBack(b[0] / 16);
      DigitBack(b[0] % 16);
    } else {
      HexDigitsAt(b[1..], k - 1);
      assert Hex(b)[2..] == Hex(b[1..]);
      assert Hex(b)[2 * k] == Hex(b)[2..][2 * (k - 1)] && Hex(b)[2 * k + 1] == Hex(b)[2..][2 * (k - 1) + 1];
    }
  }

  /** Every byte string is read back from its digits. */
  lemma {:induction false} HexBack(b: seq<Byte>)
    ensures Unhex(Hex(b)) == b
  {
    if b != [] {
      var digits := [HexDigit(b[0] / 16), HexDigit(b[0] % 16)];
      HexBack(b[1..]);
      DigitBack(b[0] / 16);
      DigitBack(b[0] % 16);
      DropHead(digits, Hex(b[1..]));
      assert b == [b[0]] + b[1..];
    }
  }

  // ---- PCR values -----------------------------------------------------------

  lemma {:induction false} AfterExtends(s: string, p: string, t: string)
    requires After(s, p).Some?
    ensures After(s + t, p) == Some(After(s, p).value + t)
    decreases |s|
  {
    if s[..|p|] == p {
      assert (s + t)[..|p|] == p && (s + t)[|p|..] == s[|p|..] + t;
    } else {
      AfterExtends(s[1..], p, t);
      assert (s + t)[..|p|] == s[..|p|] && (s + t)[1..] == s[1..] + t;
    }
  }

  lemma {:induction false} LocationAt(items: seq<Item>, i: nat, k: string)
    requires i < |items| && items[i].key == k
    requires forall m :: 0 <= m < i ==> items[m].key != k && !Clashes(items[m], k)
    ensures Location(items, k) == Some(":" + (ValueText(items[i]) + Tail(items[i..])))
    decreases i
  {
    if i == 0 {
      assert items[0..] == items;
    } else {
      LocationAt(items[1..], i - 1, k);
      DropTwice(items, 1, i - 1);
    }
  }

  /** A string is read from an object whatever stands behind the object. */
  lemma {:induction false} StringInside(items: seq<Item>, i: nat, behind: string)
    requires i < |items| && items[i].Text? && Usable(items, items[i].key)
    requires forall m :: 0 <= m < i ==> items[m].key != items[i].key && !Clashes(items[m], items[i].key)
    ensures Get(Json.Object(items) + behind, items[i].key) == items[i].value
  {
    var k := items[i].key;
    var rest := ValueText(items[i]) + Tail(items[i..]);
    LocateObject(items, k);
    LocationAt(items, i, k);
    AfterExtends(Json.Object(items), Key(k), behind);
    Assoc(":", rest, behind);
    ColonHere(rest + behind);
    Assoc(ValueText(items[i]), Tail(items[i..]), behind);
    ReadQuotedText(items[i].value, Tail(items[i..]) + behind);
  }

  /** The members of the inner object. */
  function PcrItems(values: seq<(nat, seq<Byte>)>): (items: seq<Item>)
    ensures |items| == |values|
    decreases |values|
  {
    if values == [] then []
    else
      var (pcr, value) := values[|values| - 1];
      PcrItems(values[..|values| - 1]) + [Text(Decimal(pcr), Hex(value))]
  }

  lemma {:induction false} PcrItemAt(values: seq<(nat, seq<Byte>)>, j: nat)
    requires j < |values|
    ensures PcrItems(values)[j] == Text(Decimal(values[j].0), Hex(values[j].1))
    decreases |values|
  {
    if j < |values| - 1 {
      PcrItemAt(values[..|values| - 1], j);
    }
  }

  lemma {:induction false} HexAlnum(b: seq<Byte>)
    ensures AllAlnum(Hex(b))
  {
    if b != [] {
      HexAlnum(b[1..]);
    }
  }

  lemma {:induction false} DecimalKey(n: nat)
    ensures GoodKey(Decimal(n))
  {
    if n >= 10 {
      DecimalKey(n / 10);
    }
  }

  lemma {:induction false} MembersAreItems(values: seq<(nat, seq<Byte>)>)
    ensures PcrMembers(values) == ItemsText(PcrItems(values))
    decreases |values|
  {
    if values != [] {
      var (front, last) := (values[..|values| - 1], values[|values| - 1]);
      MembersAreItems(front);
      ItemsTextSnoc(PcrItems(front), Text(Decimal(last.0), Hex(last.1)));
      MemberIsItem(last.0, last.1);
      assert |values| == 1 <==> PcrItems(front) == [];
      assert PcrMembers(front) + "" == PcrMembers(front);
    }
  }

  lemma {:induction false} MemberGrouped<T>(front: seq<T>, colon: seq<T>, quote: seq<T>, h: seq<T>)
    ensures front + (colon + quote) + h + quote == (front + colon) + (quote + h + quote)
  {
    Assoc(front, colon, quote);
    Assoc(front + colon, quote, h);
    Assoc(front + colon, quote + h, quote);
  }

  lemma {:induction false} MemberIsItem(pcr: nat, value: seq<Byte>)
    ensures PcrMember(pcr, value) == ItemText(Text(Decimal(pcr), Hex(value)))
  {
    HexAlnum(value);
    EscapeAlnum(Hex(value));
    assert "\":\"" == "\":" + "\"";
    MemberGrouped("\"" + Decimal(pcr), "\":", "\"", Hex(value));
  }

  lemma {:induction false} OneItemText(item: Item)
    ensures Json.Object([item]) == "{" + ItemText(item) + "}"
  {
    assert [item][1..] == [] && ItemText(item) + "" == ItemText(item);
  }

  lemma {:induction false} Sha256Member(inner: string)
    ensures ItemText(Raw("sha256", inner)) == "\"sha256\":" + inner
  {
    assert "\"" + "sha256" + "\":" == "\"sha256\":";
  }

  lemma {:induction false} Sha256Key()
    ensures GoodKey("sha256") && |"sha256"| == 6
  {
  }

  lemma {:induction false} PcrJsonIsObject(values: seq<(nat, seq<Byte>)>)
    ensures PcrJson(values) == Json.Object([Raw("sha256", Json.Object(PcrItems(values)))])
  {
    MembersAreItems(values);
    var inner := Json.Object(PcrItems(values));
    PcrJsonParts(values);
    Sha256Member(inner);
    OneItemText(Raw("sha256", inner));
  }

  lemma {:induction false} PcrPassedOver(pcr: nat, value: seq<Byte>, k: string)
    requires |k| % 2 == 1 && Decimal(pcr) != k
    ensures PassedOver(Text(Decimal(pcr), Hex(value)), k)
  {
    DecimalKey(pcr);
    HexLength(value);
    HexAlnum(value);
    AlnumNoQuote(Hex(value), k);
  }

  /** An object of one verbatim value is searched like that value. */
  lemma {:induction false} RawObjectRead(key: string, inner: string, k: string)
    requires GoodKey(key) && GoodKey(k) && key != k
    ensures Get(Json.Object([Raw(key, inner)]), k) == Get(inner + "}", k)
  {
    var items := [Raw(key, inner)];
    RawReached(items, 0, k);
    assert items[0..] == items && items[1..] == [];
    assert Tail(items) == "" + "}" == "}";
  }

  lemma {:induction false} PcrItemsAround(values: seq<(nat, seq<Byte>)>, j: nat, k: string)
    requires j < |values| && k == Decimal(values[j].0) && |k| % 2 == 1
    requires forall m :: 0 <= m < |values| && m != j ==> Decimal(values[m].0) != k
    ensures var items := PcrItems(values);
            && items[j] == Text(k, Hex(values[j].1)) && Usable(items, k)
            && forall m :: 0 <= m < j ==> items[m].key != k && !Clashes(items[m], k)
  {
    var items := PcrItems(values);
    forall m | 0 <= m < |values|
      ensures items[m].Text? && GoodKey(items[m].key) && (m != j ==> PassedOver(items[m], k))
    {
      PcrItemAt(values, m);
      DecimalKey(values[m].0);
      if m != j {
        PcrPassedOver(values[m].0, values[m].1, k);
      }
    }
    PcrItemAt(values, j);
  }

  lemma {:induction false} InnerRead(items: seq<Item>, j: nat, k: string)
    requires j < |items| && items[j].Text? && items[j].key == k && GoodKey(k) && |k| % 2 == 1 && Usable(items, k)
    requires forall m :: 0 <= m < j ==> items[m].key != k && !Clashes(items[m], k)
    ensures Get(Json.Object([Raw("sha256", Json.Object(items))]), k) == items[j].value
  {
    Sha256Key();
    RawObjectRead("sha256", Json.Object(items), k);
    StringInside(items, j, "}");
  }

  /** The value of a PCR is found behind its index. */
  lemma {:induction false} PcrBack(values: seq<(nat, seq<Byte>)>, j: nat, k: string)
    requires j < |values| && k == Decimal(values[j].0) && |k| % 2 == 1
    requires forall m :: 0 <= m < |values| && m != j ==> Decimal(values[m].0) != k
    ensures Unhex(Get(PcrJson(values), k)) == values[j].1
  {
    PcrItemsAround(values, j, k);
    DecimalKey(values[j].0);
    InnerRead(PcrItems(values), j, k);
    PcrJsonIsObject(values);
    HexBack(values[j].1);
  }

  // ---- Arrays of strings ----------------------------------------------------

  /** What follows a string, read from behind its opening quote. */
  function BehindString(s: string): (r: string)
    ensures |r| <= |s|
    decreases |s|
  {
    if s == "" then ""
    else if s[0] == '\"' then s[1..]
    else if s[0] == '\\' && |s| > 1 then BehindString(s[2..])
    else BehindString(s[1..])
  }

  /** The strings of an array, in order. */
  function ArrayItems(s: string): (r: seq<string>)
    decreases |s|
  {
    if s == "" then []
    else if s[0] == '\"' then [ReadString(s[1..])] + ArrayItems(BehindString(s[1..]))
    else ArrayItems(s[1..])
  }

  lemma {:induction false} BehindEscape(c: char, tail: string)
    ensures BehindString(EscapeChar(c) + tail) == BehindString(tail)
  {
    var s := EscapeChar(c) + tail;
    if |EscapeChar(c)| == 2 {
      assert s[2..] == tail;
    } else {
      assert s[1..] == tail;
    }
  }

  lemma {:induction false} BehindEscaped(v: string, rest: string)
    ensures BehindString(Escape(v) + "\"" + rest) == rest
  {
    if v != "" {
      var tail := Escape(v[1..]) + "\"" + rest;
      BehindEscaped(v[1..], rest);
      BehindEscape(v[0], tail);
      Assoc3(EscapeChar(v[0]), Escape(v[1..]), "\"", rest);
    } else {
      assert ("" + "\"" + rest)[1..] == rest;
    }
  }

  lemma {:induction false} QuotedItem(v: string, rest: string)
    ensures ArrayItems(Quoted(v) + rest) == [v] + ArrayItems(rest)
  {
    var inside := Escape(v) + "\"" + rest;
    assert Quoted(v) + rest == "\"" + inside;
    assert ("\"" + inside)[1..] == inside;
    ReadEscaped(v, rest);
    BehindEscaped(v, rest);
  }

  /** The certificates as PEM texts. */
  function Pems(certs: seq<Cert>): (r: seq<string>) {
    if certs == [] then [] else Pems(certs[..|certs| - 1]) + [Base64.Pem(certs[|certs| - 1])]
  }

  lemma {:induction false} OtherItem(c: char, s: string)
    requires c != '\"'
    ensures ArrayItems([c] + s) == ArrayItems(s)
  {
    assert ([c] + s)[1..] == s;
  }

  lemma {:induction false} ListGrouped(front: string, last: string, rest: string)
    ensures ((front + ",") + last) + rest == front + ([','] + (last + rest))
  {
    Assoc(front + ",", last, rest);
    Assoc(front, ",", last + rest);
  }

  lemma {:induction false} PemListItems(certs: seq<Cert>, rest: string)
    ensures ArrayItems(PemList(certs) + rest) == Pems(certs) + ArrayItems(rest)
    decreases |certs|, 1
  {
    if certs == [] {
      assert "" + rest == rest && Pems(certs) + ArrayItems(rest) == ArrayItems(rest);
    } else {
      PemListStep(certs, certs[..|certs| - 1], Base64.Pem(certs[|certs| - 1]), rest);
    }
  }

  lemma {:induction false} PemListStep(certs: seq<Cert>, front: seq<Cert>, pem: string, rest: string)
    requires certs != [] && front == certs[..|certs| - 1] && pem == Base64.Pem(certs[|certs| - 1])
    ensures ArrayItems(PemList(certs) + rest) == Pems(certs) + ArrayItems(rest)
    decreases |certs|, 0
  {
    var last := Quoted(pem);
    QuotedItem(pem, rest);
    if front == [] {
      assert "" + last == last && PemList(certs) == last && Pems(front) + [pem] == [pem];
    } else {
      PemListItems(front, [','] + (last + rest));
      OtherItem(',', last + rest);
      ListGrouped(PemList(front), last, rest);
    }
    Assoc(Pems(front), [pem], ArrayItems(rest));
  }

  /** The array of certificates is read back, one by one and in order. */
  lemma {:induction false} PemArrayItems(certs: seq<Cert>)
    ensures ArrayItems(PemArray(certs)) == Pems(certs)
  {
    assert PemArray(certs) == ['['] + (PemList(certs) + "]");
    OtherItem('[', PemList(certs) + "]");
    PemListItems(certs, "]");
    OtherItem(']', "");
    assert [']'] + "" == "]" && Pems(certs) + [] == Pems(certs);
  }
}
