/**
 What the scanners find in an object that the printers wrote. The search for a quoted key can be
 misled by a string value that equals the key, or that ends in a quote followed by the key, and by
 nothing else; the theorems say exactly what is returned then.
 */
module JsonRoundTrip {
  import opened Bytes
  import opened Seqs
  import opened Json

  predicate Alnum(c: char) {
    'a' <= c <= 'z' || 'A' <= c <= 'Z' || '0' <= c <= '9'
  }

  predicate AllAlnum(k: string) {
    forall i :: 0 <= i < |k| ==> Alnum(k[i])
  }

  predicate GoodKey(k: string) {
    k != "" && AllAlnum(k)
  }

  predicate Prefix(p: string, s: string) {
    |p| <= |s| && s[..|p|] == p
  }

  predicate EndsWith(s: string, e: string) {
    |e| <= |s| && s[|s| - |e|..] == e
  }

  predicate Occurs(p: string, s: string) {
    exists i :: 0 <= i <= |s| && Prefix(p, s[i..])
  }

  /** The values that send the search for `k` astray. */
  predicate Clashes(item: Item, k: string) {
    item.Text? && (item.value == k || EndsWith(item.value, "\"" + k))
  }

  lemma {:induction false} PrefixAt(p: string, s: string, i: nat)
    requires i < |p|
    ensures Prefix(p, s) ==> i < |s| && s[i] == p[i]
  {
    if Prefix(p, s) {
      assert s[i] == s[..|p|][i];
    }
  }

  // ---- Skipping -------------------------------------------------------------

  lemma {:induction false} AfterHere(s: string, p: string)
    requires p != "" && Prefix(p, s)
    ensures After(s, p) == Some(s[|p|..])
  {
  }

  lemma {:induction false} AfterSkip(c: char, s: string, p: string)
    requires p != "" && !Prefix(p, [c] + s)
    ensures After([c] + s, p) == After(s, p)
  {
    var t := [c] + s;
    assert t[1..] == s;
    if |t| < |p| {
      AfterShort(s, p);
    }
  }

  lemma {:induction false} AfterShort(s: string, p: string)
    requires |s| < |p|
    ensures After(s, p) == None
  {
  }

  /** A stretch of characters that cannot start the pattern is passed over. */
  lemma {:induction false} AfterSkipAll(a: string, s: string, p: string)
    requires p != "" && forall i :: 0 <= i < |a| ==> !Prefix(p, (a + s)[i..])
    ensures After(a + s, p) == After(s, p)
  {
    if a == "" {
      assert a + s == s;
    } else {
      var rest := a[1..] + s;
      assert a + s == [a[0]] + rest;
      assert !Prefix(p, (a + s)[0..]) && (a + s)[0..] == a + s;
      AfterSkip(a[0], rest, p);
      forall i | 0 <= i < |a[1..]|
        ensures !Prefix(p, rest[i..])
      {
        DropTwice(a + s, 1, i);
        assert (a + s)[1..] == rest;
        assert !Prefix(p, (a + s)[i + 1..]);
      }
      AfterSkipAll(a[1..], s, p);
    }
  }

  lemma {:induction false} NotAtOther(s: string, k: string)
    requires s == "" || s[0] != '\"'
    ensures !Prefix(Key(k), s)
  {
    PrefixAt(Key(k), s, 0);
  }

  // ---- Quoted text ----------------------------------------------------------

  /** Behind a quote, an escaped text followed by a quote begins with the key and a quote only if
      it is the key. */
  lemma {:induction false} StartsWithKey(v: string, k: string, rest: string)
    requires AllAlnum(k)
    ensures Prefix(k + "\"", Escape(v) + "\"" + rest) <==> v == k
  {
    var s, p := Escape(v) + "\"" + rest, k + "\"";
    PrefixAt(p, s, 0);
    if v == "" {
      assert s[0] == '\"';
      if k != "" {
        assert p[0] == k[0];
      } else {
        assert p == "\"" && s[..1] == "\"";
      }
    } else {
      assert s == EscapeChar(v[0]) + (Escape(v[1..]) + "\"" + rest);
      assert s[0] == EscapeChar(v[0])[0] != '\"';
      if k != "" && v[0] == k[0] {
        var s', p' := Escape(v[1..]) + "\"" + rest, k[1..] + "\"";
        assert s == [k[0]] + s' && p == [k[0]] + p';
        PrefixCons(k[0], p', s');
        StartsWithKey(v[1..], k[1..], rest);
        assert v == [v[0]] + v[1..] && k == [k[0]] + k[1..];
      } else if k != "" {
        assert p[0] == k[0];
        assert EscapeChar(v[0])[0] == '\\' || EscapeChar(v[0])[0] == v[0];
        assert s[0] != p[0];
      } else {
        assert p == "\"";
      }
    }
  }

  lemma {:induction false} PrefixCons(c: char, p: string, s: string)
    ensures Prefix([c] + p, [c] + s) <==> Prefix(p, s)
  {
    if Prefix([c] + p, [c] + s) {
      assert ([c] + s)[..|p| + 1][1..] == s[..|p|];
    }
    if Prefix(p, s) {
      assert ([c] + s)[..|p| + 1] == [c] + s[..|p|];
    }
  }

  lemma {:induction false} EscapeAlnum(k: string)
    requires AllAlnum(k)
    ensures Escape(k) == k
  {
    if k != "" {
      EscapeAlnum(k[1..]);
      assert k == [k[0]] + k[1..];
    }
  }

  /** From a quote: does the key's pattern match here, and what follows if it does? */
  lemma {:induction false} AtQuote(v: string, k: string, rest: string)
    requires AllAlnum(k)
    ensures var s := "\"" + (Escape(v) + "\"" + rest);
            && (Prefix(Key(k), s) <==> v == k)
            && (v == k ==> s[|Key(k)|..] == rest)
  {
    StartsWithKey(v, k, rest);
    var s := Escape(v) + "\"" + rest;
    assert Key(k) == ['\"'] + (k + "\"");
    PrefixCons('\"', k + "\"", s);
    if v == k {
      EscapeAlnum(k);
      assert "\"" + s == Key(k) + rest;
    }
  }

  lemma {:induction false} EndsWithCons(c: char, v: string, e: string)
    ensures EndsWith([c] + v, e) <==> [c] + v == e || EndsWith(v, e)
  {
    var w := [c] + v;
    if |e| <= |v| {
      assert w[|w| - |e|..] == v[|v| - |e|..];
    } else if |e| == |w| {
      assert w[0..] == w;
    }
  }

  /** Inside a string value, up to and including its closing quote. */
  lemma {:induction false} InsideText(v: string, k: string, rest: string)
    requires GoodKey(k) && rest != "" && !Alnum(rest[0])
    ensures After(Escape(v) + "\"" + rest, Key(k))
            == if EndsWith(v, "\"" + k) then Some(rest) else After(rest, Key(k))
  {
    var s := Escape(v) + "\"" + rest;
    if v == "" {
      assert s == ['\"'] + rest;
      PrefixAt(Key(k), s, 1);
      assert Key(k)[1] == k[0] && s[1] == rest[0];
      AfterSkip('\"', rest, Key(k));
    } else {
      var tail := Escape(v[1..]) + "\"" + rest;
      assert s == EscapeChar(v[0]) + tail;
      assert v == [v[0]] + v[1..];
      EndsWithCons(v[0], v[1..], "\"" + k);
      InsideText(v[1..], k, rest);
      if v[0] == '\"' {
        assert s == ['\\'] + ("\"" + tail);
        NotAtOther(s, k);
        AfterSkip('\\', "\"" + tail, Key(k));
        AtQuote(v[1..], k, rest);
        assert v == "\"" + k <==> v[1..] == k;
        if v[1..] == k {
          AfterHere("\"" + tail, Key(k));
        } else {
          AfterSkip('\"', tail, Key(k));
        }
      } else {
        assert v != "\"" + k;
        PlainChar(v[0], tail, k);
      }
    }
  }

  lemma {:induction false} PlainChar(c: char, tail: string, k: string)
    requires c != '\"'
    ensures After(EscapeChar(c) + tail, Key(k)) == After(tail, Key(k))
  {
    var e := EscapeChar(c);
    forall i | 0 <= i < |e|
      ensures !Prefix(Key(k), (e + tail)[i..])
    {
      assert (e + tail)[i..][0] == e[i];
      NotAtOther((e + tail)[i..], k);
    }
    AfterSkipAll(e, tail, Key(k));
  }

  /** A whole quoted text. */
  lemma {:induction false} PastQuoted(v: string, k: string, rest: string)
    requires GoodKey(k) && rest != "" && !Alnum(rest[0])
    ensures After(Quoted(v) + rest, Key(k))
            == if v == k || EndsWith(v, "\"" + k) then Some(rest) else After(rest, Key(k))
  {
    var inside := Escape(v) + "\"" + rest;
    assert Quoted(v) + rest == "\"" + inside;
    AtQuote(v, k, rest);
    InsideText(v, k, rest);
    if v == k {
      AfterHere("\"" + inside, Key(k));
    } else {
      AfterSkip('\"', inside, Key(k));
    }
  }

  lemma {:induction false} AlnumNoQuote(v: string, k: string)
    requires AllAlnum(v)
    ensures !EndsWith(v, "\"" + k)
  {
    if |k| < |v| {
      var i := |v| - |k| - 1;
      assert Alnum(v[i]) && v[i..][0] == v[i];
      assert ("\"" + k)[0] == '\"';
    }
  }

  // ---- Raw text -------------------------------------------------------------

  /** A verbatim value that does not contain the quoted key is passed over: the comma or bracket
      behind it cannot complete a key. */
  lemma {:induction false} PastRaw(v: string, k: string, rest: string)
    requires GoodKey(k) && rest != "" && !Alnum(rest[0]) && rest[0] != '\"'
    requires !Occurs(Key(k), v)
    ensures After(v + rest, Key(k)) == After(rest, Key(k))
  {
    forall i | 0 <= i < |v|
      ensures !Prefix(Key(k), (v + rest)[i..])
    {
      var s, n := (v + rest)[i..], |v| - i;
      if |Key(k)| <= n {
        assert v[i..][..|Key(k)|] == s[..|Key(k)|];
        assert Prefix(Key(k), v[i..]) == Prefix(Key(k), s);
      } else {
        PrefixAt(Key(k), s, n);
        assert s[n] == rest[0];
        assert n == |k| + 1 || Key(k)[n] == k[n - 1];
      }
    }
    AfterSkipAll(v, rest, Key(k));
  }

  // ---- Items ----------------------------------------------------------------

  /** Item i lies in front of the first item with this key. */
  predicate Ahead(items: seq<Item>, k: string, i: nat)
    requires i < |items|
  {
    forall j :: 0 <= j <= i ==> items[j].key != k
  }

  /** Keys are plain, and no verbatim value in front of the key contains it in quotes. */
  predicate Usable(items: seq<Item>, k: string) {
    && (forall i :: 0 <= i < |items| ==> GoodKey(items[i].key))
    && (forall i :: 0 <= i < |items| && items[i].Raw? && Ahead(items, k, i) ==> !Occurs(Key(k), items[i].value))
  }

  /** The end of every value that may be read, up to the one of the key, can be told. */
  predicate AllReadable(items: seq<Item>, k: string) {
    forall i :: 0 <= i < |items| && (i == 0 || Ahead(items, k, i - 1)) ==> Readable(items[i])
  }

  lemma {:induction false} UsableRest(items: seq<Item>, k: string)
    requires items != [] && Usable(items, k) && items[0].key != k
    ensures Usable(items[1..], k)
  {
    var rest := items[1..];
    forall i | 0 <= i < |rest| && rest[i].Raw? && Ahead(rest, k, i)
      ensures !Occurs(Key(k), rest[i].value)
    {
      assert forall j :: 0 < j <= i + 1 ==> items[j] == rest[j - 1];
      assert Ahead(items, k, i + 1);
    }
  }

  /** The text behind an item. */
  function Tail(items: seq<Item>): (r: string)
    requires items != []
    ensures r != "" && (r[0] == ',' || r[0] == '}')
  {
    RestText(items[1..]) + "}"
  }

  /** What the search for the quoted key leaves unread. */
  function Location(items: seq<Item>, k: string): (r: Option<string>)
    decreases |items|
  {
    if items == [] then None
    else if items[0].key == k then Some(":" + (ValueText(items[0]) + Tail(items)))
    else if Clashes(items[0], k) then Some(Tail(items))
    else Location(items[1..], k)
  }

  lemma {:induction false} PastKey(item: Item, k: string, tail: string)
    requires GoodKey(k) && GoodKey(item.key)
    ensures var value := ValueText(item) + tail;
            After(ItemText(item) + tail, Key(k)) == if item.key == k then Some(":" + value) else After(value, Key(k))
  {
    var value := ValueText(item) + tail;
    EscapeAlnum(item.key);
    assert ItemText(item) + tail == Quoted(item.key) + (":" + value);
    PastQuoted(item.key, k, ":" + value);
    AlnumNoQuote(item.key, k);
    NotAtOther(":" + value, k);
    AfterSkip(':', value, Key(k));
  }

  lemma {:induction false} PastItem(item: Item, k: string, tail: string)
    requires GoodKey(k) && GoodKey(item.key) && item.key != k
    requires tail != "" && (tail[0] == ',' || tail[0] == '}')
    requires item.Raw? ==> !Occurs(Key(k), item.value)
    ensures After(ItemText(item) + tail, Key(k)) == if Clashes(item, k) then Some(tail) else After(tail, Key(k))
  {
    PastKey(item, k, tail);
    if item.Text? {
      PastQuoted(item.value, k, tail);
    } else {
      PastRaw(item.value, k, tail);
    }
  }

  lemma {:induction false} Locate(items: seq<Item>, k: string)
    requires GoodKey(k) && Usable(items, k)
    ensures After(ItemsText(items) + "}", Key(k)) == Location(items, k)
    decreases |items|
  {
    if items == [] {
      AfterShort("" + "}", Key(k));
    } else {
      var tail := Tail(items);
      Assoc(ItemText(items[0]), RestText(items[1..]), "}");
      PastKey(items[0], k, tail);
      if items[0].key != k {
        assert Ahead(items, k, 0);
        PastItem(items[0], k, tail);
        UsableRest(items, k);
        Locate(items[1..], k);
        NextItem(items, k);
      }
    }
  }

  lemma {:induction false} NextItem(items: seq<Item>, k: string)
    requires items != []
    ensures After(Tail(items), Key(k)) == After(ItemsText(items[1..]) + "}", Key(k))
  {
    var rest := items[1..];
    if rest == [] {
      assert Tail(items) == "}" == ItemsText(rest) + "}";
    } else {
      assert Tail(items) == [','] + (ItemsText(rest) + "}");
      NotAtOther(Tail(items), k);
      AfterSkip(',', ItemsText(rest) + "}", Key(k));
    }
  }

  lemma {:induction false} LocateObject(items: seq<Item>, k: string)
    requires GoodKey(k) && Usable(items, k)
    ensures After(Object(items), Key(k)) == Location(items, k)
  {
    var inside := ItemsText(items) + "}";
    assert Object(items) == ['{'] + inside;
    NotAtOther(Object(items), k);
    AfterSkip('{', inside, Key(k));
    Locate(items, k);
  }

  // ---- Values ---------------------------------------------------------------

  lemma {:induction false} ReadEscape(c: char, tail: string)
    ensures ReadString(EscapeChar(c) + tail) == [c] + ReadString(tail)
  {
    var s := EscapeChar(c) + tail;
    if |EscapeChar(c)| == 2 {
      assert s[2..] == tail;
    } else {
      assert s[1..] == tail;
    }
  }

  lemma {:induction false} ReadEscaped(v: string, rest: string)
    ensures ReadString(Escape(v) + "\"" + rest) == v
  {
    if v != "" {
      var tail := Escape(v[1..]) + "\"" + rest;
      ReadEscaped(v[1..], rest);
      ReadEscape(v[0], tail);
      Assoc3(EscapeChar(v[0]), Escape(v[1..]), "\"", rest);
      assert v == [v[0]] + v[1..];
    }
  }

  /** Openings minus closings among the first n characters. */
  function Depth(v: string, n: nat): (d: int)
    requires n <= |v|
  {
    if n == 0 then 0
    else Depth(v, n - 1) + (if Opens(v[n - 1]) then 1 else if Closes(v[n - 1]) then -1 else 0)
  }

  /** A verbatim value whose end can be told: every bracket is closed, and commas only occur inside
      brackets. Brackets and commas in nested strings count, as they do for the scanner. */
  predicate Balanced(v: string) {
    && Depth(v, |v|) == 0
    && (forall n :: 0 <= n <= |v| ==> Depth(v, n) >= 0)
    && (forall n :: 0 <= n < |v| && v[n] == ',' ==> Depth(v, n) > 0)
  }

  lemma {:induction false} DepthAt(v: string, n: nat)
    requires Balanced(v) && n < |v|
    ensures Depth(v, n) >= 0 && Depth(v, n + 1) >= 0 && (v[n] == ',' ==> Depth(v, n) > 0)
    ensures Depth(v, n + 1) == Depth(v, n) + (if Opens(v[n]) then 1 else if Closes(v[n]) then -1 else 0)
  {
  }

  lemma {:induction false} ReadRawEnds(rest: string)
    requires rest != "" && (rest[0] == ',' || rest[0] == '}')
    ensures ReadRaw(rest, 0) == ""
  {
  }

  lemma {:induction false} ReadRawMore(c: char, t: string, rest: string, depth: nat, next: nat)
    requires next == depth + (if Opens(c) then 1 else if Closes(c) then -1 else 0) && (c == ',' ==> depth > 0)
    requires ReadRaw(t + rest, next) == t
    ensures ReadRaw(([c] + t) + rest, depth) == [c] + t
  {
    Assoc([c], t, rest);
    ReadRawStep(c, t + rest, depth, next);
  }

  lemma {:induction false} ReadBalanced(v: string, rest: string, n: nat)
    requires Balanced(v) && n <= |v| && rest != "" && (rest[0] == ',' || rest[0] == '}')
    ensures Depth(v, n) >= 0 && ReadRaw(v[n..] + rest, Depth(v, n)) == v[n..]
    decreases |v| - n
  {
    if n == |v| {
      assert v[n..] + rest == rest;
      ReadRawEnds(rest);
    } else {
      ReadBalanced(v, rest, n + 1);
      DepthAt(v, n);
      ReadRawMore(v[n], v[n + 1..], rest, Depth(v, n), Depth(v, n + 1));
      assert v[n..] == [v[n]] + v[n + 1..];
    }
  }

  /** A character that does not end the value is taken. */
  lemma {:induction false} ReadRawStep(c: char, s: string, depth: nat, next: nat)
    requires next == depth + (if Opens(c) then 1 else if Closes(c) then -1 else 0)
    requires c == ',' ==> depth > 0
    ensures ReadRaw([c] + s, depth) == [c] + ReadRaw(s, next)
  {
    assert ([c] + s)[1..] == s;
  }

  predicate Readable(item: Item) {
    item.Raw? ==> Balanced(item.value) && (item.value != "" ==> item.value[0] !in {' ', '\t', '\"'})
  }

  lemma {:induction false} ReadRawText(v: string, tail: string)
    requires Balanced(v) && (v != "" ==> v[0] !in {' ', '\t', '\"'})
    requires tail != "" && (tail[0] == ',' || tail[0] == '}')
    ensures ReadValue(SkipBlanks(v + tail)) == v
  {
    assert v[0..] == v;
    ReadBalanced(v, tail, 0);
    assert (v + tail)[0] == if v == "" then tail[0] else v[0];
  }

  lemma {:induction false} ReadQuotedText(v: string, tail: string)
    ensures ReadValue(SkipBlanks(Quoted(v) + tail)) == v
  {
    var inside := Escape(v) + "\"" + tail;
    assert Quoted(v) + tail == "\"" + inside;
    assert ("\"" + inside)[1..] == inside;
    ReadEscaped(v, tail);
  }

  lemma {:induction false} ReadValueText(item: Item, tail: string)
    requires Readable(item) && tail != "" && (tail[0] == ',' || tail[0] == '}')
    ensures ReadValue(SkipBlanks(ValueText(item) + tail)) == item.value
  {
    if item.Text? {
      ReadQuotedText(item.value, tail);
    } else {
      ReadRawText(item.value, tail);
    }
  }

  // ---- JsonGet --------------------------------------------------------------

  /** What JsonGet returns: the value of the key, unless an earlier value clashes; then the value
      of the field behind that one. */
  function Lookup(items: seq<Item>, k: string): (r: string)
    decreases |items|
  {
    if items == [] then ""
    else if items[0].key == k then items[0].value
    else if Clashes(items[0], k) then (if |items| > 1 then items[1].value else "")
    else Lookup(items[1..], k)
  }

  lemma {:induction false} ColonHere(s: string)
    ensures After(":" + s, ":") == Some(s)
  {
    assert (":" + s)[..1] == ":" && (":" + s)[1..] == s;
  }

  lemma {:induction false} ColonAfter(front: string, s: string)
    requires forall i :: 0 <= i < |front| ==> front[i] != ':'
    ensures After(front + (":" + s), ":") == Some(s)
  {
    forall i | 0 <= i < |front|
      ensures !Prefix(":", (front + (":" + s))[i..])
    {
      assert (front + (":" + s))[i..][0] == front[i];
    }
    AfterSkipAll(front, ":" + s, ":");
    ColonHere(s);
  }

  lemma {:induction false} KeyHasNoColon(k: string)
    requires GoodKey(k)
    ensures forall i :: 0 <= i < |Key(k)| ==> Key(k)[i] != ':'
  {
    forall i | 0 <= i < |Key(k)|
      ensures Key(k)[i] != ':'
    {
      assert i == 0 || i == |Key(k)| - 1 || Key(k)[i] == k[i - 1];
    }
  }

  /** The first colon behind an item's opening quote is its own. */
  lemma {:induction false} ColonOf(item: Item, tail: string)
    requires GoodKey(item.key)
    ensures After(ItemText(item) + tail, ":") == Some(ValueText(item) + tail)
  {
    KeyHasNoColon(item.key);
    ColonText(item.key, ValueText(item), tail);
    ColonAfter(Key(item.key), ValueText(item) + tail);
  }

  lemma {:induction false} ColonText(k: string, value: string, tail: string)
    ensures ("\"" + k + "\":" + value) + tail == Key(k) + (":" + (value + tail))
  {
    assert "\":" == "\"" + ":";
  }

  lemma {:induction false} ColonBehind(items: seq<Item>)
    requires items != [] && (|items| > 1 ==> GoodKey(items[1].key))
    ensures After(Tail(items), ":") == if |items| > 1 then Some(ValueText(items[1]) + Tail(items[1..])) else None
  {
    if |items| > 1 {
      var next := ItemText(items[1]) + Tail(items[1..]);
      assert Tail(items) == [','] + next;
      assert !Prefix(":", [','] + next) by { assert ([','] + next)[..1] == ","; }
      AfterSkip(',', next, ":");
      ColonOf(items[1], Tail(items[1..]));
    } else {
      assert Tail(items) == "}";
      assert "}"[1..] == "";
      AfterShort("", ":");
    }
  }

  /** The exact result of JsonGet on a printed object, whatever the values are. */
  lemma {:induction false} GetIsLookup(items: seq<Item>, k: string)
    requires GoodKey(k) && Usable(items, k) && AllReadable(items, k)
    ensures Get(Object(items), k) == Lookup(items, k)
  {
    LocateObject(items, k);
    LocatedValue(items, k);
  }

  lemma {:induction false} LocatedValue(items: seq<Item>, k: string)
    requires AllReadable(items, k) && forall i :: 0 <= i < |items| ==> GoodKey(items[i].key)
    ensures var found := Location(items, k);
            Lookup(items, k) == if found.None? || After(found.value, ":").None? then ""
                                else ReadValue(SkipBlanks(After(found.value, ":").value))
    decreases |items|
  {
    if items != [] {
      if items[0].key == k {
        ColonHere(ValueText(items[0]) + Tail(items));
        ReadValueText(items[0], Tail(items));
      } else if Clashes(items[0], k) {
        ColonBehind(items);
        if |items| > 1 {
          assert Ahead(items, k, 0);
          ReadValueText(items[1], Tail(items[1..]));
        }
      } else {
        ReadableRest(items, k);
        LocatedValue(items[1..], k);
      }
    }
  }

  lemma {:induction false} ReadableRest(items: seq<Item>, k: string)
    requires items != [] && AllReadable(items, k) && items[0].key != k
    ensures AllReadable(items[1..], k)
  {
    var rest := items[1..];
    forall i | 0 <= i < |rest| && (i == 0 || Ahead(rest, k, i - 1))
      ensures Readable(rest[i])
    {
      assert forall j :: 0 < j <= i ==> items[j] == rest[j - 1];
      assert Ahead(items, k, i);
    }
  }

  predicate DistinctKeys(items: seq<Item>) {
    forall i, j :: 0 <= i < j < |items| ==> items[i].key != items[j].key
  }

  /** The first item that the search for the key of item i stops at. */
  function FirstStop(items: seq<Item>, i: nat): (j: nat)
    requires i < |items|
    ensures j <= i && (j < i ==> Clashes(items[j], items[i].key))
    ensures forall n :: 0 <= n < j ==> !Clashes(items[n], items[i].key)
  {
    if exists j :: 0 <= j < i && Clashes(items[j], items[i].key)
    then StopFrom(items, i, 0)
    else i
  }

  function StopFrom(items: seq<Item>, i: nat, from: nat): (j: nat)
    requires i < |items| && from <= i
    requires exists j :: from <= j < i && Clashes(items[j], items[i].key)
    ensures from <= j < i && Clashes(items[j], items[i].key)
    ensures forall n :: from <= n < j ==> !Clashes(items[n], items[i].key)
    decreases i - from
  {
    if Clashes(items[from], items[i].key) then from else StopFrom(items, i, from + 1)
  }

  lemma {:induction false} LookupFrom(items: seq<Item>, i: nat, n: nat, j: nat)
    requires DistinctKeys(items) && n <= j <= i < |items|
    requires j < i ==> Clashes(items[j], items[i].key)
    requires forall m :: n <= m < j ==> !Clashes(items[m], items[i].key)
    ensures Lookup(items[n..], items[i].key) == if j == i then items[i].value else items[j + 1].value
    decreases j - n
  {
    if n < j {
      assert items[n..][1..] == items[n + 1..];
      assert items[n].key != items[i].key;
      LookupFrom(items, i, n + 1, j);
    } else if j < i {
      assert items[j].key != items[i].key;
      assert items[n..][1] == items[n + 1];
    }
  }

  /** The round trip holds exactly when no earlier value clashes with the key, or the field behind
      the first clash happens to carry the same value. */
  lemma {:induction false} RoundTripIff(items: seq<Item>, i: nat)
    requires i < |items| && DistinctKeys(items) && Usable(items, items[i].key) && AllReadable(items, items[i].key)
    ensures var j := FirstStop(items, i);
            Get(Object(items), items[i].key) == items[i].value <==> j == i || items[j + 1].value == items[i].value
  {
    GetIsLookup(items, items[i].key);
    assert items[0..] == items;
    LookupFrom(items, i, 0, FirstStop(items, i));
  }

  /** JsonGet inverts JsonBuild on every field whose key clashes with no earlier value. */
  lemma {:induction false} RoundTrip(fields: seq<(string, string)>, i: nat)
    requires i < |fields|
    requires DistinctKeys(ItemsOf(fields)) && Usable(ItemsOf(fields), fields[i].0)
    requires forall n :: 0 <= n < |fields| && LooksRaw(fields[n].1) ==> Balanced(fields[n].1)
    requires forall n :: 0 <= n < i ==> !Clashes(ItemOf(fields[n]), fields[i].0)
    ensures Get(Build(fields), fields[i].0) == fields[i].1
  {
    RoundTripIff(ItemsOf(fields), i);
  }

  /** The search for a key goes past this item and on to the next. */
  predicate PassedOver(item: Item, k: string) {
    GoodKey(item.key) && item.key != k && !Clashes(item, k) && (item.Raw? ==> !Occurs(Key(k), item.value))
  }

  lemma {:induction false} PassOne(items: seq<Item>, k: string)
    requires items != [] && GoodKey(k) && PassedOver(items[0], k)
    ensures After(ItemsText(items) + "}", Key(k)) == After(ItemsText(items[1..]) + "}", Key(k))
  {
    Assoc(ItemText(items[0]), RestText(items[1..]), "}");
    PastItem(items[0], k, Tail(items));
    NextItem(items, k);
  }

  lemma {:induction false} PassBehind(items: seq<Item>, n: nat, k: string)
    requires n <= |items| && GoodKey(k) && forall m :: 0 <= m < n ==> PassedOver(items[m], k)
    ensures After(ItemsText(items) + "}", Key(k)) == After(ItemsText(items[n..]) + "}", Key(k))
    decreases n
  {
    if n > 0 {
      PassOne(items, k);
      PassBehind(items[1..], n - 1, k);
      DropTwice(items, 1, n - 1);
    } else {
      assert items[0..] == items;
    }
  }

  /** A verbatim value that the search reaches: it goes on inside the value, and gets behind it only if
      the value does not contain the quoted key. */
  lemma {:induction false} RawReached(items: seq<Item>, n: nat, k: string)
    requires n < |items| && GoodKey(k) && forall m :: 0 <= m < n ==> PassedOver(items[m], k)
    requires items[n].Raw? && GoodKey(items[n].key) && items[n].key != k
    ensures Get(Object(items), k) == Get(items[n].value + Tail(items[n..]), k)
  {
    var (inside, rest) := (ItemsText(items) + "}", items[n..]);
    assert Object(items) == ['{'] + inside;
    NotAtOther(Object(items), k);
    AfterSkip('{', inside, Key(k));
    PassBehind(items, n, k);
    Assoc(ItemText(rest[0]), RestText(rest[1..]), "}");
    PastKey(rest[0], k, Tail(rest));
  }

  lemma {:induction false} LocationNone(items: seq<Item>, k: string)
    requires forall m :: 0 <= m < |items| ==> items[m].key != k && !Clashes(items[m], k)
    ensures Location(items, k) == None
    decreases |items|
  {
    if items != [] {
      LocationNone(items[1..], k);
    }
  }

  lemma {:induction false} NotFoundIsAbsent(s: string, p: string)
    requires After(s, p).None?
    ensures !Occurs(p, s)
    decreases |s|
  {
    forall i | 0 <= i <= |s|
      ensures !Prefix(p, s[i..])
    {
      if i > 0 && |s| >= |p| {
        NotFoundIsAbsent(s[1..], p);
        assert s[i..] == s[1..][i - 1..];
        assert !Occurs(p, s[1..]);
      } else if i == 0 {
        assert s[0..] == s;
      }
    }
  }

  lemma {:induction false} FoundOccurs(s: string, p: string)
    requires After(s, p).Some?
    ensures Occurs(p, s)
    decreases |s|
  {
    if s[..|p|] == p {
      assert s[0..] == s && Prefix(p, s[0..]);
    } else {
      FoundOccurs(s[1..], p);
      var i :| 0 <= i <= |s[1..]| && Prefix(p, s[1..][i..]);
      assert s[1..][i..] == s[i + 1..];
    }
  }

  /** An object hides no key that none of its items has, contains or ends with. */
  lemma {:induction false} ObjectHides(items: seq<Item>, k: string)
    requires GoodKey(k) && forall m :: 0 <= m < |items| ==> PassedOver(items[m], k)
    ensures !Occurs(Key(k), Object(items))
  {
    assert Usable(items, k);
    LocateObject(items, k);
    LocationNone(items, k);
    NotFoundIsAbsent(Object(items), Key(k));
  }

  /** A value equal to a later key makes JsonGet answer with the wrong field. */
  lemma {:induction false} ClashExample()
    ensures var fields := [("a", "key"), ("b", "wrong"), ("key", "right")];
            Get(Build(fields), "key") == "wrong"
  {
    var items := [Text("a", "key"), Text("b", "wrong"), Text("key", "right")];
    var fields := [("a", "key"), ("b", "wrong"), ("key", "right")];
    assert ItemsOf(fields) == items;
    GetIsLookup(items, "key");
  }

  /** So does a verbatim value that contains the quoted key. */
  lemma {:induction false} RawClashExample()
    ensures Get(Build([("a", "[\"key\":7]"), ("key", "right")]), "key") == "7"
  {
    var items := [Raw("a", "[\"key\":7]"), Text("key", "right")];
    assert ItemsOf([("a", "[\"key\":7]"), ("key", "right")]) == items;
    FirstMember(Key("key"), RestText(items[1..]));
    InnerKeyFound(RestText(items[1..]) + "}");
  }

  lemma {:induction false} FirstMember(key: string, rest: string)
    requires key == "\"key\""
    ensures "{" + (ItemText(Raw("a", "[\"key\":7]")) + rest) + "}" == "{\"a\":[" + (key + (":" + ("7]" + (rest + "}"))))
  {
    assert ItemText(Raw("a", "[\"key\":7]")) == "\"a\":[" + (key + ":7]");
    assert "{" + ("\"a\":[" + (key + ":7]")) == "{\"a\":[" + key + (":" + "7]");
  }

  lemma {:induction false} InnerKeyFound(behind: string)
    ensures Get("{\"a\":[" + (Key("key") + (":" + ("7]" + behind))), "key") == "7"
  {
    var front, value := "{\"a\":[", "7]" + behind;
    var rest := Key("key") + (":" + value);
    forall i | 0 <= i < |front|
      ensures !Prefix(Key("key"), (front + rest)[i..])
    {
      PrefixAt(Key("key"), (front + rest)[i..], 0);
      PrefixAt(Key("key"), (front + rest)[i..], 1);
      assert Key("key")[0] == '\"' && Key("key")[1] == 'k';
      assert forall j :: 0 <= j < 2 && i + j < |front| ==> (front + rest)[i..][j] == front[i + j];
    }
    AfterSkipAll(front, rest, Key("key"));
    DropHead(Key("key"), ":" + value);
    AfterHere(rest, Key("key"));
    ColonHere(value);
    assert value[0] == '7' && value[1..][0] == ']';
    assert ReadRaw(value[1..], 0) == "";
  }

  // ---- Plain values ---------------------------------------------------------

  /** Text without structure: no quotes, brackets or commas. Base64 is of this kind. */
  predicate Plain(v: string) {
    forall i :: 0 <= i < |v| ==> v[i] !in {'\"', '{', '[', '}', ']', ',', ' ', '\t'}
  }

  lemma {:induction false} PlainDepth(v: string, n: nat)
    requires Plain(v) && n <= |v|
    ensures Depth(v, n) == 0
  {
    if n > 0 {
      PlainDepth(v, n - 1);
    }
  }

  /** Such a value is readable however it is rendered, and hides no quoted key. */
  lemma {:induction false} PlainValue(key: string, v: string, k: string)
    requires Plain(v)
    ensures Readable(ItemOf((key, v))) && !Occurs(Key(k), v)
    ensures !EndsWith(v, "\"" + k)
  {
    forall n | 0 <= n <= |v|
      ensures Depth(v, n) == 0
    {
      PlainDepth(v, n);
    }
    forall i | 0 <= i <= |v|
      ensures !Prefix(Key(k), v[i..])
    {
      NotAtOther(v[i..], k);
    }
    if |k| < |v| {
      assert v[|v| - |k| - 1..][0] == v[|v| - |k| - 1];
      assert ("\"" + k)[0] == '\"';
    }
  }
}
