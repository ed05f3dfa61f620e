/**
 The flat JSON objects both clients exchange with the server, and the Windows printer and scanner
 for them. Neither side has a JSON parser: a value is found by searching the text for its quoted
 key.
 */
module Json {
  import opened Bytes
  import opened Seqs

  /** One member of an object: a value rendered as a quoted string, or copied as it is. */
  datatype Item = Text(key: string, value: string) | Raw(key: string, value: string)

  // ---- Printing -------------------------------------------------------------

  function EscapeChar(c: char): (r: string) {
    if c == '\"' then "\\\"" else if c == '\\' then "\\\\" else if c == '\n' then "\\n" else [c]
  }

  function Escape(v: string): (r: string) {
    if v == "" then "" else EscapeChar(v[0]) + Escape(v[1..])
  }

  function Quoted(v: string): (r: string) {
    "\"" + Escape(v) + "\""
  }

  function ValueText(item: Item): (r: string) {
    if item.Text? then Quoted(item.value) else item.value
  }

  function ItemText(item: Item): (r: string) {
    "\"" + item.key + "\":" + ValueText(item)
  }

  /** What follows the first item up to the closing brace. */
  function RestText(items: seq<Item>): (r: string)
    decreases |items|
  {
    if items == [] then "" else "," + (ItemText(items[0]) + RestText(items[1..]))
  }

  function ItemsText(items: seq<Item>): (r: string) {
    if items == [] then "" else ItemText(items[0]) + RestText(items[1..])
  }

  function Object(items: seq<Item>): (r: string) {
    "{" + ItemsText(items) + "}"
  }

  /** JsonBuild copies a value verbatim when it looks like JSON already. */
  predicate LooksRaw(v: string) {
    v != "" && (v[0] == '{' || v[0] == '[' || v == "true" || v == "false" || v == "null")
  }

  function ItemOf(field: (string, string)): (r: Item) {
    if LooksRaw(field.1) then Raw(field.0, field.1) else Text(field.0, field.1)
  }

  function ItemsOf(fields: seq<(string, string)>): (r: seq<Item>)
    ensures |r| == |fields|
    ensures forall i :: 0 <= i < |fields| ==> r[i] == ItemOf(fields[i])
  {
    if fields == [] then [] else [ItemOf(fields[0])] + ItemsOf(fields[1..])
  }

  function Build(fields: seq<(string, string)>): (r: string) {
    Object(ItemsOf(fields))
  }

  // ---- Scanning -------------------------------------------------------------

  /** What follows the first occurrence of a pattern. */
  function After(s: string, pattern: string): (r: Option<string>)
    ensures r.Some? ==> |r.value| + |pattern| <= |s|
    decreases |s|
  {
    if |s| < |pattern| then None
    else if s[..|pattern|] == pattern then Some(s[|pattern|..])
    else if s == "" then None
    else After(s[1..], pattern)
  }

  function Key(k: string): (r: string) {
    "\"" + k + "\""
  }

  function SkipBlanks(s: string): (r: string) {
    if s != "" && (s[0] == ' ' || s[0] == '\t') then SkipBlanks(s[1..]) else s
  }

  /** A string value, read from behind its opening quote. */
  function ReadString(s: string): (r: string)
    decreases |s|
  {
    if s == "" || s[0] == '\"' then ""
    else if s[0] == '\\' && |s| > 1 then [if s[1] == 'n' then '\n' else s[1]] + ReadString(s[2..])
    else [s[0]] + ReadString(s[1..])
  }

  predicate Opens(c: char) { c == '{' || c == '[' }

  predicate Closes(c: char) { c == '}' || c == ']' }

  /** Any other value: up to the comma or bracket that ends it at nesting depth 0. */
  function ReadRaw(s: string, depth: nat): (r: string)
    ensures |r| <= |s| && r == s[..|r|]
  {
    if s == "" then ""
    else if Opens(s[0]) then [s[0]] + ReadRaw(s[1..], depth + 1)
    else if Closes(s[0]) then (if depth == 0 then "" else [s[0]] + ReadRaw(s[1..], depth - 1))
    else if depth == 0 && s[0] == ',' then ""
    else [s[0]] + ReadRaw(s[1..], depth)
  }

  function ReadValue(s: string): (r: string) {
    if s == "" then "" else if s[0] == '\"' then ReadString(s[1..]) else ReadRaw(s, 0)
  }

  function Get(json: string, key: string): (r: string) {
    match After(json, Key(key))
    case None => ""
    case Some(rest) =>
      match After(rest, ":")
      case None => ""
      case Some(rest') => ReadValue(SkipBlanks(rest'))
  }

  // ---- The source's loops ---------------------------------------------------

  method AppendEscaped(value: string) returns (text: string)
    ensures text == Escape(value)
  {
    text := "";
    for i := 0 to |value|
      invariant text == Escape(value[..i])
    {
      var c := value[i];
      EscapeSnoc(value[..i], c);
      assert value[..i + 1] == value[..i] + [c];
      if c == '\"' {
        text := text + "\\\"";
      } else if c == '\\' {
        text := text + "\\\\";
      } else if c == '\n' {
        text := text + "\\n";
      } else {
        text := text + [c];
      }
    }
    assert value[..|value|] == value;
  }

  lemma {:induction false} EscapeSnoc(v: string, c: char)
    ensures Escape(v + [c]) == Escape(v) + EscapeChar(c)
  {
    if v == "" {
      assert (v + [c])[1..] == "";
    } else {
      EscapeSnoc(v[1..], c);
      assert (v + [c])[1..] == v[1..] + [c];
      Assoc(EscapeChar(v[0]), Escape(v[1..]), EscapeChar(c));
    }
  }

  lemma {:induction false} RestTextSnoc(items: seq<Item>, item: Item)
    ensures RestText(items + [item]) == RestText(items) + ("," + ItemText(item))
    decreases |items|
  {
    if items == [] {
      assert (items + [item])[1..] == [];
      assert ItemText(item) + "" == ItemText(item);
    } else {
      RestTextSnoc(items[1..], item);
      assert (items + [item])[1..] == items[1..] + [item];
      var (a, b) := (ItemText(items[0]), RestText(items[1..]));
      Assoc(a, b, "," + ItemText(item));
      Assoc(",", a + b, "," + ItemText(item));
    }
  }

  lemma {:induction false} ItemsTextSnoc(items: seq<Item>, item: Item)
    ensures ItemsText(items + [item]) == (if items == [] then "" else ItemsText(items) + ",") + ItemText(item)
  {
    if items == [] {
      assert (items + [item])[1..] == [];
    } else {
      RestTextSnoc(items[1..], item);
      assert (items + [item])[1..] == items[1..] + [item];
      var (a, b) := (ItemText(items[0]), RestText(items[1..]));
      Assoc(a, b, "," + ItemText(item));
      Assoc(a + b, ",", ItemText(item));
    }
  }

  method MemberText(key: string, value: string) returns (text: string)
    ensures text == ItemText(ItemOf((key, value)))
  {
    text := "\"" + key + "\":";
    if value != "" && (value[0] == '{' || value[0] == '[' || value == "true" || value == "false" || value == "null") {
      text := text + value;
    } else {
      var escaped := AppendEscaped(value);
      text := text + ("\"" + escaped + "\"");
    }
  }

  /** The text of the first i members, still open. */
  ghost predicate Printing(json: string, items: seq<Item>, i: nat) {
    i <= |items| && json == "{" + ItemsText(items[..i])
  }

  lemma {:induction false} OneMoreItem(items: seq<Item>, i: nat)
    requires i < |items|
    ensures "{" + ItemsText(items[..i + 1])
            == (if i == 0 then "{" + ItemsText(items[..i]) else "{" + ItemsText(items[..i]) + ",") + ItemText(items[i])
  {
    var before, text := ItemsText(items[..i]), ItemText(items[i]);
    ItemsTextSnoc(items[..i], items[i]);
    TakeMore(items, i);
    if i == 0 {
      assert before == "" && "{" + before == "{" && "" + text == text;
    } else {
      Assoc("{", before, ",");
      Assoc("{", before + ",", text);
    }
  }

  lemma {:induction false} PrintingGoesOn(json: string, items: seq<Item>, i: nat, text: string)
    requires i < |items| && Printing(json, items, i) && text == ItemText(items[i])
    ensures Printing((if i > 0 then json + "," else json) + text, items, i + 1)
  {
    OneMoreItem(items, i);
  }

  lemma {:induction false} Printed(json: string, items: seq<Item>)
    requires Printing(json, items, |items|)
    ensures json + "}" == Object(items)
  {
    assert items[..|items|] == items;
  }

  /** The object's text; the fields are those of a std::map, in key order. */
  method JsonBuild(fields: seq<(string, string)>) returns (json: string)
    ensures json == Build(fields)
  {
    ghost var items := ItemsOf(fields);
    json := "{";
    assert json == "{" + ItemsText([]);
    for i := 0 to |fields|
      invariant Printing(json, items, i)
    {
      var (key, value) := fields[i];
      var text := MemberText(key, value);
      PrintingGoesOn(json, items, i, text);
      if i > 0 {
        json := json + ",";
      }
      json := json + text;
    }
    Printed(json, items);
    json := json + "}";
  }

  /** std::string::find */
  method Find(s: string, pattern: string, start: nat) returns (pos: int)
    requires start <= |s|
    ensures pos < 0 <==> After(s[start..], pattern).None?
    ensures pos >= 0 ==> pos + |pattern| <= |s| && After(s[start..], pattern) == Some(s[pos + |pattern|..])
  {
    pos := start;
    while pos + |pattern| <= |s|
      invariant start <= pos <= |s|
      invariant After(s[pos..], pattern) == After(s[start..], pattern)
    {
      assert s[pos..][..|pattern|] == s[pos..pos + |pattern|];
      assert s[pos..][|pattern|..] == s[pos + |pattern|..];
      if s[pos..pos + |pattern|] == pattern {
        return;
      }
      if pos == |s| {
        break;
      }
      assert s[pos..][1..] == s[pos + 1..];
      pos := pos + 1;
    }
    pos := -1;
  }

  lemma {:induction false} StringStep(json: string, pos: nat, c: char, next: nat, result: string, all: string)
    requires pos < |json| && json[pos] != '\"' && result + ReadString(json[pos..]) == all
    requires var escaped := json[pos] == '\\' && pos + 1 < |json|;
             && next == (if escaped then pos + 2 else pos + 1)
             && c == if !escaped then json[pos] else if json[pos + 1] == 'n' then '\n' else json[pos + 1]
    ensures result + [c] + ReadString(json[next..]) == all
  {
    DropTwice(json, pos, next - pos);
    Assoc(result, [c], ReadString(json[next..]));
  }

  method ScanString(json: string, start: nat) returns (result: string)
    requires start <= |json|
    ensures result == ReadString(json[start..])
  {
    result := "";
    var pos := start;
    ghost var all := ReadString(json[start..]);
    while pos < |json| && json[pos] != '\"'
      invariant start <= pos <= |json|
      invariant result + ReadString(json[pos..]) == all
    {
      ghost var (done, from) := (result, pos);
      var c := json[pos];
      if json[pos] == '\\' && pos + 1 < |json| {
        pos := pos + 1;
        c := if json[pos] == 'n' then '\n' else json[pos];
      }
      result := result + [c];
      pos := pos + 1;
      StringStep(json, from, c, pos, done, all);
    }
    assert result + "" == result;
  }

  /** One character that does not end the value. */
  lemma {:induction false} RawStep(json: string, start: nat, pos: nat, depth: nat, next: nat, all: string)
    requires start <= pos < |json| && json[start..pos] + ReadRaw(json[pos..], depth) == all
    requires next == depth + (if Opens(json[pos]) then 1 else if Closes(json[pos]) then -1 else 0)
    requires depth == 0 ==> json[pos] != ','
    ensures json[start..pos + 1] + ReadRaw(json[pos + 1..], next) == all
  {
    DropTwice(json, pos, 1);
    Extend(json, start, pos);
    Assoc(json[start..pos], [json[pos]], ReadRaw(json[pos + 1..], next));
  }

  method ScanRaw(json: string, start: nat) returns (result: string)
    requires start <= |json|
    ensures result == ReadRaw(json[start..], 0)
  {
    var pos := start;
    var depth := 0;
    ghost var all := ReadRaw(json[start..], 0);
    while pos < |json|
      invariant start <= pos <= |json| && depth >= 0
      invariant json[start..pos] + ReadRaw(json[pos..], depth) == all
    {
      ghost var before := depth;
      if Opens(json[pos]) {
        depth := depth + 1;
      } else if Closes(json[pos]) {
        if depth == 0 { break; }
        depth := depth - 1;
      } else if depth == 0 && (json[pos] == ',' || json[pos] == '}') {
        break;
      }
      RawStep(json, start, pos, before, depth, all);
      pos := pos + 1;
    }
    result := json[start..pos];
    assert result + "" == result;
  }

  method ScanValue(json: string, start: nat) returns (value: string)
    requires start <= |json|
    ensures value == ReadValue(SkipBlanks(json[start..]))
  {
    var pos := start;
    while pos < |json| && (json[pos] == ' ' || json[pos] == '\t')
      invariant start <= pos <= |json|
      invariant SkipBlanks(json[pos..]) == SkipBlanks(json[start..])
    {
      DropTwice(json, pos, 1);
      pos := pos + 1;
    }
    if pos >= |json| { return ""; }
    if json[pos] == '\"' {
      DropTwice(json, pos, 1);
      value := ScanString(json, pos + 1);
    } else {
      value := ScanRaw(json, pos);
    }
  }

  method JsonGet(json: string, key: string) returns (value: string)
    ensures value == Get(json, key)
  {
    var pos := FindValue(json, key);
    value := "";
    if pos.Some? {
      value := ScanValue(json, pos.value);
    }
  }

  /** The position behind the first colon after the quoted key. */
  method FindValue(json: string, key: string) returns (pos: Option<nat>)
    ensures match After(json, Key(key))
            case None => pos.None?
            case Some(rest) =>
              (pos.None? <==> After(rest, ":").None?)
              && (pos.Some? ==> pos.value <= |json| && After(rest, ":") == Some(json[pos.value..]))
  {
    var search := "\"" + key + "\"";
    assert json[0..] == json;
    var found := Find(json, search, 0);
    if found < 0 { return None; }
    var colon := Find(json, ":", found + |search|);
    if colon < 0 { return None; }
    pos := Some(colon + 1);
  }
}
