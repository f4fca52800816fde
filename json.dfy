/**
 * `JSON.stringify` on the values the request builders serialise: page lists,
 * the merge order, and the caller's signature, edit and redaction objects.
 * Numbers are integers here; object members keep the caller's order.
 */
module Json {
  import opened Wrappers
  import opened Text

  datatype Json =
    | JNull
    | JBool(b: bool)
    | JNumber(n: int)
    | JString(s: string)
    | JArray(items: seq<Json>)
    | JObject(members: seq<(string, Json)>)

  /** Hexadecimal digit, lower case, as `JSON.stringify` writes it in `\u00XX`. */
  function HexDigit(d: nat): (c: char)
    requires d < 16
  {
    if d < 10 then ('0' as int + d) as char else ('a' as int + d - 10) as char
  }

  function HexValue(c: char): Option<nat>
  {
    if '0' <= c <= '9' then Some(c as int - '0' as int)
    else if 'a' <= c <= 'f' then Some(c as int - 'a' as int + 10)
    else if 'A' <= c <= 'F' then Some(c as int - 'A' as int + 10)
    else None
  }

  /** How one character appears inside a JSON string literal. */
  function EscapeChar(c: char): (e: string)
    ensures c != '"' && c != '\\' && c >= ' ' ==> e == [c]
    ensures c == '"' || c == '\\' || c < ' ' ==> |e| >= 2 && e[0] == '\\'
    ensures forall i :: 0 <= i < |e| ==> e[i] >= ' '
  {
    if c == '"' then "\\\""
    else if c == '\\' then "\\\\"
    else if c == '\U{8}' then "\\b"
    else if c == '\U{C}' then "\\f"
    else if c == '\n' then "\\n"
    else if c == '\r' then "\\r"
    else if c == '\t' then "\\t"
    else if c < ' ' then "\\u00" + [HexDigit(c as int / 16), HexDigit(c as int % 16)]
    else [c]
  }

  function Escape(s: string): string
  {
    if s == "" then "" else EscapeChar(s[0]) + Escape(s[1..])
  }

  function Quote(s: string): string { "\"" + Escape(s) + "\"" }

  function Stringify(j: Json): string
    decreases j
  {
    match j
    case JNull => "null"
    case JBool(b) => BoolToString(b)
    case JNumber(n) => IntToString(n)
    case JString(s) => Quote(s)
    case JArray(items) =>
      "[" + Join(seq(|items|, i requires 0 <= i < |items| => Stringify(items[i])), ',') + "]"
    case JObject(members) =>
      "{" + Join(seq(|members|, i requires 0 <= i < |members| =>
        Quote(members[i].0) + ":" + Stringify(members[i].1)), ',') + "}"
  }

  /** Reading a string literal's body back: the inverse of `Escape` that a JSON parser applies. */
  function Unescape(t: string): Option<string>
    decreases |t|
  {
    if t == "" then Some("")
    else if t[0] != '\\' then
      if t[0] == '"' || t[0] < ' ' then None
      else Prepend(t[0], Unescape(t[1..]))
    else if |t| < 2 then None
    else if t[1] == '"' then Prepend('"', Unescape(t[2..]))
    else if t[1] == '\\' then Prepend('\\', Unescape(t[2..]))
    else if t[1] == 'b' then Prepend('\U{8}', Unescape(t[2..]))
    else if t[1] == 'f' then Prepend('\U{C}', Unescape(t[2..]))
    else if t[1] == 'n' then Prepend('\n', Unescape(t[2..]))
    else if t[1] == 'r' then Prepend('\r', Unescape(t[2..]))
    else if t[1] == 't' then Prepend('\t', Unescape(t[2..]))
    else if t[1] == 'u' && |t| >= 6 && t[2] == '0' && t[3] == '0'
      && HexValue(t[4]).Some? && HexValue(t[5]).Some? then
      Prepend((16 * HexValue(t[4]).value + HexValue(t[5]).value) as char, Unescape(t[6..]))
    else None
  }

  function Prepend(c: char, rest: Option<string>): Option<string>
  {
    match rest
    case None => None
    case Some(s) => Some([c] + s)
  }

  lemma UnescapeChar(c: char, rest: string)
    ensures Unescape(EscapeChar(c) + rest) == Prepend(c, Unescape(rest))
  {
    var t := EscapeChar(c) + rest;
    if c == '"' || c == '\\' || c == '\U{8}' || c == '\U{C}' || c == '\n' || c == '\r' || c == '\t' {
      assert t[2..] == rest;
    } else if c < ' ' {
      var hi := c as int / 16;
      var lo := c as int % 16;
      assert t[..6] == "\\u00" + [HexDigit(hi), HexDigit(lo)];
      assert t[6..] == rest;
      assert HexValue(HexDigit(hi)) == Some(hi);
      assert HexValue(HexDigit(lo)) == Some(lo);
      assert (16 * hi + lo) as char == c;
    } else {
      assert t[1..] == rest;
    }
  }

  /** Escaping loses nothing: a parser reads back exactly the string that was written. */
  lemma {:induction false} UnescapeEscape(s: string)
    ensures Unescape(Escape(s)) == Some(s)
    decreases |s|
  {
    if s != "" {
      UnescapeChar(s[0], Escape(s[1..]));
      UnescapeEscape(s[1..]);
      assert [s[0]] + s[1..] == s;
    }
  }

  /** An escaped string never holds a bare quote, so the literal ends where `Quote` put its closing quote. */
  lemma {:induction false} EscapeHasNoBareQuote(s: string)
    ensures forall i :: 0 <= i < |Escape(s)| && Escape(s)[i] == '"' ==> i > 0 && Escape(s)[i - 1] == '\\'
    decreases |s|
  {
    if s != "" {
      EscapeHasNoBareQuote(s[1..]);
      var e := EscapeChar(s[0]);
      var rest := Escape(s[1..]);
      assert Escape(s) == e + rest;
      forall i | 0 <= i < |e + rest| && (e + rest)[i] == '"'
        ensures i > 0 && (e + rest)[i - 1] == '\\'
      {
        if i >= |e| {
          assert (e + rest)[i] == rest[i - |e|];
          if i - |e| == 0 {
            assert false;
          }
          assert (e + rest)[i - 1] == rest[i - |e| - 1];
        }
      }
    }
  }

  // ----- integer arrays -----

  function Numbers(xs: seq<int>): (j: Json)
    ensures j.JArray? && |j.items| == |xs|
    ensures forall i :: 0 <= i < |xs| ==> j.items[i] == JNumber(xs[i])
  {
    JArray(seq(|xs|, i requires 0 <= i < |xs| => JNumber(xs[i])))
  }

  /** A receiver's reading of `[n1,n2,...]`. */
  function ParseIntArray(s: string): Option<seq<int>>
  {
    if |s| < 2 || s[0] != '[' || s[|s| - 1] != ']' then None
    else
      var inner := s[1..|s| - 1];
      if inner == "" then Some([])
      else ParseInts(Split(inner, {','}))
  }

  function ParseInts(parts: seq<string>): Option<seq<int>>
  {
    if parts == [] then Some([])
    else
      match (ParseInt(parts[0]), ParseInts(parts[1..]))
      case (Some(x), Some(rest)) => Some([x] + rest)
      case _ => None
  }

  lemma IntToStringHasNoComma(i: int)
    ensures NoneIn(IntToString(i), {','})
  {
    var s := IntToString(i);
    if i < 0 {
      assert s == "-" + NatToString(-i);
      assert forall k :: 1 <= k < |s| ==> s[k] == NatToString(-i)[k - 1];
    }
  }

  lemma {:induction false} ParseIntsOfTexts(xs: seq<int>)
    ensures ParseInts(seq(|xs|, i requires 0 <= i < |xs| => IntToString(xs[i]))) == Some(xs)
    decreases |xs|
  {
    var texts := seq(|xs|, i requires 0 <= i < |xs| => IntToString(xs[i]));
    if xs != [] {
      IntToStringRoundTrip(xs[0]);
      ParseIntsOfTexts(xs[1..]);
      assert texts[1..] == seq(|xs[1..]|, i requires 0 <= i < |xs[1..]| => IntToString(xs[1..][i]));
      assert [xs[0]] + xs[1..] == xs;
    }
  }

  /** `JSON.stringify` of a list of integers is read back as the same list. */
  lemma IntArrayRoundTrip(xs: seq<int>)
    ensures ParseIntArray(Stringify(Numbers(xs))) == Some(xs)
  {
    var j := Numbers(xs);
    var texts := seq(|xs|, i requires 0 <= i < |xs| => IntToString(xs[i]));
    assert seq(|j.items|, i requires 0 <= i < |j.items| => Stringify(j.items[i])) == texts;
    var s := Stringify(j);
    assert s == "[" + Join(texts, ',') + "]";
    assert s[1..|s| - 1] == Join(texts, ',');
    ParseIntsOfTexts(xs);
    if xs != [] {
      forall i | 0 <= i < |texts| ensures NoneIn(texts[i], {','}) {
        IntToStringHasNoComma(xs[i]);
      }
      SplitJoin(texts, ',');
      assert Join(texts, ',') != "" by {
        JoinStartsWithFirst(texts, ',');
      }
    }
  }

  lemma JoinStartsWithFirst(parts: seq<string>, sep: char)
    requires |parts| >= 1
    ensures |Join(parts, sep)| >= |parts[0]|
  {
  }

  lemma StringifyExamples()
    ensures Stringify(Numbers([1, 2, 3])) == "[1,2,3]"
    ensures Stringify(Numbers([])) == "[]"
    ensures Stringify(JString("a\"b")) == "\"a\\\"b\""
  {
    var j := Numbers([1, 2, 3]);
    assert IntToString(1) == "1" && IntToString(2) == "2" && IntToString(3) == "3";
    assert Join(["1", "2", "3"], ',') == "1,2,3";
    assert seq(|j.items|, i requires 0 <= i < |j.items| => Stringify(j.items[i])) == ["1", "2", "3"];
    var e := Numbers([]);
    assert seq(|e.items|, i requires 0 <= i < |e.items| => Stringify(e.items[i])) == [];
    assert Escape("a\"b") == "a\\\"b";
  }
}
