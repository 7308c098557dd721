/**
 * The part of ECMAScript JSON (ECMA-262 section 25.5) the event payload uses:
 * `JSON.stringify` without indentation and `JSON.parse`, over null, booleans,
 * strings, arrays and objects. An object is its list of members in insertion
 * order.
 */
module Json {
  import opened Wrappers
  import Decimal

  datatype Json =
    | JNull
    | JBool(b: bool)
    | JString(str: string)
    | JArray(items: seq<Json>)
    | JObject(members: seq<Member>)

  datatype Member = Member(key: string, value: Json)

  /** Property access `o[key]`: the value stored under `key` (the last member with it), if any. */
  function Get(members: seq<Member>, key: string): (r: Option<Json>)
    ensures r.Some? <==> exists i :: 0 <= i < |members| && members[i].key == key
  {
    if members == [] then None
    else if members[|members| - 1].key == key then Some(members[|members| - 1].value)
    else Get(members[..|members| - 1], key)
  }

  /** `v.hasOwnProperty(key)`: only an object has own properties here. */
  predicate HasOwnProperty(v: Json, key: string)
  {
    v.JObject? && Get(v.members, key).Some?
  }

  // ---- JSON.stringify ----

  function HexDigit(n: nat): (c: char)
    requires n < 16
    ensures Decimal.RadixDigit(c, 16) == n
  {
    "0123456789abcdef"[n]
  }

  /** One character of a quoted string (QuoteJSONString). */
  function EscapeChar(c: char): string
  {
    if c == '\U{8}' then "\\b"
    else if c == '\t' then "\\t"
    else if c == '\n' then "\\n"
    else if c == '\U{C}' then "\\f"
    else if c == '\r' then "\\r"
    else if c == '"' then "\\\""
    else if c == '\\' then "\\\\"
    else if c < ' ' then "\\u00" + [HexDigit(c as int / 16), HexDigit(c as int % 16)]
    else [c]
  }

  function Escape(s: string): string
  {
    if s == [] then [] else EscapeChar(s[0]) + Escape(s[1..])
  }

  function Quote(s: string): string
  {
    "\"" + Escape(s) + "\""
  }

  /** The characters a value's text can start with. */
  predicate StartsValue(c: char)
  {
    c == 'n' || c == 't' || c == 'f' || c == '"' || c == '[' || c == '{'
  }

  function Stringify(v: Json): (r: string)
    ensures r != [] && StartsValue(r[0]) && !IsJsonSpace(r[0])
    decreases v
  {
    match v
    case JNull => "null"
    case JBool(b) => if b then "true" else "false"
    case JString(s) => Quote(s)
    case JArray(xs) => "[" + StringifyItems(xs) + "]"
    case JObject(ms) => "{" + StringifyMembers(ms) + "}"
  }

  function StringifyItems(xs: seq<Json>): string
    decreases xs
  {
    if xs == [] then ""
    else if |xs| == 1 then Stringify(xs[0])
    else Stringify(xs[0]) + "," + StringifyItems(xs[1..])
  }

  function StringifyMember(m: Member): string
    decreases m
  {
    Quote(m.key) + ":" + Stringify(m.value)
  }

  function StringifyMembers(ms: seq<Member>): string
    decreases ms
  {
    if ms == [] then ""
    else if |ms| == 1 then StringifyMember(ms[0])
    else StringifyMember(ms[0]) + "," + StringifyMembers(ms[1..])
  }

  // ---- JSON.parse ----

  /** The white space JSON allows between tokens. */
  predicate IsJsonSpace(c: char)
  {
    c == ' ' || c == '\t' || c == '\n' || c == '\r'
  }

  function SkipSpace(s: string): (r: string)
    ensures |r| <= |s| && r == s[|s| - |r|..]
    ensures r == [] || !IsJsonSpace(r[0])
  {
    if s != [] && IsJsonSpace(s[0]) then SkipSpace(s[1..]) else s
  }

  function Prepend<T>(x: T, r: Option<(seq<T>, string)>): Option<(seq<T>, string)>
  {
    match r
    case None => None
    case Some((xs, rest)) => Some(([x] + xs, rest))
  }

  /** The value of a `\u` escape's four hex digits, when they are four hex digits. */
  function HexQuad(s: string): (r: Option<nat>)
    requires |s| == 4
    ensures r.Some? ==> r.value < 0x10000
  {
    var d := seq(4, i requires 0 <= i < 4 => Decimal.RadixDigit(s[i], 16));
    if d[0] < 0 || d[1] < 0 || d[2] < 0 || d[3] < 0 then None
    else Some(((d[0] * 16 + d[1]) * 16 + d[2]) * 16 + d[3])
  }

  /** The characters of a string literal after its opening quote, and what follows the closing one. */
  function ParseChars(s: string): (r: Option<(string, string)>)
    ensures r.Some? ==> |r.value.1| < |s|
    decreases |s|
  {
    if s == [] then None
    else if s[0] == '"' then Some(([], s[1..]))
    else if s[0] == '\\' then
      if |s| < 2 then None
      else if s[1] == 'u' then
        if |s| < 6 then None
        else match HexQuad(s[2..6])
          case None => None
          case Some(n) =>
            if 0xD800 <= n < 0xE000 then None
            else Prepend(n as char, ParseChars(s[6..]))
      else
        var e := s[1];
        var c := if e == 'b' then '\U{8}' else if e == 't' then '\t' else if e == 'n' then '\n'
                 else if e == 'f' then '\U{C}' else if e == 'r' then '\r' else e;
        if e in "\"\\/btnfr" then Prepend(c, ParseChars(s[2..])) else None
    else if s[0] < ' ' then None
    else Prepend(s[0], ParseChars(s[1..]))
  }

  /** A value starting at `s[0]`, and the text after it. */
  function ParseValue(s: string): (r: Option<(Json, string)>)
    ensures r.Some? ==> |r.value.1| < |s|
    decreases |s|, 0
  {
    if s == [] then None
    else if s[0] == 'n' then
      if |s| >= 4 && s[..4] == "null" then Some((JNull, s[4..])) else None
    else if s[0] == 't' then
      if |s| >= 4 && s[..4] == "true" then Some((JBool(true), s[4..])) else None
    else if s[0] == 'f' then
      if |s| >= 5 && s[..5] == "false" then Some((JBool(false), s[5..])) else None
    else if s[0] == '"' then AsString(ParseChars(s[1..]))
    else if s[0] == '[' then ParseArray(SkipSpace(s[1..]))
    else if s[0] == '{' then ParseObject(SkipSpace(s[1..]))
    else None
  }

  function AsString(r: Option<(string, string)>): (q: Option<(Json, string)>)
    ensures q.Some? <==> r.Some?
    ensures q.Some? ==> q.value.1 == r.value.1
  {
    match r
    case None => None
    case Some((str, rest)) => Some((JString(str), rest))
  }

  /** An array after its `[` and any white space. */
  function ParseArray(t: string): (r: Option<(Json, string)>)
    ensures r.Some? ==> |r.value.1| < |t|
    decreases |t|, 3
  {
    if t != [] && t[0] == ']' then Some((JArray([]), t[1..]))
    else
      match ParseItems(t)
      case None => None
      case Some((xs, rest)) => Some((JArray(xs), rest))
  }

  /** One or more comma-separated values and the closing `]`. */
  function ParseItems(s: string): (r: Option<(seq<Json>, string)>)
    ensures r.Some? ==> |r.value.1| < |s|
    decreases |s|, 2
  {
    match ParseValue(s)
    case None => None
    case Some((v, r)) => ItemsTail(v, SkipSpace(r))
  }

  /** What follows one item: a comma and more items, or the closing `]`. */
  function ItemsTail(v: Json, u: string): (r: Option<(seq<Json>, string)>)
    ensures r.Some? ==> |r.value.1| < |u|
    decreases |u|, 1
  {
    if u != [] && u[0] == ',' then Prepend(v, ParseItems(SkipSpace(u[1..])))
    else if u != [] && u[0] == ']' then Some(([v], u[1..]))
    else None
  }

  /** An object after its `{` and any white space. */
  function ParseObject(t: string): (r: Option<(Json, string)>)
    ensures r.Some? ==> |r.value.1| < |t|
    decreases |t|, 3
  {
    if t != [] && t[0] == '}' then Some((JObject([]), t[1..]))
    else
      match ParseMembers(t)
      case None => None
      case Some((ms, rest)) => Some((JObject(ms), rest))
  }

  /** One or more comma-separated members and the closing `}`. */
  function ParseMembers(s: string): (r: Option<(seq<Member>, string)>)
    ensures r.Some? ==> |r.value.1| < |s|
    decreases |s|, 2
  {
    match ParseMember(s)
    case None => None
    case Some((m, u)) => MembersTail(m, u)
  }

  /** What follows one member: a comma and more members, or the closing `}`. */
  function MembersTail(m: Member, u: string): (r: Option<(seq<Member>, string)>)
    ensures r.Some? ==> |r.value.1| < |u|
    decreases |u|, 1
  {
    if u != [] && u[0] == ',' then Prepend(m, ParseMembers(SkipSpace(u[1..])))
    else if u != [] && u[0] == '}' then Some(([m], u[1..]))
    else None
  }

  /** One `"key": value` member, and the text after it with leading white space skipped. */
  function ParseMember(s: string): (r: Option<(Member, string)>)
    ensures r.Some? ==> |r.value.1| < |s|
    decreases |s|, 1
  {
    if s == [] || s[0] != '"' then None
    else
      match ParseChars(s[1..])
      case None => None
      case Some((k, r)) => MemberValue(k, SkipSpace(r))
  }

  /** The colon and the value of a member whose key is `k`. */
  function MemberValue(k: string, t: string): (r: Option<(Member, string)>)
    ensures r.Some? ==> |r.value.1| < |t|
    decreases |t|, 0
  {
    if t == [] || t[0] != ':' then None
    else
      match ParseValue(SkipSpace(t[1..]))
      case None => None
      case Some((v, r)) => Some((Member(k, v), SkipSpace(r)))
  }

  /** `JSON.parse(s)`: one value, surrounded by nothing but white space; `None` where it throws. */
  function Parse(s: string): Option<Json>
  {
    match ParseValue(SkipSpace(s))
    case None => None
    case Some((v, rest)) => if SkipSpace(rest) == [] then Some(v) else None
  }

  // ---- the round trip ----

  lemma Split(c: char, body: string)
    ensures ([c] + body)[0] == c && ([c] + body)[1..] == body
  {
  }

  lemma HeadTail<T>(xs: seq<T>)
    requires xs != []
    ensures [xs[0]] + xs[1..] == xs
  {
  }

  lemma SkipNoSpace(s: string)
    requires s != [] && !IsJsonSpace(s[0])
    ensures SkipSpace(s) == s
  {
  }

  /** A control character without a short escape travels as `\u00XX`. */
  lemma ControlEscapeRoundTrip(c: char, rest: string)
    requires c < ' ' && c != '\U{8}' && c != '\t' && c != '\n' && c != '\U{C}' && c != '\r'
    ensures ParseChars(EscapeChar(c) + rest) == Prepend(c, ParseChars(rest))
  {
    var h1, h2 := HexDigit(c as int / 16), HexDigit(c as int % 16);
    var s := EscapeChar(c) + rest;
    assert EscapeChar(c) == ['\\', 'u', '0', '0', h1, h2];
    assert s[0] == '\\' && s[1] == 'u';
    assert s[2..6] == ['0', '0', h1, h2];
    assert HexQuad(s[2..6]) == Some(c as int);
    assert s[6..] == rest;
  }

  lemma EscapeCharRoundTrip(c: char, rest: string)
    ensures ParseChars(EscapeChar(c) + rest) == Prepend(c, ParseChars(rest))
  {
    var e := EscapeChar(c);
    if c < ' ' && c != '\U{8}' && c != '\t' && c != '\n' && c != '\U{C}' && c != '\r' {
      ControlEscapeRoundTrip(c, rest);
    } else if e == [c] {
      Split(c, rest);
    } else {
      assert (e + rest)[2..] == rest;
    }
  }

  lemma {:induction false} EscapeRoundTrip(str: string, rest: string)
    ensures ParseChars(Escape(str) + "\"" + rest) == Some((str, rest))
  {
    if str == [] {
      assert Escape(str) + "\"" + rest == ['"'] + rest;
      Split('"', rest);
    } else {
      var tail := Escape(str[1..]) + "\"" + rest;
      assert Escape(str) + "\"" + rest == EscapeChar(str[0]) + tail;
      EscapeCharRoundTrip(str[0], tail);
      EscapeRoundTrip(str[1..], rest);
      HeadTail(str);
    }
  }

  lemma QuoteText(str: string, rest: string)
    ensures Quote(str) + rest == ['"'] + (Escape(str) + "\"" + rest)
  {
    assert Quote(str) == ['"'] + Escape(str) + ['"'];
  }

  /** The `"` branch of `ParseValue`. */
  lemma ParseStringStep(body: string)
    ensures ParseValue(['"'] + body) == AsString(ParseChars(body))
  {
    Split('"', body);
  }

  lemma QuoteRoundTrip(str: string, rest: string)
    ensures ParseValue(Quote(str) + rest) == Some((JString(str), rest))
  {
    QuoteText(str, rest);
    ParseStringStep(Escape(str) + "\"" + rest);
    EscapeRoundTrip(str, rest);
  }

  /** Whatever follows it, the text of a value parses back to that value. */
  lemma {:induction false} ParseStringify(v: Json, rest: string)
    ensures ParseValue(Stringify(v) + rest) == Some((v, rest))
    decreases v, 1
  {
    var s := Stringify(v) + rest;
    match v
    case JNull =>
      assert s[..4] == "null" && s[4..] == rest;
    case JBool(b) =>
      if b {
        assert s[..4] == "true" && s[4..] == rest;
      } else {
        assert s[..5] == "false" && s[5..] == rest;
      }
    case JString(str) =>
      QuoteRoundTrip(str, rest);
    case JArray(xs) =>
      ArrayRoundTrip(xs, rest);
    case JObject(ms) =>
      ObjectRoundTrip(ms, rest);
  }

  /** The `[` branch of `ParseValue`, when no white space follows the `[`. */
  lemma ParseArrayStep(body: string)
    requires body != [] && !IsJsonSpace(body[0])
    ensures ParseValue(['['] + body) == ParseArray(body)
  {
    Split('[', body);
    SkipNoSpace(body);
  }

  /** The `{` branch of `ParseValue`, when no white space follows the `{`. */
  lemma ParseObjectStep(body: string)
    requires body != [] && !IsJsonSpace(body[0])
    ensures ParseValue(['{'] + body) == ParseObject(body)
  {
    Split('{', body);
    SkipNoSpace(body);
  }

  lemma {:induction false} ArrayRoundTrip(xs: seq<Json>, rest: string)
    ensures ParseValue(Stringify(JArray(xs)) + rest) == Some((JArray(xs), rest))
    decreases xs, 2, 0
  {
    var body := StringifyItems(xs) + "]" + rest;
    assert Stringify(JArray(xs)) + rest == ['['] + body;
    if xs == [] {
      assert body == [']'] + rest;
      Split(']', rest);
      ParseArrayStep(body);
    } else {
      ItemsHead(xs);
      ParseArrayStep(body);
      ItemsRoundTrip(xs, rest);
    }
  }

  lemma {:induction false} ObjectRoundTrip(ms: seq<Member>, rest: string)
    ensures ParseValue(Stringify(JObject(ms)) + rest) == Some((JObject(ms), rest))
    decreases ms, 2, 0
  {
    var body := StringifyMembers(ms) + "}" + rest;
    assert Stringify(JObject(ms)) + rest == ['{'] + body;
    if ms == [] {
      assert body == ['}'] + rest;
      Split('}', rest);
      ParseObjectStep(body);
    } else {
      MembersHead(ms);
      ParseObjectStep(body);
      MembersRoundTrip(ms, rest);
    }
  }

  /** The text of a non-empty item list starts as its first item does. */
  lemma ItemsHead(xs: seq<Json>)
    requires xs != []
    ensures StringifyItems(xs) != [] && StringifyItems(xs)[0] == Stringify(xs[0])[0]
  {
  }

  /** The text of a non-empty member list starts with a quote. */
  lemma MembersHead(ms: seq<Member>)
    requires ms != []
    ensures StringifyMembers(ms) != [] && StringifyMembers(ms)[0] == '"'
  {
  }

  /** A value's text, then text not starting with white space: the items go on as `ItemsTail` says. */
  lemma ItemsStep(v: Json, after: string)
    requires after != [] && !IsJsonSpace(after[0])
    ensures ParseItems(Stringify(v) + after) == ItemsTail(v, after)
    decreases v, 2
  {
    ParseStringify(v, after);
    SkipNoSpace(after);
  }

  lemma Regroup(a: string, c: char, b: string, d: char, rest: string)
    ensures a + [c] + b + [d] + rest == a + ([c] + (b + [d] + rest))
  {
  }

  /** The text of a one-item list, then `]`. */
  lemma LastItemText(xs: seq<Json>, rest: string)
    requires |xs| == 1
    ensures StringifyItems(xs) + "]" + rest == Stringify(xs[0]) + ([']'] + rest)
  {
  }

  /** The text of a longer list, then `]`: the first item, a comma, and the rest of the list. */
  lemma MoreItemsText(xs: seq<Json>, rest: string)
    requires |xs| > 1
    ensures StringifyItems(xs) + "]" + rest ==
      Stringify(xs[0]) + ([','] + (StringifyItems(xs[1..]) + "]" + rest))
  {
    assert StringifyItems(xs) == Stringify(xs[0]) + [','] + StringifyItems(xs[1..]);
    Regroup(Stringify(xs[0]), ',', StringifyItems(xs[1..]), ']', rest);
  }

  lemma ItemsTailClose(v: Json, rest: string)
    ensures ItemsTail(v, [']'] + rest) == Some(([v], rest))
  {
    Split(']', rest);
  }

  lemma ItemsTailComma(v: Json, tail: string)
    requires tail != [] && !IsJsonSpace(tail[0])
    ensures ItemsTail(v, [','] + tail) == Prepend(v, ParseItems(tail))
  {
    Split(',', tail);
    SkipNoSpace(tail);
  }

  lemma ItemsRoundTrip(xs: seq<Json>, rest: string)
    requires xs != []
    ensures ParseItems(StringifyItems(xs) + "]" + rest) == Some((xs, rest))
    decreases xs, 1, 1
  {
    if |xs| == 1 {
      LastItemRoundTrip(xs, rest);
    } else {
      MoreItemsRoundTrip(xs, rest);
    }
  }

  lemma LastItemRoundTrip(xs: seq<Json>, rest: string)
    requires |xs| == 1
    ensures ParseItems(StringifyItems(xs) + "]" + rest) == Some((xs, rest))
    decreases xs, 1, 0
  {
    LastItemText(xs, rest);
    ItemsStep(xs[0], [']'] + rest);
    ItemsTailClose(xs[0], rest);
    assert [xs[0]] == xs;
  }

  lemma {:induction false} MoreItemsRoundTrip(xs: seq<Json>, rest: string)
    requires |xs| > 1
    ensures ParseItems(StringifyItems(xs) + "]" + rest) == Some((xs, rest))
    decreases xs, 1, 0
  {
    var tail := StringifyItems(xs[1..]) + "]" + rest;
    ItemsRoundTrip(xs[1..], rest);
    ItemsHead(xs[1..]);
    ConsItem(xs[0], tail, xs[1..], rest);
    MoreItemsText(xs, rest);
    HeadTail(xs);
  }

  /** A value, a comma, then items that parse: the value joins the front of them. */
  lemma ConsItem(v: Json, tail: string, xs: seq<Json>, rest: string)
    requires tail != [] && !IsJsonSpace(tail[0])
    requires ParseItems(tail) == Some((xs, rest))
    ensures ParseItems(Stringify(v) + ([','] + tail)) == Some(([v] + xs, rest))
    decreases v, 3
  {
    ItemsStep(v, [','] + tail);
    ItemsTailComma(v, tail);
  }

  /** The text of a member, then anything. */
  lemma MemberText(m: Member, after: string)
    ensures StringifyMember(m) + after ==
      ['"'] + (Escape(m.key) + "\"" + ([':'] + (Stringify(m.value) + after)))
  {
  }

  /** A key, then text not starting with white space: the member goes on as `MemberValue` says. */
  lemma ParseMemberStep(body: string, k: string, t: string)
    requires ParseChars(body) == Some((k, t))
    requires t != [] && !IsJsonSpace(t[0])
    ensures ParseMember(['"'] + body) == MemberValue(k, t)
  {
    Split('"', body);
    SkipNoSpace(t);
  }

  /** A member's text, then text not starting with white space, parses back to that member. */
  lemma MemberRoundTrip(m: Member, after: string)
    requires after != [] && !IsJsonSpace(after[0])
    ensures ParseMember(StringifyMember(m) + after) == Some((m, after))
    decreases m, 1
  {
    var t := [':'] + (Stringify(m.value) + after);
    MemberText(m, after);
    EscapeRoundTrip(m.key, t);
    ParseMemberStep(Escape(m.key) + "\"" + t, m.key, t);
    MemberValueStep(m, after);
  }

  /** The colon and value of a member, then text not starting with white space. */
  lemma MemberValueStep(m: Member, after: string)
    requires after != [] && !IsJsonSpace(after[0])
    ensures MemberValue(m.key, [':'] + (Stringify(m.value) + after)) == Some((m, after))
    decreases m, 0
  {
    var value := Stringify(m.value) + after;
    Split(':', value);
    SkipNoSpace(value);
    ParseStringify(m.value, after);
    SkipNoSpace(after);
  }

  /** A member's text, then text not starting with white space: the members go on as `MembersTail` says. */
  lemma MembersStep(m: Member, after: string)
    requires after != [] && !IsJsonSpace(after[0])
    ensures ParseMembers(StringifyMember(m) + after) == MembersTail(m, after)
    decreases m, 2
  {
    MemberRoundTrip(m, after);
  }

  lemma LastMemberText(ms: seq<Member>, rest: string)
    requires |ms| == 1
    ensures StringifyMembers(ms) + "}" + rest == StringifyMember(ms[0]) + (['}'] + rest)
  {
  }

  lemma MoreMembersText(ms: seq<Member>, rest: string)
    requires |ms| > 1
    ensures StringifyMembers(ms) + "}" + rest ==
      StringifyMember(ms[0]) + ([','] + (StringifyMembers(ms[1..]) + "}" + rest))
  {
    assert StringifyMembers(ms) == StringifyMember(ms[0]) + [','] + StringifyMembers(ms[1..]);
    Regroup(StringifyMember(ms[0]), ',', StringifyMembers(ms[1..]), '}', rest);
  }

  lemma MembersTailClose(m: Member, rest: string)
    ensures MembersTail(m, ['}'] + rest) == Some(([m], rest))
  {
    Split('}', rest);
  }

  lemma MembersTailComma(m: Member, tail: string)
    requires tail != [] && !IsJsonSpace(tail[0])
    ensures MembersTail(m, [','] + tail) == Prepend(m, ParseMembers(tail))
  {
    Split(',', tail);
    SkipNoSpace(tail);
  }

  lemma MembersRoundTrip(ms: seq<Member>, rest: string)
    requires ms != []
    ensures ParseMembers(StringifyMembers(ms) + "}" + rest) == Some((ms, rest))
    decreases ms, 1, 1
  {
    if |ms| == 1 {
      LastMemberRoundTrip(ms, rest);
    } else {
      MoreMembersRoundTrip(ms, rest);
    }
  }

  lemma LastMemberRoundTrip(ms: seq<Member>, rest: string)
    requires |ms| == 1
    ensures ParseMembers(StringifyMembers(ms) + "}" + rest) == Some((ms, rest))
    decreases ms, 1, 0
  {
    LastMemberText(ms, rest);
    MembersStep(ms[0], ['}'] + rest);
    MembersTailClose(ms[0], rest);
    assert [ms[0]] == ms;
  }

  lemma {:induction false} MoreMembersRoundTrip(ms: seq<Member>, rest: string)
    requires |ms| > 1
    ensures ParseMembers(StringifyMembers(ms) + "}" + rest) == Some((ms, rest))
    decreases ms, 1, 0
  {
    var tail := StringifyMembers(ms[1..]) + "}" + rest;
    MembersRoundTrip(ms[1..], rest);
    MembersHead(ms[1..]);
    ConsMember(ms[0], tail, ms[1..], rest);
    MoreMembersText(ms, rest);
    HeadTail(ms);
  }

  /** A member, a comma, then members that parse: the member joins the front of them. */
  lemma ConsMember(m: Member, tail: string, ms: seq<Member>, rest: string)
    requires tail != [] && !IsJsonSpace(tail[0])
    requires ParseMembers(tail) == Some((ms, rest))
    ensures ParseMembers(StringifyMember(m) + ([','] + tail)) == Some(([m] + ms, rest))
    decreases m, 3
  {
    MembersStep(m, [','] + tail);
    MembersTailComma(m, tail);
  }

  /** `JSON.parse(JSON.stringify(v))` is `v`. */
  lemma ParseOfStringify(v: Json)
    ensures Parse(Stringify(v)) == Some(v)
  {
    ParseStringify(v, "");
    assert Stringify(v) + "" == Stringify(v);
  }
}
