/** `JSON.stringify` and `JSON.parse` restricted to flat objects whose values are
    all strings, which is what the session user is. */
module Json {
  import opened Wrappers

  /** A JSON object as its members in text order. */
  type Pairs = seq<(string, string)>

  /** The lower-case hex digit `JSON.stringify` writes for `n`. */
  function HexDigit(n: nat): (c: char)
    requires n < 16
  {
    if n < 10 then ('0' as int + n) as char else ('a' as int + n - 10) as char
  }

  /** The value of a hex digit of either case. */
  function HexValue(c: char): (r: Option<nat>)
    ensures r.Some? ==> r.value < 16
  {
    if '0' <= c <= '9' then Some(c as int - '0' as int)
    else if 'a' <= c <= 'f' then Some(c as int - 'a' as int + 10)
    else if 'A' <= c <= 'F' then Some(c as int - 'A' as int + 10)
    else None
  }

  lemma HexRoundTrip(n: nat)
    requires n < 16
    ensures HexValue(HexDigit(n)) == Some(n)
  {
  }

  /** The code unit of four hex digits. */
  function Hex4(s: string): (r: Option<nat>)
    requires |s| == 4
    ensures r.Some? ==> r.value < 0x1_0000
  {
    match (HexValue(s[0]), HexValue(s[1]), HexValue(s[2]), HexValue(s[3]))
    case (Some(a), Some(b), Some(c), Some(d)) => Some(((a * 16 + b) * 16 + c) * 16 + d)
    case _ => None
  }

  /** How `JSON.stringify` writes one character inside a string literal. */
  function Escape(c: char): (e: string)
    ensures |e| >= 1
  {
    if c == '"' then "\\\""
    else if c == '\\' then "\\\\"
    else if c == '\U{8}' then "\\b"
    else if c == '\U{C}' then "\\f"
    else if c == '\n' then "\\n"
    else if c == '\r' then "\\r"
    else if c == '\t' then "\\t"
    else if c < ' ' then "\\u00" + [HexDigit(c as int / 16), HexDigit(c as int % 16)]
    else [c]
  }

  function EscapeAll(s: string): string {
    if |s| == 0 then "" else Escape(s[0]) + EscapeAll(s[1..])
  }

  /** `JSON.stringify` of a string. */
  function Quote(s: string): string {
    "\"" + EscapeAll(s) + "\""
  }

  /** The character an escape sequence stands for, reading after the backslash;
      an escape of a lone surrogate is not accepted. */
  function Unescape(s: string): (r: Option<(char, string)>)
    ensures r.Some? ==> |r.value.1| < |s|
  {
    if |s| == 0 then None
    else if s[0] == '"' then Some(('"', s[1..]))
    else if s[0] == '\\' then Some(('\\', s[1..]))
    else if s[0] == '/' then Some(('/', s[1..]))
    else if s[0] == 'b' then Some(('\U{8}', s[1..]))
    else if s[0] == 'f' then Some(('\U{C}', s[1..]))
    else if s[0] == 'n' then Some(('\n', s[1..]))
    else if s[0] == 'r' then Some(('\r', s[1..]))
    else if s[0] == 't' then Some(('\t', s[1..]))
    else if s[0] == 'u' && |s| >= 5 then
      match Hex4(s[1..5])
      case Some(n) => if 0xD800 <= n < 0xE000 then None else Some((n as char, s[5..]))
      case None => None
    else None
  }

  /** `c` in front of a parsed value. */
  function Prepend(c: char, r: Option<(string, string)>): Option<(string, string)> {
    if r.None? then None else Some(([c] + r.value.0, r.value.1))
  }

  /** The rest of a string literal after its opening quote: its value and the text
      after the closing quote. A raw control character is an error. */
  function StringBody(s: string): (r: Option<(string, string)>)
    ensures r.Some? ==> |r.value.1| < |s|
    decreases |s|
  {
    if |s| == 0 then None
    else if s[0] == '"' then Some(("", s[1..]))
    else if s[0] < ' ' then None
    else if s[0] == '\\' then
      var u := Unescape(s[1..]);
      if u.None? then None else Prepend(u.value.0, StringBody(u.value.1))
    else
      Prepend(s[0], StringBody(s[1..]))
  }

  /** JSON's insignificant white space. */
  predicate IsWs(c: char) {
    c == ' ' || c == '\t' || c == '\n' || c == '\r'
  }

  function SkipWs(s: string): (r: string)
    ensures |r| <= |s|
    ensures r == [] || !IsWs(r[0])
  {
    if |s| > 0 && IsWs(s[0]) then SkipWs(s[1..]) else s
  }

  /** A string literal after optional white space. */
  function ParseString(s: string): (r: Option<(string, string)>)
    ensures r.Some? ==> |r.value.1| < |s|
  {
    var t := SkipWs(s);
    if |t| > 0 && t[0] == '"' then StringBody(t[1..]) else None
  }

  /** `"key": "value"`, with optional white space around the colon. */
  function ParseMember(s: string): (r: Option<((string, string), string)>)
    ensures r.Some? ==> |r.value.1| < |s|
  {
    var k := ParseString(s);
    if k.None? then None
    else
      var t := SkipWs(k.value.1);
      if |t| == 0 || t[0] != ':' then None
      else
        var v := ParseString(t[1..]);
        if v.None? then None else Some(((k.value.0, v.value.0), v.value.1))
  }

  /** Members separated by commas, up to and including the closing brace. */
  function ParseMembers(s: string): (r: Option<(Pairs, string)>)
    decreases |s|
  {
    var m := ParseMember(s);
    if m.None? then None
    else
      var t := SkipWs(m.value.1);
      if |t| > 0 && t[0] == '}' then Some(([m.value.0], t[1..]))
      else if |t| > 0 && t[0] == ',' then
        var more := ParseMembers(t[1..]);
        if more.None? then None else Some(([m.value.0] + more.value.0, more.value.1))
      else None
  }

  /** `JSON.parse` of a text holding one object with string values; None stands for
      a text `JSON.parse` rejects or one that holds anything else. */
  function ParseObject(s: string): (r: Option<Pairs>)
  {
    var t := SkipWs(s);
    if |t| == 0 || t[0] != '{' then None
    else
      var u := SkipWs(t[1..]);
      if |u| > 0 && u[0] == '}' then
        if SkipWs(u[1..]) == "" then Some([]) else None
      else
        var ms := ParseMembers(u);
        if ms.Some? && SkipWs(ms.value.1) == "" then Some(ms.value.0) else None
  }

  function EncodeMember(m: (string, string)): string {
    Quote(m.0) + ":" + Quote(m.1)
  }

  function EncodeMembers(ms: Pairs): string
    requires |ms| > 0
  {
    if |ms| == 1 then EncodeMember(ms[0]) else EncodeMember(ms[0]) + "," + EncodeMembers(ms[1..])
  }

  /** `JSON.stringify` of an object: no white space, members in order. */
  function EncodeObject(ms: Pairs): (s: string)
    ensures |s| >= 2 && s[0] == '{'
  {
    if |ms| == 0 then "{}" else "{" + EncodeMembers(ms) + "}"
  }

  /** The value `JSON.parse` keeps for `key`: the last member with that key. */
  function Lookup(ms: Pairs, key: string): (r: Option<string>)
    ensures r.None? <==> forall i :: 0 <= i < |ms| ==> ms[i].0 != key
    ensures r.Some? ==> exists i :: 0 <= i < |ms| && ms[i] == (key, r.value)
  {
    if |ms| == 0 then None
    else if ms[|ms| - 1].0 == key then Some(ms[|ms| - 1].1)
    else Lookup(ms[..|ms| - 1], key)
  }

  /** A later member decides the value; members with other keys do not matter. */
  lemma LookupAppend(a: Pairs, b: Pairs, key: string)
    ensures (forall i :: 0 <= i < |b| ==> b[i].0 != key) ==> Lookup(a + b, key) == Lookup(a, key)
    ensures (exists i :: 0 <= i < |b| && b[i].0 == key) ==> Lookup(a + b, key) == Lookup(b, key)
    decreases |b|
  {
    if |b| > 0 {
      var n := |b| - 1;
      assert (a + b)[..|a + b| - 1] == a + b[..n];
      LookupAppend(a, b[..n], key);
      assert forall i :: 0 <= i < n ==> b[..n][i] == b[i];
    } else {
      assert a + b == a;
    }
  }

  /** A text starting with something other than white space is not skipped. */
  lemma SkipWsNone(s: string)
    requires |s| > 0 && !IsWs(s[0])
    ensures SkipWs(s) == s
  {
  }

  /** One character read back from its escape. */
  lemma {:induction false} EscapeRoundTrip(c: char, rest: string)
    ensures |Escape(c)| >= 1
    ensures Escape(c)[0] == '\\' ==> Unescape(Escape(c)[1..] + rest) == Some((c, rest))
    ensures Escape(c)[0] != '\\' ==> Escape(c) == [c] && c != '"' && c >= ' '
  {
    var e := Escape(c);
    if c == '"' || c == '\\' || c == '\U{8}' || c == '\U{C}' || c == '\n' || c == '\r' || c == '\t' {
      assert e[1..] + rest == [e[1]] + rest;
    } else if c < ' ' {
      var hi, lo := c as int / 16, c as int % 16;
      HexRoundTrip(0);
      HexRoundTrip(hi);
      HexRoundTrip(lo);
      var s := e[1..] + rest;
      assert s[0] == 'u';
      assert s[1..5] == ['0', '0', HexDigit(hi), HexDigit(lo)];
      assert Hex4(s[1..5]) == Some(c as int);
      assert s[5..] == rest;
    }
  }

  /** A plain character is copied into the value. */
  lemma StringBodyPlain(c: char, tail: string, v: string, rest: string)
    requires c != '"' && c != '\\' && c >= ' '
    requires StringBody(tail) == Some((v, rest))
    ensures StringBody([c] + tail) == Some(([c] + v, rest))
  {
    assert ([c] + tail)[1..] == tail;
  }

  /** An escape sequence is decoded into the value. */
  lemma StringBodyEscaped(c: char, s: string, tail: string, v: string, rest: string)
    requires |s| >= 1 && s[0] == '\\'
    requires Unescape(s[1..]) == Some((c, tail))
    requires StringBody(tail) == Some((v, rest))
    ensures StringBody(s) == Some(([c] + v, rest))
  {
  }

  /** The escape of `c` in front of a body that reads back as `v` reads back as `c` then `v`. */
  lemma StringBodyAfterEscape(c: char, tail: string, v: string, rest: string)
    requires StringBody(tail) == Some((v, rest))
    ensures StringBody(Escape(c) + tail) == Some(([c] + v, rest))
  {
    var e := Escape(c);
    EscapeRoundTrip(c, tail);
    if e[0] == '\\' {
      assert (e + tail)[1..] == e[1..] + tail;
      StringBodyEscaped(c, e + tail, tail, v, rest);
    } else {
      StringBodyPlain(c, tail, v, rest);
    }
  }

  /** A string body written by `EscapeAll`, closed by a quote, reads back exactly. */
  lemma {:induction false} StringBodyRoundTrip(v: string, rest: string)
    ensures StringBody(EscapeAll(v) + "\"" + rest) == Some((v, rest))
    decreases |v|
  {
    if |v| == 0 {
      assert EscapeAll(v) + "\"" + rest == ['"'] + rest;
    } else {
      var tail := EscapeAll(v[1..]) + "\"" + rest;
      assert EscapeAll(v) + "\"" + rest == Escape(v[0]) + tail;
      StringBodyRoundTrip(v[1..], rest);
      StringBodyAfterEscape(v[0], tail, v[1..], rest);
      assert [v[0]] + v[1..] == v;
    }
  }

  lemma QuoteRoundTrip(v: string, rest: string)
    ensures ParseString(Quote(v) + rest) == Some((v, rest))
  {
    var s := Quote(v) + rest;
    SkipWsNone(s);
    assert s[1..] == EscapeAll(v) + "\"" + rest;
    StringBodyRoundTrip(v, rest);
  }

  lemma MemberRoundTrip(m: (string, string), rest: string)
    ensures ParseMember(EncodeMember(m) + rest) == Some((m, rest))
  {
    var afterKey := ":" + Quote(m.1) + rest;
    assert EncodeMember(m) + rest == Quote(m.0) + afterKey;
    QuoteRoundTrip(m.0, afterKey);
    SkipWsNone(afterKey);
    assert afterKey[1..] == Quote(m.1) + rest;
    QuoteRoundTrip(m.1, rest);
  }

  /** The last member, closed by the brace. */
  lemma MembersLast(m: (string, string), rest: string)
    ensures ParseMembers(EncodeMember(m) + "}" + rest) == Some(([m], rest))
  {
    var t := "}" + rest;
    assert EncodeMember(m) + "}" + rest == EncodeMember(m) + t;
    MemberRoundTrip(m, t);
    SkipWsNone(t);
    assert t[1..] == rest;
  }

  /** A member followed by a comma and more members. */
  lemma MembersStep(m: (string, string), more: string, ms: Pairs, rest: string)
    requires ParseMembers(more) == Some((ms, rest))
    ensures ParseMembers(EncodeMember(m) + "," + more) == Some(([m] + ms, rest))
  {
    var t := "," + more;
    assert EncodeMember(m) + "," + more == EncodeMember(m) + t;
    MemberRoundTrip(m, t);
    SkipWsNone(t);
    assert t[1..] == more;
  }

  lemma EncodeMembersSplit(ms: Pairs, rest: string)
    requires |ms| > 1
    ensures EncodeMembers(ms) + "}" + rest == EncodeMember(ms[0]) + "," + (EncodeMembers(ms[1..]) + "}" + rest)
  {
    var head, tail := EncodeMember(ms[0]), EncodeMembers(ms[1..]);
    assert EncodeMembers(ms) == head + "," + tail;
    AppendAssoc4(head + ",", tail, "}", rest);
  }

  /** Regrouping four strings. */
  lemma AppendAssoc4(a: string, b: string, c: string, d: string)
    ensures a + b + c + d == a + (b + c + d)
  {
  }

  lemma {:induction false} MembersRoundTrip(ms: Pairs, rest: string)
    requires |ms| > 0
    ensures ParseMembers(EncodeMembers(ms) + "}" + rest) == Some((ms, rest))
    decreases |ms|
  {
    if |ms| == 1 {
      MembersLast(ms[0], rest);
      assert [ms[0]] == ms;
    } else {
      var more := EncodeMembers(ms[1..]) + "}" + rest;
      EncodeMembersSplit(ms, rest);
      MembersRoundTrip(ms[1..], rest);
      MembersStep(ms[0], more, ms[1..], rest);
      assert [ms[0]] + ms[1..] == ms;
    }
  }

  /** The empty object reads back as no members. */
  lemma EmptyObjectRoundTrip()
    ensures ParseObject(EncodeObject([])) == Some([])
  {
    var s := EncodeObject([]);
    assert s == "{}";
    SkipWsNone(s);
    assert s[1..] == "}";
    SkipWsNone(s[1..]);
    assert SkipWs("") == "";
  }

  /** A non-empty object reads back as its members. */
  lemma MembersObjectRoundTrip(ms: Pairs)
    requires |ms| > 0
    ensures ParseObject(EncodeObject(ms)) == Some(ms)
  {
    var s := EncodeObject(ms);
    assert s == "{" + EncodeMembers(ms) + "}";
    SkipWsNone(s);
    var body := EncodeMembers(ms) + "}";
    assert s[1..] == body;
    assert body == EncodeMembers(ms) + "}" + "";
    assert EncodeMember(ms[0])[0] == '"';
    assert body[0] == '"';
    SkipWsNone(body);
    MembersRoundTrip(ms, "");
    assert SkipWs("") == "";
  }

  /** Whatever `JSON.stringify` writes, `JSON.parse` reads back as the same members. */
  lemma ObjectRoundTrip(ms: Pairs)
    ensures ParseObject(EncodeObject(ms)) == Some(ms)
  {
    if |ms| == 0 {
      EmptyObjectRoundTrip();
    } else {
      MembersObjectRoundTrip(ms);
    }
  }
}
