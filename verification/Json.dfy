/**
 The JSON the agent emits. `ValueText` is the text of a tree; `ParseValue` reads JSON
 as sections 2 to 7 of RFC 8259 define it. Reading what was written gives the tree back,
 indented or compact. The writer object and the hand-spliced telemetry text are tied to
 `ValueText` in JsonWriter.
 */
module Json {

  datatype Value =
    | Null
    | Bool(b: bool)
    | Num(text: string)
    | Str(s: string)
    | Arr(elems: seq<Value>)
    | Obj(members: seq<Member>)

  datatype Member = Member(key: string, value: Value)

  // ---- strings ----

  const BACKSPACE: char := '\U{08}'
  const FORMFEED: char := '\U{0C}'

  function HexDigit(n: nat): char
    requires n < 16
  {
    "0123456789abcdef"[n]
  }

  /** How one character stands inside a quoted string. */
  function EscapeChar(c: char): string {
    if c == '"' then "\\\""
    else if c == '\\' then "\\\\"
    else if c == BACKSPACE then "\\b"
    else if c == FORMFEED then "\\f"
    else if c == '\n' then "\\n"
    else if c == '\r' then "\\r"
    else if c == '\t' then "\\t"
    else if c < ' ' then ['\\', 'u', '0', '0', HexDigit(c as int / 16), HexDigit(c as int % 16)]
    else [c]
  }

  /**
   Seven characters have a two-character escape, the other control characters one of six with
   lower-case hexadecimal digits, and everything else stands for itself.
   */
  lemma EscapeShape(c: char)
    ensures |EscapeChar(c)| ==
      if c in ['"', '\\', '\U{08}', '\U{0C}', '\n', '\r', '\t'] then 2 else if c as int < 32 then 6 else 1
    ensures |EscapeChar(c)| == 1 ==> EscapeChar(c) == [c]
    ensures forall i :: 2 <= i < |EscapeChar(c)| ==> '0' <= EscapeChar(c)[i] <= '9' || 'a' <= EscapeChar(c)[i] <= 'f'
  {
    if c as int < 32 {
      LowerHex(c as int / 16);
      LowerHex(c as int % 16);
    }
  }

  lemma LowerHex(n: nat)
    requires n < 16
    ensures '0' <= HexDigit(n) <= '9' || 'a' <= HexDigit(n) <= 'f'
  {}

  /** The escaped characters of `s`, followed by `k`. */
  function Escaped(s: string, k: string): string {
    if s == [] then k else EscapeChar(s[0]) + Escaped(s[1..], k)
  }

  function Quoted(s: string, k: string): string { "\"" + Escaped(s, "\"" + k) }

  // ---- the text of a tree, followed by `k` ----

  function Spaces(n: nat): string { seq(n, _ => ' ') }

  function Indent(pretty: bool, depth: nat): string {
    if pretty then "\n" + Spaces(2 * depth) else ""
  }

  function Colon(pretty: bool): string { if pretty then ": " else ":" }

  function Close(empty: bool, pretty: bool, depth: nat): string {
    if empty then "" else Indent(pretty, depth)
  }

  function Separator(first: bool, pretty: bool, depth: nat): string {
    (if first then "" else ",") + Indent(pretty, depth)
  }

  function ValueText(v: Value, pretty: bool, depth: nat, k: string): string
    decreases v
  {
    match v
    case Null => "null" + k
    case Bool(b) => (if b then "true" else "false") + k
    case Num(text) => text + k
    case Str(s) => Quoted(s, k)
    case Arr(es) => "[" + ElementsText(es, true, pretty, depth + 1, Close(es == [], pretty, depth) + ("]" + k))
    case Obj(ms) => "{" + MembersText(ms, true, pretty, depth + 1, Close(ms == [], pretty, depth) + ("}" + k))
  }

  function ElementsText(es: seq<Value>, first: bool, pretty: bool, depth: nat, k: string): string
    decreases es
  {
    if es == [] then k
    else Separator(first, pretty, depth) + ValueText(es[0], pretty, depth, ElementsText(es[1..], false, pretty, depth, k))
  }

  function MembersText(ms: seq<Member>, first: bool, pretty: bool, depth: nat, k: string): string
    decreases ms
  {
    if ms == [] then k
    else Separator(first, pretty, depth) + MemberText(ms[0], pretty, depth, MembersText(ms[1..], false, pretty, depth, k))
  }

  function MemberText(m: Member, pretty: bool, depth: nat, k: string): string
    decreases m
  {
    Quoted(m.key, Colon(pretty) + ValueText(m.value, pretty, depth, k))
  }

  // ---- reading ----

  datatype Parsed<T> = Fail | Ok(value: T, rest: string)

  predicate IsSpace(c: char) { c == ' ' || c == '\t' || c == '\n' || c == '\r' }

  function Skip(t: string): (r: string)
    ensures |r| <= |t|
  {
    if t != [] && IsSpace(t[0]) then Skip(t[1..]) else t
  }

  predicate StartsWith(t: string, word: string) {
    |word| <= |t| && t[..|word|] == word
  }

  function HexValue(c: char): int {
    if '0' <= c <= '9' then c as int - '0' as int
    else if 'a' <= c <= 'f' then c as int - 'a' as int + 10
    else if 'A' <= c <= 'F' then c as int - 'A' as int + 10
    else -1
  }

  /** The character of a two-character escape, section 7. */
  function SimpleEscape(c: char): (r: string) {
    if c == '"' || c == '\\' || c == '/' then [c]
    else if c == 'b' then [BACKSPACE]
    else if c == 'f' then [FORMFEED]
    else if c == 'n' then "\n"
    else if c == 'r' then "\r"
    else if c == 't' then "\t"
    else ""
  }

  /** The rest of a string behind its opening quote. */
  function ParseChars(t: string): (r: Parsed<string>)
    ensures r.Ok? ==> |r.rest| < |t|
  {
    if t == [] || t[0] < ' ' then Fail
    else if t[0] == '"' then Ok("", t[1..])
    else if t[0] != '\\' then Prefix([t[0]], ParseChars(t[1..]))
    else if |t| < 2 then Fail
    else if t[1] == 'u' then
      if |t| < 6 || HexChar(t[2..6]) == "" then Fail else Prefix(HexChar(t[2..6]), ParseChars(t[6..]))
    else if SimpleEscape(t[1]) == "" then Fail
    else Prefix(SimpleEscape(t[1]), ParseChars(t[2..]))
  }

  /** The character four hexadecimal digits denote, or nothing. */
  function HexChar(h: string): string
    requires |h| == 4
  {
    var a, b, c, d := HexValue(h[0]), HexValue(h[1]), HexValue(h[2]), HexValue(h[3]);
    if a < 0 || b < 0 || c < 0 || d < 0 then ""
    else
      var code := 4096 * a + 256 * b + 16 * c + d;
      if 0xD800 <= code < 0xE000 then "" else [code as char]
  }

  function Prefix(s: string, r: Parsed<string>): Parsed<string> {
    if r.Ok? then Ok(s + r.value, r.rest) else Fail
  }

  predicate IsNumberChar(c: char) {
    '0' <= c <= '9' || c == '-' || c == '+' || c == '.' || c == 'e' || c == 'E'
  }

  function NumberRun(t: string): (n: nat)
    ensures n <= |t|
  {
    if t != [] && IsNumberChar(t[0]) then 1 + NumberRun(t[1..]) else 0
  }

  predicate Digits(t: string) { t != [] && forall c :: c in t ==> '0' <= c <= '9' }

  /** number = [ "-" ] int [ "." digits ] [ exponent ], section 6. */
  predicate IsNumber(t: string) {
    var u := if StartsWith(t, "-") then t[1..] else t;
    var i := Find(u, '.');
    var e := FindExponent(u);
    var whole := u[..if i < e then i else e];
    && Digits(whole) && (whole[0] == '0' ==> |whole| == 1)
    && (i < e ==> Digits(u[i + 1..e]))
    && (e < |u| ==>
        var x := u[e + 1..];
        Digits(if x != [] && (x[0] == '+' || x[0] == '-') then x[1..] else x))
  }

  function Find(t: string, c: char): (i: nat)
    ensures i <= |t|
  {
    if t == [] || t[0] == c then 0 else 1 + Find(t[1..], c)
  }

  function FindExponent(t: string): (i: nat)
    ensures i <= |t|
  {
    if t == [] || t[0] == 'e' || t[0] == 'E' then 0 else 1 + FindExponent(t[1..])
  }

  function ParseValue(t: string): (r: Parsed<Value>)
    ensures r.Ok? ==> |r.rest| < |t|
    decreases |t|, 0
  {
    if t == [] then Fail
    else if t[0] == '{' then
      var u := Skip(t[1..]);
      if StartsWith(u, "}") then Ok(Obj([]), u[1..])
      else var r := ParseMembers(u); if r.Ok? then Ok(Obj(r.value), r.rest) else Fail
    else if t[0] == '[' then
      var u := Skip(t[1..]);
      if StartsWith(u, "]") then Ok(Arr([]), u[1..])
      else var r := ParseElements(u); if r.Ok? then Ok(Arr(r.value), r.rest) else Fail
    else if t[0] == '"' then
      var r := ParseChars(t[1..]); if r.Ok? then Ok(Str(r.value), r.rest) else Fail
    else if StartsWith(t, "true") then Ok(Bool(true), t[4..])
    else if StartsWith(t, "false") then Ok(Bool(false), t[5..])
    else if StartsWith(t, "null") then Ok(Null, t[4..])
    else
      var n := NumberRun(t);
      if n > 0 && IsNumber(t[..n]) then Ok(Num(t[..n]), t[n..]) else Fail
  }

  function ParseElements(t: string): (r: Parsed<seq<Value>>)
    ensures r.Ok? ==> |r.rest| < |t|
    decreases |t|, 1
  {
    var v := ParseValue(t);
    if v.Fail? then Fail
    else
      var u := Skip(v.rest);
      if StartsWith(u, "]") then Ok([v.value], u[1..])
      else if StartsWith(u, ",") then
        var r := ParseElements(Skip(u[1..]));
        if r.Ok? then Ok([v.value] + r.value, r.rest) else Fail
      else Fail
  }

  function ParseMembers(t: string): (r: Parsed<seq<Member>>)
    ensures r.Ok? ==> |r.rest| < |t|
    decreases |t|, 1
  {
    var m := ParseMember(t);
    if m.Fail? then Fail
    else
      var u := Skip(m.rest);
      if StartsWith(u, "}") then Ok([m.value], u[1..])
      else if StartsWith(u, ",") then
        var r := ParseMembers(Skip(u[1..]));
        if r.Ok? then Ok([m.value] + r.value, r.rest) else Fail
      else Fail
  }

  function ParseMember(t: string): (r: Parsed<Member>)
    ensures r.Ok? ==> |r.rest| < |t|
    decreases |t|, 0
  {
    if !StartsWith(t, "\"") then Fail
    else
      var key := ParseChars(t[1..]);
      if key.Fail? then Fail
      else
        var u := Skip(key.rest);
        if !StartsWith(u, ":") then Fail
        else
          var v := ParseValue(Skip(u[1..]));
          if v.Ok? then Ok(Member(key.value, v.value), v.rest) else Fail
  }

  /** A JSON text, section 2: a value with white space around it and nothing else. */
  function ParseText(t: string): Parsed<Value> {
    var r := ParseValue(Skip(t));
    if r.Ok? && Skip(r.rest) == [] then Ok(r.value, []) else Fail
  }

  // ---- reading what was written ----

  /** Every number in the tree is a JSON number. */
  predicate Printable(v: Value)
    decreases v
  {
    match v
    case Num(text) => IsNumber(text) && forall c :: c in text ==> IsNumberChar(c)
    case Arr(es) => forall e :: e in es ==> Printable(e)
    case Obj(ms) => forall m :: m in ms ==> Printable(m.value)
    case _ => true
  }

  lemma HexRoundTrip(n: nat)
    requires n < 16
    ensures HexValue(HexDigit(n)) == n
  {}

  /** Unescaping undoes `json_escape`, for every string. */
  lemma {:induction false} StringRoundTrip(s: string, k: string)
    ensures ParseChars(Escaped(s, "\"" + k)) == Ok(s, k)
  {
    if s == [] {
      assert Escaped(s, "\"" + k)[1..] == k;
    } else {
      StringRoundTrip(s[1..], k);
      var rest := Escaped(s[1..], "\"" + k);
      CharRoundTrip(s[0], rest, s[1..], k);
      assert [s[0]] + s[1..] == s;
    }
  }

  lemma CharRoundTrip(c: char, t: string, s: string, k: string)
    requires ParseChars(t) == Ok(s, k)
    ensures ParseChars(EscapeChar(c) + t) == Ok([c] + s, k)
  {
    hide HexChar;
    var e := EscapeChar(c);
    assert (e + t)[|e|..] == t;
    if |e| == 6 {
      ControlRoundTrip(c, t, s, k);
    }
  }

  lemma ControlRoundTrip(c: char, t: string, s: string, k: string)
    requires ParseChars(t) == Ok(s, k) && c < ' '
    ensures ParseChars(['\\', 'u', '0', '0', HexDigit(c as int / 16), HexDigit(c as int % 16)] + t) == Ok([c] + s, k)
  {
    var u := ['\\', 'u', '0', '0', HexDigit(c as int / 16), HexDigit(c as int % 16)] + t;
    assert u[6..] == t;
    HexRoundTrip(c as int / 16);
    HexRoundTrip(c as int % 16);
  }

  // A reader that stops at structure: `k` does not continue a number.
  predicate Delimits(k: string) { k == [] || !IsNumberChar(k[0]) }

  lemma {:induction false} SkipSpaces(n: nat, k: string)
    ensures Skip(Spaces(n) + k) == Skip(k)
    decreases n
  {
    if n == 0 {
      assert Spaces(0) + k == k;
    } else {
      assert (Spaces(n) + k)[1..] == Spaces(n - 1) + k;
      SkipSpaces(n - 1, k);
    }
  }

  lemma SkipIndent(pretty: bool, depth: nat, k: string)
    ensures Skip(Indent(pretty, depth) + k) == Skip(k)
  {
    if pretty {
      assert (Indent(pretty, depth) + k)[1..] == Spaces(2 * depth) + k;
      SkipSpaces(2 * depth, k);
    } else {
      assert Indent(pretty, depth) + k == k;
    }
  }

  lemma SkipClose(empty: bool, pretty: bool, depth: nat, k: string)
    ensures Skip(Close(empty, pretty, depth) + k) == Skip(k)
  {
    if empty {
      assert Close(empty, pretty, depth) + k == k;
    } else {
      SkipIndent(pretty, depth, k);
    }
  }

  lemma {:induction false} RunOfNumber(text: string, k: string)
    requires (forall c :: c in text ==> IsNumberChar(c)) && Delimits(k)
    ensures NumberRun(text + k) == |text|
  {
    if text == [] {
      assert text + k == k;
    } else {
      assert (text + k)[1..] == text[1..] + k;
      RunOfNumber(text[1..], k);
    }
  }

  lemma NumberRoundTrip(text: string, k: string)
    requires Printable(Num(text)) && Delimits(k)
    ensures ParseValue(text + k) == Ok(Num(text), k)
  {
    hide IsNumber, ParseMembers, ParseElements, ParseChars, NumberRun;
    RunOfNumber(text, k);
    assert (text + k)[..|text|] == text && (text + k)[|text|..] == k;
    NumberStarts(text);
    assert (text + k)[0] == text[0];
  }

  lemma NumberStarts(text: string)
    requires IsNumber(text)
    ensures text != [] && (text[0] == '-' || '0' <= text[0] <= '9')
  {
    if !StartsWith(text, "-") {
      var n := if Find(text, '.') < FindExponent(text) then Find(text, '.') else FindExponent(text);
      assert Digits(text[..n]) && text[..n][0] in text[..n];
    }
  }

  lemma LiteralRoundTrip(b: bool, k: string)
    ensures ParseValue("true" + k) == Ok(Bool(true), k)
    ensures ParseValue("false" + k) == Ok(Bool(false), k)
    ensures ParseValue("null" + k) == Ok(Null, k)
  {
    assert ("true" + k)[4..] == k && ("false" + k)[5..] == k && ("null" + k)[4..] == k;
    assert ("true" + k)[..4] == "true" && ("false" + k)[..5] == "false" && ("null" + k)[..4] == "null";
    assert ("null" + k)[0] == 'n' && ("false" + k)[0] == 'f';
  }

  lemma QuotedRoundTrip(s: string, k: string)
    ensures StartsWith(Quoted(s, k), "\"") && ParseChars(Quoted(s, k)[1..]) == Ok(s, k)
    ensures ParseValue(Quoted(s, k)) == Ok(Str(s), k)
  {
    StringRoundTrip(s, k);
    assert Quoted(s, k)[1..] == Escaped(s, "\"" + k);
  }

  /** The text of a value never starts with white space or a closing bracket. */
  lemma ValueStarts(v: Value, pretty: bool, depth: nat, k: string)
    requires Printable(v)
    ensures
      var t := ValueText(v, pretty, depth, k);
      t != [] && !IsSpace(t[0]) && t[0] != ']' && t[0] != '}' && t[0] != ','
  {
    hide IsNumber, Separator, Close, Escaped;
    if v.Num? { NumberStarts(v.text); }
  }

  /**
   Round trip: for every tree, in pretty and compact form alike and at any depth, reading
   its text gives the tree and stops right behind it.
   */
  lemma {:induction false} ValueRoundTrip(v: Value, pretty: bool, depth: nat, k: string)
    requires Printable(v) && Delimits(k)
    ensures ParseValue(ValueText(v, pretty, depth, k)) == Ok(v, k)
    decreases v
  {
    hide IsNumber, Separator, Escaped, ParseValue, ParseElements, ParseMembers, Skip, StartsWith, Indent, MembersTail, ElementsTail;
    match v
    case Null => LiteralRoundTrip(true, k);
    case Bool(b) => LiteralRoundTrip(b, k);
    case Num(text) => NumberRoundTrip(text, k);
    case Str(s) => QuotedRoundTrip(s, k);
    case Arr(es) =>
      var k' := Close(es == [], pretty, depth) + ("]" + k);
      if es == [] {
        SkipClose(true, pretty, depth, "]" + k);
      } else {
        ElementsRoundTrip(es, pretty, depth, k);
      }
      ArrayRoundTrip(es, ElementsText(es, true, pretty, depth + 1, k'), k);
    case Obj(ms) =>
      var k' := Close(ms == [], pretty, depth) + ("}" + k);
      if ms == [] {
        SkipClose(true, pretty, depth, "}" + k);
      } else {
        MembersRoundTrip(ms, pretty, depth, k);
      }
      ObjectRoundTrip(ms, MembersText(ms, true, pretty, depth + 1, k'), k);
  }

  lemma ArrayRoundTrip(es: seq<Value>, t: string, k: string)
    requires if es == [] then Skip(t) == Skip("]" + k)
             else !StartsWith(Skip(t), "]") && ParseElements(Skip(t)) == Ok(es, k)
    ensures ParseValue("[" + t) == Ok(Arr(es), k)
  {
    hide ParseElements;
    assert ("[" + t)[1..] == t;
    assert ("]" + k)[1..] == k;
  }

  lemma ObjectRoundTrip(ms: seq<Member>, t: string, k: string)
    requires if ms == [] then Skip(t) == Skip("}" + k)
             else !StartsWith(Skip(t), "}") && ParseMembers(Skip(t)) == Ok(ms, k)
    ensures ParseValue("{" + t) == Ok(Obj(ms), k)
  {
    hide ParseMembers;
    assert ("{" + t)[1..] == t;
    assert ("}" + k)[1..] == k;
  }

  /** What stands behind an element: the closing bracket, or a comma and the rest. */
  function ElementsTail(es: seq<Value>, pretty: bool, depth: nat, k: string): string {
    ElementsText(es, false, pretty, depth + 1, Indent(pretty, depth) + ("]" + k))
  }

  function MembersTail(ms: seq<Member>, pretty: bool, depth: nat, k: string): string {
    MembersText(ms, false, pretty, depth + 1, Indent(pretty, depth) + ("}" + k))
  }

  lemma {:induction false} ElementsRoundTrip(es: seq<Value>, pretty: bool, depth: nat, k: string)
    requires es != [] && forall e :: e in es ==> Printable(e)
    ensures
      var t := ValueText(es[0], pretty, depth + 1, ElementsTail(es[1..], pretty, depth, k));
      && Skip(ElementsText(es, true, pretty, depth + 1, Indent(pretty, depth) + ("]" + k))) == t
      && !StartsWith(t, "]") && ParseElements(t) == Ok(es, k)
    decreases es
  {
    hide IsNumber, ParseValue, ParseElements, ValueText, Printable, ElementsText, ElementsTail, Indent, Skip, Delimits;
    var rest := ElementsTail(es[1..], pretty, depth, k);
    var t := ValueText(es[0], pretty, depth + 1, rest);
    ElementsUnfold(es, pretty, depth, k);
    ValueStarts(es[0], pretty, depth + 1, rest);
    SkipIndent(pretty, depth + 1, t);
    NothingToSkip(t);
    DelimitedTails(es[1..], [], pretty, depth, k);
    ValueRoundTrip(es[0], pretty, depth + 1, rest);
    if es[1..] == [] {
      ElementsEnd(pretty, depth, k);
      LastElement(t, es[0], rest, k);
      assert es == [es[0]];
    } else {
      ElementsRoundTrip(es[1..], pretty, depth, k);
      ElementsUnfold(es[1..], pretty, depth, k);
      var u := ValueText(es[1], pretty, depth + 1, ElementsTail(es[1..][1..], pretty, depth, k));
      SkipIndent(pretty, depth + 1, u);
      ValueStarts(es[1], pretty, depth + 1, ElementsTail(es[1..][1..], pretty, depth, k));
      NothingToSkip(u);
      OneMoreElement(t, es[0], Indent(pretty, depth + 1) + u, es[1..], k);
      assert es == [es[0]] + es[1..];
    }
  }

  lemma NothingToSkip(t: string)
    requires t != [] && !IsSpace(t[0])
    ensures Skip(t) == t
  {}

  lemma ElementsUnfold(es: seq<Value>, pretty: bool, depth: nat, k: string)
    requires es != []
    ensures
      var t := ValueText(es[0], pretty, depth + 1, ElementsTail(es[1..], pretty, depth, k));
      && ElementsText(es, true, pretty, depth + 1, Indent(pretty, depth) + ("]" + k)) == Indent(pretty, depth + 1) + t
      && ElementsTail(es, pretty, depth, k) == "," + (Indent(pretty, depth + 1) + t)
  {
    hide ValueText, Indent;
    assert "" + Indent(pretty, depth + 1) == Indent(pretty, depth + 1);
  }

  lemma ElementsEnd(pretty: bool, depth: nat, k: string)
    ensures Skip(ElementsTail([], pretty, depth, k)) == Skip("]" + k)
  {
    SkipIndent(pretty, depth, "]" + k);
  }

  lemma MembersUnfold(ms: seq<Member>, pretty: bool, depth: nat, k: string)
    requires ms != []
    ensures
      var t := MemberText(ms[0], pretty, depth + 1, MembersTail(ms[1..], pretty, depth, k));
      && MembersText(ms, true, pretty, depth + 1, Indent(pretty, depth) + ("}" + k)) == Indent(pretty, depth + 1) + t
      && MembersTail(ms, pretty, depth, k) == "," + (Indent(pretty, depth + 1) + t)
  {
    hide MemberText, Indent;
    assert "" + Indent(pretty, depth + 1) == Indent(pretty, depth + 1);
  }

  lemma MembersEnd(pretty: bool, depth: nat, k: string)
    ensures Skip(MembersTail([], pretty, depth, k)) == Skip("}" + k)
  {
    SkipIndent(pretty, depth, "}" + k);
  }

  lemma MemberStarts(m: Member, pretty: bool, depth: nat, k: string)
    ensures
      var t := MemberText(m, pretty, depth, k);
      t != [] && t[0] == '"' && Skip(t) == t && !StartsWith(t, "}")
  {
    hide Escaped, ValueText;
  }

  lemma MemberRoundTrip(m: Member, pretty: bool, depth: nat, k: string, t: string)
    requires Printable(m.value) && t == ValueText(m.value, pretty, depth, k) && ParseValue(t) == Ok(m.value, k)
    ensures ParseMember(MemberText(m, pretty, depth, k)) == Ok(m, k)
  {
    hide ValueText, ParseValue, Printable, Quoted, Colon;
    ValueStarts(m.value, pretty, depth, k);
    ColonThenValue(m.key, pretty, t, m.value, k);
  }

  lemma DelimitedTails(es: seq<Value>, ms: seq<Member>, pretty: bool, depth: nat, k: string)
    ensures Delimits(ElementsTail(es, pretty, depth, k)) && Delimits(MembersTail(ms, pretty, depth, k))
  {
    hide ValueText, MemberText;
  }

  lemma LastElement(t: string, v: Value, rest: string, k: string)
    requires ParseValue(t) == Ok(v, rest) && Skip(rest) == Skip("]" + k)
    ensures ParseElements(t) == Ok([v], k)
  {
    hide ParseValue;
    assert ("]" + k)[1..] == k;
  }

  lemma OneMoreElement(t: string, v: Value, u: string, es: seq<Value>, k: string)
    requires ParseValue(t) == Ok(v, "," + u) && ParseElements(Skip(u)) == Ok(es, k)
    ensures ParseElements(t) == Ok([v] + es, k)
  {
    hide ParseValue;
    assert ("," + u)[1..] == u;
  }

  lemma LastMember(t: string, m: Member, rest: string, k: string)
    requires ParseMember(t) == Ok(m, rest) && Skip(rest) == Skip("}" + k)
    ensures ParseMembers(t) == Ok([m], k)
  {
    hide ParseMember;
    assert ("}" + k)[1..] == k;
  }

  lemma OneMoreMember(t: string, m: Member, u: string, ms: seq<Member>, k: string)
    requires ParseMember(t) == Ok(m, "," + u) && ParseMembers(Skip(u)) == Ok(ms, k)
    ensures ParseMembers(t) == Ok([m] + ms, k)
  {
    hide ParseMember;
    assert ("," + u)[1..] == u;
  }

  lemma ColonThenValue(key: string, pretty: bool, t: string, v: Value, k: string)
    requires ParseValue(t) == Ok(v, k) && t != [] && !IsSpace(t[0])
    ensures ParseMember(Quoted(key, Colon(pretty) + t)) == Ok(Member(key, v), k)
  {
    hide ParseValue, Quoted;
    var u := Colon(pretty) + t;
    QuotedRoundTrip(key, u);
    assert Skip(u) == u && StartsWith(u, ":");
    assert if pretty then u[1..] == " " + t && (" " + t)[1..] == t else u[1..] == t;
    assert Skip(u[1..]) == t;
  }

  lemma {:induction false} MembersRoundTrip(ms: seq<Member>, pretty: bool, depth: nat, k: string)
    requires ms != [] && forall m :: m in ms ==> Printable(m.value)
    ensures
      var t := MemberText(ms[0], pretty, depth + 1, MembersTail(ms[1..], pretty, depth, k));
      && Skip(MembersText(ms, true, pretty, depth + 1, Indent(pretty, depth) + ("}" + k))) == t
      && !StartsWith(t, "}") && ParseMembers(t) == Ok(ms, k)
    decreases ms
  {
    hide IsNumber, ParseValue, ParseMember, ParseMembers, ValueText, Printable, MemberText, MembersText, MembersTail, Indent, Skip, Delimits, StartsWith;
    var rest := MembersTail(ms[1..], pretty, depth, k);
    var t := MemberText(ms[0], pretty, depth + 1, rest);
    MembersUnfold(ms, pretty, depth, k);
    SkipIndent(pretty, depth + 1, t);
    MemberStarts(ms[0], pretty, depth + 1, rest);
    DelimitedTails([], ms[1..], pretty, depth, k);
    ValueRoundTrip(ms[0].value, pretty, depth + 1, rest);
    MemberRoundTrip(ms[0], pretty, depth + 1, rest, ValueText(ms[0].value, pretty, depth + 1, rest));
    if ms[1..] == [] {
      MembersEnd(pretty, depth, k);
      LastMember(t, ms[0], rest, k);
      assert ms == [ms[0]];
    } else {
      MembersRoundTrip(ms[1..], pretty, depth, k);
      MembersUnfold(ms[1..], pretty, depth, k);
      var u := MemberText(ms[1], pretty, depth + 1, MembersTail(ms[1..][1..], pretty, depth, k));
      SkipIndent(pretty, depth + 1, u);
      MemberStarts(ms[1], pretty, depth + 1, MembersTail(ms[1..][1..], pretty, depth, k));
      OneMoreMember(t, ms[0], Indent(pretty, depth + 1) + u, ms[1..], k);
      assert ms == [ms[0]] + ms[1..];
    }
  }

  /** A whole document reads back as the tree it was written from. */
  lemma DocumentRoundTrip(v: Value, pretty: bool)
    requires Printable(v)
    ensures ParseText(ValueText(v, pretty, 0, "")) == Ok(v, [])
  {
    hide ValueText, ParseValue, Printable;
    ValueStarts(v, pretty, 0, "");
    ValueRoundTrip(v, pretty, 0, "");
  }
}
