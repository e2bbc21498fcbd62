/**
 The stateful JSON writer, call by call, and the telemetry text the reporter splices by
 hand. Any tree emitted by well-nested calls comes out as `ValueText` of the tree, so it
 reads back; so do a spliced record and a spliced batch.
 */
module JsonWriters {
  import opened Json

  // ---- what each call does ----

  datatype State = State(out: string, counts: seq<nat>)

  datatype Call =
    | BeginObject
    | BeginMember(key: string)
    | EndObject
    | BeginArray(key: string)
    | EndArray
    | Field(key: string, value: Value)
    | Element(s: string)

  function Last(counts: seq<nat>): nat {
    if counts == [] then 0 else counts[|counts| - 1]
  }

  /** The text between the previous item and the next one. */
  function Before(counts: seq<nat>, pretty: bool): string {
    if counts == [] then "" else Separator(Last(counts) == 0, pretty, |counts|)
  }

  function Bump(counts: seq<nat>): seq<nat> {
    if counts == [] then [] else counts[..|counts| - 1] + [Last(counts) + 1]
  }

  function Key(key: string, pretty: bool): string { Quoted(key, Colon(pretty)) }

  function Pop(counts: seq<nat>): seq<nat> {
    if counts == [] then [] else counts[..|counts| - 1]
  }

  function Apply(w: State, pretty: bool, c: Call): State {
    var out := w.out + Before(w.counts, pretty);
    match c
    case BeginObject => State(out + "{", Bump(w.counts) + [0])
    case BeginMember(key) => State(out + Key(key, pretty) + "{", Bump(w.counts) + [0])
    case BeginArray(key) => State(out + Key(key, pretty) + "[", Bump(w.counts) + [0])
    case Field(key, v) => State(out + Key(key, pretty) + ValueText(v, pretty, 0, ""), Bump(w.counts))
    case Element(s) => State(out + Quoted(s, ""), Bump(w.counts))
    case EndObject => State(w.out + Close(Last(w.counts) == 0, pretty, |Pop(w.counts)|) + "}", Pop(w.counts))
    case EndArray => State(w.out + Close(Last(w.counts) == 0, pretty, |Pop(w.counts)|) + "]", Pop(w.counts))
  }

  function Run(w: State, pretty: bool, cs: seq<Call>): State
    decreases |cs|
  {
    if cs == [] then w else Run(Apply(w, pretty, cs[0]), pretty, cs[1..])
  }

  // ---- the calls that emit a tree ----

  predicate Scalar(v: Value) { v.Null? || v.Bool? || v.Num? || v.Str? }

  /** Array elements are strings or objects; nothing else can be written there. */
  predicate Emittable(v: Value)
    decreases v
  {
    match v
    case Arr(es) => forall e :: e in es ==> (e.Str? || e.Obj?) && Emittable(e)
    case Obj(ms) => forall m :: m in ms ==> Emittable(m.value)
    case _ => true
  }

  function MemberCalls(m: Member): seq<Call>
    decreases m
  {
    match m.value
    case Obj(ms) => [BeginMember(m.key)] + (MembersCalls(ms) + [EndObject])
    case Arr(es) => [BeginArray(m.key)] + (ElementsCalls(es) + [EndArray])
    case v => [Field(m.key, v)]
  }

  function ElementCalls(e: Value): seq<Call>
    decreases e
  {
    match e
    case Obj(ms) => [BeginObject] + (MembersCalls(ms) + [EndObject])
    case Str(s) => [Element(s)]
    case _ => []
  }

  function MembersCalls(ms: seq<Member>): seq<Call>
    decreases ms
  {
    if ms == [] then [] else MemberCalls(ms[0]) + MembersCalls(ms[1..])
  }

  function ElementsCalls(es: seq<Value>): seq<Call>
    decreases es
  {
    if es == [] then [] else ElementCalls(es[0]) + ElementsCalls(es[1..])
  }

  // ---- text behind text ----

  lemma {:induction false} EscapedAppend(s: string, k: string)
    ensures Escaped(s, k) == Escaped(s, "") + k
  {
    if s == [] {
    } else {
      EscapedAppend(s[1..], k);
      assert EscapeChar(s[0]) + (Escaped(s[1..], "") + k) == EscapeChar(s[0]) + Escaped(s[1..], "") + k;
    }
  }

  lemma QuotedAppend(s: string, k: string)
    ensures Quoted(s, k) == Quoted(s, "") + k
  {
    EscapedAppend(s, "\"" + k);
    EscapedAppend(s, "\"");
    assert "\"" + "" == "\"";
    assert "\"" + (Escaped(s, "") + ("\"" + k)) == ("\"" + (Escaped(s, "") + "\"")) + k;
  }

  lemma Chain(a: string, b: string, c: string, d: string)
    ensures a + (b + (c + d)) == (a + (b + c)) + d
    ensures ((a + b) + c) + d == a + (b + (c + d))
    ensures (a + b) + c == a + (b + c)
  {}

  lemma Wrapped(a: string, e: string, c: string, b: string, k: string)
    ensures a + (e + (c + (b + k))) == (a + (e + (c + (b + "")))) + k
  {}

  lemma {:induction false} TextAppend(v: Value, pretty: bool, depth: nat, k: string)
    ensures ValueText(v, pretty, depth, k) == ValueText(v, pretty, depth, "") + k
    decreases v
  {
    hide Quoted, Close, ElementsText, MembersText;
    match v
    case Str(s) => QuotedAppend(s, k);
    case Arr(es) =>
      var c := Close(es == [], pretty, depth);
      ElementsAppend(es, true, pretty, depth + 1, c + ("]" + k));
      ElementsAppend(es, true, pretty, depth + 1, c + ("]" + ""));
      Wrapped("[", ElementsText(es, true, pretty, depth + 1, ""), c, "]", k);
    case Obj(ms) =>
      var c := Close(ms == [], pretty, depth);
      MembersAppend(ms, true, pretty, depth + 1, c + ("}" + k));
      MembersAppend(ms, true, pretty, depth + 1, c + ("}" + ""));
      Wrapped("{", MembersText(ms, true, pretty, depth + 1, ""), c, "}", k);
    case _ =>
  }

  lemma {:induction false} ElementsAppend(es: seq<Value>, first: bool, pretty: bool, depth: nat, k: string)
    ensures ElementsText(es, first, pretty, depth, k) == ElementsText(es, first, pretty, depth, "") + k
    decreases es
  {
    hide ValueText, Separator;
    if es != [] {
      var rest := ElementsText(es[1..], false, pretty, depth, "");
      ElementsAppend(es[1..], false, pretty, depth, k);
      TextAppend(es[0], pretty, depth, rest + k);
      TextAppend(es[0], pretty, depth, rest);
      var s, t := Separator(first, pretty, depth), ValueText(es[0], pretty, depth, "");
      assert s + (t + (rest + k)) == (s + (t + rest)) + k;
    }
  }

  lemma {:induction false} MembersAppend(ms: seq<Member>, first: bool, pretty: bool, depth: nat, k: string)
    ensures MembersText(ms, first, pretty, depth, k) == MembersText(ms, first, pretty, depth, "") + k
    decreases ms
  {
    hide MemberText, Separator;
    if ms != [] {
      var rest := MembersText(ms[1..], false, pretty, depth, "");
      MembersAppend(ms[1..], false, pretty, depth, k);
      MemberAppend(ms[0], pretty, depth, rest + k);
      MemberAppend(ms[0], pretty, depth, rest);
      var s, t := Separator(first, pretty, depth), MemberText(ms[0], pretty, depth, "");
      assert s + (t + (rest + k)) == (s + (t + rest)) + k;
    }
  }

  lemma {:induction false} MemberAppend(m: Member, pretty: bool, depth: nat, k: string)
    ensures MemberText(m, pretty, depth, k) == MemberText(m, pretty, depth, "") + k
    ensures MemberText(m, pretty, depth, "") == Key(m.key, pretty) + ValueText(m.value, pretty, depth, "")
    decreases m
  {
    hide Quoted, ValueText, Colon;
    var v, c := ValueText(m.value, pretty, depth, ""), Colon(pretty);
    TextAppend(m.value, pretty, depth, k);
    QuotedAppend(m.key, c + (v + k));
    QuotedAppend(m.key, c + v);
    QuotedAppend(m.key, c);
    var q := Quoted(m.key, "");
    assert q + (c + (v + k)) == (q + (c + v)) + k;
    assert q + (c + v) == (q + c) + v;
  }

  // ---- running the calls of a tree ----

  lemma {:induction false} RunAppend(w: State, pretty: bool, a: seq<Call>, b: seq<Call>)
    ensures Run(w, pretty, a + b) == Run(Run(w, pretty, a), pretty, b)
    decreases |a|
  {
    hide Apply;
    if a == [] {
      assert a + b == b;
    } else {
      assert (a + b)[1..] == a[1..] + b;
      RunAppend(Apply(w, pretty, a[0]), pretty, a[1..], b);
    }
  }

  lemma RunNothing(w: State, pretty: bool)
    ensures Run(w, pretty, []) == w
  {}

  lemma RunOne(w: State, pretty: bool, c: Call)
    ensures Run(w, pretty, [c]) == Apply(w, pretty, c)
  {
    hide Apply;
    assert [c][1..] == [];
  }

  /** A container: opened, filled by `inner`, closed. */
  lemma RunAround(w: State, pretty: bool, open: Call, inner: seq<Call>, close: Call)
    ensures Run(w, pretty, [open] + (inner + [close])) == Apply(Run(Apply(w, pretty, open), pretty, inner), pretty, close)
  {
    hide Apply, Run;
    RunAppend(w, pretty, [open], inner + [close]);
    RunOne(w, pretty, open);
    RunAppend(Apply(w, pretty, open), pretty, inner, [close]);
    RunOne(Run(Apply(w, pretty, open), pretty, inner), pretty, close);
  }

  function Filled(counts: seq<nat>, n: nat): seq<nat>
    requires counts != []
  {
    counts[..|counts| - 1] + [Last(counts) + n]
  }

  lemma FilledBump(counts: seq<nat>, n: nat)
    requires counts != []
    ensures Filled(counts, 0) == counts
    ensures Bump(counts) != [] && |Bump(counts)| == |counts| && Last(Bump(counts)) != 0
    ensures Filled(Bump(counts), n) == Filled(counts, n + 1)
  {}

  lemma {:induction false} MembersRun(w: State, pretty: bool, ms: seq<Member>)
    requires w.counts != [] && forall m :: m in ms ==> Emittable(m.value)
    ensures Run(w, pretty, MembersCalls(ms)) ==
            State(w.out + MembersText(ms, Last(w.counts) == 0, pretty, |w.counts|, ""), Filled(w.counts, |ms|))
    decreases ms
  {
    hide Run, MemberCalls, MemberText, Separator, Emittable, Filled, Bump, Last;
    FilledBump(w.counts, if ms == [] then 0 else |ms| - 1);
    if ms == [] {
      RunNothing(w, pretty);
      assert w.out + "" == w.out;
    } else {
      var d, first := |w.counts|, Last(w.counts) == 0;
      MemberRun(w, pretty, ms[0]);
      var w' := Run(w, pretty, MemberCalls(ms[0]));
      RunAppend(w, pretty, MemberCalls(ms[0]), MembersCalls(ms[1..]));
      MembersRun(w', pretty, ms[1..]);
      var rest := MembersText(ms[1..], false, pretty, d, "");
      MemberAppend(ms[0], pretty, d, rest);
      Chain(w.out, Separator(first, pretty, d), MemberText(ms[0], pretty, d, ""), rest);
    }
  }

  lemma {:induction false} ElementsRun(w: State, pretty: bool, es: seq<Value>)
    requires w.counts != [] && forall e :: e in es ==> (e.Str? || e.Obj?) && Emittable(e)
    ensures Run(w, pretty, ElementsCalls(es)) ==
            State(w.out + ElementsText(es, Last(w.counts) == 0, pretty, |w.counts|, ""), Filled(w.counts, |es|))
    decreases es
  {
    hide Run, ElementCalls, ValueText, Separator, Emittable, Filled, Bump, Last;
    FilledBump(w.counts, if es == [] then 0 else |es| - 1);
    if es == [] {
      RunNothing(w, pretty);
      assert w.out + "" == w.out;
    } else {
      var d, first := |w.counts|, Last(w.counts) == 0;
      ElementRun(w, pretty, es[0]);
      var w' := Run(w, pretty, ElementCalls(es[0]));
      RunAppend(w, pretty, ElementCalls(es[0]), ElementsCalls(es[1..]));
      ElementsRun(w', pretty, es[1..]);
      var rest := ElementsText(es[1..], false, pretty, d, "");
      TextAppend(es[0], pretty, d, rest);
      Chain(w.out, Separator(first, pretty, d), ValueText(es[0], pretty, d, ""), rest);
    }
  }

  /** Closing a container that was opened behind `out` and filled with `body`. */
  lemma CloseObject(out: string, counts: seq<nat>, ms: seq<Member>, pretty: bool)
    ensures
      var body := MembersText(ms, true, pretty, |counts| + 1, "");
      Apply(State(out + "{" + body, Filled(counts + [0], |ms|)), pretty, EndObject) ==
      State(out + ValueText(Obj(ms), pretty, |counts|, ""), counts)
  {
    hide MembersText, Close, Before;
    var c, body := Close(ms == [], pretty, |counts|), MembersText(ms, true, pretty, |counts| + 1, "");
    MembersAppend(ms, true, pretty, |counts| + 1, c + ("}" + ""));
    assert "}" + "" == "}";
    assert out + ("{" + (body + (c + "}"))) == ((out + "{") + body) + c + "}";
  }

  lemma CloseArray(out: string, counts: seq<nat>, es: seq<Value>, pretty: bool)
    ensures
      var body := ElementsText(es, true, pretty, |counts| + 1, "");
      Apply(State(out + "[" + body, Filled(counts + [0], |es|)), pretty, EndArray) ==
      State(out + ValueText(Arr(es), pretty, |counts|, ""), counts)
  {
    hide ElementsText, Close, Before;
    var c, body := Close(es == [], pretty, |counts|), ElementsText(es, true, pretty, |counts| + 1, "");
    ElementsAppend(es, true, pretty, |counts| + 1, c + ("]" + ""));
    assert "]" + "" == "]";
    assert out + ("[" + (body + (c + "]"))) == ((out + "[") + body) + c + "]";
  }

  /** The counts inside a container opened behind `w`. */
  lemma Opened(w: State, pretty: bool)
    requires w.counts != []
    ensures
      var inside := Bump(w.counts) + [0];
      && inside != [] && Last(inside) == 0 && |inside| == |w.counts| + 1 && |Bump(w.counts)| == |w.counts|
      && Before(w.counts, pretty) == Separator(Last(w.counts) == 0, pretty, |w.counts|)
  {
    hide Separator;
  }

  lemma ApplyBegins(w: State, pretty: bool, key: string)
    ensures Apply(w, pretty, BeginObject) == State(w.out + Before(w.counts, pretty) + "{", Bump(w.counts) + [0])
    ensures Apply(w, pretty, BeginMember(key)) == State(w.out + Before(w.counts, pretty) + Key(key, pretty) + "{", Bump(w.counts) + [0])
    ensures Apply(w, pretty, BeginArray(key)) == State(w.out + Before(w.counts, pretty) + Key(key, pretty) + "[", Bump(w.counts) + [0])
  {
    hide Before, Bump, Key;
  }

  lemma {:induction false} MemberRun(w: State, pretty: bool, m: Member)
    requires w.counts != [] && Emittable(m.value)
    ensures Run(w, pretty, MemberCalls(m)) ==
            State(w.out + (Separator(Last(w.counts) == 0, pretty, |w.counts|) + MemberText(m, pretty, |w.counts|, "")), Bump(w.counts))
    decreases m
  {
    hide Separator, MemberText, MembersText, ElementsText, MembersCalls, ElementsCalls, ValueText, Key, Run, Apply, Before, Bump, Last, Filled;
    var s, key, d := Before(w.counts, pretty), Key(m.key, pretty), |w.counts|;
    MemberAppend(m, pretty, d, "");
    var out := w.out + s + key;
    Chain(w.out, s, key, ValueText(m.value, pretty, d, ""));
    Opened(w, pretty);
    ApplyBegins(w, pretty, m.key);
    match m.value
    case Obj(ms) =>
      var w1 := Apply(w, pretty, BeginMember(m.key));
      RunAround(w, pretty, BeginMember(m.key), MembersCalls(ms), EndObject);
      MembersRun(w1, pretty, ms);
      CloseObject(out, Bump(w.counts), ms, pretty);
    case Arr(es) =>
      var w1 := Apply(w, pretty, BeginArray(m.key));
      RunAround(w, pretty, BeginArray(m.key), ElementsCalls(es), EndArray);
      ElementsRun(w1, pretty, es);
      CloseArray(out, Bump(w.counts), es, pretty);
    case v =>
      RunOne(w, pretty, Field(m.key, v));
      ApplyField(w, pretty, m.key, v);
      ScalarDepth(v, pretty, d);
  }

  lemma ApplyField(w: State, pretty: bool, key: string, v: Value)
    ensures Apply(w, pretty, Field(key, v)) == State(w.out + Before(w.counts, pretty) + Key(key, pretty) + ValueText(v, pretty, 0, ""), Bump(w.counts))
    ensures forall t :: Apply(w, pretty, Element(t)) == State(w.out + Before(w.counts, pretty) + Quoted(t, ""), Bump(w.counts))
  {
    hide Before, Bump, Key, ValueText, Quoted;
  }

  lemma StringText(t: string, pretty: bool, depth: nat)
    ensures ValueText(Str(t), pretty, depth, "") == Quoted(t, "")
  {}

  lemma ScalarDepth(v: Value, pretty: bool, depth: nat)
    requires Scalar(v)
    ensures ValueText(v, pretty, depth, "") == ValueText(v, pretty, 0, "")
  {}

  lemma {:induction false} ElementRun(w: State, pretty: bool, e: Value)
    requires w.counts != [] && Emittable(e) && (e.Str? || e.Obj?)
    ensures Run(w, pretty, ElementCalls(e)) ==
            State(w.out + (Separator(Last(w.counts) == 0, pretty, |w.counts|) + ValueText(e, pretty, |w.counts|, "")), Bump(w.counts))
    decreases e
  {
    hide Separator, MembersText, MembersCalls, Quoted, Run, ValueText, Apply, Before, Bump, Last, Filled;
    var s, d := Before(w.counts, pretty), |w.counts|;
    Chain(w.out, s, ValueText(e, pretty, d, ""), "");
    Opened(w, pretty);
    ApplyBegins(w, pretty, "");
    match e
    case Obj(ms) =>
      var w1 := Apply(w, pretty, BeginObject);
      RunAround(w, pretty, BeginObject, MembersCalls(ms), EndObject);
      MembersRun(w1, pretty, ms);
      CloseObject(w.out + s, Bump(w.counts), ms, pretty);
    case Str(t) =>
      RunOne(w, pretty, Element(t));
      ApplyField(w, pretty, "", e);
      StringText(t, pretty, d);
  }

  /** A fresh writer given the calls of a root object holds the text of the object. */
  lemma DocumentRun(v: Value, pretty: bool)
    requires v.Obj? && Emittable(v)
    ensures Run(State("", []), pretty, ElementCalls(v)) == State(ValueText(v, pretty, 0, ""), [])
  {
    hide MembersText, MembersCalls, Run;
    var w := State("", []);
    RunAround(w, pretty, BeginObject, MembersCalls(v.members), EndObject);
    var w1 := Apply(w, pretty, BeginObject);
    MembersRun(w1, pretty, v.members);
    CloseObject("", [], v.members, pretty);
    assert "" + ValueText(v, pretty, 0, "") == ValueText(v, pretty, 0, "");
    assert w1.out == "" + "{";
  }

  /** What the writer holds after those calls reads back as the tree, pretty or compact. */
  lemma WriterRoundTrip(v: Value, pretty: bool)
    requires v.Obj? && Emittable(v) && Printable(v)
    ensures ParseText(Run(State("", []), pretty, ElementCalls(v)).out) == Ok(v, [])
  {
    hide ValueText, Run, ParseText, Printable, Emittable;
    DocumentRun(v, pretty);
    DocumentRoundTrip(v, pretty);
  }

  // ---- the writer object ----

  /** The escaping loop, one character after another. */
  method JsonEscape(s: string) returns (out: string)
    ensures out == Escaped(s, "")
  {
    hide EscapeChar;
    out := "";
    assert s[0..] == s;
    for i := 0 to |s|
      invariant Escaped(s, "") == out + Escaped(s[i..], "")
    {
      assert s[i..][0] == s[i] && s[i..][1..] == s[i + 1..];
      out := out + EscapeChar(s[i]);
    }
  }

  class JsonWriter {
    var out: string
    var counts: seq<nat>
    const pretty: bool

    ghost function Value(): State
      reads this
    {
      State(out, counts)
    }

    constructor (p: bool)
      ensures Value() == State("", []) && pretty == p
    {
      out, counts, pretty := "", [], p;
    }

    method WriteNewlineIndent()
      modifies this`out
      ensures out == old(out) + (if counts == [] then "" else Indent(pretty, |counts|))
    {
      if !pretty || counts == [] { return; }
      out := out + "\n" + Spaces(2 * |counts|);
    }

    method WriteSeparator()
      modifies this
      ensures out == old(out) + Before(old(counts), pretty) && counts == Bump(old(counts))
    {
      if counts != [] {
        var n := |counts| - 1;
        if counts[n] > 0 { out := out + ","; }
        counts := counts[n := counts[n] + 1];
      }
      WriteNewlineIndent();
    }

    method WriteQuoted(s: string)
      modifies this`out
      ensures out == old(out) + Quoted(s, "")
    {
      var e := JsonEscape(s);
      EscapedAppend(s, "\"");
      assert "\"" + "" == "\"";
      out := out + "\"" + e + "\"";
    }

    method WriteKey(key: string)
      modifies this`out
      ensures out == old(out) + Key(key, pretty)
    {
      WriteQuoted(key);
      QuotedAppend(key, Colon(pretty));
      out := out + (if pretty then ": " else ":");
    }

    method WriteBeginObject()
      modifies this
      ensures Value() == Apply(old(Value()), pretty, BeginObject)
    {
      WriteSeparator();
      out := out + "{";
      counts := counts + [0];
    }

    method WriteBeginMember(key: string)
      modifies this
      ensures Value() == Apply(old(Value()), pretty, BeginMember(key))
    {
      WriteSeparator();
      WriteKey(key);
      out := out + "{";
      counts := counts + [0];
    }

    method WriteBeginArray(key: string)
      modifies this
      ensures Value() == Apply(old(Value()), pretty, BeginArray(key))
    {
      WriteSeparator();
      WriteKey(key);
      out := out + "[";
      counts := counts + [0];
    }

    method WriteEndObject()
      modifies this
      ensures Value() == Apply(old(Value()), pretty, EndObject)
    {
      var n := if counts == [] then 0 else counts[|counts| - 1];
      if counts != [] { counts := counts[..|counts| - 1]; }
      if pretty && n > 0 { out := out + "\n" + Spaces(2 * |counts|); }
      out := out + "}";
    }

    method WriteEndArray()
      modifies this
      ensures Value() == Apply(old(Value()), pretty, EndArray)
    {
      var n := if counts == [] then 0 else counts[|counts| - 1];
      if counts != [] { counts := counts[..|counts| - 1]; }
      if pretty && n > 0 { out := out + "\n" + Spaces(2 * |counts|); }
      out := out + "]";
    }

    method WriteStringField(key: string, s: string)
      modifies this
      ensures Value() == Apply(old(Value()), pretty, Field(key, Str(s)))
    {
      WriteSeparator();
      WriteKey(key);
      WriteQuoted(s);
    }

    method WriteBoolField(key: string, b: bool)
      modifies this
      ensures Value() == Apply(old(Value()), pretty, Field(key, Bool(b)))
    {
      WriteSeparator();
      WriteKey(key);
      out := out + (if b then "true" else "false");
    }

    /** Integers and scores alike: `text` is what the formatter produced. */
    method WriteNumberField(key: string, text: string)
      modifies this
      ensures Value() == Apply(old(Value()), pretty, Field(key, Num(text)))
    {
      WriteSeparator();
      WriteKey(key);
      out := out + text;
    }

    method WriteNullField(key: string)
      modifies this
      ensures Value() == Apply(old(Value()), pretty, Field(key, Null))
    {
      WriteSeparator();
      WriteKey(key);
      out := out + "null";
    }

    method WriteElement(s: string)
      modifies this
      ensures Value() == Apply(old(Value()), pretty, Element(s))
    {
      WriteSeparator();
      WriteQuoted(s);
    }
  }

  // ---- telemetry text spliced by hand ----

  /** A record around any payload text; around the compact text of a value it reads back as the record of that value. */
  method MakeRecord(id: string, kind: string, payload: string) returns (out: string)
    ensures out == RecordText(id, kind, payload)
    ensures forall v :: payload == ValueText(v, false, 0, "") ==>
      var record := Obj([Member("id", Str(id)), Member("type", Str(kind)), Member("payload", v)]);
      out == ValueText(record, false, 0, "") && (Printable(v) ==> ParseText(out) == Ok(record, []))
  {
    hide ValueText, ParseText, Printable, Escaped;
    out := "{\"id\":\"";
    var e := JsonEscape(id);
    out := out + e + "\",\"type\":\"";
    e := JsonEscape(kind);
    out := out + e + "\",\"payload\":" + payload + "}";
    forall v | payload == ValueText(v, false, 0, "")
      ensures out == ValueText(RecordValue(id, kind, v), false, 0, "")
      ensures Printable(v) ==> ParseText(out) == Ok(RecordValue(id, kind, v), [])
    {
      RecordIsValue(id, kind, v);
      if Printable(v) {
        RecordPrintable(id, kind, v);
        DocumentRoundTrip(RecordValue(id, kind, v), false);
      }
    }
  }

  lemma RecordPrintable(id: string, kind: string, v: Value)
    requires Printable(v)
    ensures Printable(RecordValue(id, kind, v))
  {}

  function RecordText(id: string, kind: string, payload: string): string {
    "{\"id\":\"" + Escaped(id, "") + "\",\"type\":\"" + Escaped(kind, "") + "\",\"payload\":" + payload + "}"
  }

  function RecordValue(id: string, kind: string, v: Value): Value {
    Obj([Member("id", Str(id)), Member("type", Str(kind)), Member("payload", v)])
  }

  function Joined(ts: seq<string>): string {
    if ts == [] then "" else ts[0] + (if |ts| == 1 then "" else "," + Joined(ts[1..]))
  }

  /** The body of one post. */
  function BatchText(ts: seq<string>): string { "{\"records\":[" + Joined(ts) + "]}" }

  function Compact(vs: seq<Value>): seq<string> {
    if vs == [] then [] else [ValueText(vs[0], false, 0, "")] + Compact(vs[1..])
  }

  function BatchValue(vs: seq<Value>): Value { Obj([Member("records", Arr(vs))]) }

  /** Compact text does not depend on the depth. */
  lemma {:induction false} CompactDepth(v: Value, d: nat, k: string)
    ensures ValueText(v, false, d, k) == ValueText(v, false, 0, k)
    decreases v
  {
    hide Quoted;
    match v
    case Arr(es) => CompactElements(es, true, d + 1, 1, Close(es == [], false, d) + ("]" + k));
    case Obj(ms) => CompactMembers(ms, true, d + 1, 1, Close(ms == [], false, d) + ("}" + k));
    case _ =>
  }

  lemma {:induction false} CompactElements(es: seq<Value>, first: bool, d: nat, d': nat, k: string)
    ensures ElementsText(es, first, false, d, k) == ElementsText(es, first, false, d', k)
    decreases es
  {
    hide ValueText;
    if es != [] {
      CompactElements(es[1..], false, d, d', k);
      CompactDepth(es[0], d, ElementsText(es[1..], false, false, d, k));
      CompactDepth(es[0], d', ElementsText(es[1..], false, false, d, k));
    }
  }

  lemma {:induction false} CompactMembers(ms: seq<Member>, first: bool, d: nat, d': nat, k: string)
    ensures MembersText(ms, first, false, d, k) == MembersText(ms, first, false, d', k)
    decreases ms
  {
    hide ValueText, Quoted;
    if ms != [] {
      CompactMembers(ms[1..], false, d, d', k);
      CompactDepth(ms[0].value, d, MembersText(ms[1..], false, false, d, k));
      CompactDepth(ms[0].value, d', MembersText(ms[1..], false, false, d, k));
    }
  }

  /** One member of a compact object: key, value, and what follows. */
  lemma CompactMember(key: string, v: Value, k: string)
    ensures MemberText(Member(key, v), false, 1, k) == "\"" + (Escaped(key, "") + ("\":" + (ValueText(v, false, 0, "") + k)))
  {
    hide ValueText, Escaped;
    CompactDepth(v, 1, k);
    TextAppend(v, false, 0, k);
    var t := ValueText(v, false, 0, "") + k;
    EscapedAppend(key, "\"" + (":" + t));
    assert "\"" + (":" + t) == "\":" + t;
  }

  lemma PlainChar(c: char)
    requires 'a' <= c <= 'z'
    ensures EscapeChar(c) == [c]
  {}

  /** Letters are not escaped. */
  lemma {:induction false} PlainText(s: string)
    requires forall c :: c in s ==> 'a' <= c <= 'z'
    ensures Escaped(s, "") == s
  {
    hide EscapeChar;
    if s != [] {
      assert s[0] in s && forall c :: c in s[1..] ==> c in s;
      PlainChar(s[0]);
      PlainText(s[1..]);
      assert s == [s[0]] + s[1..];
    }
  }

  lemma CompactList(m: Member, ms: seq<Member>, k: string)
    ensures MembersText([m] + ms, true, false, 1, k) == MemberText(m, false, 1, MembersText(ms, false, false, 1, k))
    ensures MembersText([m] + ms, false, false, 1, k) == "," + MemberText(m, false, 1, MembersText(ms, false, false, 1, k))
  {
    hide MemberText;
    assert ([m] + ms)[1..] == ms;
    var t := MemberText(m, false, 1, MembersText(ms, false, false, 1, k));
    assert Separator(true, false, 1) + t == t && Separator(false, false, 1) + t == "," + t;
  }

  lemma CompactObject(ms: seq<Member>)
    ensures ValueText(Obj(ms), false, 0, "") == "{" + MembersText(ms, true, false, 1, "}")
  {
    hide MembersText;
    assert Close(ms == [], false, 0) + ("}" + "") == "}";
  }

  lemma RecordPieces(id: string, kind: string, v: Value)
    ensures ValueText(RecordValue(id, kind, v), false, 0, "") ==
            "{" + MemberText(Member("id", Str(id)), false, 1,
                    "," + MemberText(Member("type", Str(kind)), false, 1,
                      "," + MemberText(Member("payload", v), false, 1, "}")))
  {
    hide MemberText, MembersText, ValueText;
    var a, b, c := Member("id", Str(id)), Member("type", Str(kind)), Member("payload", v);
    CompactObject([a, b, c]);
    assert [a, b, c] == [a] + ([b] + ([c] + []));
    CompactList(a, [b] + ([c] + []), "}");
    CompactList(b, [c] + [], "}");
    CompactList(c, [], "}");
    NoMembers("}");
  }

  lemma NoMembers(k: string)
    ensures MembersText([], false, false, 1, k) == k
  {}

  /** The record text as `MakeRecord` puts it together, piece behind piece. */
  lemma RecordSplice(a: string, b: string, c: string)
    ensures
      var inner := "\"" + ("type" + ("\":" + (("\"" + b + "\"") + ("," + ("\"" + ("payload" + ("\":" + (c + "}"))))))));
      "{\"id\":\"" + a + "\",\"type\":\"" + b + "\",\"payload\":" + c + "}" ==
      "{" + ("\"" + ("id" + ("\":" + (("\"" + a + "\"") + ("," + inner)))))
  {}

  /** A record spliced by hand is the compact text of the object it should be. */
  lemma RecordIsValue(id: string, kind: string, v: Value)
    ensures RecordText(id, kind, ValueText(v, false, 0, "")) == ValueText(RecordValue(id, kind, v), false, 0, "")
  {
    hide ValueText, Escaped, MemberText;
    PlainText("id");
    PlainText("type");
    PlainText("payload");
    RecordPieces(id, kind, v);
    CompactMember("payload", v, "}");
    var k2 := "," + MemberText(Member("payload", v), false, 1, "}");
    CompactMember("type", Str(kind), k2);
    var k1 := "," + MemberText(Member("type", Str(kind)), false, 1, k2);
    CompactMember("id", Str(id), k1);
    QuotedText(id);
    QuotedText(kind);
    RecordSplice(Escaped(id, ""), Escaped(kind, ""), ValueText(v, false, 0, ""));
  }

  lemma QuotedText(s: string)
    ensures ValueText(Str(s), false, 0, "") == "\"" + Escaped(s, "") + "\""
  {
    EscapedAppend(s, "\"");
    assert "\"" + "" == "\"";
  }

  lemma {:induction false} JoinedElements(vs: seq<Value>)
    ensures ElementsText(vs, true, false, 2, "") == Joined(Compact(vs))
    ensures vs != [] ==> ElementsText(vs, false, false, 2, "") == "," + Joined(Compact(vs))
  {
    hide ValueText;
    if vs != [] {
      var rest := ElementsText(vs[1..], false, false, 2, "");
      JoinedElements(vs[1..]);
      CompactDepth(vs[0], 2, rest);
      TextAppend(vs[0], false, 0, rest);
      assert |Compact(vs)| == 1 <==> vs[1..] == [];
      assert Compact(vs)[1..] == Compact(vs[1..]);
    }
  }

  /** A batch spliced from compact texts is the compact text of the batch, records in order. */
  lemma BatchIsValue(vs: seq<Value>)
    ensures BatchText(Compact(vs)) == ValueText(BatchValue(vs), false, 0, "")
  {
    hide Escaped, ElementsText, Joined, ValueText, MemberText, MembersText, Compact;
    PlainText("records");
    ArrayText(vs);
    CompactMember("records", Arr(vs), "}");
    var m, t := Member("records", Arr(vs)), Joined(Compact(vs));
    CompactObject([m]);
    assert [m] == [m] + [];
    CompactList(m, [], "}");
    NoMembers("}");
    assert BatchText(Compact(vs)) == "{" + ("\"" + ("records" + ("\":" + (("[" + (t + "]")) + "}"))));
  }

  lemma ArrayText(vs: seq<Value>)
    ensures ValueText(Arr(vs), false, 0, "") == "[" + (Joined(Compact(vs)) + "]")
  {
    hide ElementsText, Joined, Compact;
    JoinedElements(vs);
    CompactElements(vs, true, 1, 2, "");
    ElementsAppend(vs, true, false, 1, "]");
    assert Close(vs == [], false, 0) + ("]" + "") == "]";
  }

  /** The body of a post reads back as exactly its records, in order. */
  lemma BatchRoundTrip(vs: seq<Value>)
    requires forall v :: v in vs ==> Printable(v)
    ensures ParseText(BatchText(Compact(vs))) == Ok(Obj([Member("records", Arr(vs))]), [])
  {
    hide ValueText, ParseText, Compact, BatchText;
    BatchIsValue(vs);
    DocumentRoundTrip(BatchValue(vs), false);
  }

  // ---- what the text looks like ----

  /**
   Indented, every item and every closing bracket of a filled container stands on a line of its
   own behind two blanks a level; compact, nothing stands between the items but commas.
   */
  lemma LayoutIs(first: bool, depth: nat)
    ensures
      var line := Separator(first, true, depth);
      var start := if first then 0 else 1;
      && |line| == start + 1 + 2 * depth && (!first ==> line[0] == ',') && line[start] == '\n'
      && forall i :: start < i < |line| ==> line[i] == ' '
    ensures Separator(true, false, depth) == "" && Separator(false, false, depth) == ","
    ensures Close(false, true, depth) == Separator(true, true, depth) && Close(false, false, depth) == ""
    ensures Close(true, true, depth) == "" && Close(true, false, depth) == ""
    ensures Colon(true) == ": " && Colon(false) == ":"
  {}
}
