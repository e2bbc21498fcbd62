/**
 From package names to CPE products: name normalisation and the alias table. Normalising
 is idempotent, and what a name resolves to does not depend on the order of the alias file
 or on how the sort breaks ties.
 */
module Names {
  import opened Options
  import opened Versions

  // ---- splitting ----

  predicate IsSpace(c: char) {
    c == ' ' || c == '\t' || c == '\n' || c == '\r' || c == '\U{0B}' || c == '\U{0C}'
  }

  predicate NotSpace(c: char) { !IsSpace(c) }

  /** The tokens `istringstream >>` reads. */
  function SplitSpaces(s: string): seq<string>
    decreases |s|
  {
    var k := Run(s, IsSpace);
    var t := s[k..];
    if t == [] then []
    else
      var n := Run(t, NotSpace);
      [t[..n]] + SplitSpaces(t[n..])
  }

  /** They are words, made of characters of the text. */
  lemma {:induction false} SplitWords(s: string)
    ensures forall w :: w in SplitSpaces(s) ==> IsWordOf(w, s)
    decreases |s|
  {
    hide IsWordOf, NotSpace, IsSpace;
    var k := Run(s, IsSpace);
    var t := s[k..];
    if t != [] {
      var n := Run(t, NotSpace);
      var rest := t[n..];
      RunsOn(s, k);
      FirstWord(s, k, n);
      SplitWords(rest);
      forall w | w in SplitSpaces(rest) ensures IsWordOf(w, s) { WordOfMore(w, rest, s); }
    }
  }

  ghost predicate IsWordOf(w: string, s: string) {
    w != [] && forall c :: c in w ==> NotSpace(c) && c in s
  }

  lemma RunsOn(s: string, k: nat)
    requires k == Run(s, IsSpace) && k < |s|
    ensures Run(s[k..], NotSpace) > 0
  {
    assert s[k..][0] == s[k];
  }

  lemma FirstWord(s: string, k: nat, n: nat)
    requires k <= |s| && n == Run(s[k..], NotSpace) > 0
    ensures IsWordOf(s[k..][..n], s) && forall c :: c in s[k..][n..] ==> c in s
  {
    var t := s[k..];
    forall c | c in t[..n] ensures NotSpace(c) && c in s {
      var i :| 0 <= i < n && t[..n][i] == c;
      assert t[i] == c && s[k + i] == c;
    }
  }

  lemma WordOfMore(w: string, rest: string, s: string)
    requires IsWordOf(w, rest) && forall c :: c in rest ==> c in s
    ensures IsWordOf(w, s)
  {}

  function JoinSpaces(ws: seq<string>): string {
    if ws == [] then [] else if |ws| == 1 then ws[0] else ws[0] + " " + JoinSpaces(ws[1..])
  }

  predicate IsTrimmed(c: char) { c == ' ' || c == '\t' || c == '\r' || c == '\n' }

  function TrimLeft(s: string): string {
    if s != [] && IsTrimmed(s[0]) then TrimLeft(s[1..]) else s
  }

  function TrimRight(s: string): string {
    if s != [] && IsTrimmed(s[|s| - 1]) then TrimRight(s[..|s| - 1]) else s
  }

  function Trim(s: string): string { TrimRight(TrimLeft(s)) }

  /** The fields `getline` reads between tabs: an empty field at the end of the line is not one of them. */
  function SplitTabs(line: string): seq<string>
    decreases |line|
  {
    if line == [] then []
    else
      var i := FindChar(line, '\t');
      if i == |line| then [line] else [line[..i]] + SplitTabs(line[i + 1..])
  }

  function JoinTabs(fields: seq<string>): string {
    if fields == [] then [] else if |fields| == 1 then fields[0] else fields[0] + "\t" + JoinTabs(fields[1..])
  }

  lemma SplitTab(f: string, rest: string)
    requires '\t' !in f
    ensures SplitTabs(f + ['\t'] + rest) == [f] + SplitTabs(rest)
  {
    FindCharIs(f, rest, '\t');
    assert (f + ['\t'] + rest)[|f| + 1..] == rest;
  }

  lemma SplitLast(f: string)
    requires '\t' !in f
    ensures SplitTabs(f) == if f == [] then [] else [f]
  {
    assert forall i :: 0 <= i < |f| ==> f[i] in f;
  }

  /** Splitting a row gives its fields back, less an empty last one. */
  lemma {:induction false} SplitJoinedTabs(fields: seq<string>)
    requires fields != [] && forall f :: f in fields ==> '\t' !in f
    ensures
      var n := |fields| - 1;
      SplitTabs(JoinTabs(fields)) == if fields[n] == [] then fields[..n] else fields
  {
    hide SplitTabs;
    var f := fields[0];
    assert f in fields && forall g :: g in fields[1..] ==> g in fields;
    assert fields == [f] + fields[1..];
    if |fields| == 1 {
      SplitLast(f);
    } else {
      SplitJoinedTabs(fields[1..]);
      SplitTab(f, JoinTabs(fields[1..]));
    }
  }

  // ---- normalisation ----

  predicate IsBracket(c: char) { c == '(' || c == '[' || c == ')' || c == ']' }

  /** Lower case, with bracketed text removed. */
  function StripBrackets(raw: string, depth: nat): string {
    if raw == [] then []
    else if raw[0] == '(' || raw[0] == '[' then StripBrackets(raw[1..], depth + 1)
    else if raw[0] == ')' || raw[0] == ']' then StripBrackets(raw[1..], if depth > 0 then depth - 1 else 0)
    else if depth > 0 then StripBrackets(raw[1..], depth)
    else [Lower(raw[0])] + StripBrackets(raw[1..], depth)
  }

  /** Digits, dots and commas behind an optional v, with at least one digit. */
  predicate IsVersionToken(t: string) {
    var u := if |t| > 1 && t[0] == 'v' then t[1..] else t;
    (exists c :: c in u && IsDigit(c)) && forall c :: c in u ==> IsDigit(c) || c == '.' || c == ','
  }

  predicate IsNoise(t: string) {
    t in ["x64", "x86", "amd64", "arm64", "win32", "win64", "64-bit", "32-bit", "(64-bit)", "(32-bit)",
          "en-us", "en_us", "bit", "edition", "-"]
  }

  predicate Keeps(t: string) { !IsVersionToken(t) && !IsNoise(t) }

  function Kept(ws: seq<string>): (r: seq<string>)
    ensures forall w :: w in r <==> w in ws && Keeps(w)
  {
    if ws == [] then []
    else if Keeps(ws[0]) then [ws[0]] + Kept(ws[1..])
    else Kept(ws[1..])
  }

  function Normalize(raw: string): string { Trim(JoinSpaces(Kept(SplitSpaces(StripBrackets(raw, 0))))) }

  // ---- normalising twice changes nothing ----

  predicate IsPlain(c: char) { !IsBracket(c) && Lower(c) == c }

  lemma {:induction false} StripsToPlain(raw: string, depth: nat)
    ensures forall c :: c in StripBrackets(raw, depth) ==> IsPlain(c)
  {
    if raw != [] {
      var d := if raw[0] == '(' || raw[0] == '[' then depth + 1
               else if (raw[0] == ')' || raw[0] == ']') && depth > 0 then depth - 1 else depth;
      StripsToPlain(raw[1..], d);
    }
  }

  lemma {:induction false} PlainStays(s: string)
    requires forall c :: c in s ==> IsPlain(c)
    ensures StripBrackets(s, 0) == s
  {
    if s != [] {
      assert s[0] in s && forall c :: c in s[1..] ==> c in s;
      PlainStays(s[1..]);
      assert s == [s[0]] + s[1..];
    }
  }

  ghost predicate AreWords(ws: seq<string>) {
    forall w :: w in ws ==> w != [] && forall c :: c in w ==> NotSpace(c)
  }

  lemma {:induction false} RunPrefix(w: string, rest: string, p: char -> bool)
    requires (forall c :: c in w ==> p(c)) && (rest != [] ==> !p(rest[0]))
    ensures Run(w + rest, p) == |w|
  {
    if w == [] {
      assert w + rest == rest;
    } else {
      assert (w + rest)[1..] == w[1..] + rest;
      assert w[0] in w && forall c :: c in w[1..] ==> c in w;
      RunPrefix(w[1..], rest, p);
    }
  }

  /** One word, and what stands behind its separator. */
  lemma SplitWord(w: string, rest: string)
    requires w != [] && (forall c :: c in w ==> NotSpace(c)) && (rest != [] ==> IsSpace(rest[0]))
    ensures SplitSpaces(w + rest) == [w] + SplitSpaces(rest)
  {
    var s := w + rest;
    assert s[0] == w[0] && w[0] in w;
    assert Run(s, IsSpace) == 0 && s[0..] == s;
    RunPrefix(w, rest, NotSpace);
    assert s[..|w|] == w && s[|w|..] == rest;
  }

  lemma SkipSpace(rest: string)
    ensures SplitSpaces(" " + rest) == SplitSpaces(rest)
  {
    var s := " " + rest;
    assert s[1..] == rest;
    assert Run(s, IsSpace) == 1 + Run(rest, IsSpace);
    assert s[Run(s, IsSpace)..] == rest[Run(rest, IsSpace)..];
  }

  lemma {:induction false} SplitJoined(ws: seq<string>)
    requires AreWords(ws)
    ensures SplitSpaces(JoinSpaces(ws)) == ws
  {
    hide SplitSpaces, NotSpace;
    if ws == [] {
      SplitNothing();
    } else {
      assert ws[0] in ws && forall w :: w in ws[1..] ==> w in ws;
      if |ws| == 1 {
        SplitWord(ws[0], "");
        SplitNothing();
        assert ws[0] + "" == ws[0] && ws == [ws[0]];
      } else {
        SplitJoined(ws[1..]);
        var rest := " " + JoinSpaces(ws[1..]);
        SplitWord(ws[0], rest);
        SkipSpace(JoinSpaces(ws[1..]));
        assert ws[0] + rest == JoinSpaces(ws);
        assert ws == [ws[0]] + ws[1..];
      }
    }
  }

  lemma SplitNothing()
    ensures SplitSpaces("") == []
  {}

  lemma {:induction false} KeptStays(ws: seq<string>)
    requires forall w :: w in ws ==> Keeps(w)
    ensures Kept(ws) == ws
  {
    hide Keeps;
    if ws != [] {
      assert ws[0] in ws && forall w :: w in ws[1..] ==> w in ws;
      KeptStays(ws[1..]);
      assert ws == [ws[0]] + ws[1..];
    }
  }

  lemma {:induction false} JoinedChars(ws: seq<string>, c: char)
    requires c in JoinSpaces(ws)
    ensures c == ' ' || exists w :: w in ws && c in w
  {
    if |ws| > 1 && c !in ws[0] && c != ' ' {
      assert JoinSpaces(ws) == ws[0] + " " + JoinSpaces(ws[1..]);
      JoinedChars(ws[1..], c);
    } else if |ws| >= 1 && c in ws[0] {
      assert ws[0] in ws;
    }
  }

  lemma {:induction false} JoinedEnds(ws: seq<string>)
    requires AreWords(ws) && ws != []
    ensures
      var s := JoinSpaces(ws);
      s != [] && NotSpace(s[0]) && NotSpace(s[|s| - 1])
  {
    assert ws[0] in ws && ws[0][0] in ws[0] && ws[0][|ws[0]| - 1] in ws[0];
    if |ws| > 1 {
      assert forall w :: w in ws[1..] ==> w in ws;
      JoinedEnds(ws[1..]);
    }
  }

  lemma TrimJoined(ws: seq<string>)
    requires AreWords(ws)
    ensures Trim(JoinSpaces(ws)) == JoinSpaces(ws)
  {
    hide JoinSpaces;
    if ws == [] {
      assert JoinSpaces(ws) == [] by { NothingJoined(); }
    } else {
      JoinedEnds(ws);
    }
  }

  lemma NothingJoined()
    ensures JoinSpaces([]) == []
  {}

  /** Normalising a normal form changes nothing. */
  lemma NormalizeIdempotent(raw: string)
    ensures Normalize(Normalize(raw)) == Normalize(raw)
  {
    hide SplitSpaces, StripBrackets, Kept, Keeps, JoinSpaces, NotSpace, IsPlain, Trim;
    var low := StripBrackets(raw, 0);
    var split := SplitSpaces(low);
    SplitWords(low);
    var ws := Kept(split);
    StripsToPlain(raw, 0);
    forall c | c in JoinSpaces(ws) ensures IsPlain(c) {
      JoinedChars(ws, c);
      SpaceIsPlain();
    }
    TrimJoined(ws);
    PlainStays(JoinSpaces(ws));
    SplitJoined(ws);
    KeptStays(ws);
  }

  lemma SpaceIsPlain()
    ensures IsPlain(' ')
  {}

  /** The normalising loops of the source. */
  method NormalizeName(raw: string) returns (out: string)
    ensures out == Normalize(raw)
  {
    hide SplitSpaces, StripBrackets, Kept, JoinSpaces, Trim;
    var lowered := LowerUnbracketed(raw);
    var keep := KeepTokens(SplitSpaces(lowered));
    out := JoinTokens(keep);
    out := Trim(out);
  }

  method LowerUnbracketed(raw: string) returns (lowered: string)
    ensures lowered == StripBrackets(raw, 0)
  {
    var depth: nat := 0;
    lowered := "";
    assert raw[0..] == raw;
    for i := 0 to |raw|
      invariant StripBrackets(raw, 0) == lowered + StripBrackets(raw[i..], depth)
    {
      var c := raw[i];
      assert raw[i..][0] == c && raw[i..][1..] == raw[i + 1..];
      if c == '(' || c == '[' { depth := depth + 1; continue; }
      if c == ')' || c == ']' { if depth > 0 { depth := depth - 1; } continue; }
      if depth > 0 { continue; }
      lowered := lowered + [Lower(c)];
    }
    assert raw[|raw|..] == [];
  }

  method KeepTokens(tokens: seq<string>) returns (keep: seq<string>)
    ensures keep == Kept(tokens)
  {
    hide Keeps;
    keep := [];
    assert tokens[0..] == tokens;
    for i := 0 to |tokens|
      invariant Kept(tokens) == keep + Kept(tokens[i..])
    {
      assert tokens[i..][0] == tokens[i] && tokens[i..][1..] == tokens[i + 1..];
      if !Keeps(tokens[i]) { continue; }
      keep := keep + [tokens[i]];
    }
    assert tokens[|tokens|..] == [];
  }

  method JoinTokens(keep: seq<string>) returns (out: string)
    ensures out == JoinSpaces(keep)
  {
    out := "";
    assert keep[..0] == [];
    for i := 0 to |keep|
      invariant out == JoinSpaces(keep[..i])
    {
      JoinSnoc(keep[..i], keep[i]);
      assert keep[..i + 1] == keep[..i] + [keep[i]];
      if i > 0 { out := out + " "; }
      out := out + keep[i];
    }
    assert keep[..|keep|] == keep;
  }

  lemma {:induction false} JoinSnoc(ws: seq<string>, w: string)
    ensures JoinSpaces(ws + [w]) == if ws == [] then w else JoinSpaces(ws) + " " + w
  {
    if ws == [] {
      assert ws + [w] == [w];
    } else {
      assert (ws + [w])[1..] == ws[1..] + [w] && (ws + [w])[0] == ws[0];
      JoinSnoc(ws[1..], w);
    }
  }

  // ---- the alias table ----

  datatype Alias = Exact(pattern: string, target: string) | Prefix(pattern: string, target: string)

  /** One line of the alias file; comments, short rows and unknown kinds give nothing. */
  function ParseAlias(line: string): Option<Alias> {
    var t := Trim(line);
    if t == [] || t[0] == '#' then None
    else
      var c := SplitTabs(t);
      if |c| < 4 then None
      else
        var target := Trim(c[2]) + ":" + Trim(c[3]);
        if Trim(c[0]) == "exact" then Some(Exact(Trim(c[1]), target))
        else if Trim(c[0]) == "prefix" then Some(Prefix(Trim(c[1]), target))
        else None
  }

  function Aliases(lines: seq<string>): seq<Alias> {
    if lines == [] then []
    else
      var rest := Aliases(lines[1..]);
      if ParseAlias(lines[0]).Some? then [ParseAlias(lines[0]).value] + rest else rest
  }

  predicate StartsWith(s: string, p: string) { |p| <= |s| && s[..|p|] == p }

  /** The first prefix rule in the list that matches. */
  function FirstPrefix(ps: seq<Alias>, norm: string): Option<string> {
    if ps == [] then None
    else if StartsWith(norm, ps[0].pattern) then Some(ps[0].target)
    else FirstPrefix(ps[1..], norm)
  }

  /** The longest proper word prefix of `norm[..i]` with an exact rule. */
  function DropWords(exact: map<string, string>, norm: string, i: nat): Option<string>
    requires i <= |norm|
  {
    if i == 0 then None
    else if norm[i - 1] == ' ' && norm[..i - 1] in exact then Some(exact[norm[..i - 1]])
    else DropWords(exact, norm, i - 1)
  }

  /** The whole resolution of a normalised name. */
  function ResolveIn(exact: map<string, string>, prefixes: seq<Alias>, norm: string): Option<string> {
    if norm == [] then None
    else if norm in exact then Some(exact[norm])
    else if FirstPrefix(prefixes, norm).Some? then FirstPrefix(prefixes, norm)
    else DropWords(exact, norm, |norm|)
  }

  /** Later exact rules overwrite earlier ones. */
  function ExactRules(rules: seq<Alias>): map<string, string> {
    if rules == [] then map[]
    else
      var n := |rules| - 1;
      var m := ExactRules(rules[..n]);
      if rules[n].Exact? then m[rules[n].pattern := rules[n].target] else m
  }

  /** The prefix rules, sorted by falling length in whatever way. */
  ghost predicate SortedPrefixes(ps: seq<Alias>, rules: seq<Alias>) {
    && (forall p :: p in ps <==> p in rules && p.Prefix?)
    && (forall i, j :: 0 <= i < j < |ps| ==> |ps[i].pattern| >= |ps[j].pattern|)
  }

  /** No two rules of one kind and pattern name different targets. */
  ghost predicate NoConflict(rules: seq<Alias>) {
    forall a, b :: a in rules && b in rules && a.Exact? == b.Exact? && a.pattern == b.pattern ==> a.target == b.target
  }

  lemma {:induction false} ExactRulesAre(rules: seq<Alias>, pattern: string)
    requires NoConflict(rules)
    ensures pattern in ExactRules(rules) <==> exists a :: a in rules && a.Exact? && a.pattern == pattern
    ensures forall a :: a in rules && a.Exact? && a.pattern == pattern ==> ExactRules(rules)[pattern] == a.target
    decreases |rules|
  {
    if rules != [] {
      var n := |rules| - 1;
      assert rules == rules[..n] + [rules[n]];
      ExactRulesAre(rules[..n], pattern);
      assert rules[n] in rules;
    }
  }

  lemma SameExact(a: seq<Alias>, b: seq<Alias>)
    requires NoConflict(a) && forall r :: r in a <==> r in b
    ensures ExactRules(a) == ExactRules(b)
  {
    hide ExactRules;
    forall p ensures p in ExactRules(a) <==> p in ExactRules(b) {
      ExactRulesAre(a, p);
      ExactRulesAre(b, p);
    }
    forall p | p in ExactRules(a) ensures ExactRules(a)[p] == ExactRules(b)[p] {
      ExactRulesAre(a, p);
      ExactRulesAre(b, p);
    }
  }

  /** The answer of the prefix search: the target of a longest matching prefix, if any matches. */
  lemma {:induction false} FirstPrefixIs(ps: seq<Alias>, norm: string)
    requires forall i, j :: 0 <= i < j < |ps| ==> |ps[i].pattern| >= |ps[j].pattern|
    ensures FirstPrefix(ps, norm).None? <==> forall p :: p in ps ==> !StartsWith(norm, p.pattern)
    ensures FirstPrefix(ps, norm).Some? ==>
      exists p :: p in ps && StartsWith(norm, p.pattern) && p.target == FirstPrefix(ps, norm).value
        && forall q :: q in ps && StartsWith(norm, q.pattern) ==> |q.pattern| <= |p.pattern|
  {
    hide StartsWith;
    if ps != [] {
      assert ps == [ps[0]] + ps[1..];
      if StartsWith(norm, ps[0].pattern) {
        assert ps[0] in ps;
      } else {
        FirstPrefixIs(ps[1..], norm);
      }
    }
  }

  lemma SamePrefix(pa: seq<Alias>, pb: seq<Alias>, a: seq<Alias>, b: seq<Alias>, norm: string)
    requires NoConflict(a) && forall r :: r in a <==> r in b
    requires SortedPrefixes(pa, a) && SortedPrefixes(pb, b)
    ensures FirstPrefix(pa, norm) == FirstPrefix(pb, norm)
  {
    hide FirstPrefix, StartsWith;
    FirstPrefixIs(pa, norm);
    FirstPrefixIs(pb, norm);
    if FirstPrefix(pa, norm).Some? && FirstPrefix(pb, norm).Some? {
      var p :| p in pa && StartsWith(norm, p.pattern) && p.target == FirstPrefix(pa, norm).value
        && forall q :: q in pa && StartsWith(norm, q.pattern) ==> |q.pattern| <= |p.pattern|;
      var q :| q in pb && StartsWith(norm, q.pattern) && q.target == FirstPrefix(pb, norm).value
        && forall r :: r in pb && StartsWith(norm, r.pattern) ==> |r.pattern| <= |q.pattern|;
      assert p in pb && q in pa;
      SameLengthPrefix(norm, p.pattern, q.pattern);
    }
  }

  lemma SameLengthPrefix(s: string, p: string, q: string)
    requires StartsWith(s, p) && StartsWith(s, q) && |p| == |q|
    ensures p == q
  {}

  /**
   Without conflicting rules, resolution depends only on which rules there are: not on
   their order in the file, not on duplicates, not on how equal lengths were sorted.
   */
  lemma ResolveIgnoresOrder(a: seq<Alias>, b: seq<Alias>, pa: seq<Alias>, pb: seq<Alias>, norm: string)
    requires NoConflict(a) && forall r :: r in a <==> r in b
    requires SortedPrefixes(pa, a) && SortedPrefixes(pb, b)
    ensures ResolveIn(ExactRules(a), pa, norm) == ResolveIn(ExactRules(b), pb, norm)
  {
    hide ExactRules, FirstPrefix, DropWords;
    SameExact(a, b);
    SamePrefix(pa, pb, a, b, norm);
  }

  /** The last resort picks the longest proper word prefix that has an exact rule. */
  lemma {:induction false} DropWordsIs(exact: map<string, string>, norm: string, i: nat)
    requires i <= |norm|
    ensures DropWords(exact, norm, i).None? <==> forall j :: 0 <= j < i && norm[j] == ' ' ==> norm[..j] !in exact
    ensures DropWords(exact, norm, i).Some? ==>
      exists j :: 0 <= j < i && norm[j] == ' ' && norm[..j] in exact && exact[norm[..j]] == DropWords(exact, norm, i).value
        && forall k :: j < k < i && norm[k] == ' ' ==> norm[..k] !in exact
    decreases i
  {
    if i > 0 && !(norm[i - 1] == ' ' && norm[..i - 1] in exact) {
      DropWordsIs(exact, norm, i - 1);
    }
  }

  /**
   Dropping words goes all the way down: a name with no rule of its own, no matching prefix
   and no rule for any shorter phrase of at least two words gets the target of its first word,
   whenever that word has an exact rule.
   */
  lemma FirstWordFallback(exact: map<string, string>, prefixes: seq<Alias>, norm: string, k: nat)
    requires k < |norm| && norm[k] == ' ' && forall j :: 0 <= j < k ==> norm[j] != ' '
    requires norm !in exact && FirstPrefix(prefixes, norm).None?
    requires forall j :: k < j < |norm| && norm[j] == ' ' ==> norm[..j] !in exact
    ensures ResolveIn(exact, prefixes, norm) == if norm[..k] in exact then Some(exact[norm[..k]]) else None
  {
    hide DropWords, FirstPrefix;
    DropWordsIs(exact, norm, |norm|);
  }

  /** So one exact rule for a vendor's bare name maps everything that starts with that name. */
  lemma VendorCollapse()
    ensures ResolveIn(map["microsoft" := "microsoft:windows"], [], "microsoft visual studio") == Some("microsoft:windows")
  {
    hide DropWords;
    var norm, vendor := "microsoft visual studio", "microsoft";
    assert norm[..9] == vendor && |norm| == 23;
    forall j | 9 < j < |norm| ensures norm[..j] != vendor { assert |norm[..j]| == j; }
    FirstWordFallback(map[vendor := "microsoft:windows"], [], norm, 9);
  }
}
