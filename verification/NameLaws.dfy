/**
 What normalising a name and reading an alias line mean, said of the texts themselves: which
 words go, what brackets do, which column is which, and which alias rule wins.
 */
module NameLaws {
  import opened Options
  import opened Versions
  import opened Names

  // ---- normalisation, word by word ----

  ghost predicate IsBlank(c: char) { c in [' ', '\t', '\n', '\r', '\U{0B}', '\U{0C}'] }

  ghost predicate NoBrackets(s: string) {
    forall i :: 0 <= i < |s| ==> s[i] != '(' && s[i] != ')' && s[i] != '[' && s[i] != ']'
  }

  /** Two normal forms put together. */
  ghost function Together(a: string, b: string): string {
    if a == [] then b else if b == [] then a else a + " " + b
  }

  lemma {:induction false} StripAppend(u: string, v: string)
    requires NoBrackets(u)
    ensures StripBrackets(u + v, 0) == LowerAll(u) + StripBrackets(v, 0)
    decreases |u|
  {
    hide Lower;
    if u == [] {
      assert u + v == v;
    } else {
      assert (u + v)[0] == u[0] && (u + v)[1..] == u[1..] + v;
      StripAppend(u[1..], v);
    }
  }

  lemma StripOnly(u: string)
    requires NoBrackets(u)
    ensures StripBrackets(u, 0) == LowerAll(u)
  {
    hide LowerAll;
    StripAppend(u, "");
    assert u + "" == u && StripBrackets("", 0) == "";
  }

  lemma SkipBlank(c: char, rest: string)
    requires IsSpace(c)
    ensures SplitSpaces([c] + rest) == SplitSpaces(rest)
  {
    hide IsSpace;
    var s := [c] + rest;
    assert s[1..] == rest;
    assert Run(s, IsSpace) == 1 + Run(rest, IsSpace);
    assert s[Run(s, IsSpace)..] == rest[Run(rest, IsSpace)..];
  }

  lemma {:induction false} SkipBlanks(blanks: string, rest: string)
    requires forall i :: 0 <= i < |blanks| ==> IsSpace(blanks[i])
    ensures SplitSpaces(blanks + rest) == SplitSpaces(rest)
    decreases |blanks|
  {
    hide SplitSpaces, IsSpace;
    if blanks == [] {
      assert blanks + rest == rest;
    } else {
      SkipBlanks(blanks[1..], rest);
      SkipBlank(blanks[0], blanks[1..] + rest);
      assert blanks + rest == [blanks[0]] + (blanks[1..] + rest);
    }
  }

  /** A text is blanks, then nothing or a word with the rest behind it. */
  lemma FirstSplit(s: string) returns (k: nat, n: nat)
    ensures k + n <= |s| && forall i :: 0 <= i < k ==> IsSpace(s[i])
    ensures n == 0 ==> k == |s|
    ensures forall c :: c in s[k..k + n] ==> NotSpace(c)
    ensures k + n < |s| ==> IsSpace(s[k + n])
  {
    hide Run;
    k := Run(s, IsSpace);
    n := Run(s[k..], NotSpace);
    if k < |s| { RunsOn(s, k); }
    assert forall i :: 0 <= i < n ==> s[k..][i] == s[k + i];
    assert k + n < |s| ==> s[k..][n] == s[k + n];
  }

  lemma {:induction false} SplitAppend(a: string, c: char, b: string)
    requires IsSpace(c)
    ensures SplitSpaces(a + [c] + b) == SplitSpaces(a) + SplitSpaces(b)
    decreases |a|
  {
    hide SplitSpaces, IsSpace, NotSpace;
    var k, n := FirstSplit(a);
    var w, rest := a[k..k + n], a[k + n..];
    assert a == a[..k] + (w + rest) && a + [c] + b == a[..k] + (w + (rest + [c] + b));
    SkipBlanks(a[..k], w + rest);
    SkipBlanks(a[..k], w + (rest + [c] + b));
    if n == 0 {
      assert w + rest == "" && w + (rest + [c] + b) == [c] + b;
      SplitNothing();
      SkipBlank(c, b);
    } else {
      SplitWord(w, rest);
      SplitWord(w, rest + [c] + b);
      SplitAppend(rest, c, b);
    }
  }

  lemma {:induction false} KeptAppend(a: seq<string>, b: seq<string>)
    ensures Kept(a + b) == Kept(a) + Kept(b)
    decreases |a|
  {
    hide Keeps;
    if a == [] {
      assert a + b == b;
    } else {
      assert (a + b)[0] == a[0] && (a + b)[1..] == a[1..] + b;
      KeptAppend(a[1..], b);
    }
  }

  lemma {:induction false} JoinAppend(a: seq<string>, b: seq<string>)
    requires AreWords(a) && AreWords(b)
    ensures JoinSpaces(a + b) == Together(JoinSpaces(a), JoinSpaces(b))
    decreases |b|
  {
    hide JoinSpaces;
    NothingJoined();
    if b == [] {
      assert a + b == a;
    } else if a == [] {
      assert a + b == b;
    } else {
      var n := |b| - 1;
      assert b == b[..n] + [b[n]] && a + b == (a + b[..n]) + [b[n]];
      JoinSnoc(b[..n], b[n]);
      JoinSnoc(a + b[..n], b[n]);
      assert b[n] in b && forall w :: w in b[..n] ==> w in b;
      JoinedEnds(a);
      JoinedEnds(b);
      if n > 0 { JoinedEnds(b[..n]); }
      JoinAppend(a, b[..n]);
      Regroup(JoinSpaces(a), JoinSpaces(b[..n]), b[n]);
    }
  }

  lemma Regroup(x: string, y: string, z: string)
    ensures x + " " + y + " " + z == x + " " + (y + " " + z)
  {}

  /** The words normalising keeps. */
  ghost function KeptWords(low: string): seq<string> { Kept(SplitSpaces(low)) }

  lemma NormalIs(raw: string)
    ensures Normalize(raw) == JoinSpaces(KeptWords(StripBrackets(raw, 0))) && AreWords(KeptWords(StripBrackets(raw, 0)))
  {
    hide SplitSpaces, StripBrackets, Kept, Keeps, JoinSpaces, NotSpace, Trim;
    SplitWords(StripBrackets(raw, 0));
    TrimJoined(KeptWords(StripBrackets(raw, 0)));
  }

  lemma LowerBlank(u: string, c: char)
    requires IsBlank(c)
    ensures LowerAll(u + [c]) == LowerAll(u) + [c] && IsSpace(c)
  {
    hide LowerAll;
    assert LowerAll(u + [c])[|u|] == c;
  }

  /** Behind text without brackets, a blank of any kind separates: both sides normalise on their own. */
  lemma NormalizeJoins(u: string, c: char, v: string)
    requires NoBrackets(u) && IsBlank(c)
    ensures Normalize(u + [c] + v) == Together(Normalize(u), Normalize(v))
  {
    hide Normalize, StripBrackets, LowerAll, Kept, SplitSpaces, JoinSpaces, IsBlank, AreWords;
    NormalIs(u + [c] + v);
    NormalIs(u);
    NormalIs(v);
    assert NoBrackets(u + [c]) by { BlankIsNoBracket(u, c); }
    StripAppend(u + [c], v);
    StripOnly(u);
    LowerBlank(u, c);
    var low, rest := LowerAll(u), StripBrackets(v, 0);
    SplitAppend(low, c, rest);
    KeptAppend(SplitSpaces(low), SplitSpaces(rest));
    JoinAppend(KeptWords(low), KeptWords(rest));
  }

  lemma BlankIsNoBracket(u: string, c: char)
    requires NoBrackets(u) && IsBlank(c)
    ensures NoBrackets(u + [c])
  {}

  /** Digits, dots and commas, at least one digit, behind a `v` or not. */
  ghost predicate LooksLikeVersion(w: string) {
    || DottedNumber(w)
    || (|w| > 1 && w[0] == 'v' && DottedNumber(w[1..]))
  }

  ghost predicate DottedNumber(w: string) {
    && (exists i :: 0 <= i < |w| && '0' <= w[i] <= '9')
    && forall i :: 0 <= i < |w| ==> '0' <= w[i] <= '9' || w[i] == '.' || w[i] == ','
  }

  lemma VersionTokenIs(w: string)
    ensures IsVersionToken(w) <==> LooksLikeVersion(w)
  {
    var u := if |w| > 1 && w[0] == 'v' then w[1..] else w;
    assert DottedNumber(w) && |w| > 0 ==> w[0] != 'v';
    assert IsVersionToken(w) <==> DottedNumber(u) by { TokenIsDotted(u); }
  }

  lemma TokenIsDotted(u: string)
    ensures DottedNumber(u) <==> (exists c :: c in u && IsDigit(c)) && forall c :: c in u ==> IsDigit(c) || c == '.' || c == ','
  {
    if DottedNumber(u) {
      var i :| 0 <= i < |u| && '0' <= u[i] <= '9';
      assert u[i] in u && IsDigit(u[i]);
    }
    if exists c :: c in u && IsDigit(c) {
      var c :| c in u && IsDigit(c);
      var i :| 0 <= i < |u| && u[i] == c;
    }
    assert forall i :: 0 <= i < |u| ==> u[i] in u;
  }

  /**
   A word alone normalises to nothing if and only if, in lower case, it looks like a version or
   is one of the noise words; otherwise to its lower case. The two noise words with brackets
   cannot come up: brackets are gone before words are looked at.
   */
  lemma NormalizeWord(w: string)
    requires w != [] && NoBrackets(w) && forall i :: 0 <= i < |w| ==> !IsBlank(w[i])
    ensures
      var low := LowerAll(w);
      Normalize(w) ==
        if LooksLikeVersion(low) || low in ["x64", "x86", "amd64", "arm64", "win32", "win64", "64-bit", "32-bit",
                                            "en-us", "en_us", "bit", "edition", "-"]
        then "" else low
  {
    hide Normalize, LowerAll, Keeps, LooksLikeVersion;
    var low := LowerAll(w);
    assert low[0] == Lower(w[0]);
    OneWordNormal(w);
    KeepsIff(low);
  }

  lemma KeepsIff(w: string)
    requires w != [] && w[0] != '('
    ensures Keeps(w) <==>
      !(LooksLikeVersion(w) || w in ["x64", "x86", "amd64", "arm64", "win32", "win64", "64-bit", "32-bit",
                                     "en-us", "en_us", "bit", "edition", "-"])
  {
    hide IsNoise, IsVersionToken, LooksLikeVersion;
    VersionTokenIs(w);
    NoiseIs(w);
  }

  lemma OneWordNormal(w: string)
    requires w != [] && NoBrackets(w) && forall i :: 0 <= i < |w| ==> !IsBlank(w[i])
    ensures Normalize(w) == if Keeps(LowerAll(w)) then LowerAll(w) else ""
  {
    hide Normalize, StripBrackets, LowerAll, Kept, SplitSpaces, Keeps, NotSpace;
    NormalIs(w);
    StripOnly(w);
    var low := LowerAll(w);
    LowerNotBlank(w);
    SplitWord(low, "");
    SplitNothing();
    assert low + "" == low && [low] + [] == [low];
    KeptOne(low);
  }

  lemma LowerNotBlank(w: string)
    requires forall i :: 0 <= i < |w| ==> !IsBlank(w[i])
    ensures forall c :: c in LowerAll(w) ==> NotSpace(c)
  {
    hide LowerAll;
    forall c | c in LowerAll(w) ensures NotSpace(c) {
      var i :| 0 <= i < |w| && LowerAll(w)[i] == c;
      assert !IsBlank(w[i]) && c == Lower(w[i]);
    }
  }

  lemma KeptOne(w: string)
    ensures Kept([w]) == if Keeps(w) then [w] else []
  {
    hide Keeps;
    assert [w][1..] == [];
  }

  lemma NoiseIs(w: string)
    requires w != [] && w[0] != '('
    ensures IsNoise(w) <==> w in ["x64", "x86", "amd64", "arm64", "win32", "win64", "64-bit", "32-bit",
                                  "en-us", "en_us", "bit", "edition", "-"]
  {
    assert "(64-bit)"[0] == '(' && "(32-bit)"[0] == '(';
  }

  // ---- brackets ----

  lemma {:induction false} StripInside(b: string, v: string, depth: nat)
    requires NoBrackets(b) && depth > 0
    ensures StripBrackets(b + v, depth) == StripBrackets(v, depth)
    decreases |b|
  {
    if b == [] {
      assert b + v == v;
    } else {
      assert (b + v)[0] == b[0] && (b + v)[1..] == b[1..] + v;
      StripInside(b[1..], v, depth);
    }
  }

  /**
   Bracketed text goes, whichever brackets; text behind an opening bracket that is never closed
   goes; a closing bracket alone goes.
   */
  lemma BracketsVanish(u: string, open: char, b: string, close: char, v: string)
    requires NoBrackets(u) && NoBrackets(b) && open in ['(', '['] && close in [')', ']']
    ensures Normalize(u + [open] + b + [close] + v) == Normalize(u + v)
    ensures Normalize(u + [open] + b) == Normalize(u)
    ensures Normalize(u + [close] + v) == Normalize(u + v)
  {
    hide SplitSpaces, Kept, JoinSpaces, Trim, StripBrackets, LowerAll;
    assert u + [open] + b + [close] + v == u + ([open] + (b + ([close] + v)));
    StripAppend(u, [open] + (b + ([close] + v)));
    OpenStrips(open, b + ([close] + v));
    StripInside(b, [close] + v, 1);
    CloseStrips(close, v, 1);
    StripAppend(u, v);
    assert u + [open] + b == u + ([open] + (b + ""));
    StripAppend(u, [open] + (b + ""));
    OpenStrips(open, b + "");
    StripInside(b, "", 1);
    StripsNothing();
    StripOnly(u);
    assert LowerAll(u) + "" == LowerAll(u);
    assert u + [close] + v == u + ([close] + v);
    StripAppend(u, [close] + v);
    CloseStrips(close, v, 0);
  }

  lemma OpenStrips(c: char, rest: string)
    requires c in ['(', '[']
    ensures StripBrackets([c] + rest, 0) == StripBrackets(rest, 1)
  {
    assert ([c] + rest)[1..] == rest;
  }

  lemma CloseStrips(c: char, rest: string, depth: nat)
    requires c in [')', ']'] && depth <= 1
    ensures StripBrackets([c] + rest, depth) == StripBrackets(rest, 0)
  {
    assert ([c] + rest)[1..] == rest;
  }

  lemma StripsNothing()
    ensures StripBrackets("", 1) == ""
  {}

  // ---- the alias file ----

  ghost predicate IsPad(c: char) { c in [' ', '\t', '\r', '\n'] }

  /** Nothing to trim at either end. */
  ghost predicate Tidy(s: string) { s == [] || (!IsPad(s[0]) && !IsPad(s[|s| - 1])) }

  lemma {:induction false} TrimLeftIs(pad: string, s: string)
    requires (forall i :: 0 <= i < |pad| ==> IsPad(pad[i])) && (s == [] || !IsPad(s[0]))
    ensures TrimLeft(pad + s) == s
    decreases |pad|
  {
    if pad == [] {
      assert pad + s == s;
    } else {
      assert (pad + s)[1..] == pad[1..] + s;
      TrimLeftIs(pad[1..], s);
    }
  }

  lemma {:induction false} TrimRightIs(s: string, pad: string)
    requires (forall i :: 0 <= i < |pad| ==> IsPad(pad[i])) && (s == [] || !IsPad(s[|s| - 1]))
    ensures TrimRight(s + pad) == s
    decreases |pad|
  {
    if pad == [] {
      assert s + pad == s;
    } else {
      var n := |pad| - 1;
      assert (s + pad)[..|s| + n] == s + pad[..n];
      TrimRightIs(s, pad[..n]);
    }
  }

  /** Trimming takes blanks, tabs and line ends off both ends and nothing else. */
  lemma TrimIs(left: string, s: string, right: string)
    requires Tidy(s)
    requires (forall i :: 0 <= i < |left| ==> IsPad(left[i])) && forall i :: 0 <= i < |right| ==> IsPad(right[i])
    ensures Trim(left + s + right) == s
  {
    hide TrimLeft, TrimRight;
    if s == [] {
      TrimLeftIs(left + right, "");
      assert left + s + right == (left + right) + "";
      TrimRightIs("", "");
      assert "" + "" == "";
    } else {
      TrimLeftIs(left, s + right);
      assert left + s + right == left + (s + right);
      TrimRightIs(s, right);
    }
  }

  lemma TidyStays(s: string)
    requires Tidy(s)
    ensures Trim(s) == s
  {
    hide Trim;
    TrimIs("", s, "");
    assert "" + s + "" == s;
  }

  lemma {:induction false} RowEnds(fields: seq<string>)
    requires |fields| > 0 && fields[0] != [] && fields[|fields| - 1] != []
    ensures
      var row, n := JoinTabs(fields), |fields| - 1;
      row != [] && row[0] == fields[0][0] && row[|row| - 1] == fields[n][|fields[n]| - 1]
  {
    if |fields| > 1 { RowLast(fields[1..]); }
  }

  lemma {:induction false} RowLast(fields: seq<string>)
    requires |fields| > 0 && fields[|fields| - 1] != []
    ensures
      var row, n := JoinTabs(fields), |fields| - 1;
      row != [] && row[|row| - 1] == fields[n][|fields[n]| - 1]
  {
    if |fields| > 1 { RowLast(fields[1..]); }
  }

  /**
   The columns of the alias file are kind, pattern, vendor and product; columns behind them do
   not matter. A row of another kind, and a row with fewer columns, gives nothing.
   */
  lemma AliasColumns(fields: seq<string>)
    requires |fields| > 0 && forall f :: f in fields ==> '\t' !in f && Tidy(f)
    requires fields[0] != [] && fields[0][0] != '#' && fields[|fields| - 1] != []
    ensures
      ParseAlias(JoinTabs(fields)) ==
        if |fields| < 4 then None
        else if fields[0] == "exact" then Some(Exact(fields[1], fields[2] + ":" + fields[3]))
        else if fields[0] == "prefix" then Some(Prefix(fields[1], fields[2] + ":" + fields[3]))
        else None
  {
    hide Trim, SplitTabs, JoinTabs;
    var row, n := JoinTabs(fields), |fields| - 1;
    assert fields[0] in fields && fields[n] in fields;
    RowEnds(fields);
    TidyStays(row);
    SplitJoinedTabs(fields);
    if |fields| >= 4 {
      assert fields[1] in fields && fields[2] in fields && fields[3] in fields;
      TidyStays(fields[0]);
      TidyStays(fields[1]);
      TidyStays(fields[2]);
      TidyStays(fields[3]);
    }
  }

  /** The alias list is what the lines of the file give, line by line. */
  lemma {:induction false} AliasesAre(lines: seq<string>, a: Alias)
    ensures a in Aliases(lines) <==> exists i :: 0 <= i < |lines| && ParseAlias(lines[i]) == Some(a)
    decreases |lines|
  {
    hide ParseAlias;
    if lines != [] {
      AliasesAre(lines[1..], a);
      assert forall i :: 0 <= i < |lines| - 1 ==> lines[1..][i] == lines[i + 1];
      assert (exists i :: 0 <= i < |lines| && ParseAlias(lines[i]) == Some(a)) <==>
             ParseAlias(lines[0]) == Some(a) || exists i :: 0 <= i < |lines| - 1 && ParseAlias(lines[1..][i]) == Some(a) by {
        if i :| 0 <= i < |lines| && ParseAlias(lines[i]) == Some(a) {
          if i > 0 { assert lines[1..][i - 1] == lines[i]; }
        }
      }
    }
  }

  /** The last exact rule for a pattern is the one in force. */
  lemma {:induction false} LastExactWins(rules: seq<Alias>, i: nat)
    requires i < |rules| && rules[i].Exact?
    requires forall j :: i < j < |rules| && rules[j].Exact? ==> rules[j].pattern != rules[i].pattern
    ensures rules[i].pattern in ExactRules(rules) && ExactRules(rules)[rules[i].pattern] == rules[i].target
    decreases |rules|
  {
    var n := |rules| - 1;
    if i < n {
      assert rules[..n][i] == rules[i];
      LastExactWins(rules[..n], i);
    }
  }

  ghost predicate IsPrefixOf(p: string, s: string) {
    |p| <= |s| && forall i :: 0 <= i < |p| ==> s[i] == p[i]
  }

  lemma PrefixIs(p: string, s: string)
    ensures StartsWith(s, p) <==> IsPrefixOf(p, s)
  {
    if IsPrefixOf(p, s) { assert s[..|p|] == p; }
  }

  /**
   Which rule wins: an exact rule for the whole name; else a longest prefix rule; else the exact
   rule for the longest proper run of leading words that has one. The empty name resolves to nothing.
   */
  lemma ResolveIs(exact: map<string, string>, ps: seq<Alias>, norm: string, t: string)
    requires norm != [] && forall i, j :: 0 <= i < j < |ps| ==> |ps[i].pattern| >= |ps[j].pattern|
    ensures ResolveIn(exact, ps, "") == None
    ensures norm in exact ==> ResolveIn(exact, ps, norm) == Some(exact[norm])
    ensures norm !in exact && (exists p :: p in ps && IsPrefixOf(p.pattern, norm)) && ResolveIn(exact, ps, norm) == Some(t) ==>
      exists p :: p in ps && IsPrefixOf(p.pattern, norm) && p.target == t
        && forall q :: q in ps && IsPrefixOf(q.pattern, norm) ==> |q.pattern| <= |p.pattern|
    ensures norm !in exact && (exists p :: p in ps && IsPrefixOf(p.pattern, norm)) ==> ResolveIn(exact, ps, norm).Some?
    ensures norm !in exact && (forall p :: p in ps ==> !IsPrefixOf(p.pattern, norm)) ==>
      (ResolveIn(exact, ps, norm) == Some(t) <==>
       exists j :: 0 <= j < |norm| && norm[j] == ' ' && norm[..j] in exact && exact[norm[..j]] == t
         && forall k :: j < k < |norm| && norm[k] == ' ' ==> norm[..k] !in exact)
  {
    hide FirstPrefix, DropWords, StartsWith, IsPrefixOf;
    forall p: Alias ensures StartsWith(norm, p.pattern) <==> IsPrefixOf(p.pattern, norm) { PrefixIs(p.pattern, norm); }
    FirstPrefixIs(ps, norm);
    DropWordsIs(exact, norm, |norm|);
  }
}
