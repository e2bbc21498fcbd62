/**
 What the version comparison means, said of version strings: a common beginning cancels,
 pre-release words and tildes come before the end of a version, words before numbers, numbers
 by value, words alphabetically and without regard to case, separators only separate.
 */
module VersionLaws {
  import opened Versions

  // ---- a common beginning cancels ----

  /** Between `u` and `s` no run of digits and no word continues. */
  ghost predicate Apart(u: string, s: string) {
    u == [] || s == [] ||
    var c, d := u[|u| - 1], s[0];
    !('0' <= c <= '9' && '0' <= d <= '9') && !(IsLetter(c) && IsLetter(d))
  }

  ghost predicate IsLetter(c: char) { 'a' <= c <= 'z' || 'A' <= c <= 'Z' }

  lemma RunBefore(u: string, s: string, p: char -> bool)
    requires u != [] && (s == [] || !(p(u[|u| - 1]) && p(s[0])))
    ensures Run(u + s, p) == Run(u, p)
  {
    hide Run;
    var n := Run(u, p);
    assert forall i :: 0 <= i < n ==> (u + s)[i] == u[i];
    assert n < |u + s| ==> !p((u + s)[n]);
    RunIs(u + s, 0, n, p);
    assert (u + s)[0..] == u + s;
  }

  /** How many characters the first token, or the first separator, takes. */
  ghost function Width(u: string): (n: nat)
    requires u != []
    ensures 0 < n <= |u|
  {
    if IsDigit(u[0]) then Run(u, IsDigit) else if IsAlpha(u[0]) then Run(u, IsAlpha) else 1
  }

  ghost function Head(u: string, n: nat): seq<Token>
    requires 0 < n <= |u|
  {
    if u[0] == '~' then [Tilde]
    else if IsDigit(u[0]) then [Numeric(NumberValue(u[..n]))]
    else if IsAlpha(u[0]) then [Alpha(LowerAll(u[..n]))]
    else []
  }

  lemma HeadTokens(u: string)
    requires u != []
    ensures Tokenize(u) == Head(u, Width(u)) + Tokenize(u[Width(u)..])
  {
    hide Tokenize, Run, NumberValue, LowerAll;
    FirstToken(u);
  }

  lemma SameWidth(u: string, s: string)
    requires u != [] && Apart(u, s)
    ensures Width(u + s) == Width(u)
  {
    hide Run;
    RunBefore(u, s, IsDigit);
    RunBefore(u, s, IsAlpha);
  }

  lemma SameFirst(u: string, s: string, n: nat)
    requires 0 < n <= |u|
    ensures Head(u + s, n) == Head(u, n) && (u + s)[n..] == u[n..] + s
  {
    hide NumberValue, LowerAll;
    assert (u + s)[..n] == u[..n];
  }

  lemma {:induction false} TokensAppend(u: string, s: string)
    requires Apart(u, s)
    ensures Tokenize(u + s) == Tokenize(u) + Tokenize(s)
    decreases |u|
  {
    hide Tokenize, Width, Head;
    if u == [] {
      assert u + s == s;
      EmptyTail();
    } else {
      HeadTokens(u);
      HeadTokens(u + s);
      SameWidth(u, s);
      SameFirst(u, s, Width(u));
      TokensAppend(u[Width(u)..], s);
    }
  }

  lemma {:induction false} SharedTokens(p: seq<Token>, a: seq<Token>, b: seq<Token>)
    ensures CompareTokens(p + a, p + b) == CompareTokens(a, b)
    decreases |p|
  {
    hide CmpToken;
    if p == [] {
      assert p + a == a && p + b == b;
    } else {
      CmpTokenFlips(p[0], p[0]);
      assert (p + a)[1..] == p[1..] + a && (p + b)[1..] == p[1..] + b;
      SharedTokens(p[1..], a, b);
    }
  }

  /** Text without a colon behind a version leaves its epoch alone. */
  lemma EpochStays(u: string, s: string)
    requires ':' !in s
    ensures StripEpoch(u + s).epoch == StripEpoch(u).epoch
    ensures StripEpoch(u + s).rest == StripEpoch(u).rest + s
    ensures StripEpoch(u).rest == [] || (u != [] && StripEpoch(u).rest[|StripEpoch(u).rest| - 1] == u[|u| - 1])
  {
    hide Nat, FindChar;
    var k := FindChar(u, ':');
    if k < |u| {
      var e, rest := u[..k], u[k + 1..];
      assert u == e + [':'] + rest && u + s == e + [':'] + (rest + s);
      assert ':' !in e;
      FindCharIs(e, rest + s, ':');
      assert (u + s)[..k] == u[..k] && (u + s)[k + 1..] == rest + s;
      assert forall i :: 0 <= i < k ==> (u + s)[i] == u[i];
    } else {
      assert ':' !in u;
      NoColon(u);
      NoColon(u + s);
    }
  }

  /** What two versions share at the front does not matter. */
  lemma CommonPrefix(u: string, s: string, t: string)
    requires Apart(u, s) && Apart(u, t) && ':' !in s && ':' !in t
    ensures Compare(u + s, u + t) == Compare(s, t)
  {
    hide StripEpoch, Tokenize, CompareTokens;
    EpochStays(u, s);
    EpochStays(u, t);
    var rest := StripEpoch(u).rest;
    TokensAppend(rest, s);
    TokensAppend(rest, t);
    SharedTokens(Tokenize(rest), Tokenize(s), Tokenize(t));
    NoColon(s);
    NoColon(t);
  }

  // ---- pre-release words ----

  /** The letters of `w` are those of the lower-case word `p`, each in either case. */
  ghost predicate SpelledAs(w: string, p: string) {
    |w| == |p| && forall i :: 0 <= i < |w| ==> w[i] == p[i] || p[i] as int - w[i] as int == 32
  }

  ghost predicate AllLetters(w: string) { w != [] && forall i :: 0 <= i < |w| ==> IsLetter(w[i]) }

  lemma Spelled(w: string, p: string)
    requires AllLetters(w) && forall i :: 0 <= i < |p| ==> 'a' <= p[i] <= 'z'
    ensures LowerAll(w) == p <==> SpelledAs(w, p)
  {
    hide LowerAll;
    if SpelledAs(w, p) {
      assert forall i :: 0 <= i < |w| ==> Lower(w[i]) == p[i];
    }
  }

  lemma OneWord(w: string)
    requires AllLetters(w)
    ensures Tokenize(w) == [Alpha(LowerAll(w))]
  {
    hide Run, LowerAll, Tokenize;
    RunAll(w, IsAlpha);
    FirstToken(w);
    assert w[..|w|] == w && w[|w|..] == [];
    EmptyTail();
  }

  lemma WordIsPrerelease(w: string)
    requires AllLetters(w)
    ensures IsPrerelease(LowerAll(w)) <==>
            || SpelledAs(w, "rc") || SpelledAs(w, "alpha") || SpelledAs(w, "beta") || SpelledAs(w, "pre")
            || SpelledAs(w, "dev") || SpelledAs(w, "preview") || SpelledAs(w, "snapshot") || SpelledAs(w, "nightly")
  {
    hide LowerAll, SpelledAs;
    Spelled(w, "rc");
    Spelled(w, "alpha");
    Spelled(w, "beta");
    Spelled(w, "pre");
    Spelled(w, "dev");
    Spelled(w, "preview");
    Spelled(w, "snapshot");
    Spelled(w, "nightly");
    assert LowerAll(w) != "a1" by {
      assert "a1"[1] == '1' && (|w| > 1 ==> LowerAll(w)[1] == Lower(w[1]) >= 'a');
    }
  }

  lemma AloneCompares(w: string)
    requires AllLetters(w)
    ensures Compare(w, "") == if IsPrerelease(LowerAll(w)) then -1 else 1
  {
    hide LowerAll, Tokenize, IsPrerelease, StripEpoch;
    OneWord(w);
    EmptyTail();
    NoColon(w);
    NoColon("");
  }

  /**
   A word behind a version makes it a pre-release, below the version itself, if and only if it
   is one of eight words, in any mixture of cases; every other word makes it greater.
   */
  lemma PrereleaseIff(u: string, w: string)
    requires AllLetters(w) && (u == [] || !IsLetter(u[|u| - 1]))
    ensures Compare(u + w, u) < 0 <==>
            || SpelledAs(w, "rc") || SpelledAs(w, "alpha") || SpelledAs(w, "beta") || SpelledAs(w, "pre")
            || SpelledAs(w, "dev") || SpelledAs(w, "preview") || SpelledAs(w, "snapshot") || SpelledAs(w, "nightly")
    ensures Compare(u + w, u) > 0 <==> !(Compare(u + w, u) < 0)
  {
    hide LowerAll, Compare, IsPrerelease, SpelledAs;
    assert u + "" == u;
    CommonPrefix(u, w, "");
    AloneCompares(w);
    WordIsPrerelease(w);
  }

  // ---- tildes, words and numbers ----

  lemma HeadDecides(s: string, t: string, a: Token, b: Token, x: seq<Token>, y: seq<Token>)
    requires ':' !in s && ':' !in t && Tokenize(s) == [a] + x && Tokenize(t) == [b] + y && CmpToken(a, b) != 0
    ensures Compare(s, t) == CmpToken(a, b)
  {
    hide Tokenize, StripEpoch, CmpToken;
    NoColon(s);
    NoColon(t);
  }

  /** A tilde comes before the end of a version. */
  lemma TildeBeforeEnd(u: string, x: string)
    requires ':' !in x
    ensures Compare(u + "~" + x, u) < 0
  {
    hide Compare, Tokenize;
    assert u + "~" + x == u + ("~" + x) && u + "" == u;
    CommonPrefix(u, "~" + x, "");
    TildeFirst(x);
  }

  lemma TildeFirst(x: string)
    requires ':' !in x
    ensures Compare("~" + x, "") < 0 && Tokenize("~" + x) == [Tilde] + Tokenize(x)
  {
    hide Tokenize, StripEpoch;
    FirstToken("~" + x);
    assert ("~" + x)[1..] == x;
    EmptyTail();
    NoColon("~" + x);
    NoColon("");
  }

  /** A tilde comes before every word and every number. */
  lemma TildeBeforeRest(u: string, x: string, t: string)
    requires t != [] && (IsLetter(t[0]) || '0' <= t[0] <= '9') && Apart(u, t) && ':' !in x && ':' !in t
    ensures Compare(u + "~" + x, u + t) < 0
  {
    hide Compare, Tokenize, Run, NumberValue, LowerAll;
    assert u + "~" + x == u + ("~" + x);
    CommonPrefix(u, "~" + x, t);
    TildeFirst(x);
    FirstToken(t);
    var n := if IsDigit(t[0]) then Run(t, IsDigit) else Run(t, IsAlpha);
    var b := if IsDigit(t[0]) then Numeric(NumberValue(t[..n])) else Alpha(LowerAll(t[..n]));
    HeadDecides("~" + x, t, Tilde, b, Tokenize(x), Tokenize(t[n..]));
  }

  /** In the same place a word comes before a number. */
  lemma WordBeforeNumber(u: string, s: string, t: string)
    requires s != [] && IsLetter(s[0]) && t != [] && '0' <= t[0] <= '9'
    requires Apart(u, s) && Apart(u, t) && ':' !in s && ':' !in t
    ensures Compare(u + s, u + t) < 0
  {
    hide Compare, Tokenize, Run, NumberValue, LowerAll;
    CommonPrefix(u, s, t);
    FirstToken(s);
    FirstToken(t);
    var m, n := Run(s, IsAlpha), Run(t, IsDigit);
    HeadDecides(s, t, Alpha(LowerAll(s[..m])), Numeric(NumberValue(t[..n])), Tokenize(s[m..]), Tokenize(t[n..]));
  }

  lemma NumberFirst(d: string, x: string)
    requires d != [] && (forall i :: 0 <= i < |d| ==> '0' <= d[i] <= '9') && (x == [] || !('0' <= x[0] <= '9'))
    ensures Tokenize(d + x) == [Numeric(NumberValue(d))] + Tokenize(x)
  {
    hide Tokenize, NumberValue;
    TokensAppend(d, x);
    OneNumber(d);
  }

  lemma OneNumber(d: string)
    requires d != [] && forall i :: 0 <= i < |d| ==> '0' <= d[i] <= '9'
    ensures Tokenize(d) == [Numeric(NumberValue(d))]
  {
    hide Tokenize, Run, NumberValue, LowerAll;
    RunAll(d, IsDigit);
    FirstToken(d);
    assert d[..|d|] == d && d[|d|..] == [];
    EmptyTail();
  }

  /**
   The first number that differs decides, as a number: leading zeros do not count, and only
   numbers of more than 18 significant digits are not told apart.
   */
  lemma NumbersDecide(u: string, d: string, x: string, e: string, y: string)
    requires d != [] && (forall i :: 0 <= i < |d| ==> '0' <= d[i] <= '9') && (x == [] || !('0' <= x[0] <= '9'))
    requires e != [] && (forall i :: 0 <= i < |e| ==> '0' <= e[i] <= '9') && (y == [] || !('0' <= y[0] <= '9'))
    requires (u == [] || !('0' <= u[|u| - 1] <= '9')) && ':' !in x && ':' !in y
    requires Nat(d) < Nat(e) && Nat(d) < Pow10(18)
    ensures Compare(u + (d + x), u + (e + y)) < 0
  {
    hide Compare, Tokenize, NumberValue, Nat, Pow10;
    NumberFirst(d, x);
    NumberFirst(e, y);
    NumberValueIs(d);
    NumberValueIs(e);
    CommonPrefix(u, d + x, e + y);
    HeadDecides(d + x, e + y, Numeric(NumberValue(d)), Numeric(NumberValue(e)), Tokenize(x), Tokenize(y));
  }

  lemma WordFirst(w: string, x: string)
    requires AllLetters(w) && (x == [] || !IsLetter(x[0]))
    ensures Tokenize(w + x) == [Alpha(LowerAll(w))] + Tokenize(x)
  {
    hide Tokenize, LowerAll;
    TokensAppend(w, x);
    OneWord(w);
  }

  /** The first word that differs decides, alphabetically and without regard to case. */
  lemma WordsDecide(u: string, w: string, x: string, z: string, y: string)
    requires AllLetters(w) && (x == [] || !IsLetter(x[0])) && AllLetters(z) && (y == [] || !IsLetter(y[0]))
    requires (u == [] || !IsLetter(u[|u| - 1])) && ':' !in x && ':' !in y
    ensures StrCmp(LowerAll(w), LowerAll(z)) != 0 ==> Compare(u + (w + x), u + (z + y)) == StrCmp(LowerAll(w), LowerAll(z))
    ensures LowerAll(w) == LowerAll(z) ==> Compare(u + (w + x), u + (z + y)) == Compare(x, y)
  {
    hide Compare, Tokenize, LowerAll, StrCmp;
    WordFirst(w, x);
    WordFirst(z, y);
    CommonPrefix(u, w + x, z + y);
    if StrCmp(LowerAll(w), LowerAll(z)) != 0 {
      HeadDecides(w + x, z + y, Alpha(LowerAll(w)), Alpha(LowerAll(z)), Tokenize(x), Tokenize(y));
    }
    if LowerAll(w) == LowerAll(z) {
      SameHead(w + x, z + y, Alpha(LowerAll(w)), x, y);
    }
  }

  lemma SameHead(s: string, t: string, a: Token, x: string, y: string)
    requires ':' !in s && ':' !in t && ':' !in x && ':' !in y
    requires Tokenize(s) == [a] + Tokenize(x) && Tokenize(t) == [a] + Tokenize(y)
    ensures Compare(s, t) == Compare(x, y)
  {
    hide Tokenize, StripEpoch, CompareTokens;
    NoColon(s);
    NoColon(t);
    NoColon(x);
    NoColon(y);
    SharedTokens([a], Tokenize(x), Tokenize(y));
  }

  /** A character that is no digit, letter, tilde or colon. */
  ghost predicate IsSeparator(c: char) { !('0' <= c <= '9') && !IsLetter(c) && c != '~' && c != ':' }

  lemma SeparatorGone(c: char, x: string)
    requires IsSeparator(c)
    ensures Tokenize([c] + x) == Tokenize(x)
  {
    hide NumberValue, LowerAll, Run;
    assert ([c] + x)[1..] == x;
  }

  /** Which separators stand between two parts, and how many, does not matter. */
  lemma SeparatorsSeparate(u: string, c: char, d: char, x: string)
    requires IsSeparator(c) && IsSeparator(d) && ':' !in x
    ensures Compare(u + ([c] + x), u + ([d] + x)) == 0
    ensures Compare(u + ([c] + x), u + ([c] + ([d] + x))) == 0
  {
    hide Compare, Tokenize;
    CommonPrefix(u, [c] + x, [d] + x);
    CommonPrefix(u, [c] + x, [c] + ([d] + x));
    SeparatorGone(c, x);
    SeparatorGone(d, x);
    SeparatorGone(c, [d] + x);
    SameTokens([c] + x, [d] + x);
    SameTokens([c] + x, [c] + ([d] + x));
  }

  lemma SameTokens(s: string, t: string)
    requires ':' !in s && ':' !in t && Tokenize(s) == Tokenize(t)
    ensures Compare(s, t) == 0
  {
    hide Tokenize, StripEpoch, CompareTokens;
    NoColon(s);
    NoColon(t);
    EqualIff(s, t);
  }

  /** One more number makes a version greater. */
  lemma LongerIsNewer(u: string, c: char, x: string)
    requires IsSeparator(c) && x != [] && '0' <= x[0] <= '9' && ':' !in x
    ensures Compare(u + ([c] + x), u) > 0
  {
    hide Tokenize, StripEpoch, Run, NumberValue, LowerAll;
    assert u + "" == u;
    CommonPrefix(u, [c] + x, "");
    SeparatorGone(c, x);
    FirstToken(x);
    EmptyTail();
    NoColon([c] + x);
    NoColon("");
  }

  // ---- the order of strings ----

  /** One string comes first if it is a proper prefix or has the smaller character where they part. */
  lemma {:induction false} StrCmpIs(a: string, b: string)
    ensures StrCmp(a, b) < 0 <==>
            exists k: nat :: k <= |a| && k < |b| && a[..k] == b[..k] && (k == |a| || a[k] < b[k])
    ensures StrCmp(a, b) == 0 <==> a == b
    decreases |a|
  {
    StrCmpOrder(a, b, a);
    if StrCmp(a, b) < 0 {
      var k := Parting(a, b);
    } else {
      forall k: nat | k <= |a| && k < |b| && a[..k] == b[..k] && (k == |a| || a[k] < b[k])
        ensures false
      {
        Parted(a, b, k);
      }
    }
  }

  lemma {:induction false} Parting(a: string, b: string) returns (k: nat)
    requires StrCmp(a, b) < 0
    ensures k <= |a| && k < |b| && a[..k] == b[..k] && (k == |a| || a[k] < b[k])
    decreases |a|
  {
    if a == [] || a[0] != b[0] {
      k := 0;
    } else {
      k := Parting(a[1..], b[1..]);
      assert a == [a[0]] + a[1..] && b == [b[0]] + b[1..];
      k := k + 1;
      assert a[..k] == [a[0]] + a[1..][..k - 1] && b[..k] == [b[0]] + b[1..][..k - 1];
    }
  }

  lemma {:induction false} Parted(a: string, b: string, k: nat)
    requires k <= |a| && k < |b| && a[..k] == b[..k] && (k == |a| || a[k] < b[k])
    ensures StrCmp(a, b) < 0
    decreases k
  {
    if k > 0 {
      assert a[0] == a[..k][0] && b[0] == b[..k][0];
      assert a[1..][..k - 1] == a[..k][1..] && b[1..][..k - 1] == b[..k][1..];
      Parted(a[1..], b[1..], k - 1);
    }
  }
}
