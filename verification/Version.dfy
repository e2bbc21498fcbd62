/**
 Version comparison. Versions become token sequences; tokens compare by kind and then by
 value, and what follows the shorter version decides the rest. The comparison is
 antisymmetric on all strings; it is an order exactly on vocabularies in which every
 pre-release word comes before every other word.
 */
module Versions {
  import opened Options

  // ---- lexicographic order of strings ----

  /** -1, 0 or 1, as `std::string` compares. */
  function StrCmp(a: string, b: string): (r: int)
    ensures -1 <= r <= 1
  {
    if a == [] then (if b == [] then 0 else -1)
    else if b == [] then 1
    else if a[0] != b[0] then (if a[0] < b[0] then -1 else 1)
    else StrCmp(a[1..], b[1..])
  }

  lemma {:induction false} StrCmpOrder(a: string, b: string, c: string)
    ensures StrCmp(a, b) == -StrCmp(b, a)
    ensures StrCmp(a, b) == 0 <==> a == b
    ensures StrCmp(a, b) <= 0 && StrCmp(b, c) <= 0 ==> StrCmp(a, c) <= 0
    ensures StrCmp(a, b) < 0 && StrCmp(b, c) <= 0 ==> StrCmp(a, c) < 0
    ensures StrCmp(a, b) <= 0 && StrCmp(b, c) < 0 ==> StrCmp(a, c) < 0
    decreases |a|
  {
    if a != [] && b != [] && a[0] == b[0] {
      assert a == b <==> a[1..] == b[1..] by {
        assert a == [a[0]] + a[1..] && b == [b[0]] + b[1..];
      }
      StrCmpOrder(a[1..], b[1..], if c == [] then [] else c[1..]);
    }
  }

  // ---- characters and digit runs ----

  predicate IsDigit(c: char) { '0' <= c <= '9' }

  predicate IsAlpha(c: char) { 'a' <= c <= 'z' || 'A' <= c <= 'Z' }

  function Lower(c: char): char {
    if 'A' <= c <= 'Z' then (c as int + 32) as char else c
  }

  function LowerAll(s: string): (r: string)
    ensures |r| == |s| && forall i :: 0 <= i < |s| ==> r[i] == Lower(s[i])
  {
    if s == [] then [] else [Lower(s[0])] + LowerAll(s[1..])
  }

  function DigitValue(c: char): nat {
    if IsDigit(c) then c as int - '0' as int else 0
  }

  /** The number a run of digits denotes. */
  function Nat(d: string): nat {
    if d == [] then 0 else Nat(d[..|d| - 1]) * 10 + DigitValue(d[|d| - 1])
  }

  function Pow10(n: nat): nat { if n == 0 then 1 else 10 * Pow10(n - 1) }

  function TrimZeros(d: string): (t: string)
    ensures |t| <= |d| && t == d[|d| - |t|..]
    ensures t == [] || t[0] != '0'
  {
    if d != [] && d[0] == '0' then TrimZeros(d[1..]) else d
  }

  const MAX64: nat := 0xFFFF_FFFF_FFFF_FFFF

  /** The value of a numeric token: saturated above 18 significant digits. */
  function NumberValue(d: string): nat {
    var t := TrimZeros(d);
    if |t| > 18 then MAX64 else Nat(t)
  }

  // ---- tokens ----

  datatype Token = Tilde | Alpha(text: string) | Numeric(num: nat)

  function Run(v: string, p: char -> bool): (n: nat)
    ensures n <= |v|
    ensures forall i :: 0 <= i < n ==> p(v[i])
    ensures n < |v| ==> !p(v[n])
  {
    if v != [] && p(v[0]) then 1 + Run(v[1..], p) else 0
  }

  function Tokenize(v: string): seq<Token>
    decreases |v|
  {
    if v == [] then []
    else if v[0] == '~' then [Tilde] + Tokenize(v[1..])
    else if IsDigit(v[0]) then
      var n := Run(v, IsDigit);
      [Numeric(NumberValue(v[..n]))] + Tokenize(v[n..])
    else if IsAlpha(v[0]) then
      var n := Run(v, IsAlpha);
      [Alpha(LowerAll(v[..n]))] + Tokenize(v[n..])
    else Tokenize(v[1..])
  }

  predicate IsPrerelease(w: string) {
    w in ["rc", "alpha", "beta", "pre", "dev", "preview", "snapshot", "nightly", "a1"]
  }

  // ---- comparison ----

  function Rank(t: Token): nat {
    match t
    case Tilde => 0
    case Alpha(_) => 1
    case Numeric(_) => 2
  }

  function Sign(a: int, b: int): int { if a == b then 0 else if a < b then -1 else 1 }

  function CmpToken(a: Token, b: Token): int {
    if Rank(a) != Rank(b) then Sign(Rank(a), Rank(b))
    else match a
      case Tilde => 0
      case Alpha(w) => StrCmp(w, b.text)
      case Numeric(n) => Sign(n, b.num)
  }

  /** Whether having `rest` left over makes a version smaller or greater. */
  function CmpRemainder(rest: seq<Token>): int {
    if rest == [] then 0
    else if rest[0].Tilde? then -1
    else if rest[0].Alpha? && IsPrerelease(rest[0].text) then -1
    else 1
  }

  function CompareTokens(a: seq<Token>, b: seq<Token>): int {
    if a == [] || b == [] then (if a != [] then CmpRemainder(a) else -CmpRemainder(b))
    else if CmpToken(a[0], b[0]) != 0 then CmpToken(a[0], b[0])
    else CompareTokens(a[1..], b[1..])
  }

  datatype Stripped = Stripped(epoch: nat, rest: string)

  function FindChar(v: string, c: char): (i: nat)
    ensures i <= |v| && (i < |v| ==> v[i] == c) && forall j :: 0 <= j < i ==> v[j] != c
  {
    if v == [] || v[0] == c then 0 else 1 + FindChar(v[1..], c)
  }

  /** A leading run of digits and a colon is an epoch, kept in a 64-bit register. */
  function StripEpoch(v: string): Stripped {
    var colon := FindChar(v, ':');
    if colon == |v| || exists i :: 0 <= i < colon && !IsDigit(v[i]) then Stripped(0, v)
    else Stripped(Nat(v[..colon]) % (MAX64 + 1), v[colon + 1..])
  }

  function Tokens(v: string): seq<Token> { Tokenize(StripEpoch(v).rest) }

  function Compare(a: string, b: string): int {
    var x, y := StripEpoch(a), StripEpoch(b);
    if x.epoch != y.epoch then Sign(x.epoch, y.epoch)
    else CompareTokens(Tokenize(x.rest), Tokenize(y.rest))
  }

  function InRange(v: string, startIncl: string, startExcl: string, endIncl: string, endExcl: string): bool {
    && (startIncl != [] ==> Compare(v, startIncl) >= 0)
    && (startExcl != [] ==> Compare(v, startExcl) > 0)
    && (endIncl != [] ==> Compare(v, endIncl) <= 0)
    && (endExcl != [] ==> Compare(v, endExcl) < 0)
  }

  // ---- numbers ----

  lemma {:induction false} NatFront(c: char, d: string)
    ensures Nat([c] + d) == DigitValue(c) * Pow10(|d|) + Nat(d)
    decreases |d|
  {
    hide DigitValue;
    var s := [c] + d;
    if d == [] {
      assert s[..0] == [];
    } else {
      var n := |d| - 1;
      assert s[..|s| - 1] == [c] + d[..n];
      NatFront(c, d[..n]);
      TimesTen(DigitValue(c), Pow10(n));
      assert s[|s| - 1] == d[n];
    }
  }

  lemma TimesTen(a: nat, p: nat)
    ensures a * (10 * p) == (a * p) * 10
  {}

  lemma {:induction false} NatBelow(d: string)
    ensures Nat(d) < Pow10(|d|)
  {
    if d != [] { NatBelow(d[..|d| - 1]); }
  }

  lemma {:induction false} TrimKeepsValue(d: string)
    ensures Nat(TrimZeros(d)) == Nat(d)
  {
    hide Nat, Pow10;
    if d != [] && d[0] == '0' {
      TrimKeepsValue(d[1..]);
      NatFront('0', d[1..]);
      assert d == ['0'] + d[1..];
    }
  }

  lemma {:induction false} Pow10Grows(m: nat, n: nat)
    requires m <= n
    ensures 0 < Pow10(m) <= Pow10(n)
    decreases n
  {
    if m < n { Pow10Grows(m, n - 1); } else if n > 0 { Pow10Grows(n - 1, n - 1); }
  }

  lemma Saturation()
    ensures Pow10(18) == 1_000_000_000_000_000_000
  {
    assert Pow10(6) == 1_000_000;
    assert Pow10(12) == 1_000_000_000_000;
  }

  lemma LongRun(t: string)
    requires |t| > 18 && '1' <= t[0] <= '9'
    ensures Nat(t) >= Pow10(18)
  {
    hide Nat, Pow10;
    NatFront(t[0], t[1..]);
    assert t == [t[0]] + t[1..];
    Pow10Grows(18, |t| - 1);
    assert DigitValue(t[0]) * Pow10(|t| - 1) >= Pow10(|t| - 1);
  }

  /**
   The token value of a run of digits of any length: the number itself below ten to the
   eighteenth, one fixed larger value from there on. So leading zeros do not count, the value
   never overflows, and it grows with the number, strictly unless both are saturated.
   */
  lemma NumberValueIs(d: string)
    requires forall i :: 0 <= i < |d| ==> IsDigit(d[i])
    ensures NumberValue(d) == if Nat(d) < Pow10(18) then Nat(d) else MAX64
    ensures Pow10(18) <= MAX64
  {
    hide Nat, Pow10, TrimZeros;
    var t := TrimZeros(d);
    TrimmedRun(d);
    TrimKeepsValue(d);
    NatBelow(t);
    Saturation();
    if |t| > 18 {
      LongRun(t);
    } else {
      Pow10Grows(|t|, 18);
    }
  }

  /** A digit run without its leading zeros is empty or starts with another digit. */
  lemma {:induction false} TrimmedRun(d: string)
    requires forall i :: 0 <= i < |d| ==> IsDigit(d[i])
    ensures
      var t := TrimZeros(d);
      t == [] || '1' <= t[0] <= '9'
  {
    if d != [] {
      if d[0] == '0' {
        TrimmedRun(d[1..]);
      } else {
        assert IsDigit(d[0]);
      }
    }
  }

  /**
   Digit runs compare as the numbers they denote, leading zeros or not; a smaller number gives
   a smaller value unless it already has more than 18 significant digits.
   */
  lemma NumbersMonotone(a: string, b: string)
    requires forall i :: 0 <= i < |a| ==> IsDigit(a[i])
    requires forall i :: 0 <= i < |b| ==> IsDigit(b[i])
    ensures Nat(a) <= Nat(b) ==> NumberValue(a) <= NumberValue(b)
    ensures Nat(a) < Nat(b) ==> (NumberValue(a) < NumberValue(b) <==> |TrimZeros(a)| <= 18)
  {
    hide Nat, Pow10, NumberValue, TrimZeros;
    NumberValueIs(a);
    NumberValueIs(b);
    SignificantDigits(a);
  }

  lemma SignificantDigits(d: string)
    requires forall i :: 0 <= i < |d| ==> IsDigit(d[i])
    ensures |TrimZeros(d)| <= 18 <==> Nat(d) < Pow10(18)
  {
    hide Nat, Pow10, TrimZeros;
    var t := TrimZeros(d);
    TrimmedRun(d);
    TrimKeepsValue(d);
    if |t| > 18 {
      LongRun(t);
    } else {
      NatBelow(t);
      Pow10Grows(|t|, 18);
    }
  }

  // ---- on all strings ----

  lemma CmpTokenFlips(a: Token, b: Token)
    ensures CmpToken(a, b) == -CmpToken(b, a)
    ensures CmpToken(a, b) == 0 <==> a == b
  {
    if a.Alpha? && b.Alpha? { StrCmpOrder(a.text, b.text, a.text); }
  }

  lemma {:induction false} TokensFlip(a: seq<Token>, b: seq<Token>)
    ensures CompareTokens(a, b) == -CompareTokens(b, a)
    ensures CompareTokens(a, b) == 0 <==> a == b
    decreases |a|
  {
    hide CmpToken;
    if a != [] && b != [] {
      CmpTokenFlips(a[0], b[0]);
      TokensFlip(a[1..], b[1..]);
      assert a == [a[0]] + a[1..] && b == [b[0]] + b[1..];
    }
  }

  /** Swapping the arguments flips the sign, for all strings. */
  lemma Antisymmetric(a: string, b: string)
    ensures Compare(a, b) == -Compare(b, a)
  {
    hide Tokenize, CompareTokens, StripEpoch;
    TokensFlip(Tokens(a), Tokens(b));
  }

  /** Two versions compare equal exactly when epoch and tokens coincide. */
  lemma EqualIff(a: string, b: string)
    ensures Compare(a, b) == 0 <==> StripEpoch(a).epoch == StripEpoch(b).epoch && Tokens(a) == Tokens(b)
  {
    hide Tokenize, CompareTokens, StripEpoch;
    TokensFlip(Tokens(a), Tokens(b));
  }

  /** Equal versions compare the same way with everything. */
  lemma EqualCongruent(a: string, b: string, c: string)
    requires Compare(a, b) == 0
    ensures Compare(a, c) == Compare(b, c) && Compare(c, a) == Compare(c, b)
  {
    hide Tokenize, CompareTokens, StripEpoch;
    EqualIff(a, b);
  }

  // ---- the order behind the comparison ----

  /** End of version sits between pre-release words and all other words. */
  function Class(ts: seq<Token>): nat {
    if ts == [] then 2
    else match ts[0]
      case Tilde => 0
      case Alpha(w) => if IsPrerelease(w) then 1 else 3
      case Numeric(_) => 4
  }

  function HeadCmp(a: seq<Token>, b: seq<Token>): int {
    if Class(a) != Class(b) then Sign(Class(a), Class(b))
    else if a == [] || b == [] then 0
    else if a[0].Alpha? && b[0].Alpha? then StrCmp(a[0].text, b[0].text)
    else if a[0].Numeric? && b[0].Numeric? then Sign(a[0].num, b[0].num)
    else 0
  }

  /** The lexicographic order with end of version as a token of its own. */
  function Order(a: seq<Token>, b: seq<Token>): int {
    if HeadCmp(a, b) != 0 then HeadCmp(a, b)
    else if a == [] || b == [] then 0
    else Order(a[1..], b[1..])
  }

  lemma HeadCmpOrder(a: seq<Token>, b: seq<Token>, c: seq<Token>)
    ensures HeadCmp(a, b) <= 0 && HeadCmp(b, c) <= 0 ==> HeadCmp(a, c) <= 0
    ensures HeadCmp(a, b) < 0 && HeadCmp(b, c) <= 0 ==> HeadCmp(a, c) < 0
    ensures HeadCmp(a, b) <= 0 && HeadCmp(b, c) < 0 ==> HeadCmp(a, c) < 0
    ensures HeadCmp(a, b) == -HeadCmp(b, a)
    ensures HeadCmp(a, b) == 0 ==> (a == [] <==> b == []) && (a != [] ==> a[0] == b[0])
  {
    hide IsPrerelease;
    if a != [] && b != [] && a[0].Alpha? && b[0].Alpha? {
      StrCmpOrder(a[0].text, b[0].text, if c != [] && c[0].Alpha? then c[0].text else "");
    }
  }

  /** That order is transitive, with no condition. */
  lemma {:induction false} OrderTransitive(a: seq<Token>, b: seq<Token>, c: seq<Token>)
    requires Order(a, b) <= 0 && Order(b, c) <= 0
    ensures Order(a, c) <= 0
    ensures Order(a, b) < 0 || Order(b, c) < 0 ==> Order(a, c) < 0
    decreases |a|
  {
    hide HeadCmp;
    HeadCmpOrder(a, b, c);
    HeadCmpOrder(b, c, a);
    HeadCmpOrder(a, c, b);
    if HeadCmp(a, b) == 0 && HeadCmp(b, c) == 0 && a != [] && b != [] && c != [] {
      OrderTransitive(a[1..], b[1..], c[1..]);
    }
  }

  // ---- vocabularies ----

  ghost function Words(ts: seq<Token>): set<string> {
    set t | t in ts && t.Alpha? :: t.text
  }

  /** Every pre-release word comes before every other word. */
  ghost predicate Compatible(w: set<string>) {
    forall p, u :: p in w && u in w && IsPrerelease(p) && !IsPrerelease(u) ==> StrCmp(p, u) < 0
  }

  lemma HeadsAgree(a: seq<Token>, b: seq<Token>, w: set<string>)
    requires Words(a) <= w && Words(b) <= w && Compatible(w) && a != [] && b != []
    ensures CmpToken(a[0], b[0]) == HeadCmp(a, b)
  {
    hide IsPrerelease;
    if a[0].Alpha? && b[0].Alpha? {
      assert a[0].text in Words(a) && b[0].text in Words(b);
      StrCmpOrder(a[0].text, b[0].text, a[0].text);
    }
  }

  /** On a compatible vocabulary the code compares by that order. */
  lemma {:induction false} TokensAreOrdered(a: seq<Token>, b: seq<Token>, w: set<string>)
    requires Words(a) <= w && Words(b) <= w && Compatible(w)
    ensures CompareTokens(a, b) == Order(a, b)
    decreases |a|
  {
    hide Compatible, CmpToken;
    if a != [] && b != [] {
      HeadsAgree(a, b, w);
      assert Words(a[1..]) <= Words(a) && Words(b[1..]) <= Words(b);
      TokensAreOrdered(a[1..], b[1..], w);
    }
  }

  ghost predicate Speaks(v: string, w: set<string>) { Words(Tokens(v)) <= w }

  lemma CompareTransitive(a: string, b: string, c: string, w: set<string>)
    requires Speaks(a, w) && Speaks(b, w) && Speaks(c, w) && Compatible(w)
    requires Compare(a, b) <= 0 && Compare(b, c) <= 0
    ensures Compare(a, c) <= 0
    ensures Compare(a, b) < 0 || Compare(b, c) < 0 ==> Compare(a, c) < 0
  {
    hide Tokenize, CompareTokens, StripEpoch, Order, Compatible, Words;
    var x, y, z := Tokens(a), Tokens(b), Tokens(c);
    TokensAreOrdered(x, y, w);
    TokensAreOrdered(y, z, w);
    TokensAreOrdered(x, z, w);
    if StripEpoch(a).epoch == StripEpoch(b).epoch == StripEpoch(c).epoch {
      OrderTransitive(x, y, z);
    }
  }

  // ---- and only on those ----

  ghost predicate Transitive(w: set<string>) {
    forall a, b, c :: Speaks(a, w) && Speaks(b, w) && Speaks(c, w) && Compare(a, b) <= 0 && Compare(b, c) <= 0 ==> Compare(a, c) <= 0
  }

  /** A word a version can contain: lower-case letters, at least one. */
  ghost predicate IsWord(s: string) { s != [] && forall i :: 0 <= i < |s| ==> 'a' <= s[i] <= 'z' }

  lemma {:induction false} RunAll(s: string, p: char -> bool)
    requires forall i :: 0 <= i < |s| ==> p(s[i])
    ensures Run(s, p) == |s|
  {
    if s != [] { RunAll(s[1..], p); }
  }

  lemma WordTokens(s: string)
    requires IsWord(s)
    ensures Tokens(s) == [Alpha(s)] && StripEpoch(s).epoch == 0
  {
    RunAll(s, IsAlpha);
    assert LowerAll(s) == s;
    assert s[..|s|] == s && s[|s|..] == [];
    assert Tokenize([]) == [];
  }

  lemma EmptyTokens()
    ensures Tokens("") == [] && StripEpoch("").epoch == 0
  {}

  /** A pre-release word behind an ordinary word closes a cycle with the empty version. */
  lemma Cycle(p: string, u: string)
    requires IsWord(p) && IsWord(u) && IsPrerelease(p) && !IsPrerelease(u) && StrCmp(u, p) < 0
    ensures Compare(u, p) < 0 && Compare(p, "") < 0 && Compare("", u) < 0
  {
    hide Tokenize, StripEpoch, IsPrerelease;
    WordTokens(p);
    WordTokens(u);
    EmptyTokens();
  }

  /**
   `version_compare` is an order on the versions over a vocabulary if and only if every
   pre-release word of the vocabulary comes before every other word of it.
   */
  lemma OrderIffCompatible(w: set<string>)
    requires forall s :: s in w ==> IsWord(s)
    ensures Transitive(w) <==> Compatible(w)
  {
    hide Compare, IsPrerelease, Speaks;
    if Compatible(w) {
      forall a, b, c | Speaks(a, w) && Speaks(b, w) && Speaks(c, w) && Compare(a, b) <= 0 && Compare(b, c) <= 0
        ensures Compare(a, c) <= 0
      {
        CompareTransitive(a, b, c, w);
      }
    } else {
      var p, u :| p in w && u in w && IsPrerelease(p) && !IsPrerelease(u) && !(StrCmp(p, u) < 0);
      StrCmpOrder(p, u, p);
      Cycle(p, u);
      WordSpeaks(p, w);
      WordSpeaks(u, w);
      EmptySpeaks(w);
      Antisymmetric(p, "");
    }
  }

  lemma WordSpeaks(s: string, w: set<string>)
    requires IsWord(s) && s in w
    ensures Speaks(s, w)
  {
    hide Tokenize, StripEpoch;
    WordTokens(s);
  }

  lemma EmptySpeaks(w: set<string>)
    ensures Speaks("", w)
  {
    EmptyTokens();
  }

  /** The cycle the shipped word list contains: 1.0p is below 1.0rc is below 1.0 is below 1.0p. */
  lemma ThreeCycle()
    ensures Compare("1.0p", "1.0rc") < 0 && Compare("1.0rc", "1.0") < 0 && Compare("1.0", "1.0p") < 0
  {
    hide Compare, NumberValue, Tokens, Tokenize, StripEpoch;
    VersionTokens("");
    VersionTokens("p");
    VersionTokens("rc");
    WordTail("p");
    WordTail("rc");
    EmptyTail();
    assert "1.0" + "" == "1.0" && "1.0" + "p" == "1.0p" && "1.0" + "rc" == "1.0rc";
    var a, b := Numeric(NumberValue("1")), Numeric(NumberValue("0"));
    assert [a, b] + [] == [a, b] && [a, b] + [Alpha("p")] == [a, b, Alpha("p")];
    CycleTokens(a, b);
  }

  lemma EmptyTail()
    ensures Tokenize("") == []
  {}

  lemma CycleTokens(a: Token, b: Token)
    requires Tokens("1.0p") == [a, b, Alpha("p")] && StripEpoch("1.0p").epoch == 0
    requires Tokens("1.0rc") == [a, b, Alpha("rc")] && StripEpoch("1.0rc").epoch == 0
    requires Tokens("1.0") == [a, b] && StripEpoch("1.0").epoch == 0
    ensures Compare("1.0p", "1.0rc") < 0 && Compare("1.0rc", "1.0") < 0 && Compare("1.0", "1.0p") < 0
  {
    hide Tokenize, StripEpoch, CmpToken;
    CmpTokenFlips(a, a);
    CmpTokenFlips(b, b);
    var p, rc := Alpha("p"), Alpha("rc");
    assert [a, b, p][1..] == [b, p] && [b, p][1..] == [p];
    assert [a, b, rc][1..] == [b, rc] && [b, rc][1..] == [rc];
    assert [a, b][1..] == [b] && [b][1..] == [];
    assert CompareTokens([p], [rc]) < 0 by { PBeforeRc(); }
    assert CompareTokens([rc], []) < 0 && CompareTokens([], [p]) < 0;
  }

  lemma PBeforeRc()
    ensures CmpToken(Alpha("p"), Alpha("rc")) < 0
  {
    assert "p"[0] == 'p' && "rc"[0] == 'r';
  }

  lemma WordTail(s: string)
    requires IsWord(s)
    ensures Tokenize(s) == [Alpha(s)]
  {
    hide StripEpoch;
    WordTokens(s);
    NoEpoch(s);
  }

  lemma NoEpoch(s: string)
    requires forall i :: 0 <= i < |s| ==> s[i] != ':'
    ensures StripEpoch(s) == Stripped(0, s)
  {}

  lemma DigitStep(c: char, rest: string)
    requires IsDigit(c) && (rest == "" || !IsDigit(rest[0]))
    ensures Tokenize([c] + rest) == [Numeric(NumberValue([c]))] + Tokenize(rest)
  {
    hide NumberValue;
    var v := [c] + rest;
    assert v[1..] == rest && v[..1] == [c];
    assert Run(v, IsDigit) == 1;
  }

  lemma VersionTokens(tail: string)
    requires tail == "" || IsWord(tail)
    ensures Tokens("1.0" + tail) == [Numeric(NumberValue("1")), Numeric(NumberValue("0"))] + Tokenize(tail)
    ensures StripEpoch("1.0" + tail).epoch == 0
  {
    hide NumberValue, StripEpoch;
    NoEpoch("1.0" + tail);
    assert "1.0" + tail == ['1'] + (".0" + tail) && "0" + tail == ['0'] + tail;
    assert (".0" + tail)[1..] == "0" + tail;
    DigitStep('1', ".0" + tail);
    DigitStep('0', tail);
  }

  /** Words are letters only, so the list entry "a1" never matches anything. */
  lemma {:induction false} DeadWord(v: string)
    ensures Alpha("a1") !in Tokenize(v)
    decreases |v|
  {
    hide NumberValue;
    if v != [] {
      if v[0] == '~' || (!IsDigit(v[0]) && !IsAlpha(v[0])) {
        DeadWord(v[1..]);
      } else if IsDigit(v[0]) {
        DeadWord(v[Run(v, IsDigit)..]);
      } else {
        var n := Run(v, IsAlpha);
        DeadWord(v[n..]);
        var w := LowerAll(v[..n]);
        assert forall i :: 0 <= i < |w| ==> 'a' <= w[i];
        assert "a1"[1] == '1';
      }
    }
  }

  // ---- ranges ----

  /** Ranges are convex: between two versions in a range everything is in it. */
  lemma RangeConvex(x: string, y: string, z: string, si: string, se: string, ei: string, ee: string, w: set<string>)
    requires Speaks(x, w) && Speaks(y, w) && Speaks(z, w) && Compatible(w)
    requires Speaks(si, w) && Speaks(se, w) && Speaks(ei, w) && Speaks(ee, w)
    requires Compare(x, y) <= 0 && Compare(y, z) <= 0
    requires InRange(x, si, se, ei, ee) && InRange(z, si, se, ei, ee)
    ensures InRange(y, si, se, ei, ee)
  {
    hide Compare, Speaks, Compatible;
    Antisymmetric(x, si);
    Antisymmetric(y, si);
    Antisymmetric(x, se);
    Antisymmetric(y, se);
    if si != [] { CompareTransitive(si, x, y, w); }
    if se != [] { CompareTransitive(se, x, y, w); }
    if ei != [] { CompareTransitive(y, z, ei, w); }
    if ee != [] { CompareTransitive(y, z, ee, w); }
  }

  /** Adjacent half-open ranges split their union: every version of [a, c) is in exactly one part. */
  lemma RangeSplits(v: string, a: string, b: string, c: string, w: set<string>)
    requires Speaks(v, w) && Speaks(a, w) && Speaks(b, w) && Speaks(c, w) && Compatible(w)
    requires a != [] && b != [] && c != [] && Compare(a, b) <= 0 && Compare(b, c) <= 0
    ensures InRange(v, a, "", "", c) <==> InRange(v, a, "", "", b) || InRange(v, b, "", "", c)
    ensures !(InRange(v, a, "", "", b) && InRange(v, b, "", "", c))
  {
    hide Compare, Speaks, Compatible;
    Antisymmetric(v, a);
    Antisymmetric(v, b);
    if Compare(v, b) < 0 { CompareTransitive(v, b, c, w); }
    if Compare(b, v) <= 0 { CompareTransitive(a, b, v, w); }
  }

  /** Equal versions are in the same ranges. */
  lemma RangeCongruent(x: string, y: string, si: string, se: string, ei: string, ee: string)
    requires Compare(x, y) == 0
    ensures InRange(x, si, se, ei, ee) == InRange(y, si, se, ei, ee)
  {
    hide Compare;
    EqualCongruent(x, y, si);
    EqualCongruent(x, y, se);
    EqualCongruent(x, y, ei);
    EqualCongruent(x, y, ee);
  }

  // ---- the loops of the source ----

  method TokenizeVersion(v: string) returns (out: seq<Token>)
    ensures out == Tokenize(v)
  {
    hide NumberValue, Tokenize, Run;
    out := [];
    var i := 0;
    assert v[0..] == v;
    while i < |v|
      invariant i <= |v| && Tokenize(v) == out + Tokenize(v[i..])
    {
      var c := v[i];
      TokenStep(v, i);
      if c == '~' {
        out := out + [Tilde];
        i := i + 1;
      } else if IsDigit(c) {
        var j := EndOfDigits(v, i);
        var value := ReadNumber(v[i..j]);
        out := out + [Numeric(value)];
        i := j;
      } else if IsAlpha(c) {
        var j, word := EndOfWord(v, i);
        out := out + [Alpha(word)];
        i := j;
      } else {
        i := i + 1;
      }
    }
    EmptyTail();
    assert v[|v|..] == "";
  }

  method EndOfDigits(v: string, i: nat) returns (j: nat)
    requires i < |v| && IsDigit(v[i])
    ensures i < j <= |v| && j - i == Run(v[i..], IsDigit)
    ensures forall k :: 0 <= k < j - i ==> IsDigit(v[i..j][k])
  {
    hide Run;
    j := i;
    while j < |v| && IsDigit(v[j])
      invariant i <= j <= |v| && forall k :: i <= k < j ==> IsDigit(v[k])
    {
      j := j + 1;
    }
    RunIs(v, i, j, IsDigit);
  }

  method EndOfWord(v: string, i: nat) returns (j: nat, word: string)
    requires i < |v| && IsAlpha(v[i])
    ensures i < j <= |v| && j - i == Run(v[i..], IsAlpha) && word == LowerAll(v[i..j])
  {
    hide Run, LowerAll;
    j, word := i, "";
    while j < |v| && IsAlpha(v[j])
      invariant i <= j <= |v| && forall k :: i <= k < j ==> IsAlpha(v[k])
      invariant |word| == j - i && forall k :: 0 <= k < |word| ==> word[k] == Lower(v[i + k])
    {
      word := word + [Lower(v[j])];
      j := j + 1;
    }
    RunIs(v, i, j, IsAlpha);
    assert forall k :: 0 <= k < |word| ==> word[k] == LowerAll(v[i..j])[k];
  }

  lemma TokenStep(v: string, i: nat)
    requires i < |v|
    ensures
      var t, d, w := Tokenize(v[i..]), Run(v[i..], IsDigit), Run(v[i..], IsAlpha);
      if v[i] == '~' then t == [Tilde] + Tokenize(v[i + 1..])
      else if IsDigit(v[i]) then t == [Numeric(NumberValue(v[i..i + d]))] + Tokenize(v[i + d..])
      else if IsAlpha(v[i]) then t == [Alpha(LowerAll(v[i..i + w]))] + Tokenize(v[i + w..])
      else t == Tokenize(v[i + 1..])
  {
    hide NumberValue, LowerAll, Tokenize, Run;
    var u, d, w := v[i..], Run(v[i..], IsDigit), Run(v[i..], IsAlpha);
    FirstToken(u);
    assert u[1..] == v[i + 1..] && u[..d] == v[i..i + d] && u[d..] == v[i + d..];
    assert u[..w] == v[i..i + w] && u[w..] == v[i + w..];
  }

  lemma FirstToken(u: string)
    requires u != []
    ensures
      var t, d, w := Tokenize(u), Run(u, IsDigit), Run(u, IsAlpha);
      if u[0] == '~' then t == [Tilde] + Tokenize(u[1..])
      else if IsDigit(u[0]) then t == [Numeric(NumberValue(u[..d]))] + Tokenize(u[d..])
      else if IsAlpha(u[0]) then t == [Alpha(LowerAll(u[..w]))] + Tokenize(u[w..])
      else t == Tokenize(u[1..])
  {
    hide NumberValue, LowerAll, Run;
  }

  lemma RunIs(v: string, i: nat, j: nat, p: char -> bool)
    requires i <= j <= |v| && (forall k :: i <= k < j ==> p(v[k])) && (j < |v| ==> !p(v[j]))
    ensures Run(v[i..], p) == j - i
  {
    hide Run;
    var u := v[i..];
    assert forall k :: 0 <= k < |u| ==> u[k] == v[i + k];
  }

  /** The value of a digit run, in 64-bit arithmetic that never wraps. */
  method ReadNumber(digits: string) returns (value: nat)
    requires forall i :: 0 <= i < |digits| ==> IsDigit(digits[i])
    ensures value == NumberValue(digits) && value <= MAX64
  {
    hide Nat, Pow10;
    var first := 0;
    while first < |digits| && digits[first] == '0'
      invariant first <= |digits| && TrimZeros(digits) == TrimZeros(digits[first..])
    {
      assert digits[first..][1..] == digits[first + 1..];
      first := first + 1;
    }
    var trimmed := digits[first..];
    assert TrimZeros(trimmed) == trimmed;
    if |trimmed| > 18 { return MAX64; }
    value := Accumulate(trimmed);
  }

  method Accumulate(trimmed: string) returns (value: nat)
    requires |trimmed| <= 18
    ensures value == Nat(trimmed) <= MAX64
  {
    hide Nat, Pow10, DigitValue;
    value := 0;
    assert trimmed[..0] == [];
    NatEmpty();
    for i := 0 to |trimmed|
      invariant value == Nat(trimmed[..i])
    {
      NatStep(trimmed, i);
      Fits(trimmed, i + 1);
      value := value * 10 + DigitValue(trimmed[i]);
      assert value <= MAX64;
    }
    Fits(trimmed, |trimmed|);
    assert trimmed[..|trimmed|] == trimmed;
  }

  lemma NatEmpty()
    ensures Nat("") == 0
  {}

  lemma NatStep(d: string, i: nat)
    requires i < |d|
    ensures Nat(d[..i + 1]) == Nat(d[..i]) * 10 + DigitValue(d[i])
  {
    assert d[..i + 1][..i] == d[..i];
  }

  lemma Fits(d: string, n: nat)
    requires n <= |d| <= 18
    ensures Nat(d[..n]) <= MAX64
  {
    hide Nat, Pow10;
    NatBelow(d[..n]);
    Pow10Grows(n, 18);
    Saturation();
  }

  /** A run of digits in front of a colon is read modulo two to the sixty-fourth. */
  lemma EpochIs(e: string, rest: string)
    requires forall i :: 0 <= i < |e| ==> IsDigit(e[i])
    ensures StripEpoch(e + ":" + rest) == Stripped(Nat(e) % (MAX64 + 1), rest)
  {
    hide Nat, FindChar;
    var v := e + [':'] + rest;
    assert forall i :: 0 <= i < |e| ==> e[i] != ':';
    FindCharIs(e, rest, ':');
    assert v[|e| + 1..] == rest;
  }

  /** The epoch is the number written if and only if that number is below two to the sixty-fourth. */
  lemma EpochAgreesIff(e: string, rest: string)
    requires forall i :: 0 <= i < |e| ==> IsDigit(e[i])
    ensures StripEpoch(e + ":" + rest).epoch == Nat(e) <==> Nat(e) <= MAX64
  {
    hide Nat, StripEpoch;
    EpochIs(e, rest);
  }

  /** Below that bound different epochs decide a comparison as numbers. */
  lemma EpochsCompare(e: string, f: string, u: string, v: string)
    requires forall i :: 0 <= i < |e| ==> IsDigit(e[i])
    requires forall i :: 0 <= i < |f| ==> IsDigit(f[i])
    requires Nat(e) <= MAX64 && Nat(f) <= MAX64 && Nat(e) != Nat(f)
    ensures Compare(e + ":" + u, f + ":" + v) == Sign(Nat(e), Nat(f))
  {
    hide Nat, StripEpoch, Tokenize, CompareTokens;
    EpochIs(e, u);
    EpochIs(f, v);
    EpochAgreesIff(e, u);
    EpochAgreesIff(f, v);
  }

  lemma NextDigit(d: string, i: nat, before: nat, digit: nat)
    requires i < |d| && Nat(d[..i]) == before && DigitValue(d[i]) == digit
    ensures Nat(d[..i + 1]) == before * 10 + digit
  {
    hide Nat;
    NatStep(d, i);
  }

  lemma TwoToThe64()
    ensures Nat("18446744073709551616") == MAX64 + 1
  {
    hide Nat;
    var d := "18446744073709551616";
    assert d[..0] == [];
    NatEmpty();
    NextDigit(d, 0, 0, 1);
    NextDigit(d, 1, 1, 8);
    NextDigit(d, 2, 18, 4);
    NextDigit(d, 3, 184, 4);
    NextDigit(d, 4, 1844, 6);
    NextDigit(d, 5, 18446, 7);
    NextDigit(d, 6, 184467, 4);
    NextDigit(d, 7, 1844674, 4);
    NextDigit(d, 8, 18446744, 0);
    NextDigit(d, 9, 184467440, 7);
    NextDigit(d, 10, 1844674407, 3);
    NextDigit(d, 11, 18446744073, 7);
    NextDigit(d, 12, 184467440737, 0);
    NextDigit(d, 13, 1844674407370, 9);
    NextDigit(d, 14, 18446744073709, 5);
    NextDigit(d, 15, 184467440737095, 5);
    NextDigit(d, 16, 1844674407370955, 1);
    NextDigit(d, 17, 18446744073709551, 6);
    NextDigit(d, 18, 184467440737095516, 1);
    NextDigit(d, 19, 1844674407370955161, 6);
    assert d[..20] == d;
  }

  /** The first epoch that wraps compares below epoch 1. */
  lemma EpochWraps()
    ensures Compare("18446744073709551616:1", "1:1") < 0
  {
    hide Nat, StripEpoch, Tokenize, CompareTokens, DigitValue;
    var big, one := "18446744073709551616", "1";
    TwoToThe64();
    OneIs();
    EpochIs(big, "1");
    EpochIs(one, "1");
    assert big + ":" + "1" == "18446744073709551616:1" && one + ":" + "1" == "1:1";
  }

  lemma OneIs()
    ensures Nat("1") == 1
  {
    var d := "1";
    assert d[..0] == [];
  }

  /** The epoch has no saturation: it is read modulo two to the sixty-fourth. */
  method ReadEpoch(v: string) returns (r: Stripped)
    ensures r == StripEpoch(v)
  {
    hide Nat;
    var colon := FindChar(v, ':');
    if colon == |v| { return Stripped(0, v); }
    var i := 0;
    while i < colon
      invariant i <= colon && forall k :: 0 <= k < i ==> IsDigit(v[k])
    {
      if !IsDigit(v[i]) { return Stripped(0, v); }
      i := i + 1;
    }
    var epoch: nat := 0;
    i := 0;
    NatEmpty();
    assert v[..0] == [];
    while i < colon
      invariant i <= colon && epoch == Nat(v[..i]) % (MAX64 + 1)
    {
      NatStep(v, i);
      WrapStep(Nat(v[..i]), DigitValue(v[i]));
      epoch := (epoch * 10 + DigitValue(v[i])) % (MAX64 + 1);
      i := i + 1;
    }
    r := Stripped(epoch, v[colon + 1..]);
  }

  lemma WrapStep(n: nat, d: nat)
    ensures ((n % (MAX64 + 1)) * 10 + d) % (MAX64 + 1) == (n * 10 + d) % (MAX64 + 1)
  {
    var m, q := MAX64 + 1, n / (MAX64 + 1);
    assert n == q * m + n % m;
    assert n * 10 + d == (10 * q) * m + ((n % m) * 10 + d);
    ModAdds(10 * q, (n % m) * 10 + d);
  }

  lemma {:induction false} ModAdds(k: nat, x: nat)
    ensures (k * (MAX64 + 1) + x) % (MAX64 + 1) == x % (MAX64 + 1)
  {
    if k > 0 {
      ModAdds(k - 1, x);
      assert k * (MAX64 + 1) + x == (k - 1) * (MAX64 + 1) + x + (MAX64 + 1);
    }
  }

  method VersionCompare(a: string, b: string) returns (r: int)
    ensures r == Compare(a, b)
  {
    hide Tokenize, StripEpoch, CmpToken, CmpRemainder;
    var x := ReadEpoch(a);
    var y := ReadEpoch(b);
    if x.epoch != y.epoch { return if x.epoch < y.epoch then -1 else 1; }
    var ta := TokenizeVersion(x.rest);
    var tb := TokenizeVersion(y.rest);
    var n := if |ta| < |tb| then |ta| else |tb|;
    assert ta[0..] == ta && tb[0..] == tb;
    for i := 0 to n
      invariant CompareTokens(ta, tb) == CompareTokens(ta[i..], tb[i..])
    {
      var c := CmpToken(ta[i], tb[i]);
      assert ta[i..][1..] == ta[i + 1..] && tb[i..][1..] == tb[i + 1..];
      if c != 0 { return c; }
    }
    NothingLeft();
    if |ta| > n { return CmpRemainder(ta[n..]); }
    if |tb| > n { return -CmpRemainder(tb[n..]); }
    r := 0;
  }

  lemma NothingLeft()
    ensures CmpRemainder([]) == 0
  {}

  // ---- the upstream part ----

  function CutLast(v: string, c: char): string {
    if v == [] then []
    else if v[|v| - 1] == c then v[..|v| - 1]
    else if c in v then CutLast(v[..|v| - 1], c)
    else v
  }

  /** Epoch, packaging revision and build metadata removed. */
  function Upstream(v: string): string {
    var u := CutLast(StripEpoch(v).rest, '-');
    u[..FindChar(u, '+')]
  }

  lemma {:induction false} CutLastIs(u: string, r: string, c: char)
    requires c !in r
    ensures CutLast(u + [c] + r, c) == u
    decreases |r|
  {
    var v := u + [c] + r;
    if r == [] {
      assert v[..|v| - 1] == u;
    } else {
      var n := |r| - 1;
      assert v[..|v| - 1] == u + [c] + r[..n];
      assert v[|v| - 1] == r[n] && r[n] in r;
      assert v[|u|] == c;
      assert forall x :: x in r[..n] ==> x in r;
      CutLastIs(u, r[..n], c);
    }
  }

  lemma FindCharIs(u: string, r: string, c: char)
    requires c !in u
    ensures FindChar(u + [c] + r, c) == |u| && (u + [c] + r)[..|u|] == u
  {
    var v := u + [c] + r;
    assert v[|u|] == c;
    assert forall i :: 0 <= i < |u| ==> v[i] == u[i] && u[i] in u;
  }

  lemma CutNothing(u: string, c: char)
    requires c !in u
    ensures CutLast(u, c) == u
  {}

  /** A part of a version behind its sign, if there is one. */
  function Part(sign: char, part: Option<string>): string {
    if part.Some? then [sign] + part.value else ""
  }

  function WithEpoch(epoch: Option<string>, rest: string): string {
    if epoch.Some? then epoch.value + ":" + rest else rest
  }

  /**
   Epoch, build metadata and packaging revision, any of them present or not, are taken off
   again and leave the upstream version.
   */
  lemma UpstreamRecovers(epoch: Option<string>, u: string, build: Option<string>, rev: Option<string>)
    requires '+' !in u
    requires if rev.Some? then '-' !in rev.value else '-' !in u + Part('+', build)
    requires if epoch.Some? then forall i :: 0 <= i < |epoch.value| ==> IsDigit(epoch.value[i])
             else ':' !in u + Part('+', build) + Part('-', rev)
    ensures Upstream(WithEpoch(epoch, u + Part('+', build) + Part('-', rev))) == u
  {
    hide Nat, CutLast, FindChar;
    var front := u + Part('+', build);
    var rest := front + Part('-', rev);
    var v := WithEpoch(epoch, rest);
    assert StripEpoch(v).rest == rest by {
      if epoch.Some? {
        EpochIs(epoch.value, rest);
      } else {
        NoColon(rest);
      }
    }
    assert CutLast(rest, '-') == front by {
      if rev.Some? {
        assert rest == front + ['-'] + rev.value;
        CutLastIs(front, rev.value, '-');
      } else {
        assert rest == front;
        CutNothing(front, '-');
      }
    }
    PlusAt(u, build);
  }

  lemma NoColon(v: string)
    requires ':' !in v
    ensures StripEpoch(v) == Stripped(0, v)
  {
    hide Nat;
    assert forall i :: 0 <= i < |v| ==> v[i] in v;
  }

  lemma PlusAt(u: string, build: Option<string>)
    requires '+' !in u
    ensures FindChar(u + Part('+', build), '+') == |u| && (u + Part('+', build))[..|u|] == u
  {
    if build.Some? {
      assert u + Part('+', build) == u + ['+'] + build.value;
      FindCharIs(u, build.value, '+');
    } else {
      assert u + Part('+', build) == u;
      assert forall i :: 0 <= i < |u| ==> u[i] in u;
    }
  }
}
