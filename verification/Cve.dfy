/**
 The CVE index: loading the rules and aliases, matching one package, scanning an inventory.
 Looking a package up in the product index and keeping the best score per CVE gives what a
 linear scan over all loaded rules would give.
 */
module Cves {
  import opened Options
  import opened Versions
  import opened Names
  import opened Sorting

  datatype Rule = Rule(
    cve: string, vendor: string, product: string, version: string,
    startIncl: string, startExcl: string, endIncl: string, endExcl: string,
    score: real, severity: string, cvssVersion: string)

  datatype Package = Package(name: string, version: string)

  datatype Finding = Finding(
    cve: string, packageName: string, packageVersion: string, matchedVersion: string,
    vendor: string, product: string, score: real, severity: string, cvssVersion: string, exposed: bool)

  // ---- rules ----

  /** One row of the index; comments and rows with fewer than twelve fields give nothing. */
  function ParseRule(line: string, score: string -> real): Option<Rule> {
    if line == [] || line[0] == '#' then None
    else
      var c := SplitTabs(line);
      if |c| < 12 then None
      else Some(Rule(c[0], c[1], c[2], c[3], c[5], c[6], c[7], c[8], if c[9] == [] then 0.0 else score(c[9]), c[10], c[11]))
  }

  function Rules(lines: seq<string>, score: string -> real): seq<Rule> {
    if lines == [] then []
    else
      var n := |lines| - 1;
      var rest := Rules(lines[..n], score);
      if ParseRule(lines[n], score).Some? then rest + [ParseRule(lines[n], score).value] else rest
  }

  /** Which column is which field. */
  ghost predicate FromColumns(r: Rule, c: seq<string>, score: string -> real)
    requires |c| >= 12
  {
    && r.cve == c[0] && r.vendor == c[1] && r.product == c[2] && r.version == c[3]
    && r.startIncl == c[5] && r.startExcl == c[6] && r.endIncl == c[7] && r.endExcl == c[8]
    && r.score == (if c[9] == "" then 0.0 else score(c[9]))
    && r.severity == c[10] && r.cvssVersion == c[11]
  }

  /**
   The columns of the index are the fields of the rule. A row with fewer than twelve columns
   gives nothing, and so does a row of exactly twelve whose last column is empty.
   */
  lemma RuleColumns(fields: seq<string>, score: string -> real)
    requires fields != [] && forall f :: f in fields ==> '\t' !in f
    requires JoinTabs(fields) != [] && JoinTabs(fields)[0] != '#'
    ensures
      var parsed := ParseRule(JoinTabs(fields), score);
      if |fields| < 12 || (|fields| == 12 && fields[11] == "") then parsed == None
      else parsed.Some? && FromColumns(parsed.value, fields, score)
  {
    hide SplitTabs, JoinTabs, FromColumns;
    SplitJoinedTabs(fields);
    SplitRule(JoinTabs(fields), score);
    var n := |fields| - 1;
    if n >= 12 && fields[n] == "" { SameColumns(JoinTabs(fields), fields, score); }
  }

  lemma SplitRule(line: string, score: string -> real)
    requires line != [] && line[0] != '#'
    ensures
      var c := SplitTabs(line);
      if |c| < 12 then ParseRule(line, score) == None
      else ParseRule(line, score).Some? && FromColumns(ParseRule(line, score).value, c, score)
  {
    hide SplitTabs;
  }

  lemma SameColumns(line: string, fields: seq<string>, score: string -> real)
    requires |fields| > 12 && ParseRule(line, score).Some?
    requires FromColumns(ParseRule(line, score).value, fields[..|fields| - 1], score)
    ensures FromColumns(ParseRule(line, score).value, fields, score)
  {
    hide ParseRule;
  }

  /** The rules are what the rows give, row by row. */
  lemma {:induction false} RulesAre(lines: seq<string>, score: string -> real, r: Rule)
    ensures r in Rules(lines, score) <==> exists i :: 0 <= i < |lines| && ParseRule(lines[i], score) == Some(r)
    decreases |lines|
  {
    hide ParseRule;
    if lines != [] {
      var n := |lines| - 1;
      RulesAre(lines[..n], score, r);
      assert forall i :: 0 <= i < n ==> lines[..n][i] == lines[i];
    }
  }

  function KeyOf(r: Rule): string { r.vendor + ":" + r.product }

  /** The rules of one product, in load order. */
  function OfProduct(rules: seq<Rule>, key: string): (r: seq<Rule>)
    ensures forall x :: x in r <==> x in rules && KeyOf(x) == key
  {
    if rules == [] then []
    else
      var n := |rules| - 1;
      OfProduct(rules[..n], key) + (if KeyOf(rules[n]) == key then [rules[n]] else [])
  }

  lemma OfProductSnoc(rules: seq<Rule>, r: Rule, key: string)
    ensures OfProduct(rules + [r], key) == OfProduct(rules, key) + (if KeyOf(r) == key then [r] else [])
  {
    assert (rules + [r])[..|rules|] == rules;
  }

  // ---- matching ----

  predicate HasRange(r: Rule) {
    r.startIncl != [] || r.startExcl != [] || r.endIncl != [] || r.endExcl != []
  }

  predicate Hits(r: Rule, v: string) {
    if r.version != "*" && r.version != "-" && r.version != [] then Compare(v, r.version) == 0
    else if HasRange(r) then InRange(v, r.startIncl, r.startExcl, r.endIncl, r.endExcl)
    else true
  }

  /**
   What a rule covers, through the comparison only: a rule that names a version covers the
   versions with the same epoch and tokens, any other rule the versions that break none of the
   bounds it has.
   */
  ghost predicate Covers(r: Rule, v: string) {
    if r.version in ["*", "-", ""] then
      && (r.startIncl == "" || Compare(v, r.startIncl) >= 0)
      && (r.startExcl == "" || Compare(v, r.startExcl) > 0)
      && (r.endIncl == "" || Compare(v, r.endIncl) <= 0)
      && (r.endExcl == "" || Compare(v, r.endExcl) < 0)
    else
      StripEpoch(v).epoch == StripEpoch(r.version).epoch && Tokens(v) == Tokens(r.version)
  }

  lemma HitsIff(r: Rule, v: string)
    ensures Hits(r, v) <==> Covers(r, v)
  {
    hide Compare, StripEpoch, Tokens;
    EqualIff(v, r.version);
  }

  /**
   Bound by bound: below a first version, at or below a version before the first, above a last
   version, at or above the first fixed version there is no hit; everywhere else there is.
   */
  lemma BoundsDecide(r: Rule, v: string)
    requires r.version == "*" || r.version == "-" || r.version == ""
    ensures r.startIncl != "" && Compare(v, r.startIncl) < 0 ==> !Hits(r, v)
    ensures r.startExcl != "" && Compare(v, r.startExcl) <= 0 ==> !Hits(r, v)
    ensures r.endIncl != "" && Compare(v, r.endIncl) > 0 ==> !Hits(r, v)
    ensures r.endExcl != "" && Compare(v, r.endExcl) >= 0 ==> !Hits(r, v)
    ensures !Hits(r, v) ==>
            || (r.startIncl != "" && Compare(v, r.startIncl) < 0)
            || (r.startExcl != "" && Compare(v, r.startExcl) <= 0)
            || (r.endIncl != "" && Compare(v, r.endIncl) > 0)
            || (r.endExcl != "" && Compare(v, r.endExcl) >= 0)
  {
    hide Compare, Hits;
    HitsIff(r, v);
  }

  function Severity(given: string, score: real): string {
    if given != [] then LowerAll(given)
    else if score >= 9.0 then "critical"
    else if score >= 7.0 then "high"
    else if score >= 4.0 then "medium"
    else if score > 0.0 then "low"
    else "none"
  }

  function FindingFor(r: Rule, pkg: Package, vendor: string, product: string, exposed: bool): Finding {
    Finding(r.cve, pkg.name, pkg.version, Upstream(pkg.version), vendor, product, r.score, Severity(r.severity, r.score), r.cvssVersion, exposed)
  }

  /** The linear scan: rule `r` is for product `key` and affects version `v`. */
  ghost predicate Affects(rules: seq<Rule>, key: string, v: string, r: Rule) {
    r in rules && KeyOf(r) == key && Hits(r, v)
  }

  /** One finding per affecting CVE, each from an affecting rule of the highest score. */
  ghost predicate BestPerCve(out: seq<Finding>, rules: seq<Rule>, key: string, v: string, pkg: Package, vendor: string, product: string, exposed: bool) {
    && (forall i, j :: 0 <= i < j < |out| ==> out[i].cve != out[j].cve)
    && (forall r :: Affects(rules, key, v, r) ==> exists f :: f in out && f.cve == r.cve)
    && (forall f :: f in out ==> exists r :: IsBest(rules, key, v, r) && f == FindingFor(r, pkg, vendor, product, exposed))
  }

  ghost predicate IsBest(rules: seq<Rule>, key: string, v: string, r: Rule) {
    Affects(rules, key, v, r) && forall q :: Affects(rules, key, v, q) && q.cve == r.cve ==> q.score <= r.score
  }

  /** What matching a package yields, given the target its name resolves to. */
  ghost predicate Matched(out: seq<Finding>, rules: seq<Rule>, target: Option<string>, pkg: Package, exposed: bool) {
    var v := Upstream(pkg.version);
    if target.None? || pkg.version == [] || v == [] then out == []
    else
      var t := SplitTarget(target.value);
      BestPerCve(out, rules, target.value, v, pkg, t.0, t.1, exposed)
  }

  /** A CVE is to be reported: some rule of the product covers the version. */
  ghost predicate Reports(rules: seq<Rule>, target: Option<string>, pkg: Package, id: string) {
    && target.Some? && pkg.version != "" && Upstream(pkg.version) != ""
    && exists r :: r in rules && r.vendor + ":" + r.product == target.value && r.cve == id && Covers(r, Upstream(pkg.version))
  }

  ghost predicate Mentions(fs: seq<Finding>, id: string) { exists f :: f in fs && f.cve == id }

  /** Matching reports exactly those CVEs. */
  lemma MatchedIds(out: seq<Finding>, rules: seq<Rule>, target: Option<string>, pkg: Package, e: bool, id: string)
    requires Matched(out, rules, target, pkg, e)
    ensures Mentions(out, id) <==> Reports(rules, target, pkg, id)
  {
    hide Hits, Covers, Upstream, SplitTarget, Severity;
    if target.Some? && pkg.version != [] && Upstream(pkg.version) != [] {
      var key, v := target.value, Upstream(pkg.version);
      if f :| f in out && f.cve == id {
        var t := SplitTarget(key);
        var r :| IsBest(rules, key, v, r) && f == FindingFor(r, pkg, t.0, t.1, e);
        HitsIff(r, v);
      }
      if Reports(rules, target, pkg, id) {
        var r :| r in rules && r.vendor + ":" + r.product == target.value && r.cve == id && Covers(r, v);
        HitsIff(r, v);
        assert Affects(rules, key, v, r);
      }
    }
  }

  /**
   A finding: the package as it stands, its upstream version, the product it resolved to, and
   score and severity of a covering rule with the highest score for the CVE.
   */
  lemma FindingIs(out: seq<Finding>, rules: seq<Rule>, target: Option<string>, pkg: Package, e: bool, f: Finding) returns (r: Rule)
    requires Matched(out, rules, target, pkg, e) && f in out && (target.Some? ==> ':' in target.value)
    ensures f.packageName == pkg.name && f.packageVersion == pkg.version && f.matchedVersion == Upstream(pkg.version)
    ensures target == Some(f.vendor + ":" + f.product) && ':' !in f.vendor && f.exposed == e
    ensures r in rules && r.vendor + ":" + r.product == f.vendor + ":" + f.product && Covers(r, f.matchedVersion)
    ensures f.cve == r.cve && f.score == r.score && f.cvssVersion == r.cvssVersion
    ensures forall q :: q in rules && q.vendor + ":" + q.product == f.vendor + ":" + f.product && q.cve == f.cve && Covers(q, f.matchedVersion)
              ==> q.score <= f.score
    ensures r.severity != "" ==> |f.severity| == |r.severity| && forall i :: 0 <= i < |r.severity| ==> f.severity[i] == Lower(r.severity[i])
    ensures r.severity == "" ==> f.severity in ["critical", "high", "medium", "low", "none"]
    ensures r.severity == "" ==> (f.severity == "critical" <==> f.score >= 9.0)
    ensures r.severity == "" ==> (f.severity == "high" <==> 7.0 <= f.score < 9.0)
    ensures r.severity == "" ==> (f.severity == "medium" <==> 4.0 <= f.score < 7.0)
    ensures r.severity == "" ==> (f.severity == "low" <==> 0.0 < f.score < 4.0)
  {
    hide Hits, Covers, Upstream, SplitTarget, Severity;
    var key, v := target.value, Upstream(pkg.version);
    var t := SplitTarget(key);
    r :| IsBest(rules, key, v, r) && f == FindingFor(r, pkg, t.0, t.1, e);
    RejoinTarget(key);
    HitsIff(r, v);
    SeverityIs(r.severity, r.score);
    forall q | q in rules && q.vendor + ":" + q.product == key && q.cve == r.cve && Covers(q, v) ensures q.score <= r.score {
      HitsIff(q, v);
      assert Affects(rules, key, v, q);
    }
  }

  lemma SeverityIs(given: string, score: real)
    ensures given != "" ==> Severity(given, score) == LowerAll(given)
    ensures given == "" ==>
      var s := Severity(given, score);
      && s in ["critical", "high", "medium", "low", "none"]
      && (s == "critical" <==> score >= 9.0) && (s == "high" <==> 7.0 <= score < 9.0)
      && (s == "medium" <==> 4.0 <= score < 7.0) && (s == "low" <==> 0.0 < score < 4.0)
  {
    assert "critical"[0] == 'c' && "high"[0] == 'h' && "medium"[0] == 'm' && "low"[0] == 'l' && "none"[0] == 'n';
  }

  /** Vendor and product: the target around its first colon. */
  function SplitTarget(t: string): (string, string) {
    var i := FindChar(t, ':');
    if i == |t| then (t, t) else (t[..i], t[i + 1..])
  }

  lemma RejoinTarget(t: string)
    requires ':' in t
    ensures SplitTarget(t).0 + ":" + SplitTarget(t).1 == t && ':' !in SplitTarget(t).0
  {
    var i := FindChar(t, ':');
    assert i < |t|;
    assert t == t[..i] + [t[i]] + t[i + 1..];
  }

  /** Versions that compare equal are hit by the same rules. */
  lemma EqualVersionsHitAlike(r: Rule, v: string, w: string)
    requires Compare(v, w) == 0
    ensures Hits(r, v) == Hits(r, w)
  {
    hide Compare, InRange;
    EqualCongruent(v, w, r.version);
    RangeCongruent(v, w, r.startIncl, r.startExcl, r.endIncl, r.endExcl);
  }

  /**
   Two packages that resolve alike and whose upstream versions compare equal get the same CVEs
   with the same scores.
   */
  lemma EqualVersionsMatchAlike(rules: seq<Rule>, target: Option<string>, p: Package, q: Package, e: bool, outP: seq<Finding>, outQ: seq<Finding>, f: Finding)
    requires Matched(outP, rules, target, p, e) && Matched(outQ, rules, target, q, e) && f in outP
    requires q.version != [] && Upstream(q.version) != [] && Compare(Upstream(p.version), Upstream(q.version)) == 0
    ensures exists g :: g in outQ && g.cve == f.cve && g.score == f.score
  {
    hide Compare, Hits, Upstream, SplitTarget;
    var v, w, key := Upstream(p.version), Upstream(q.version), target.value;
    var t := SplitTarget(key);
    var r :| IsBest(rules, key, v, r) && f == FindingFor(r, p, t.0, t.1, e);
    EqualVersionsHitAlike(r, v, w);
    assert Affects(rules, key, w, r);
    var g :| g in outQ && g.cve == r.cve;
    var s :| IsBest(rules, key, w, s) && g == FindingFor(s, q, t.0, t.1, e);
    EqualVersionsHitAlike(s, v, w);
    assert Affects(rules, key, v, s);
  }

  // ---- keeping the best score per CVE ----

  /** The map the matching loop has built from the rules `rs`. */
  ghost predicate BestMap(best: map<string, Finding>, rs: seq<Rule>, key: string, v: string, pkg: Package, vendor: string, product: string) {
    && (forall r :: Affects(rs, key, v, r) ==> r.cve in best)
    && (forall id :: id in best ==> exists r :: IsBest(rs, key, v, r) && r.cve == id && best[id] == FindingFor(r, pkg, vendor, product, false))
  }

  lemma BestMiss(best: map<string, Finding>, rs: seq<Rule>, x: Rule, key: string, v: string, pkg: Package, vendor: string, product: string)
    requires BestMap(best, rs, key, v, pkg, vendor, product) && !Hits(x, v)
    ensures BestMap(best, rs + [x], key, v, pkg, vendor, product)
  {
    hide Hits, FindingFor;
    assert forall r :: Affects(rs + [x], key, v, r) <==> Affects(rs, key, v, r);
    assert forall r :: IsBest(rs, key, v, r) ==> IsBest(rs + [x], key, v, r);
  }

  /** The entry of every other CVE stays the best one. */
  lemma BestOther(best: map<string, Finding>, rs: seq<Rule>, x: Rule, key: string, v: string, pkg: Package, vendor: string, product: string, id: string)
    requires BestMap(best, rs, key, v, pkg, vendor, product) && id in best
    requires id == x.cve ==> x.score <= best[id].score
    ensures exists r :: IsBest(rs + [x], key, v, r) && r.cve == id && best[id] == FindingFor(r, pkg, vendor, product, false)
  {
    hide Hits, Upstream, Severity, KeyOf;
    var r :| IsBest(rs, key, v, r) && r.cve == id && best[id] == FindingFor(r, pkg, vendor, product, false);
    assert forall q :: Affects(rs + [x], key, v, q) ==> q == x || Affects(rs, key, v, q);
    assert Affects(rs + [x], key, v, r);
    assert IsBest(rs + [x], key, v, r);
  }

  lemma BestHit(best: map<string, Finding>, rs: seq<Rule>, x: Rule, key: string, v: string, pkg: Package, vendor: string, product: string)
    requires BestMap(best, rs, key, v, pkg, vendor, product) && Hits(x, v) && KeyOf(x) == key
    ensures
      var f := FindingFor(x, pkg, vendor, product, false);
      BestMap(if x.cve !in best || f.score > best[x.cve].score then best[x.cve := f] else best, rs + [x], key, v, pkg, vendor, product)
  {
    hide Hits, Upstream, Severity, KeyOf, IsBest;
    var f := FindingFor(x, pkg, vendor, product, false);
    var next := if x.cve !in best || f.score > best[x.cve].score then best[x.cve := f] else best;
    assert forall q :: Affects(rs + [x], key, v, q) ==> q == x || Affects(rs, key, v, q);
    forall id | id in next
      ensures exists r :: IsBest(rs + [x], key, v, r) && r.cve == id && next[id] == FindingFor(r, pkg, vendor, product, false)
    {
      if id in best && next[id] == best[id] && (id == x.cve ==> x.score <= best[id].score) {
        BestOther(best, rs, x, key, v, pkg, vendor, product, id);
      } else {
        BestNew(best, rs, x, key, v, pkg, vendor, product);
      }
    }
  }

  /** A rule that beats the entry of its CVE is the best one. */
  lemma BestNew(best: map<string, Finding>, rs: seq<Rule>, x: Rule, key: string, v: string, pkg: Package, vendor: string, product: string)
    requires BestMap(best, rs, key, v, pkg, vendor, product) && Hits(x, v) && KeyOf(x) == key
    requires x.cve in best ==> x.score > best[x.cve].score
    ensures IsBest(rs + [x], key, v, x)
  {
    hide Hits, Upstream, Severity;
    assert Affects(rs + [x], key, v, x);
    forall q | Affects(rs + [x], key, v, q) && q.cve == x.cve ensures q.score <= x.score {
      if q != x {
        assert Affects(rs, key, v, q);
        var r :| IsBest(rs, key, v, r) && r.cve == x.cve && best[x.cve] == FindingFor(r, pkg, vendor, product, false);
      }
    }
  }

  /** The rules of the product are all the rules the linear scan would find. */
  lemma IndexIsScan(rules: seq<Rule>, key: string, v: string, r: Rule)
    ensures Affects(OfProduct(rules, key), key, v, r) <==> Affects(rules, key, v, r)
    ensures IsBest(OfProduct(rules, key), key, v, r) <==> IsBest(rules, key, v, r)
  {
    hide Hits, OfProduct;
    assert forall q :: Affects(OfProduct(rules, key), key, v, q) <==> Affects(rules, key, v, q);
  }

  // ---- where targets come from ----

  ghost predicate Targets(aliases: seq<Alias>) {
    forall a :: a in aliases ==> ':' in a.target
  }

  lemma {:induction false} ExactTargets(aliases: seq<Alias>, p: string)
    requires Targets(aliases) && p in ExactRules(aliases)
    ensures ':' in ExactRules(aliases)[p]
    decreases |aliases|
  {
    var n := |aliases| - 1;
    assert aliases[n] in aliases;
    if p in ExactRules(aliases[..n]) {
      ExactTargets(aliases[..n], p);
    }
  }

  lemma ResolvedTargets(aliases: seq<Alias>, prefixes: seq<Alias>, norm: string)
    requires Targets(aliases) && SortedPrefixes(prefixes, aliases)
    ensures ResolveIn(ExactRules(aliases), prefixes, norm).Some? ==> ':' in ResolveIn(ExactRules(aliases), prefixes, norm).value
  {
    hide ExactRules, FirstPrefix, DropWords, StartsWith;
    var exact := ExactRules(aliases);
    forall p | p in exact ensures ':' in exact[p] { ExactTargets(aliases, p); }
    FirstPrefixIs(prefixes, norm);
    DropWordsIs(exact, norm, |norm|);
  }

  lemma ParsedTarget(line: string)
    ensures ParseAlias(line).Some? ==> ':' in ParseAlias(line).value.target
  {
    hide Trim, SplitTabs;
    var t := Trim(line);
    if t != [] && t[0] != '#' && |SplitTabs(t)| >= 4 {
      var c := SplitTabs(t);
      var target := Trim(c[2]) + ":" + Trim(c[3]);
      assert target[|Trim(c[2])|] == ':';
    }
  }

  lemma EmptyBest(key: string, v: string, pkg: Package, vendor: string, product: string)
    ensures BestMap(map[], [], key, v, pkg, vendor, product)
  {}

  lemma NothingAffects(rules: seq<Rule>, key: string, v: string, pkg: Package, vendor: string, product: string)
    requires OfProduct(rules, key) == []
    ensures BestPerCve([], rules, key, v, pkg, vendor, product, false)
  {
    hide Hits;
    forall r ensures !Affects(rules, key, v, r) { IndexIsScan(rules, key, v, r); }
  }

  /** The values of the map, in no particular order. */
  method Listed(best: map<string, Finding>, ghost rules: seq<Rule>, ghost key: string, ghost v: string, ghost pkg: Package, ghost vendor: string, ghost product: string)
    returns (out: seq<Finding>)
    requires BestMap(best, OfProduct(rules, key), key, v, pkg, vendor, product)
    ensures BestPerCve(out, rules, key, v, pkg, vendor, product, false)
  {
    hide Hits, OfProduct, Upstream, Severity, Affects, IsBest;
    out := [];
    var left := best.Keys;
    while left != {}
      invariant left <= best.Keys
      invariant forall f :: f in out ==> f.cve in best && f.cve !in left && best[f.cve] == f
      invariant forall id :: id in best && id !in left ==> best[id] in out
      invariant forall i, j :: 0 <= i < j < |out| ==> out[i].cve != out[j].cve
      decreases left
    {
      var id :| id in left;
      assert best[id].cve == id;
      out := out + [best[id]];
      left := left - {id};
    }
    forall r { IndexIsScan(rules, key, v, r); }
    forall r | Affects(rules, key, v, r) ensures exists f :: f in out && f.cve == r.cve {
      assert r.cve in best && best[r.cve] in out && best[r.cve].cve == r.cve;
    }
  }

  lemma FirstColon(vendor: string, product: string)
    requires ':' !in vendor
    ensures SplitTarget(vendor + ":" + product) == (vendor, product)
  {
    var t := vendor + [':'] + product;
    FindCharIs(vendor, product, ':');
    assert t[..|vendor|] == vendor && t[|vendor| + 1..] == product;
  }

  /** The last space, or -1. */
  method LastSpace(s: string) returns (k: int)
    ensures -1 <= k < |s| && (k >= 0 ==> s[k] == ' ')
    ensures forall j :: k < j < |s| ==> s[j] != ' '
  {
    k := |s| - 1;
    while k >= 0 && s[k] != ' '
      invariant -1 <= k < |s|
      invariant forall j :: k < j < |s| ==> s[j] != ' '
    {
      k := k - 1;
    }
  }

  lemma {:induction false} SkipToSpace(exact: map<string, string>, norm: string, n: nat, k: int)
    requires -1 <= k < n <= |norm| || (k == -1 && n == 0)
    requires (k >= 0 ==> norm[k] == ' ') && forall j :: k < j < n ==> norm[j] != ' '
    ensures DropWords(exact, norm, n) ==
      if k < 0 then None else if norm[..k] in exact then Some(exact[norm[..k]]) else DropWords(exact, norm, k)
    decreases n
  {
    if n > k + 1 {
      SkipToSpace(exact, norm, n - 1, k);
    }
  }

  // ---- scanning ----

  datatype Socket = Socket(worldReachable: bool, processName: string)

  datatype Inventory = Inventory(packages: seq<Package>, sockets: seq<Socket>)

  datatype Summary = Summary(
    total: nat, mapped: nat, unmapped: nat, noVersion: nat, unmappedNames: seq<string>,
    findings: nat, critical: nat, high: nat, medium: nat, low: nat, exposed: nat)

  ghost function Flat(parts: seq<seq<Finding>>): seq<Finding> {
    if parts == [] then [] else Flat(parts[..|parts| - 1]) + parts[|parts| - 1]
  }

  lemma {:induction false} FlatMentions(parts: seq<seq<Finding>>, id: string)
    ensures Mentions(Flat(parts), id) <==> exists i :: 0 <= i < |parts| && Mentions(parts[i], id)
    decreases |parts|
  {
    if parts != [] {
      hide Mentions;
      var n := |parts| - 1;
      FlatMentions(parts[..n], id);
      MentionsBoth(Flat(parts[..n]), parts[n], id);
      assert forall i :: 0 <= i < n ==> parts[..n][i] == parts[i];
    }
  }

  lemma MentionsBoth(a: seq<Finding>, b: seq<Finding>, id: string)
    ensures Mentions(a + b, id) <==> Mentions(a, id) || Mentions(b, id)
  {
    if Mentions(a, id) { var f :| f in a && f.cve == id; assert f in a + b; }
    if Mentions(b, id) { var f :| f in b && f.cve == id; assert f in a + b; }
  }

  function Flag(fs: seq<Finding>, e: bool): (r: seq<Finding>)
    ensures |r| == |fs| && forall i :: 0 <= i < |fs| ==> r[i] == fs[i].(exposed := e)
  {
    seq(|fs|, i requires 0 <= i < |fs| => fs[i].(exposed := e))
  }

  lemma FlagMatched(fs: seq<Finding>, rules: seq<Rule>, target: Option<string>, pkg: Package, e: bool)
    requires Matched(fs, rules, target, pkg, false)
    ensures Matched(Flag(fs, e), rules, target, pkg, e)
  {
    hide Flag, IsBest, Affects, Upstream, SplitTarget, Severity;
    var out := Flag(fs, e);
    if target.Some? && pkg.version != [] && Upstream(pkg.version) != [] {
      var key, v, t := target.value, Upstream(pkg.version), SplitTarget(target.value);
      forall r | Affects(rules, key, v, r) ensures exists f :: f in out && f.cve == r.cve {
        var i :| 0 <= i < |fs| && fs[i].cve == r.cve;
        assert out[i] in out;
      }
      forall f | f in out ensures exists r :: IsBest(rules, key, v, r) && f == FindingFor(r, pkg, t.0, t.1, e) {
        var i :| 0 <= i < |out| && out[i] == f;
        assert fs[i] in fs;
        var r :| IsBest(rules, key, v, r) && fs[i] == FindingFor(r, pkg, t.0, t.1, false);
      }
    }
  }

  /** Highest score first, then the later identifier. */
  predicate Before(a: Finding, b: Finding) {
    if a.score != b.score then a.score > b.score else StrCmp(a.cve, b.cve) >= 0
  }

  lemma BeforeOrders()
    ensures Ordered(Before)
  {
    hide StrCmp;
    forall a: Finding, b: Finding, c: Finding { StrCmpOrder(a.cve, b.cve, c.cve); }
  }

  function CountSeverity(fs: seq<Finding>, severity: string): nat {
    if fs == [] then 0
    else CountSeverity(fs[..|fs| - 1], severity) + if fs[|fs| - 1].severity == severity then 1 else 0
  }

  function CountExposed(fs: seq<Finding>): nat {
    if fs == [] then 0 else CountExposed(fs[..|fs| - 1]) + if fs[|fs| - 1].exposed then 1 else 0
  }

  /** The places below `n` with a property. */
  ghost function Where(n: nat, p: nat -> bool): set<nat> { set i: nat | i < n && p(i) }

  lemma WhereStep(n: nat, p: nat -> bool)
    ensures |Where(n + 1, p)| == |Where(n, p)| + if p(n) then 1 else 0
  {
    assert Where(n + 1, p) == if p(n) then Where(n, p) + {n} else Where(n, p);
  }

  lemma WhereNothing(p: nat -> bool)
    ensures |Where(0, p)| == 0
  {
    assert Where(0, p) == {};
  }

  lemma {:induction false} SeveritiesTo(fs: seq<Finding>, severity: string, p: nat -> bool, k: nat)
    requires k <= |fs| && forall i: nat :: i < |fs| ==> p(i) == (fs[i].severity == severity)
    ensures CountSeverity(fs[..k], severity) == |Where(k, p)|
    decreases k
  {
    hide Where;
    if k == 0 {
      WhereNothing(p);
    } else {
      SeveritiesTo(fs, severity, p, k - 1);
      WhereStep(k - 1, p);
      assert fs[..k][..k - 1] == fs[..k - 1];
    }
  }

  lemma {:induction false} ExposedTo(fs: seq<Finding>, p: nat -> bool, k: nat)
    requires k <= |fs| && forall i: nat :: i < |fs| ==> p(i) == fs[i].exposed
    ensures CountExposed(fs[..k]) == |Where(k, p)|
    decreases k
  {
    hide Where;
    if k == 0 {
      WhereNothing(p);
    } else {
      ExposedTo(fs, p, k - 1);
      WhereStep(k - 1, p);
      assert fs[..k][..k - 1] == fs[..k - 1];
    }
  }

  /** The counters of the summary are numbers of findings. */
  lemma CountsAre(fs: seq<Finding>, severity: string)
    ensures CountSeverity(fs, severity) == |set i: nat | i < |fs| && fs[i].severity == severity|
    ensures CountExposed(fs) == |set i: nat | i < |fs| && fs[i].exposed|
  {
    hide CountSeverity, CountExposed;
    var p := (i: nat) => i < |fs| && fs[i].severity == severity;
    var q := (i: nat) => i < |fs| && fs[i].exposed;
    SeveritiesTo(fs, severity, p, |fs|);
    ExposedTo(fs, q, |fs|);
    assert fs[..|fs|] == fs;
    assert Where(|fs|, p) == set i: nat | i < |fs| && fs[i].severity == severity;
    assert Where(|fs|, q) == set i: nat | i < |fs| && fs[i].exposed;
  }

  /** The closing loop over the sorted findings. */
  method Tally(all: seq<Finding>, before: Summary) returns (s: Summary)
    ensures s == before.(
      findings := |all|,
      critical := before.critical + CountSeverity(all, "critical"), high := before.high + CountSeverity(all, "high"),
      medium := before.medium + CountSeverity(all, "medium"), low := before.low + CountSeverity(all, "low"),
      exposed := before.exposed + CountExposed(all))
  {
    s := before.(findings := |all|);
    assert all[..0] == [];
    for i := 0 to |all|
      invariant s == before.(
        findings := |all|,
        critical := before.critical + CountSeverity(all[..i], "critical"), high := before.high + CountSeverity(all[..i], "high"),
        medium := before.medium + CountSeverity(all[..i], "medium"), low := before.low + CountSeverity(all[..i], "low"),
        exposed := before.exposed + CountExposed(all[..i]))
    {
      var f := all[i];
      assert all[..i + 1][..i] == all[..i];
      if f.severity == "critical" { s := s.(critical := s.critical + 1); }
      else if f.severity == "high" { s := s.(high := s.high + 1); }
      else if f.severity == "medium" { s := s.(medium := s.medium + 1); }
      else if f.severity == "low" { s := s.(low := s.low + 1); }
      if f.exposed { s := s.(exposed := s.exposed + 1); }
    }
    assert all[..|all|] == all;
  }

  /** The unmapped names listed: the earlier ones and as many of the new as fit into 50. */
  function Shown(earlier: seq<string>, names: seq<string>): seq<string> {
    var room := if |earlier| < 50 then 50 - |earlier| else 0;
    earlier + if |names| <= room then names else names[..room]
  }

  /** The names listed: the first of all of them, cut to 50 unless more were there before. */
  lemma ShownIs(earlier: seq<string>, names: seq<string>)
    ensures
      var all, shown := earlier + names, Shown(earlier, names);
      && shown == all[..|shown|]
      && |shown| == if |all| <= 50 then |all| else if |earlier| >= 50 then |earlier| else 50
  {}

  lemma AliasStep(lines: seq<string>, i: nat)
    requires i < |lines|
    ensures
      var a := ParseAlias(lines[i]);
      Aliases(lines[i..]) == (if a.Some? then [a.value] else []) + Aliases(lines[i + 1..])
  {
    hide ParseAlias;
    assert lines[i..][0] == lines[i] && lines[i..][1..] == lines[i + 1..];
  }

  lemma NoAliases(lines: seq<string>)
    requires lines == []
    ensures Aliases(lines) == []
  {}

  lemma ShownMore(earlier: seq<string>, names: seq<string>, x: string)
    ensures
      var now := Shown(earlier, names);
      Shown(earlier, names + [x]) == if |now| < 50 then now + [x] else now
  {}

  // ---- the object ----

  class CveIndex {
    var byProduct: map<string, seq<Rule>>
    var ruleCount: nat
    var exact: map<string, string>
    var prefixes: seq<Alias>
    ghost var rules: seq<Rule>
    ghost var aliases: seq<Alias>

    /** The product index and the alias tables hold what was loaded, and nothing else. */
    ghost predicate Valid()
      reads this
    {
      && RulesValid()
      && exact == ExactRules(aliases) && SortedPrefixes(prefixes, aliases) && Targets(aliases)
    }

    ghost predicate RulesValid()
      reads this`byProduct, this`ruleCount, this`rules
    {
      && (forall key :: OfProduct(rules, key) == if key in byProduct then byProduct[key] else [])
      && ruleCount == |rules|
    }

    constructor ()
      ensures Valid() && rules == [] && aliases == []
    {
      byProduct, ruleCount, exact, prefixes := map[], 0, map[], [];
      rules, aliases := [], [];
    }

    /** `file` is None when it cannot be opened; `score` reads a number. */
    method LoadRules(file: Option<seq<string>>, score: string -> real) returns (ok: bool)
      requires Valid()
      modifies this`byProduct, this`ruleCount, this`rules
      ensures Valid()
      ensures ok == (file.Some? && file.value != [] && StartsWith(file.value[0], "cve_id\tvendor\tproduct\tversion"))
      ensures rules == old(rules) + if ok then Rules(file.value[1..], score) else []
    {
      if file.None? || file.value == [] || !StartsWith(file.value[0], "cve_id\tvendor\tproduct\tversion") { return false; }
      var lines := file.value[1..];
      assert lines[..0] == [];
      for i := 0 to |lines|
        invariant RulesValid() && rules == old(rules) + Rules(lines[..i], score)
      {
        hide ParseRule;
        assert lines[..i + 1][..i] == lines[..i];
        var r := ParseRule(lines[i], score);
        if r.Some? { Insert(r.value); }
      }
      assert lines[..|lines|] == lines;
      ok := true;
    }

    method Insert(r: Rule)
      requires RulesValid()
      modifies this`byProduct, this`ruleCount, this`rules
      ensures RulesValid() && rules == old(rules) + [r]
    {
      hide OfProduct, KeyOf;
      var key := KeyOf(r);
      forall k ensures OfProduct(rules + [r], k) == OfProduct(rules, k) + (if key == k then [r] else []) { OfProductSnoc(rules, r, k); }
      byProduct := byProduct[key := (if key in byProduct then byProduct[key] else []) + [r]];
      ruleCount := ruleCount + 1;
      rules := rules + [r];
    }

    method LoadAliases(file: Option<seq<string>>) returns (ok: bool)
      requires Valid()
      modifies this`exact, this`prefixes, this`aliases
      ensures Valid() && ok == file.Some?
      ensures aliases == old(aliases) + if ok then Aliases(file.value) else []
    {
      hide ParseAlias, ExactRules, Aliases;
      if file.None? { return false; }
      var lines := file.value;
      ghost var done: seq<Alias> := [];
      assert lines[0..] == lines;
      for i := 0 to |lines|
        invariant exact == ExactRules(aliases) && Targets(aliases)
        invariant forall p :: p in prefixes <==> p in aliases && p.Prefix?
        invariant aliases == old(aliases) + done && Aliases(lines) == done + Aliases(lines[i..])
      {
        var a := ParseAlias(lines[i]);
        ParsedTarget(lines[i]);
        AliasStep(lines, i);
        if a.Some? {
          AddAlias(a.value);
          done := done + [a.value];
        }
      }
      NoAliases(lines[|lines|..]);
      SortAliases();
      ok := true;
    }

    method AddAlias(a: Alias)
      requires exact == ExactRules(aliases) && forall p :: p in prefixes <==> p in aliases && p.Prefix?
      modifies this`exact, this`prefixes, this`aliases
      ensures aliases == old(aliases) + [a]
      ensures exact == ExactRules(aliases) && forall p :: p in prefixes <==> p in aliases && p.Prefix?
    {
      assert (aliases + [a])[..|aliases|] == aliases;
      if a.Exact? {
        exact := exact[a.pattern := a.target];
      } else {
        prefixes := prefixes + [a];
      }
      aliases := aliases + [a];
    }

    /** Longest patterns first. */
    method SortAliases()
      requires forall p :: p in prefixes <==> p in aliases && p.Prefix?
      modifies this`prefixes
      ensures SortedPrefixes(prefixes, aliases)
    {
      ghost var before := prefixes;
      prefixes := Sort(prefixes, (a: Alias, b: Alias) => |a.pattern| >= |b.pattern|);
      SameMembers(before, prefixes);
    }

    /** What a name resolves to. */
    ghost function Target(raw: string): Option<string>
      reads this
    {
      ResolveIn(exact, prefixes, Normalize(raw))
    }

    method Resolve(raw: string) returns (found: bool, vendor: string, product: string)
      requires Valid()
      ensures found == Target(raw).Some?
      ensures found ==> vendor + ":" + product == Target(raw).value && ':' !in vendor
    {
      hide ExactRules, Normalize, SplitTarget, FirstPrefix, DropWords;
      var norm := NormalizeName(raw);
      var target := Lookup(norm);
      ResolvedTargets(aliases, prefixes, norm);
      if target.None? { return false, "", ""; }
      RejoinTarget(target.value);
      var t := SplitTarget(target.value);
      return true, t.0, t.1;
    }

    method Lookup(norm: string) returns (target: Option<string>)
      ensures target == ResolveIn(exact, prefixes, norm)
    {
      if norm == [] { return None; }
      if norm in exact { return Some(exact[norm]); }
      assert prefixes[0..] == prefixes;
      for i := 0 to |prefixes|
        invariant FirstPrefix(prefixes, norm) == FirstPrefix(prefixes[i..], norm)
      {
        assert prefixes[i..][0] == prefixes[i] && prefixes[i..][1..] == prefixes[i + 1..];
        if StartsWith(norm, prefixes[i].pattern) { return Some(prefixes[i].target); }
      }
      assert prefixes[|prefixes|..] == [];
      var n := |norm|;
      while true
        invariant 0 <= n <= |norm| && DropWords(exact, norm, |norm|) == DropWords(exact, norm, n)
        decreases n
      {
        var space := LastSpace(norm[..n]);
        SkipToSpace(exact, norm, n, space);
        if space < 0 { break; }
        n := space;
        if norm[..n] in exact { return Some(exact[norm[..n]]); }
      }
      target := None;
    }

    method MatchPackage(pkg: Package) returns (out: seq<Finding>)
      requires Valid()
      ensures Matched(out, rules, Target(pkg.name), pkg, false)
      ensures forall id :: Mentions(out, id) <==> Reports(rules, Target(pkg.name), pkg, id)
    {
      hide Hits, OfProduct, ResolveIn, Normalize, Upstream, FindingFor, ExactRules, SortedPrefixes, BestPerCve, Reports, Valid;
      out := FindMatches(pkg);
      forall id ensures Mentions(out, id) <==> Reports(rules, Target(pkg.name), pkg, id) {
        MatchedIds(out, rules, Target(pkg.name), pkg, false, id);
      }
    }

    method FindMatches(pkg: Package) returns (out: seq<Finding>)
      requires Valid()
      ensures Matched(out, rules, Target(pkg.name), pkg, false)
    {
      hide Hits, OfProduct, ResolveIn, Normalize, Upstream, FindingFor, ExactRules, SortedPrefixes, BestPerCve;
      var found, vendor, product := Resolve(pkg.name);
      if !found || pkg.version == [] { return []; }
      var key := vendor + ":" + product;
      FirstColon(vendor, product);
      var v := Upstream(pkg.version);
      if v == [] { return []; }
      forall r { IndexIsScan(rules, key, v, r); }
      if key !in byProduct {
        NothingAffects(rules, key, v, pkg, vendor, product);
        return [];
      }
      var best := BestOf(byProduct[key], key, v, pkg, vendor, product);
      out := Listed(best, rules, key, v, pkg, vendor, product);
    }

    /** The matching loop over the rules of one product. */
    static method BestOf(rs: seq<Rule>, key: string, v: string, pkg: Package, vendor: string, product: string)
      returns (best: map<string, Finding>)
      requires v == Upstream(pkg.version) && forall r :: r in rs ==> KeyOf(r) == key
      ensures BestMap(best, rs, key, v, pkg, vendor, product)
    {
      hide Hits, Upstream, Severity, BestMap;
      best := map[];
      assert rs[..0] == [];
      EmptyBest(key, v, pkg, vendor, product);
      for i := 0 to |rs|
        invariant BestMap(best, rs[..i], key, v, pkg, vendor, product)
      {
        var r := rs[i];
        assert r in rs && rs[..i + 1] == rs[..i] + [r];
        if !Hits(r, v) {
          BestMiss(best, rs[..i], r, key, v, pkg, vendor, product);
          continue;
        }
        BestHit(best, rs[..i], r, key, v, pkg, vendor, product);
        var f := FindingFor(r, pkg, vendor, product, false);
        if r.cve !in best || f.score > best[r.cve].score { best := best[r.cve := f]; }
      }
      assert rs[..|rs|] == rs;
    }

    /** A world-reachable socket belongs to a process that resolves to `target`. */
    ghost predicate Exposes(sockets: seq<Socket>, target: string)
      reads this
    {
      exists s :: s in sockets && s.worldReachable && s.processName != [] && Target(s.processName) == Some(target)
    }

    ghost predicate IsExposed(sockets: seq<Socket>, pkg: Package)
      reads this
    {
      Target(pkg.name).Some? && Exposes(sockets, Target(pkg.name).value)
    }

    method ExposedProducts(sockets: seq<Socket>) returns (products: set<string>)
      requires Valid()
      ensures forall t :: t in products <==> Exposes(sockets, t)
    {
      hide ResolveIn, Normalize, ExactRules, SortedPrefixes, RulesValid, Target;
      products := {};
      assert sockets[..0] == [];
      for i := 0 to |sockets|
        invariant forall t :: t in products <==> Exposes(sockets[..i], t)
      {
        var s := sockets[i];
        assert sockets[..i + 1] == sockets[..i] + [s];
        if !s.worldReachable || s.processName == [] { continue; }
        var found, vendor, product := Resolve(s.processName);
        if found { products := products + {vendor + ":" + product}; }
      }
      assert sockets[..|sockets|] == sockets;
    }

    /** The names that resolve to nothing. */
    ghost function Unmapped(pkgs: seq<Package>): seq<string>
      reads this
    {
      if pkgs == [] then []
      else
        var n := |pkgs| - 1;
        Unmapped(pkgs[..n]) + if Target(pkgs[n].name).None? then [pkgs[n].name] else []
    }

    ghost function CountNoVersion(pkgs: seq<Package>): nat
      reads this
    {
      if pkgs == [] then 0
      else
        var n := |pkgs| - 1;
        CountNoVersion(pkgs[..n]) + if Target(pkgs[n].name).Some? && pkgs[n].version == [] then 1 else 0
    }

    /** Every package contributes the best match per CVE, flagged by whether its product is exposed. */
    ghost predicate Gathered(parts: seq<seq<Finding>>, pkgs: seq<Package>, sockets: seq<Socket>)
      reads this
    {
      |parts| == |pkgs| && forall i :: 0 <= i < |pkgs| ==>
        Matched(parts[i], rules, Target(pkgs[i].name), pkgs[i], IsExposed(sockets, pkgs[i]))
    }

    /** A finding is flagged exactly when a world-reachable socket's process resolves to the same product. */
    lemma ExposedIff(parts: seq<seq<Finding>>, pkgs: seq<Package>, sockets: seq<Socket>, i: nat, f: Finding)
      requires Gathered(parts, pkgs, sockets) && i < |pkgs| && f in parts[i]
      ensures f.exposed <==>
        (exists j :: 0 <= j < |sockets| && sockets[j].worldReachable && sockets[j].processName != ""
           && Target(sockets[j].processName) == Target(pkgs[i].name))
    {
      hide Upstream, SplitTarget, Target, Severity, IsBest;
      assert f.exposed == IsExposed(sockets, pkgs[i]);
    }

    lemma {:induction false} UnmappedTo(pkgs: seq<Package>, p: nat -> bool, k: nat)
      requires k <= |pkgs| && forall i: nat :: i < |pkgs| ==> p(i) == Target(pkgs[i].name).None?
      ensures |Unmapped(pkgs[..k])| == |Where(k, p)|
      decreases k
    {
      hide Where, Target;
      if k == 0 {
        WhereNothing(p);
      } else {
        UnmappedTo(pkgs, p, k - 1);
        WhereStep(k - 1, p);
        assert pkgs[..k][..k - 1] == pkgs[..k - 1];
      }
    }

    lemma {:induction false} NoVersionTo(pkgs: seq<Package>, p: nat -> bool, k: nat)
      requires k <= |pkgs| && forall i: nat :: i < |pkgs| ==> p(i) == (Target(pkgs[i].name).Some? && pkgs[i].version == "")
      ensures CountNoVersion(pkgs[..k]) == |Where(k, p)|
      decreases k
    {
      hide Where, Target;
      if k == 0 {
        WhereNothing(p);
      } else {
        NoVersionTo(pkgs, p, k - 1);
        WhereStep(k - 1, p);
        assert pkgs[..k][..k - 1] == pkgs[..k - 1];
      }
    }

    /** How many names resolve to nothing, and how many packages of a product lack a version. */
    lemma UnmappedCounts(pkgs: seq<Package>)
      ensures |Unmapped(pkgs)| == |set i: nat | i < |pkgs| && Target(pkgs[i].name).None?|
      ensures CountNoVersion(pkgs) == |set i: nat | i < |pkgs| && Target(pkgs[i].name).Some? && pkgs[i].version == ""|
    {
      hide Unmapped, CountNoVersion, Target;
      var a := set i: nat | i < |pkgs| && Target(pkgs[i].name).None?;
      var b := set i: nat | i < |pkgs| && Target(pkgs[i].name).Some? && pkgs[i].version == "";
      var p, q := (i: nat) => i in a, (i: nat) => i in b;
      UnmappedTo(pkgs, p, |pkgs|);
      NoVersionTo(pkgs, q, |pkgs|);
      assert pkgs[..|pkgs|] == pkgs;
      assert Where(|pkgs|, p) == a && Where(|pkgs|, q) == b;
    }

    method MatchFlagged(pkg: Package, products: set<string>, ghost sockets: seq<Socket>) returns (mapped: bool, out: seq<Finding>)
      requires Valid() && forall t :: t in products <==> Exposes(sockets, t)
      ensures mapped == Target(pkg.name).Some?
      ensures Matched(out, rules, Target(pkg.name), pkg, IsExposed(sockets, pkg))
    {
      hide ResolveIn, Normalize, ExactRules, SortedPrefixes, RulesValid, Target, BestPerCve, Flag, Exposes;
      var found, vendor, product := Resolve(pkg.name);
      if !found { return false, []; }
      if pkg.version == [] { return true, []; }
      var raw := MatchPackage(pkg);
      var e := vendor + ":" + product in products;
      FlagMatched(raw, rules, Target(pkg.name), pkg, e);
      return true, Flag(raw, e);
    }

    ghost predicate IsReported(pkgs: seq<Package>, id: string)
      reads this
    {
      exists i :: 0 <= i < |pkgs| && Reports(rules, Target(pkgs[i].name), pkgs[i], id)
    }

    lemma GatheredIds(parts: seq<seq<Finding>>, pkgs: seq<Package>, sockets: seq<Socket>, all: seq<Finding>, id: string)
      requires Gathered(parts, pkgs, sockets) && multiset(all) == multiset(Flat(parts))
      ensures Mentions(all, id) <==> IsReported(pkgs, id)
    {
      hide Flat, Matched, Reports, Target, IsExposed;
      assert forall f :: f in all <==> f in multiset(all);
      assert forall f :: f in Flat(parts) <==> f in multiset(Flat(parts));
      FlatMentions(parts, id);
      forall i | 0 <= i < |pkgs| ensures Mentions(parts[i], id) <==> Reports(rules, Target(pkgs[i].name), pkgs[i], id) {
        MatchedIds(parts[i], rules, Target(pkgs[i].name), pkgs[i], IsExposed(sockets, pkgs[i]), id);
      }
    }

    method Scan(inv: Inventory, before: Summary) returns (all: seq<Finding>, summary: Summary, ghost parts: seq<seq<Finding>>)
      requires Valid()
      ensures Gathered(parts, inv.packages, inv.sockets)
      ensures multiset(all) == multiset(Flat(parts))
      ensures forall i, j :: 0 <= i < j < |all| ==>
        all[i].score > all[j].score || (all[i].score == all[j].score && StrCmp(all[i].cve, all[j].cve) >= 0)
      ensures forall id :: Mentions(all, id) <==> IsReported(inv.packages, id)
      ensures summary.total == |inv.packages|
      ensures summary.mapped + summary.unmapped == before.mapped + before.unmapped + |inv.packages|
      ensures summary.unmapped == before.unmapped + |Unmapped(inv.packages)|
      ensures summary.unmappedNames == Shown(before.unmappedNames, Unmapped(inv.packages))
      ensures summary.noVersion == before.noVersion + CountNoVersion(inv.packages)
      ensures summary.findings == |all|
      ensures summary.critical == before.critical + CountSeverity(all, "critical")
      ensures summary.high == before.high + CountSeverity(all, "high")
      ensures summary.medium == before.medium + CountSeverity(all, "medium")
      ensures summary.low == before.low + CountSeverity(all, "low")
      ensures summary.exposed == before.exposed + CountExposed(all)
    {
      hide CountSeverity, CountExposed, Flat, Unmapped, CountNoVersion, Gathered, Valid, Shown, Mentions, IsReported, StrCmp;
      var products := ExposedProducts(inv.sockets);
      all, summary, parts := Gather(inv.packages, products, inv.sockets, before);
      BeforeOrders();
      all := Sort(all, Before);
      forall id ensures Mentions(all, id) <==> IsReported(inv.packages, id) { GatheredIds(parts, inv.packages, inv.sockets, all, id); }
      summary := Tally(all, summary);
    }

    lemma GatherNothing(sockets: seq<Socket>)
      ensures Gathered([], [], sockets) && Flat([]) == [] && Unmapped([]) == [] && CountNoVersion([]) == 0
      ensures forall names :: Shown(names, []) == names
    {}

    lemma GatherStep(parts: seq<seq<Finding>>, pkgs: seq<Package>, i: nat, sockets: seq<Socket>, out: seq<Finding>)
      requires i < |pkgs| && Gathered(parts, pkgs[..i], sockets)
      requires Matched(out, rules, Target(pkgs[i].name), pkgs[i], IsExposed(sockets, pkgs[i]))
      ensures Gathered(parts + [out], pkgs[..i + 1], sockets)
      ensures Flat(parts + [out]) == Flat(parts) + out
      ensures
        var mapped, name := Target(pkgs[i].name).Some?, pkgs[i].name;
        && Unmapped(pkgs[..i + 1]) == (if mapped then Unmapped(pkgs[..i]) else Unmapped(pkgs[..i]) + [name])
        && CountNoVersion(pkgs[..i + 1]) == CountNoVersion(pkgs[..i]) + if mapped && pkgs[i].version == [] then 1 else 0
    {
      hide Target, IsExposed, Matched;
      assert pkgs[..i + 1][..i] == pkgs[..i];
      assert (parts + [out])[..|parts|] == parts;
    }

    method Gather(pkgs: seq<Package>, products: set<string>, ghost sockets: seq<Socket>, before: Summary)
      returns (all: seq<Finding>, s: Summary, ghost parts: seq<seq<Finding>>)
      requires Valid() && forall t :: t in products <==> Exposes(sockets, t)
      ensures Gathered(parts, pkgs, sockets) && all == Flat(parts)
      ensures s == before.(
        total := |pkgs|, mapped := s.mapped, unmapped := before.unmapped + |Unmapped(pkgs)|,
        noVersion := before.noVersion + CountNoVersion(pkgs), unmappedNames := Shown(before.unmappedNames, Unmapped(pkgs)))
      ensures s.mapped + s.unmapped == before.mapped + before.unmapped + |pkgs|
    {
      hide Valid, Target, Exposes, IsExposed, Matched, Unmapped, CountNoVersion, Flat, Shown, Gathered;
      all, parts, s := [], [], before.(total := |pkgs|);
      assert pkgs[..0] == [];
      GatherNothing(sockets);
      for i := 0 to |pkgs|
        invariant Gathered(parts, pkgs[..i], sockets) && all == Flat(parts)
        invariant s == before.(
          total := |pkgs|, mapped := s.mapped, unmapped := before.unmapped + |Unmapped(pkgs[..i])|,
          noVersion := before.noVersion + CountNoVersion(pkgs[..i]), unmappedNames := Shown(before.unmappedNames, Unmapped(pkgs[..i])))
        invariant s.mapped + s.unmapped == before.mapped + before.unmapped + i
      {
        var mapped, out := MatchFlagged(pkgs[i], products, sockets);
        GatherStep(parts, pkgs, i, sockets, out);
        ShownMore(before.unmappedNames, Unmapped(pkgs[..i]), pkgs[i].name);
        parts, all := parts + [out], all + out;
        if !mapped {
          s := s.(unmapped := s.unmapped + 1);
          if |s.unmappedNames| < 50 { s := s.(unmappedNames := s.unmappedNames + [pkgs[i].name]); }
        } else {
          s := s.(mapped := s.mapped + 1);
          if pkgs[i].version == [] { s := s.(noVersion := s.noVersion + 1); }
        }
      }
      assert pkgs[..|pkgs|] == pkgs;
    }
  }
}
