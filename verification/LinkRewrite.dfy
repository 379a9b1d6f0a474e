/**
 rewriteLinkDestination and rewriteRelativeLinkForPathChange of internal/links/link_refactor.go:
 rewriting one link destination so that it still reaches the page it reached, after pages moved.

 `parses` says which destinations net/url accepts; it is arbitrary.
 */
module LinkRewrite {
  import opened Common
  import opened Text
  import opened RoutePaths

  datatype RewriteRule = RewriteRule(oldPath: string, newPath: string)

  /** The new destination text, whether it changed, and whether a warning was raised. */
  datatype Rewritten = Rewritten(text: string, changed: bool, warned: bool)

  /** splitLinkDestination: everything from the first ? or # on is the suffix. */
  function SplitLinkDestination(destination: string): (string, string)
  {
    CutAt(destination, QUERY_OR_HASH)
  }

  predicate IsExternalLinkDestination(destination: string)
  {
    var lower := AsciiLower(destination);
    HasPrefix(lower, "http://") || HasPrefix(lower, "https://") || HasPrefix(lower, "mailto:") || HasPrefix(lower, "#")
  }

  predicate IsAssetLinkDestination(destination: string)
  {
    var dest := TrimSuffix(TrimPrefix(TrimSpace(destination), "<"), ">");
    HasPrefix(dest, "/assets/") || HasPrefix(dest, "assets/")
  }

  /** applyRewriteRules: the first rule whose old path is the path or one of its ancestors. */
  function ApplyRewriteRules(resolved: string, rules: seq<RewriteRule>): Option<string>
  {
    if rules == [] then None
    else if resolved == rules[0].oldPath then Some(rules[0].newPath)
    else if HasPrefix(resolved, rules[0].oldPath + "/") then Some(rules[0].newPath + resolved[|rules[0].oldPath|..])
    else ApplyRewriteRules(resolved, rules[1..])
  }

  /** Where the rules put a path. */
  function Mapped(resolved: string, rules: seq<RewriteRule>): string
  {
    var m := ApplyRewriteRules(resolved, rules);
    if m.Some? then m.value else resolved
  }

  function RewriteRelativeLinkForPathChange(oldCurrent: string, newCurrent: string, destination: string,
                                            rules: seq<RewriteRule>, parses: string -> bool): Rewritten
  {
    var (base, suffix) := SplitLinkDestination(destination);
    if base == "" || HasPrefix(base, "/") || IsExternalLinkDestination(base) || IsAssetLinkDestination(base) then
      Rewritten(destination, false, false)
    else if !parses(base) || ResolveFolderRelative(oldCurrent, base) == "" then
      Rewritten(destination, false, true)
    else
      Retarget(newCurrent, Mapped(ResolveFolderRelative(oldCurrent, base), rules), destination)
  }

  /** The text that reaches target from page, in place of destination. */
  function Retarget(page: string, target: string, destination: string): Rewritten
  {
    var (base, suffix) := SplitLinkDestination(destination);
    var rewritten := RelativePath(page, target);
    if rewritten == "" then Rewritten(destination, false, true)
    else if rewritten == base then Rewritten(destination, false, false)
    else Rewritten(rewritten + suffix, true, false)
  }

  function RewriteLinkDestination(current: string, destination: string,
                                  rules: seq<RewriteRule>, parses: string -> bool): Rewritten
  {
    var (base, suffix) := SplitLinkDestination(destination);
    if base == "" || IsExternalLinkDestination(base) || IsAssetLinkDestination(base) then
      Rewritten(destination, false, false)
    else if !parses(base) || ResolveFolderRelative(current, base) == "" then
      Rewritten(destination, false, true)
    else
      Redirected(current, destination, base, suffix, ResolveFolderRelative(current, base), rules)
  }

  /** The rest of rewriteLinkDestination, once the link is resolved. */
  function Redirected(current: string, destination: string, base: string, suffix: string, resolved: string,
                      rules: seq<RewriteRule>): Rewritten
  {
    var mapped := ApplyRewriteRules(resolved, rules);
    if mapped.None? || mapped.value == resolved then Rewritten(destination, false, false)
    else
      var rewritten :=
        if HasPrefix(base, "/") then mapped.value
        else RelativePath(Mapped(NormalizeRoutePath(current), rules), mapped.value);
      if rewritten == "" then Rewritten(destination, false, true)
      else Rewritten(rewritten + suffix, true, false)
  }

  const EXTERNAL: set<string> := {"http://", "https://", "mailto:"}

  lemma SchemeHasNoStop(scheme: string, i: nat)
    requires scheme in EXTERNAL && i < |scheme|
    ensures scheme[i] !in QUERY_OR_HASH
  {
  }

  lemma SchemeIsInBase(destination: string, scheme: string)
    requires scheme in EXTERNAL && HasPrefix(AsciiLower(destination), scheme)
    ensures HasPrefix(AsciiLower(SplitLinkDestination(destination).0), scheme)
  {
    var (base, suffix) := SplitLinkDestination(destination);
    if |base| < |scheme| {
      assert LowerChar(destination[|base|]) == AsciiLower(destination)[|base|] == scheme[|base|];
      assert destination[|base|] == suffix[0];
      SchemeHasNoStop(scheme, |base|);
    } else {
      assert forall i :: 0 <= i < |scheme| ==> AsciiLower(base)[i] == AsciiLower(destination)[i] == scheme[i];
    }
  }

  lemma SchemeIsExternal(base: string, scheme: string)
    requires scheme in EXTERNAL && HasPrefix(AsciiLower(base), scheme)
    ensures base != "" && IsExternalLinkDestination(base)
  {
  }

  lemma ExternalBaseStays(page: string, newPage: string, destination: string, rules: seq<RewriteRule>, parses: string -> bool)
    requires
      var base := SplitLinkDestination(destination).0;
      base == "" || IsExternalLinkDestination(base)
    ensures RewriteLinkDestination(page, destination, rules, parses) == Rewritten(destination, false, false)
    ensures RewriteRelativeLinkForPathChange(page, newPage, destination, rules, parses) == Rewritten(destination, false, false)
  {
  }

  /** Links to other sites, to mail addresses and within the page stay as they are in both passes, without a warning. */
  lemma ExternalLinksStay(page: string, newPage: string, destination: string, rules: seq<RewriteRule>, parses: string -> bool)
    requires HasPrefix(destination, "#") || exists scheme :: scheme in EXTERNAL && HasPrefix(AsciiLower(destination), scheme)
    ensures RewriteLinkDestination(page, destination, rules, parses) == Rewritten(destination, false, false)
    ensures RewriteRelativeLinkForPathChange(page, newPage, destination, rules, parses) == Rewritten(destination, false, false)
  {
    if HasPrefix(destination, "#") {
      assert destination[0] == '#';
    } else {
      var scheme :| scheme in EXTERNAL && HasPrefix(AsciiLower(destination), scheme);
      SchemeIsInBase(destination, scheme);
      SchemeIsExternal(SplitLinkDestination(destination).0, scheme);
    }
    ExternalBaseStays(page, newPage, destination, rules, parses);
  }

  lemma NotInLower(text: string, c: char)
    requires c !in text && !('a' <= c <= 'z')
    ensures c !in AsciiLower(text)
  {
    forall i | 0 <= i < |text|
      ensures AsciiLower(text)[i] != c
    {
      assert text[i] in text && AsciiLower(text)[i] == LowerChar(text[i]);
    }
  }

  lemma PrefixHas(text: string, prefix: string, i: nat)
    requires i < |prefix|
    ensures HasPrefix(text, prefix) ==> prefix[i] in text
  {
  }

  /** No other link is taken for one: every scheme has a colon, and a fragment has its hash. */
  lemma OthersAreInternal(base: string)
    requires ':' !in base && '#' !in base
    ensures !IsExternalLinkDestination(base)
  {
    var lower := AsciiLower(base);
    NotInLower(base, ':');
    NotInLower(base, '#');
    PrefixHas(lower, "http://", 4);
    PrefixHas(lower, "https://", 5);
    PrefixHas(lower, "mailto:", 6);
    PrefixHas(lower, "#", 0);
  }

  /** So do links to assets. */
  lemma AssetLinksStay(page: string, newPage: string, base: string, suffix: string, rules: seq<RewriteRule>, parses: string -> bool)
    requires HasPrefix(base, "assets/") || HasPrefix(base, "/assets/")
    requires TrimSpace(base) == base && !HasSuffix(base, ">") && (forall c :: c in base ==> c !in QUERY_OR_HASH) && (suffix == "" || suffix[0] in QUERY_OR_HASH)
    ensures RewriteLinkDestination(page, base + suffix, rules, parses) == Rewritten(base + suffix, false, false)
    ensures RewriteRelativeLinkForPathChange(page, newPage, base + suffix, rules, parses) == Rewritten(base + suffix, false, false)
  {
    CutAtOf(base, suffix, QUERY_OR_HASH);
    assert base[0] in {'a', '/'} && TrimPrefix(base, "<") == base;
  }

  /** What counts as an asset: a path inside the assets folder, also in angle brackets. */
  lemma AssetLinkIff(base: string)
    requires TrimSpace(base) == base && !HasPrefix(base, "<") && !HasSuffix(base, ">")
    ensures IsAssetLinkDestination(base) <==> HasPrefix(base, "assets/") || HasPrefix(base, "/assets/")
  {
  }

  /** A link that cannot be parsed stays too, with a warning. */
  lemma UnparsableStays(page: string, newPage: string, destination: string, rules: seq<RewriteRule>, parses: string -> bool)
    requires
      var base := SplitLinkDestination(destination).0;
      base != "" && !IsExternalLinkDestination(base) && !IsAssetLinkDestination(base) && !parses(base)
    ensures RewriteLinkDestination(page, destination, rules, parses) == Rewritten(destination, false, true)
    ensures RewriteRelativeLinkForPathChange(page, newPage, destination, rules, parses) ==
              Rewritten(destination, false, !HasPrefix(SplitLinkDestination(destination).0, "/"))
  {
  }

  /** The first rule whose old path is the path, or one of its ancestors, is applied, and no later one. */
  lemma {:induction false} FirstRuleWins(resolved: string, rules: seq<RewriteRule>, i: nat)
    requires i < |rules| && Covers(rules[i], resolved) && forall j :: 0 <= j < i ==> !Covers(rules[j], resolved)
    ensures Mapped(resolved, rules) == rules[i].newPath + resolved[|rules[i].oldPath|..]
  {
    if i > 0 {
      assert !Covers(rules[0], resolved);
      forall j | 0 <= j < i - 1
        ensures !Covers(rules[1..][j], resolved)
      {
        assert rules[1..][j] == rules[j + 1];
      }
      FirstRuleWins(resolved, rules[1..], i - 1);
    }
  }

  predicate Covers(rule: RewriteRule, path: string)
  {
    path == rule.oldPath || HasPrefix(path, rule.oldPath + "/")
  }

  /** Where no rule applies the path stays. */
  lemma {:induction false} NoRuleNoMove(resolved: string, rules: seq<RewriteRule>)
    requires forall rule :: rule in rules ==> !Covers(rule, resolved)
    ensures ApplyRewriteRules(resolved, rules).None? && Mapped(resolved, rules) == resolved
  {
    if rules != [] {
      assert rules[0] in rules && forall rule :: rule in rules[1..] ==> rule in rules;
      NoRuleNoMove(resolved, rules[1..]);
    }
  }

  // ----- what a destination reaches -----

  /** The route a destination text reaches from a page, by its part before ? or #. */
  function Reaches(page: string, destination: string): string
  {
    ResolveFolderRelative(page, SplitLinkDestination(destination).0)
  }

  /** Links the rewriter leaves to others: absolute, external, to assets, empty, or unparsable. */
  predicate IsPageRelative(destination: string, parses: string -> bool)
  {
    var base := SplitLinkDestination(destination).0;
    base != "" && !HasPrefix(base, "/") && !IsExternalLinkDestination(base) && !IsAssetLinkDestination(base) && parses(base)
  }

  /** A route as the rules produce it: not empty, plain segments only. */
  predicate PlainRoute(p: string)
  {
    p != "" && AllPlain(Segs(p))
  }

  /** A relative text keeps its own base, whatever suffix follows. */
  lemma SuffixComesBack(target: string, page: string, suffix: string)
    requires PlainRoute(target) && (suffix == "" || suffix[0] in QUERY_OR_HASH)
    ensures SplitLinkDestination(RelativePath(page, target) + suffix) == (RelativePath(page, target), suffix)
  {
    var rel := RelativeSegs(Segs(page), Segs(target));
    RelativeChars(Segs(page), Segs(target));
    JoinChars(rel, '/', '?');
    JoinChars(rel, '/', '#');
    CutAtOf(RelativePath(page, target), suffix, QUERY_OR_HASH);
  }

  lemma RelativeReaches(page: string, target: string, suffix: string)
    requires PlainRoute(target) && Segs(target) != Segs(page)
    requires suffix == "" || suffix[0] in QUERY_OR_HASH
    ensures RelativePath(page, target) != ""
    ensures SplitLinkDestination(RelativePath(page, target) + suffix) == (RelativePath(page, target), suffix)
    ensures Reaches(page, RelativePath(page, target) + suffix) == NormalizeRoutePath(target)
  {
    RelativePathResolves(page, target);
    SuffixComesBack(target, page, suffix);
  }

  lemma NoRelativeToSelf(page: string, target: string)
    requires Segs(target) == Segs(page)
    ensures RelativePath(page, target) == ""
  {
    RelativeEmptyIff(Segs(page), Segs(target));
  }

  lemma RetargetReaches(page: string, target: string, destination: string)
    requires PlainRoute(target)
    ensures
      var r := Retarget(page, target, destination);
      && SplitLinkDestination(r.text).1 == SplitLinkDestination(destination).1
      && (Segs(target) != Segs(page) ==> !r.warned && Reaches(page, r.text) == NormalizeRoutePath(target))
      && (Segs(target) == Segs(page) ==> r == Rewritten(destination, false, true))
  {
    var (base, suffix) := SplitLinkDestination(destination);
    if Segs(target) == Segs(page) {
      NoRelativeToSelf(page, target);
    } else {
      RelativeReaches(page, target, suffix);
    }
  }

  lemma PathChangeIsRetarget(oldPage: string, newPage: string, destination: string,
                             rules: seq<RewriteRule>, parses: string -> bool)
    requires IsPageRelative(destination, parses)
    ensures RewriteRelativeLinkForPathChange(oldPage, newPage, destination, rules, parses) ==
              Retarget(newPage, Mapped(Reaches(oldPage, destination), rules), destination)
  {
  }

  /**
   Rewriting commutes with resolution. For a relative link on a page that moves, the new text resolved
   from the new path reaches the rule-mapped image of what the old text reached from the old path,
   exactly when that image is not the page itself, or the old text happens to reach the page anyway.
   The query and fragment stay.
   */
  lemma PathChangeCommutesIff(oldPage: string, newPage: string, destination: string,
                              rules: seq<RewriteRule>, parses: string -> bool)
    requires IsPageRelative(destination, parses)
    requires PlainRoute(Mapped(Reaches(oldPage, destination), rules))
    ensures
      var target := Mapped(Reaches(oldPage, destination), rules);
      var r := RewriteRelativeLinkForPathChange(oldPage, newPage, destination, rules, parses);
      && (Reaches(newPage, r.text) == NormalizeRoutePath(target) <==>
            Segs(target) != Segs(newPage) || Reaches(newPage, destination) == Route(Segs(newPage)))
      && SplitLinkDestination(r.text).1 == SplitLinkDestination(destination).1
      && (r.warned <==> Segs(target) == Segs(newPage))
  {
    var target := Mapped(Reaches(oldPage, destination), rules);
    PathChangeIsRetarget(oldPage, newPage, destination, rules, parses);
    RetargetReaches(newPage, target, destination);
  }

  /** A rule that moves one page's route to another. */
  predicate PlainRule(rule: RewriteRule)
  {
    CanonicalRoute(rule.oldPath) && CanonicalRoute(rule.newPath) && rule.oldPath != "/" && rule.newPath != "/"
  }

  ghost predicate PlainRules(rules: seq<RewriteRule>)
  {
    forall rule :: rule in rules ==> PlainRule(rule)
  }

  /** Below a moved page, the rest of the route is carried over. */
  lemma MovedBelow(resolved: string, rule: RewriteRule)
    requires CanonicalRoute(resolved) && PlainRule(rule) && HasPrefix(resolved, rule.oldPath + "/")
    ensures CanonicalRoute(rule.newPath + resolved[|rule.oldPath|..])
  {
    var rest := resolved[|rule.oldPath| + 1..];
    RestBelow(resolved, rule.oldPath, rule.newPath);
    BelowCanonical(resolved, rule.oldPath, rest);
    CanonicalBelow(rule.newPath, rest);
  }

  /** The text of a path below another, and of the same rest below a third. */
  lemma RestBelow(p: string, top: string, other: string)
    requires HasPrefix(p, top + "/")
    ensures p == top + "/" + p[|top| + 1..] && other + p[|top|..] == other + "/" + p[|top| + 1..]
  {
    assert p[|top|] == (top + "/")[|top|] == '/';
    assert p[|top|..] == "/" + p[|top| + 1..];
    assert p[..|top|] == (top + "/")[..|top|] == top;
  }

  /** Rules between routes map routes to routes, moved subtrees included. */
  lemma {:induction false} RulesKeepRoutes(resolved: string, rules: seq<RewriteRule>)
    requires CanonicalRoute(resolved) && PlainRules(rules)
    ensures CanonicalRoute(Mapped(resolved, rules))
  {
    if rules != [] {
      var rule := rules[0];
      assert rule in rules && forall r :: r in rules[1..] ==> r in rules;
      if resolved != rule.oldPath && HasPrefix(resolved, rule.oldPath + "/") {
        MovedBelow(resolved, rule);
      } else if resolved != rule.oldPath {
        RulesKeepRoutes(resolved, rules[1..]);
      }
    }
  }

  /**
   From a plain route and rules between plain routes only plain routes in normal form come out: for
   every link, wherever it leads, and every list of rules.
   */
  lemma MappedIsPlain(page: string, destination: string, rules: seq<RewriteRule>)
    requires AllPlain(Segs(page)) && PlainRules(rules)
    ensures CanonicalRoute(Reaches(page, destination)) && CanonicalRoute(Mapped(Reaches(page, destination), rules))
    ensures PlainRoute(Mapped(Reaches(page, destination), rules))
  {
    var segs := ResolveSegs(Segs(page), SplitLinkDestination(destination).0);
    ResolvedIsPlain(Segs(page), SplitLinkDestination(destination).0);
    SegsOfJoin(segs);
    RulesKeepRoutes(Reaches(page, destination), rules);
  }

  /** What RewriteLinkDestination does to a page-relative link, by where the rules put its target. */
  lemma RewriteShape(page: string, destination: string, rules: seq<RewriteRule>, parses: string -> bool)
    requires IsPageRelative(destination, parses)
    ensures
      var r := RewriteLinkDestination(page, destination, rules, parses);
      var target := Mapped(Reaches(page, destination), rules);
      var rel := RelativePath(Mapped(NormalizeRoutePath(page), rules), target);
      r == if target == Reaches(page, destination) then Rewritten(destination, false, false)
           else if rel == "" then Rewritten(destination, false, true)
           else Rewritten(rel + SplitLinkDestination(destination).1, true, false)
  {
  }

  /**
   The same law for links on pages that stay, or that the rules themselves move: a changed text
   reaches the mapped target from the page's mapped path and keeps its suffix; an unchanged text that
   raised no warning has a target the rules do not move; a warning means the target is the page.
   */
  lemma RewriteCommutes(page: string, destination: string, rules: seq<RewriteRule>, parses: string -> bool)
    requires IsPageRelative(destination, parses)
    requires PlainRoute(Mapped(Reaches(page, destination), rules))
    ensures
      var r := RewriteLinkDestination(page, destination, rules, parses);
      var target, newPage := Mapped(Reaches(page, destination), rules), Mapped(NormalizeRoutePath(page), rules);
      && (r.changed ==> Reaches(newPage, r.text) == NormalizeRoutePath(target))
      && (!r.changed && !r.warned <==> target == Reaches(page, destination))
      && (r.warned ==> Segs(target) == Segs(newPage))
      && SplitLinkDestination(r.text).1 == SplitLinkDestination(destination).1
  {
    var target, newPage := Mapped(Reaches(page, destination), rules), Mapped(NormalizeRoutePath(page), rules);
    RewriteShape(page, destination, rules, parses);
    if Segs(target) == Segs(newPage) {
      NoRelativeToSelf(newPage, target);
    } else {
      RelativeReaches(newPage, target, SplitLinkDestination(destination).1);
    }
  }

  lemma AbsoluteReaches(page: string, target: string, suffix: string)
    requires HasPrefix(target, "/") && AllPlain(Segs(target)) && Route(Segs(target)) == target
    requires suffix == "" || suffix[0] in QUERY_OR_HASH
    ensures SplitLinkDestination(target + suffix) == (target, suffix)
    ensures Reaches(page, target + suffix) == target
  {
    var segs := Segs(target);
    JoinChars(segs, '/', '?');
    JoinChars(segs, '/', '#');
    assert target == "/" + Join(segs, '/');
    CutAtOf(target, suffix, QUERY_OR_HASH);
    CutAtOf(target, "", QUERY_OR_HASH);
    assert target + "" == target;
    assert target[1..] == Join(segs, '/');
    if segs == [] {
      assert target == "/";
      assert Split("/", '/') == ["", ""];
      assert WalkAll([], ["", ""]) == ["", ""] by { WalkPlain([], ["", ""]); }
    } else {
      SegsOfJoin(segs);
      assert Split(target, '/') == [""] + segs by { assert ([""] + segs)[1..] == segs; }
      assert forall s :: s in [""] + segs ==> s != "." && s != "..";
      WalkPlain([], [""] + segs);
      assert [] + ([""] + segs) == [""] + segs && ([""] + segs)[1..] == segs;
      NonEmptyOfFull(segs);
    }
  }

  lemma AbsoluteIsNotExternal(base: string)
    requires HasPrefix(base, "/")
    ensures !IsExternalLinkDestination(base)
  {
    assert AsciiLower(base)[0] == LowerChar(base[0]) == '/';
  }

  lemma RedirectedAbsolute(page: string, destination: string, base: string, suffix: string, resolved: string, rules: seq<RewriteRule>)
    requires HasPrefix(base, "/") && Mapped(resolved, rules) != ""
    ensures Redirected(page, destination, base, suffix, resolved, rules).text ==
            if Mapped(resolved, rules) == resolved then destination else Mapped(resolved, rules) + suffix
  {
  }

  /** What RewriteLinkDestination does to an absolute link: the new route takes its place. */
  lemma AbsoluteRewriteReaches(page: string, destination: string, rules: seq<RewriteRule>, parses: string -> bool)
    requires
      var base := SplitLinkDestination(destination).0;
      HasPrefix(base, "/") && !IsAssetLinkDestination(base) && parses(base)
    requires
      var target := Mapped(Reaches(page, destination), rules);
      HasPrefix(target, "/") && AllPlain(Segs(target)) && Route(Segs(target)) == target
    ensures
      var r := RewriteLinkDestination(page, destination, rules, parses);
      Reaches(page, r.text) == Mapped(Reaches(page, destination), rules) &&
      SplitLinkDestination(r.text).1 == SplitLinkDestination(destination).1
  {
    var (base, suffix) := SplitLinkDestination(destination);
    var target := Mapped(Reaches(page, destination), rules);
    AbsoluteIsNotExternal(base);
    RedirectedAbsolute(page, destination, base, suffix, Reaches(page, destination), rules);
    AbsoluteReaches(page, target, suffix);
    var text := RewriteLinkDestination(page, destination, rules, parses).text;
    assert text == if target == Reaches(page, destination) then destination else target + suffix;
  }

  /** An absolute link reaches the same route from every page. */
  lemma AbsoluteFromAnywhere(page: string, other: string, destination: string, target: string)
    requires HasPrefix(SplitLinkDestination(destination).0, "/") && Reaches(page, destination) == target
    ensures Reaches(other, destination) == target
  {
  }

  // ----- rules map whole subtrees -----

  /** A rule moves a page and everything below it, and nothing that merely starts with the same letters. */
  lemma RuleMovesSubtree(oldPath: string, newPath: string, p: string)
    ensures
      var m := ApplyRewriteRules(p, [RewriteRule(oldPath, newPath)]);
      (m.Some? <==> p == oldPath || HasPrefix(p, oldPath + "/")) &&
      (m.Some? ==> exists below :: p == oldPath + below && m.value == newPath + below)
  {
    var m := ApplyRewriteRules(p, [RewriteRule(oldPath, newPath)]);
    assert ApplyRewriteRules(p, []) == None;
    if p == oldPath {
      assert p == oldPath + "" && newPath == newPath + "";
    } else if HasPrefix(p, oldPath + "/") {
      assert p == oldPath + p[|oldPath|..];
    }
  }

  // ----- the two passes over a page that moves -----

  /** rewritePathChangedSubtree: relative links first, then, from the new path, whatever still follows the rules. */
  function TwoPasses(oldPage: string, newPage: string, destination: string, rules: seq<RewriteRule>, parses: string -> bool): string
  {
    RewriteLinkDestination(newPage, RewriteRelativeLinkForPathChange(oldPage, newPage, destination, rules, parses).text, rules, parses).text
  }

  /** Neither path lies in the other, as with the old and the new path of a page that moves. */
  predicate Apart(a: string, b: string)
  {
    a != b && !HasPrefix(a, b + "/") && !HasPrefix(b, a + "/")
  }

  /** Of two paths that a path lies in one lies in the other. */
  lemma OneLiesInTheOther(p: string, a: string, b: string)
    requires HasPrefix(p, a + "/") && (HasPrefix(p, b + "/") || p == b)
    ensures !Apart(a, b)
  {
    assert p[..|a| + 1] == a + "/";
    if p != b {
      assert p[..|b| + 1] == b + "/";
      if |a| < |b| {
        assert b == p[..|b|];
        assert b[..|a| + 1] == p[..|a| + 1];
      } else if |b| < |a| {
        assert a == p[..|a|];
        assert a[..|b| + 1] == p[..|b| + 1];
      } else {
        assert a == p[..|a|] == b;
      }
    }
  }

  lemma OneRuleMaps(p: string, rule: RewriteRule)
    ensures Mapped(p, [rule]) == if p == rule.oldPath then rule.newPath
                                 else if HasPrefix(p, rule.oldPath + "/") then rule.newPath + p[|rule.oldPath|..] else p
  {
    assert [rule][1..] == [] && ApplyRewriteRules(p, []) == None;
  }

  /** What a rule between paths that lie apart has mapped, it does not map again. */
  lemma MappedOnce(resolved: string, rule: RewriteRule)
    requires PlainRule(rule) && Apart(rule.oldPath, rule.newPath)
    ensures Mapped(Mapped(resolved, [rule]), [rule]) == Mapped(resolved, [rule])
  {
    var target := Mapped(resolved, [rule]);
    OneRuleMaps(resolved, rule);
    OneRuleMaps(target, rule);
    if resolved != rule.oldPath && HasPrefix(resolved, rule.oldPath + "/") {
      RestBelow(resolved, rule.oldPath, rule.newPath);
      assert target == rule.newPath + "/" + resolved[|rule.oldPath| + 1..];
      assert HasPrefix(target, rule.newPath + "/");
      if target == rule.oldPath || HasPrefix(target, rule.oldPath + "/") { OneLiesInTheOther(target, rule.newPath, rule.oldPath); }
    }
  }

  /**
   The second pass undoes nothing: for the rule of a move, a relative link that does not lead to its own
   page reaches after both passes, from the new path, the mapped image of what it reached before.
   */
  lemma RelativeSurvivesBothPasses(oldPage: string, newPage: string, destination: string, rule: RewriteRule, parses: string -> bool)
    requires AllPlain(Segs(oldPage)) && PlainRule(rule) && Apart(rule.oldPath, rule.newPath) && IsPageRelative(destination, parses)
    requires Segs(Mapped(Reaches(oldPage, destination), [rule])) != Segs(newPage)
    ensures
      var text := TwoPasses(oldPage, newPage, destination, [rule], parses);
      && Reaches(newPage, text) == Mapped(Reaches(oldPage, destination), [rule])
      && SplitLinkDestination(text).1 == SplitLinkDestination(destination).1
  {
    var target := Mapped(Reaches(oldPage, destination), [rule]);
    var first := RewriteRelativeLinkForPathChange(oldPage, newPage, destination, [rule], parses);
    MappedIsPlain(oldPage, destination, [rule]);
    PathChangeCommutesIff(oldPage, newPage, destination, [rule], parses);
    assert Reaches(newPage, first.text) == target;
    MappedOnce(Reaches(oldPage, destination), rule);
    StaysPut(newPage, first.text, [rule], parses);
  }

  /** A link the rules do not move, wherever it stands, stays as it is. */
  lemma StaysPut(page: string, destination: string, rules: seq<RewriteRule>, parses: string -> bool)
    requires Mapped(Reaches(page, destination), rules) == Reaches(page, destination)
    ensures RewriteLinkDestination(page, destination, rules, parses).text == destination
  {
  }

  /** An absolute link passes the first pass unchanged, and reaches the mapped image of its target after the second. */
  lemma AbsoluteAfterBothPasses(oldPage: string, newPage: string, destination: string, rules: seq<RewriteRule>, parses: string -> bool)
    requires
      var base := SplitLinkDestination(destination).0;
      HasPrefix(base, "/") && !IsAssetLinkDestination(base) && parses(base)
    requires AllPlain(Segs(newPage)) && PlainRules(rules)
    ensures
      var text := TwoPasses(oldPage, newPage, destination, rules, parses);
      && Reaches(newPage, text) == Mapped(Reaches(oldPage, destination), rules)
      && SplitLinkDestination(text).1 == SplitLinkDestination(destination).1
  {
    MappedIsPlain(newPage, destination, rules);
    AbsoluteFromAnywhere(oldPage, newPage, destination, Reaches(oldPage, destination));
    AbsoluteRewriteReaches(newPage, destination, rules, parses);
  }

  // ----- the pages the second pass skips -----

  predicate PartAt(s: string, part: string, i: nat)
  {
    i + |part| <= |s| && s[i..i + |part|] == part
  }

  /** strings.Contains. */
  ghost predicate Contains(s: string, part: string)
  {
    exists i: nat :: PartAt(s, part, i)
  }

  /**
   The second pass is skipped for a page whose text does not contain the old path. An absolute link in
   normal form that the rule moves does contain it.
   */
  lemma NormalLinkIsNotSkipped(page: string, destination: string, rule: RewriteRule)
    requires CanonicalRoute(SplitLinkDestination(destination).0) && PlainRule(rule)
    requires ApplyRewriteRules(Reaches(page, destination), [rule]).Some?
    ensures Contains(destination, rule.oldPath)
  {
    var base := SplitLinkDestination(destination).0;
    AbsoluteReaches(page, base, "");
    assert base + "" == base;
    assert Reaches(page, destination) == base;
    assert ApplyRewriteRules(base, []) == None;
    if base != rule.oldPath { RestBelow(base, rule.oldPath, rule.oldPath); }
    assert rule.oldPath <= base <= destination;
    assert PartAt(destination, rule.oldPath, 0);
  }

  /** An absolute link without dot segments reaches the route of its own segments. */
  lemma AbsoluteReachesItsSegments(page: string, path: string)
    requires HasPrefix(path, "/") && (forall c :: c in path ==> c !in QUERY_OR_HASH)
    requires forall s :: s in Split(path, '/') ==> s != "." && s != ".."
    ensures Reaches(page, path) == Route(Segs(path))
  {
    CutAtOf(path, "", QUERY_OR_HASH);
    assert path + "" == path;
    WalkPlain([], Split(path, '/'));
    assert [] + Split(path, '/') == Split(path, '/');
  }

  /** The text of one segment as a route. */
  lemma OneSegment(a: string)
    requires Plain(a)
    ensures Segs("/" + a) == [a] && Split("/" + a, '/') == ["", a]
  {
    SegsOfJoin([a]);
    SplitAppend("", a, '/');
    SplitOfPart(a, "", '/');
    assert "/" + a == "" + ['/'] + a;
  }

  /** Two segments with a doubled slash between them. */
  lemma DoubledSlash(a: string, b: string)
    requires Plain(a) && Plain(b)
    ensures
      var link := ("/" + a) + "/" + ("/" + b);
      && Segs(link) == [a, b] && Split(link, '/') == ["", a, "", b] && (forall c :: c in link ==> c !in QUERY_OR_HASH)
  {
    OneSegment(a);
    OneSegment(b);
    SegsAppend("/" + a, "/" + b);
    SplitAppend("/" + a, "/" + b, '/');
  }

  /** The single-slash spelling is not in the doubled one. */
  lemma SingleNotInDoubled(a: string, b: string, i: nat)
    requires Plain(a) && Plain(b)
    ensures !PartAt(("/" + a) + "/" + ("/" + b), ("/" + a) + "/" + b, i)
  {
    var link, path := ("/" + a) + "/" + ("/" + b), ("/" + a) + "/" + b;
    assert |link| == |path| + 1;
    assert link[|a| + 2] == '/' && path[|a| + 2] == b[0] && link[1] == a[0] && path[0] == '/';
    assert b[0] in b && a[0] in a;
    assert link[..|path|][|a| + 2] == link[|a| + 2];
  }

  /**
   One that is written with a repeated slash need not: a link /docs//page reaches /docs/page, which the rule
   moves, but a page that has only this spelling of it is skipped and the link stays behind.
   */
  lemma DoubledSlashIsSkipped(a: string, b: string, page: string, rule: RewriteRule)
    requires Plain(a) && Plain(b) && rule.oldPath == ("/" + a) + "/" + b
    ensures
      var link := ("/" + a) + "/" + ("/" + b);
      && Reaches(page, link) == rule.oldPath && ApplyRewriteRules(Reaches(page, link), [rule]) == Some(rule.newPath)
      && !Contains(link, rule.oldPath)
  {
    var link := ("/" + a) + "/" + ("/" + b);
    DoubledSlash(a, b);
    AbsoluteReachesItsSegments(page, link);
    RouteBelow([a], [b]);
    assert [a] + [b] == [a, b];
    forall i: nat
      ensures !PartAt(link, rule.oldPath, i)
    {
      SingleNotInDoubled(a, b, i);
    }
  }
}
