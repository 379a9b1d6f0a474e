/**
 The inline-link scanner, the rewrite plan and the rewriting engine of internal/links/link_refactor.go.

 The Markdown parser and the regular expressions are not modelled: link candidates, code ranges and
 wiki-link matches are arbitrary inputs. `rewrite` is the rule for one destination text.
 */
module InlineLinks {
  import opened Common
  import opened Text
  import opened TextRanges
  import opened Replacements
  import opened RoutePaths
  import opened LinkRewrite

  /** inlineLinkOccurrence: the destination text of [label](destination) and where it is. */
  datatype Occurrence = Occurrence(raw: string, start: nat, end: nat)

  predicate IsBlank(c: char)
  {
    c == ' ' || c == '\n' || c == '\t'
  }

  // ----- where a link's parts end, as functions of the text -----

  /** The bracket closing the one that brought the nesting to depth, from i on; escapes are skipped. */
  function ClosingFrom(content: string, i: nat, depth: int, open: char, close: char): (r: Option<nat>)
    ensures r.Some? ==> i <= r.value < |content| && content[r.value] == close
    decreases |content| - i
  {
    if i >= |content| then None
    else if content[i] == open then ClosingFrom(content, i + 1, depth + 1, open, close)
    else if content[i] == close then
      (if depth == 1 then Some(i) else ClosingFrom(content, i + 1, depth - 1, open, close))
    else if content[i] == '\\' then ClosingFrom(content, i + 2, depth, open, close)
    else ClosingFrom(content, i + 1, depth, open, close)
  }

  function SkipBlanks(content: string, i: nat): (r: nat)
    ensures r >= i
    decreases |content| - i
  {
    if i < |content| && IsBlank(content[i]) then SkipBlanks(content, i + 1) else i
  }

  function AngleEnd(content: string, i: nat): (r: Option<nat>)
    ensures r.Some? ==> i <= r.value < |content|
    decreases |content| - i
  {
    if i >= |content| then None
    else if content[i] == '>' then Some(i)
    else AngleEnd(content, if content[i] == '\\' then i + 2 else i + 1)
  }

  /** The end of a bare destination: a blank, or the parenthesis that closes the link. */
  function BareEnd(content: string, i: nat, depth: nat): (r: Option<nat>)
    ensures r.Some? ==> i <= r.value < |content|
    decreases |content| - i
  {
    if i >= |content| then None
    else if content[i] == '\\' then BareEnd(content, i + 2, depth)
    else if content[i] == '(' then BareEnd(content, i + 1, depth + 1)
    else if content[i] == ')' then (if depth == 0 then Some(i) else BareEnd(content, i + 1, depth - 1))
    else if IsBlank(content[i]) then Some(i)
    else BareEnd(content, i + 1, depth)
  }

  /** The destination of the link whose parenthesis was opened just before start. */
  function DestinationAt(content: string, start: nat): (r: Option<Occurrence>)
    ensures r.Some? ==> IsOccurrence(content, start, r.value)
  {
    var i := SkipBlanks(content, start);
    if i >= |content| then None
    else
      var destStart := if content[i] == '<' then i + 1 else i;
      var destEnd := if content[i] == '<' then AngleEnd(content, i + 1) else BareEnd(content, i, 0);
      if destEnd.None? || destEnd.value <= destStart || ClosingFrom(content, start, 1, '(', ')').None? then None
      else Some(Occurrence(content[destStart..destEnd.value], destStart, destEnd.value))
  }

  /** The inline link whose text begins at the bracket at i. */
  function LinkAt(content: string, i: nat): (r: Option<Occurrence>)
    requires i < |content|
    ensures r.Some? ==> IsOccurrence(content, i + 1, r.value)
  {
    if content[i] != '[' || (i > 0 && content[i - 1] == '!') then None
    else
      var labelEnd := ClosingFrom(content, i, 0, '[', ']');
      if labelEnd.None? then None
      else
        var j := SkipBlanks(content, labelEnd.value + 1);
        if j >= |content| || content[j] != '(' then None else DestinationAt(content, j + 1)
  }

  /** occ is a non-empty destination of content at or after position from. */
  predicate IsOccurrence(content: string, from: nat, occ: Occurrence)
  {
    from <= occ.start < occ.end <= |content| && occ.raw == content[occ.start..occ.end]
  }

  // ----- the code's loops -----

  /** findClosingBracket (from the bracket, depth 0) and findClosingParen (behind the parenthesis, depth 1). */
  method FindClosing(content: string, start: nat, startDepth: int, open: char, close: char) returns (r: int)
    requires open != close && open != '\\' && close != '\\'
    ensures r == match ClosingFrom(content, start, startDepth, open, close) case None => -1 case Some(at) => at
  {
    var depth, i := startDepth, start;
    while i < |content|
      invariant ClosingFrom(content, start, startDepth, open, close) == ClosingFrom(content, i, depth, open, close)
    {
      if content[i] == open {
        depth := depth + 1;
      } else if content[i] == close {
        depth := depth - 1;
        if depth == 0 {
          return i;
        }
      } else if content[i] == '\\' {
        i := i + 1;
      }
      i := i + 1;
    }
    r := -1;
  }

  method FindAngleEnd(content: string, start: nat) returns (destEnd: int)
    ensures destEnd == match AngleEnd(content, start) case None => -1 case Some(at) => at
  {
    var i := start;
    while i < |content|
      invariant AngleEnd(content, start) == AngleEnd(content, i)
    {
      if content[i] == '>' {
        return i;
      }
      if content[i] == '\\' {
        i := i + 1;
      }
      i := i + 1;
    }
    destEnd := -1;
  }

  method FindBareEnd(content: string, start: nat) returns (destEnd: int)
    ensures destEnd == match BareEnd(content, start, 0) case None => -1 case Some(at) => at
  {
    var i, depth := start, 0;
    while i < |content|
      invariant depth >= 0 && BareEnd(content, start, 0) == BareEnd(content, i, depth)
    {
      var c := content[i];
      if c == '\\' {
        i := i + 2;
        continue;
      }
      if c == '(' {
        depth := depth + 1;
      } else if c == ')' {
        if depth == 0 {
          return i;
        }
        depth := depth - 1;
      } else if IsBlank(c) {
        return i;
      }
      i := i + 1;
    }
    destEnd := -1;
  }

  method FindNonBlank(content: string, start: nat) returns (i: nat)
    ensures i == SkipBlanks(content, start)
  {
    i := start;
    while i < |content| && IsBlank(content[i])
      invariant SkipBlanks(content, start) == SkipBlanks(content, i)
    {
      i := i + 1;
    }
  }

  /** parseInlineLinkOccurrence. */
  method ParseInlineLinkOccurrence(content: string, start: nat) returns (ok: bool, occ: Occurrence)
    ensures ok <==> DestinationAt(content, start).Some?
    ensures ok ==> occ == DestinationAt(content, start).value
  {
    occ := Occurrence("", 0, 0);
    var i := FindNonBlank(content, start);
    if i >= |content| {
      return false, occ;
    }
    var destStart, destEnd := i, -1;
    if content[i] == '<' {
      destStart := i + 1;
      destEnd := FindAngleEnd(content, destStart);
    } else {
      destEnd := FindBareEnd(content, i);
    }
    if destEnd == -1 || destEnd <= destStart {
      return false, occ;
    }
    var closing := FindClosing(content, start, 1, '(', ')');
    if closing == -1 {
      return false, occ;
    }
    return true, Occurrence(content[destStart..destEnd], destStart, destEnd);
  }

  /** The link, if any, whose text begins at each position. */
  type LinkMap = nat -> Option<Occurrence>

  ghost function LinksOutside(content: string, code: seq<Range>): LinkMap
  {
    (i: nat) => if i < |content| && !Covered(code, i) then LinkAt(content, i) else None
  }

  /**
   occs are the links, in order, as far as position upTo: opens[k] is where the k-th link text begins;
   scanning resumes behind the destination of each link found.
   */
  ghost predicate FoundUpTo(links: LinkMap, upTo: nat, opens: seq<nat>, occs: seq<Occurrence>)
  {
    && |opens| == |occs|
    && (forall k :: 0 <= k < |occs| ==> links(opens[k]) == Some(occs[k]))
    && (forall j, k :: 0 <= j < k < |occs| ==> occs[j].end < opens[k])
    && (forall i: nat {:trigger InSome(i, opens, occs)} :: i < upTo && links(i).Some? ==> InSome(i, opens, occs))
  }

  /** The position lies in one of the links found. */
  ghost predicate InSome(i: nat, opens: seq<nat>, occs: seq<Occurrence>)
    requires |opens| == |occs|
  {
    exists k :: 0 <= k < |occs| && opens[k] <= i <= occs[k].end
  }

  /** occs are the links of content that begin outside code. */
  ghost predicate LinksUpTo(content: string, code: seq<Range>, upTo: nat, opens: seq<nat>, occs: seq<Occurrence>)
  {
    FoundUpTo(LinksOutside(content, code), upTo, opens, occs)
  }

  /** A link's text begins in front of its destination. */
  ghost predicate OpensFirst(links: LinkMap)
  {
    forall i: nat :: links(i).Some? ==> i < links(i).value.start <= links(i).value.end
  }

  lemma OpensIncrease(links: LinkMap, upTo: nat, opens: seq<nat>, occs: seq<Occurrence>, j: nat, k: nat)
    requires OpensFirst(links) && FoundUpTo(links, upTo, opens, occs)
    ensures j < k < |occs| ==> opens[j] < occs[j].end < opens[k]
  {
    if j < |occs| { assert links(opens[j]) == Some(occs[j]); }
  }

  /** Where the k-th link of one list lies in the other. */
  lemma LinkIsInOther(links: LinkMap, upTo: nat, opens: seq<nat>, occs: seq<Occurrence>,
                      opens': seq<nat>, occs': seq<Occurrence>, k: nat) returns (j: nat)
    requires FoundUpTo(links, upTo, opens, occs) && FoundUpTo(links, upTo, opens', occs') && k < |occs|
    requires forall i: nat :: links(i).Some? ==> i < upTo
    ensures j < |occs'| && opens'[j] <= opens[k] <= occs'[j].end
  {
    assert links(opens[k]) == Some(occs[k]);
    assert InSome(opens[k], opens', occs');
    j :| 0 <= j < |occs'| && opens'[j] <= opens[k] <= occs'[j].end;
  }

  /** Two lists of links agree wherever both have one. */
  lemma {:induction false} LinksAgreeAt(links: LinkMap, upTo: nat, opens: seq<nat>, occs: seq<Occurrence>,
                                        opens': seq<nat>, occs': seq<Occurrence>, k: nat)
    requires OpensFirst(links) && FoundUpTo(links, upTo, opens, occs) && FoundUpTo(links, upTo, opens', occs')
    requires k < |occs| && k < |occs'| && (forall i: nat :: links(i).Some? ==> i < upTo)
    ensures opens[k] == opens'[k] && occs[k] == occs'[k]
    decreases k
  {
    forall j | 0 <= j < k
      ensures opens[j] == opens'[j] && occs[j] == occs'[j]
    {
      LinksAgreeAt(links, upTo, opens, occs, opens', occs', j);
    }
    NotEarlier(links, upTo, opens, occs, opens', occs', k);
    NotEarlier(links, upTo, opens', occs', opens, occs, k);
    assert links(opens[k]) == Some(occs[k]) && links(opens'[k]) == Some(occs'[k]);
  }

  /** Given the same k links before, the next one is not in front of the other's. */
  lemma NotEarlier(links: LinkMap, upTo: nat, opens: seq<nat>, occs: seq<Occurrence>,
                   opens': seq<nat>, occs': seq<Occurrence>, k: nat)
    requires OpensFirst(links) && FoundUpTo(links, upTo, opens, occs) && FoundUpTo(links, upTo, opens', occs')
    requires k < |occs| && k <= |occs'| && forall i: nat :: links(i).Some? ==> i < upTo
    requires forall j :: 0 <= j < k ==> opens[j] == opens'[j] && occs[j] == occs'[j]
    ensures k < |occs'| && opens[k] >= opens'[k]
  {
    var j := LinkIsInOther(links, upTo, opens, occs, opens', occs', k);
    OpensIncrease(links, upTo, opens, occs, j, k);
    OpensIncrease(links, upTo, opens', occs', k, j);
  }

  /** A page has one list of links: FoundUpTo determines it. */
  lemma LinksAreDetermined(links: LinkMap, upTo: nat, opens: seq<nat>, occs: seq<Occurrence>,
                           opens': seq<nat>, occs': seq<Occurrence>)
    requires OpensFirst(links) && FoundUpTo(links, upTo, opens, occs) && FoundUpTo(links, upTo, opens', occs')
    requires forall i: nat :: links(i).Some? ==> i < upTo
    ensures opens == opens' && occs == occs'
  {
    forall k | 0 <= k < |occs| && k < |occs'|
      ensures opens[k] == opens'[k] && occs[k] == occs'[k]
    {
      LinksAgreeAt(links, upTo, opens, occs, opens', occs', k);
    }
    if |occs| > |occs'| {
      NotEarlier(links, upTo, opens, occs, opens', occs', |occs'|);
    } else if |occs'| > |occs| {
      NotEarlier(links, upTo, opens', occs', opens, occs, |occs|);
    }
  }

  /** The links of a page do not depend on how its code ranges are written down. */
  lemma PageLinksAreDetermined(content: string, code: seq<Range>, other: seq<Range>, opens: seq<nat>, occs: seq<Occurrence>,
                               opens': seq<nat>, occs': seq<Occurrence>)
    requires forall o :: Covered(code, o) <==> Covered(other, o)
    requires LinksUpTo(content, code, |content|, opens, occs) && LinksUpTo(content, other, |content|, opens', occs')
    ensures opens == opens' && occs == occs'
  {
    var links, links' := LinksOutside(content, code), LinksOutside(content, other);
    assert forall i: nat :: links(i) == links'(i);
    forall i: nat | links(i).Some?
      ensures i < |content| && i < links(i).value.start <= links(i).value.end
    {
      assert LinkAt(content, i) == links(i);
    }
    LinksAreDetermined(links, |content|, opens, occs, opens', occs');
  }

  lemma StaysInSome(i: nat, opens: seq<nat>, occs: seq<Occurrence>, at: nat, occ: Occurrence)
    requires |opens| == |occs| && (InSome(i, opens, occs) || at <= i <= occ.end)
    ensures InSome(i, opens + [at], occs + [occ])
  {
    var opens', occs' := opens + [at], occs + [occ];
    if InSome(i, opens, occs) {
      var k :| 0 <= k < |occs| && opens[k] <= i <= occs[k].end;
      assert opens'[k] <= i <= occs'[k].end;
    } else {
      assert opens'[|occs|] <= i <= occs'[|occs|].end;
    }
  }

  /** Recording the link at i, or finding none there, extends the scanned part. */
  lemma ScanStep(links: LinkMap, i: nat, opens: seq<nat>, occs: seq<Occurrence>)
    requires FoundUpTo(links, i, opens, occs) && forall k :: 0 <= k < |occs| ==> occs[k].end < i
    ensures links(i).None? ==> FoundUpTo(links, i + 1, opens, occs)
    ensures links(i).Some? ==> FoundUpTo(links, links(i).value.end + 1, opens + [i], occs + [links(i).value])
  {
    if links(i).Some? {
      forall h: nat | h < links(i).value.end + 1 && links(h).Some?
        ensures InSome(h, opens + [i], occs + [links(i).value])
      {
        StaysInSome(h, opens, occs, i, links(i).value);
      }
    }
  }

  /** The body of the scanning loop at one position outside code. */
  method ScanLinkAt(content: string, i: nat) returns (ok: bool, occ: Occurrence)
    requires i < |content|
    ensures ok <==> LinkAt(content, i).Some?
    ensures ok ==> occ == LinkAt(content, i).value
  {
    ok, occ := false, Occurrence("", 0, 0);
    if content[i] != '[' || (i > 0 && content[i - 1] == '!') {
      return;
    }
    var labelEnd := FindClosing(content, i, 0, '[', ']');
    if labelEnd == -1 {
      return;
    }
    var j := FindNonBlank(content, labelEnd + 1);
    if j >= |content| || content[j] != '(' {
      return;
    }
    ok, occ := ParseInlineLinkOccurrence(content, j + 1);
  }

  /** One round of the scanning loop: the position it goes on from, and the link it found. */
  method ScanRound(content: string, i: nat, excluded: seq<Range>) returns (next: nat, found: Option<Occurrence>)
    requires i < |content| && SortedByStart(excluded)
    ensures found == if Covered(excluded, i) then None else LinkAt(content, i)
    ensures next == if found.Some? then found.value.end + 1 else i + 1
    ensures next > i
  {
    var skip := IsExcludedOffset(i, excluded);
    if skip {
      return i + 1, None;
    }
    var ok, occ := ScanLinkAt(content, i);
    if !ok {
      return i + 1, None;
    }
    return occ.end + 1, Some(occ);
  }

  ghost predicate Scanned(content: string, code: seq<Range>, upTo: nat, opens: seq<nat>, occs: seq<Occurrence>)
  {
    LinksUpTo(content, code, upTo, opens, occs) && forall k :: 0 <= k < |occs| ==> occs[k].end < upTo
  }

  lemma ScanFinished(content: string, code: seq<Range>, upTo: nat, opens: seq<nat>, occs: seq<Occurrence>)
    requires Scanned(content, code, upTo, opens, occs) && upTo >= |content|
    ensures LinksUpTo(content, code, |content|, opens, occs)
  {
  }

  lemma ScanRoundKeeps(content: string, code: seq<Range>, i: nat, opens: seq<nat>, occs: seq<Occurrence>, found: Option<Occurrence>)
    requires i < |content| && Scanned(content, code, i, opens, occs)
    requires found == if Covered(code, i) then None else LinkAt(content, i)
    ensures found.None? ==> Scanned(content, code, i + 1, opens, occs)
    ensures found.Some? ==> Scanned(content, code, found.value.end + 1, opens + [i], occs + [found.value])
  {
    ScanStep(LinksOutside(content, code), i, opens, occs);
  }

  /** Destinations in the text, non-empty, strictly increasing and disjoint. */
  ghost predicate OrderedLinks(content: string, occs: seq<Occurrence>)
  {
    && (forall k :: 0 <= k < |occs| ==> IsOccurrence(content, 0, occs[k]))
    && (forall j, k :: 0 <= j < k < |occs| ==> occs[j].end < occs[k].start)
  }

  lemma ScannedLinksAreOrdered(content: string, raw: seq<Range>, opens: seq<nat>, occs: seq<Occurrence>)
    requires LinksUpTo(content, raw, |content|, opens, occs)
    ensures OrderedLinks(content, occs)
  {
    forall k | 0 <= k < |occs|
      ensures IsOccurrence(content, opens[k] + 1, occs[k])
    {
      assert LinkAt(content, opens[k]) == Some(occs[k]);
    }
  }

  /**
   scanInlineLinkOccurrences: the links of the text, each once and none left out. Their destinations are
   non-empty, strictly increasing and disjoint, and no link text begins inside a code range.
   */
  method ScanInlineLinkOccurrences(content: string, excluded: seq<Range>)
      returns (occs: seq<Occurrence>, ghost opens: seq<nat>)
    requires SortedByStart(excluded)
    ensures LinksUpTo(content, excluded, |content|, opens, occs)
    ensures OrderedLinks(content, occs)
  {
    occs, opens := [], [];
    var i := 0;
    while i < |content|
      invariant Scanned(content, excluded, i, opens, occs)
    {
      var next, found := ScanRound(content, i, excluded);
      ScanRoundKeeps(content, excluded, i, opens, occs, found);
      if found.Some? {
        occs, opens := occs + [found.value], opens + [i];
      }
      i := next;
    }
    ScanFinished(content, excluded, i, opens, occs);
    ScannedLinksAreOrdered(content, excluded, opens, occs);
  }

  /** normalizeCandidateDestination. */
  function NormalizeCandidateDestination(destination: string): string
  {
    if destination == "" then "" else TrimSuffix(TrimPrefix(TrimSpace(destination), "<"), ">")
  }

  /** Parsed and scanned destinations are the same up to angle brackets. */
  lemma BracketsDoNotCount(d: string)
    requires d != "" && !IsSpace(d[0]) && !IsSpace(d[|d| - 1]) && d[0] != '<' && d[|d| - 1] != '>'
    ensures NormalizeCandidateDestination(d) == d
    ensures NormalizeCandidateDestination("<" + d + ">") == d
  {
    var whole := "<" + d + ">";
    assert whole[0] == '<' && whole[|whole| - 1] == '>';
    assert TrimLeft(whole) == whole && TrimRight(whole) == whole;
    assert whole[1..] == d + ">";
  }

  /**
   The two parameters of a plan: the rule for one destination, and the normal form in which parsed and
   scanned destinations are compared.
   */
  datatype Rule = Rule(rewrite: string -> Rewritten, norm: string -> string)

  /** reps are the changed occurrences source[0] < source[1] < ..., each rewritten by the rule. */
  ghost predicate Plans(reps: seq<Replacement>, source: seq<nat>, occs: seq<Occurrence>, candidates: seq<string>,
                        rule: Rule)
  {
    && |source| == |reps|
    && (forall k :: 0 <= k < |reps| ==> source[k] < |occs|)
    && (forall j, k :: 0 <= j < k < |reps| ==> source[j] < source[k])
    && (forall k :: 0 <= k < |reps| ==>
          var occ := occs[source[k]];
          && reps[k] == Replacement(occ.start, occ.end, rule.rewrite(occ.raw).text) && rule.rewrite(occ.raw).changed
          && exists c :: c in candidates && rule.norm(c) == rule.norm(occ.raw))
  }

  predicate SameDestination(occ: Occurrence, candidate: string, rule: Rule)
  {
    rule.norm(occ.raw) == rule.norm(candidate)
  }

  /** The first occurrence from index `from` on that has the candidate's destination. */
  function NextFor(candidate: string, occs: seq<Occurrence>, from: nat, rule: Rule): (r: Option<nat>)
    requires from <= |occs|
    ensures r.Some? ==> from <= r.value < |occs| && SameDestination(occs[r.value], candidate, rule)
    ensures forall k :: from <= k < (if r.Some? then r.value else |occs|) ==> !SameDestination(occs[k], candidate, rule)
    decreases |occs| - from
  {
    if from == |occs| then None
    else if SameDestination(occs[from], candidate, rule) then Some(from)
    else NextFor(candidate, occs, from + 1, rule)
  }

  function EditOf(occ: Occurrence, rule: Rule): seq<Replacement>
  {
    if rule.rewrite(occ.raw).changed then [Replacement(occ.start, occ.end, rule.rewrite(occ.raw).text)] else []
  }

  /** The edits for the candidates from index c on, when occurrences before `from` are used up. */
  function Planned(candidates: seq<string>, c: nat, occs: seq<Occurrence>, from: nat, rule: Rule): seq<Replacement>
    requires c <= |candidates| && from <= |occs|
    decreases |candidates| - c
  {
    if c == |candidates| then []
    else
      var k := NextFor(candidates[c], occs, from, rule);
      if k.None? then Planned(candidates, c + 1, occs, |occs|, rule)
      else EditOf(occs[k.value], rule) + Planned(candidates, c + 1, occs, k.value + 1, rule)
  }

  /** The next occurrence for a candidate: the first one from index `from` on that has its destination. */
  ghost predicate IsNext(candidate: string, occs: seq<Occurrence>, from: nat, k: nat, rule: Rule)
  {
    from <= k < |occs| && SameDestination(occs[k], candidate, rule) &&
    forall j :: from <= j < k ==> !SameDestination(occs[j], candidate, rule)
  }

  /** Where the search for the i-th candidate goes on: behind the occurrence taken last. */
  ghost function SearchFrom(taken: seq<nat>, i: nat): nat
    requires i <= |taken|
  {
    if i == 0 then 0 else taken[i - 1] + 1
  }

  /** Each of the first candidates takes the next occurrence with its destination behind the ones taken before. */
  ghost predicate Takes(candidates: seq<string>, occs: seq<Occurrence>, taken: seq<nat>, rule: Rule)
  {
    |taken| <= |candidates| && forall i :: 0 <= i < |taken| ==> TakesNext(candidates, occs, taken, i, rule)
  }

  ghost predicate TakesNext(candidates: seq<string>, occs: seq<Occurrence>, taken: seq<nat>, i: nat, rule: Rule)
  {
    i < |taken| && i < |candidates| && IsNext(candidates[i], occs, SearchFrom(taken, i), taken[i], rule)
  }

  /** The first candidate that finds no occurrence; nothing is left for the ones behind it. */
  ghost predicate FindsNone(candidates: seq<string>, occs: seq<Occurrence>, taken: seq<nat>, rule: Rule)
  {
    |taken| < |candidates| &&
    forall j :: SearchFrom(taken, |taken|) <= j < |occs| ==> !SameDestination(occs[j], candidates[|taken|], rule)
  }

  /** e rewrites the destination of occ, which the rule changes. */
  predicate IsEdit(e: Replacement, occ: Occurrence, rule: Rule)
  {
    rule.rewrite(occ.raw).changed && e == Replacement(occ.start, occ.end, rule.rewrite(occ.raw).text)
  }

  /** The edits are those of the taken occurrences that the rule changes, no more and no fewer. */
  ghost predicate EditsTaken(reps: seq<Replacement>, occs: seq<Occurrence>, taken: seq<nat>, rule: Rule)
  {
    && (forall i :: 0 <= i < |taken| ==> taken[i] < |occs|)
    && forall e :: e in reps <==> exists i :: 0 <= i < |taken| && IsEdit(e, occs[taken[i]], rule)
  }

  ghost predicate Picks(candidates: seq<string>, occs: seq<Occurrence>, reps: seq<Replacement>, rule: Rule)
  {
    exists taken :: PicksBy(candidates, occs, taken, reps, rule)
  }

  ghost predicate PicksBy(candidates: seq<string>, occs: seq<Occurrence>, taken: seq<nat>, reps: seq<Replacement>, rule: Rule)
  {
    && Takes(candidates, occs, taken, rule) && EditsTaken(reps, occs, taken, rule)
    && (|taken| == |candidates| || FindsNone(candidates, occs, taken, rule))
  }

  /** How many of the occurrences taken raise a warning of their own. */
  function CountWarned(occs: seq<Occurrence>, taken: seq<nat>, rule: Rule): nat
    requires forall i :: 0 <= i < |taken| ==> taken[i] < |occs|
  {
    if taken == [] then 0
    else CountWarned(occs, taken[..|taken| - 1], rule) + (if rule.rewrite(occs[taken[|taken| - 1]].raw).warned then 1 else 0)
  }

  lemma OneMoreWarned(occs: seq<Occurrence>, taken: seq<nat>, k: nat, rule: Rule)
    requires k < |occs| && forall i :: 0 <= i < |taken| ==> taken[i] < |occs|
    ensures CountWarned(occs, taken + [k], rule) == CountWarned(occs, taken, rule) + (if rule.rewrite(occs[k].raw).warned then 1 else 0)
  {
    var all := taken + [k];
    assert all[..|all| - 1] == taken;
  }

  /** The plan after the first c candidates, before or behind the first one that finds nothing. */
  ghost predicate PicksUpTo(candidates: seq<string>, c: nat, occs: seq<Occurrence>, taken: seq<nat>, next: nat,
                            reps: seq<Replacement>, rule: Rule)
  {
    && c <= |candidates| && Takes(candidates, occs, taken, rule) && EditsTaken(reps, occs, taken, rule)
    && (if |taken| == c then next == SearchFrom(taken, c) else |taken| < c && FindsNone(candidates, occs, taken, rule) && next == |occs|)
  }

  lemma TakesMore(candidates: seq<string>, occs: seq<Occurrence>, taken: seq<nat>, k: nat, rule: Rule)
    requires Takes(candidates, occs, taken, rule) && |taken| < |candidates|
    requires IsNext(candidates[|taken|], occs, SearchFrom(taken, |taken|), k, rule)
    ensures Takes(candidates, occs, taken + [k], rule)
  {
    var all := taken + [k];
    forall i | 0 <= i < |all|
      ensures TakesNext(candidates, occs, all, i, rule)
    {
      assert SearchFrom(all, i) == SearchFrom(taken, i);
      if i < |taken| { assert all[i] == taken[i] && TakesNext(candidates, occs, taken, i, rule); }
    }
  }

  lemma EditsMore(reps: seq<Replacement>, occs: seq<Occurrence>, taken: seq<nat>, k: nat, rule: Rule)
    requires k < |occs| && EditsTaken(reps, occs, taken, rule)
    ensures EditsTaken(reps + EditOf(occs[k], rule), occs, taken + [k], rule)
  {
    var all, edits := taken + [k], reps + EditOf(occs[k], rule);
    forall e
      ensures e in edits <==> exists i :: 0 <= i < |all| && IsEdit(e, occs[all[i]], rule)
    {
      if e in EditOf(occs[k], rule) {
        assert IsEdit(e, occs[all[|taken|]], rule);
      }
      if e in reps {
        var i :| 0 <= i < |taken| && IsEdit(e, occs[taken[i]], rule);
        assert all[i] == taken[i];
      }
      if i :| 0 <= i < |all| && IsEdit(e, occs[all[i]], rule) {
        if i < |taken| { assert all[i] == taken[i]; }
      }
    }
  }

  /** One more candidate. */
  lemma PicksMore(candidates: seq<string>, c: nat, occs: seq<Occurrence>, taken: seq<nat>, next: nat, reps: seq<Replacement>, rule: Rule)
      returns (more: seq<nat>)
    requires c < |candidates| && next <= |occs| && PicksUpTo(candidates, c, occs, taken, next, reps, rule)
    ensures more == if NextFor(candidates[c], occs, next, rule).None? then taken else taken + [NextFor(candidates[c], occs, next, rule).value]
    ensures
      var k := NextFor(candidates[c], occs, next, rule);
      PicksUpTo(candidates, c + 1, occs, more, if k.None? then |occs| else k.value + 1,
                if k.None? then reps else reps + EditOf(occs[k.value], rule), rule)
  {
    var k := NextFor(candidates[c], occs, next, rule);
    more := taken;
    if k.Some? {
      more := taken + [k.value];
      TakesMore(candidates, occs, taken, k.value, rule);
      EditsMore(reps, occs, taken, k.value, rule);
    }
  }

  /** The parsed links are the scanned ones, in order. */
  ghost predicate Agree(candidates: seq<string>, occs: seq<Occurrence>, rule: Rule)
  {
    |candidates| == |occs| && forall k :: 0 <= k < |occs| ==> SameDestination(occs[k], candidates[k], rule)
  }

  /** Then each takes its own. */
  lemma {:induction false} AgreementTakesOwn(candidates: seq<string>, occs: seq<Occurrence>, taken: seq<nat>, k: nat, rule: Rule)
    requires Agree(candidates, occs, rule) && Takes(candidates, occs, taken, rule) && k < |occs|
    requires |taken| == |candidates| || FindsNone(candidates, occs, taken, rule)
    ensures k < |taken| && taken[k] == k
    decreases k
  {
    if k > 0 { AgreementTakesOwn(candidates, occs, taken, k - 1, rule); }
    assert SameDestination(occs[k], candidates[k], rule) && SearchFrom(taken, k) == k;
    if k < |taken| {
      assert TakesNext(candidates, occs, taken, k, rule);
    }
  }

  /** And no link the rule changes is left out. */
  lemma AgreementPicksAll(candidates: seq<string>, occs: seq<Occurrence>, reps: seq<Replacement>, rule: Rule)
    requires Agree(candidates, occs, rule) && Picks(candidates, occs, reps, rule)
    ensures forall e :: e in reps <==> exists k :: 0 <= k < |occs| && IsEdit(e, occs[k], rule)
  {
    var taken :| PicksBy(candidates, occs, taken, reps, rule);
    forall k | 0 <= k < |occs|
      ensures k < |taken| && taken[k] == k
    {
      AgreementTakesOwn(candidates, occs, taken, k, rule);
    }
    forall e
      ensures e in reps <==> exists k :: 0 <= k < |occs| && IsEdit(e, occs[k], rule)
    {
      if e in reps {
        var i :| 0 <= i < |taken| && IsEdit(e, occs[taken[i]], rule);
        assert IsEdit(e, occs[i], rule);
      }
      if k :| 0 <= k < |occs| && IsEdit(e, occs[k], rule) {
        assert IsEdit(e, occs[taken[k]], rule);
      }
    }
  }

  /** Every occurrence from index k on that the rule changes. */
  function AllEdits(occs: seq<Occurrence>, k: nat, rule: Rule): seq<Replacement>
    requires k <= |occs|
    decreases |occs| - k
  {
    if k == |occs| then [] else EditOf(occs[k], rule) + AllEdits(occs, k + 1, rule)
  }

  lemma NextIsHere(candidate: string, occs: seq<Occurrence>, k: nat, rule: Rule)
    requires k < |occs| && SameDestination(occs[k], candidate, rule)
    ensures NextFor(candidate, occs, k, rule) == Some(k)
  {
  }

  /** When parser and scanner see the same links, no link the rule changes is left out. */
  lemma {:induction false} AgreementEditsAll(candidates: seq<string>, occs: seq<Occurrence>, c: nat, rule: Rule)
    requires |candidates| == |occs| && c <= |occs|
    requires forall k :: 0 <= k < |occs| ==> SameDestination(occs[k], candidates[k], rule)
    ensures Planned(candidates, c, occs, c, rule) == AllEdits(occs, c, rule)
    decreases |occs| - c
  {
    if c < |occs| {
      NextIsHere(candidates[c], occs, c, rule);
      AgreementEditsAll(candidates, occs, c + 1, rule);
    }
  }

  /** The inner loop: advance to the candidate's occurrence, using up the ones passed over. */
  method AdvanceTo(candidate: string, occs: seq<Occurrence>, from: nat, rule: Rule) returns (next: nat, mapped: bool)
    requires from <= |occs|
    ensures mapped <==> NextFor(candidate, occs, from, rule).Some?
    ensures next == if mapped then NextFor(candidate, occs, from, rule).value + 1 else |occs|
  {
    next, mapped := from, false;
    while next < |occs| && !mapped
      invariant from <= next <= |occs|
      invariant !mapped ==> NextFor(candidate, occs, from, rule) == NextFor(candidate, occs, next, rule)
      invariant mapped ==> next > from && NextFor(candidate, occs, from, rule) == Some(next - 1)
      decreases |occs| - next
    {
      var occ := occs[next];
      next := next + 1;
      if rule.norm(occ.raw) != rule.norm(candidate) {
        continue;
      }
      mapped := true;
    }
  }

  /** The planned edits come from occurrences from index `from` on, each used at most once. */
  lemma {:induction false} PlannedIsPlan(candidates: seq<string>, c: nat, occs: seq<Occurrence>, from: nat, rule: Rule)
      returns (source: seq<nat>)
    requires c <= |candidates| && from <= |occs|
    ensures Plans(Planned(candidates, c, occs, from, rule), source, occs, candidates, rule)
    ensures forall k :: 0 <= k < |source| ==> source[k] >= from
    decreases |candidates| - c
  {
    source := [];
    if c < |candidates| {
      var k := NextFor(candidates[c], occs, from, rule);
      source := PlannedIsPlan(candidates, c + 1, occs, if k.None? then |occs| else k.value + 1, rule);
      if k.Some? {
        source := AddEdit(Planned(candidates, c + 1, occs, k.value + 1, rule), source, occs, candidates, rule, k.value, c);
      }
    }
  }

  lemma AddEdit(reps: seq<Replacement>, source: seq<nat>, occs: seq<Occurrence>, candidates: seq<string>, rule: Rule,
                k: nat, c: nat) returns (out: seq<nat>)
    requires Plans(reps, source, occs, candidates, rule) && forall j :: 0 <= j < |source| ==> source[j] > k
    requires k < |occs| && c < |candidates| && SameDestination(occs[k], candidates[c], rule)
    ensures Plans(EditOf(occs[k], rule) + reps, out, occs, candidates, rule)
    ensures forall j :: 0 <= j < |out| ==> out[j] >= k
  {
    out := source;
    if rule.rewrite(occs[k].raw).changed {
      assert candidates[c] in candidates;
      out := [k] + source;
    } else {
      assert EditOf(occs[k], rule) + reps == reps;
    }
  }

  /** What one candidate adds to the edits so far. */
  lemma PlanOne(candidates: seq<string>, c: nat, occs: seq<Occurrence>, from: nat, rule: Rule, reps: seq<Replacement>)
    requires c < |candidates| && from <= |occs|
    ensures
      var k := NextFor(candidates[c], occs, from, rule);
      var next := if k.None? then |occs| else k.value + 1;
      reps + Planned(candidates, c, occs, from, rule) ==
        (if k.None? then reps else reps + EditOf(occs[k.value], rule)) + Planned(candidates, c + 1, occs, next, rule)
  {
    var k := NextFor(candidates[c], occs, from, rule);
    if k.Some? {
      var edit, rest := EditOf(occs[k.value], rule), Planned(candidates, c + 1, occs, k.value + 1, rule);
      assert reps + (edit + rest) == (reps + edit) + rest;
    }
  }

  /**
   buildRewritePlan and buildPathChangeRewritePlan, which differ only in the rule: each parsed link
   takes the next occurrence with its destination; an occurrence is used at most once. There is one warning
   for each link that finds none, and one for each rewrite that raises one.
   */
  method BuildRewritePlan(candidates: seq<string>, occs: seq<Occurrence>, rule: Rule)
      returns (reps: seq<Replacement>, warnings: nat, ghost source: seq<nat>, ghost taken: seq<nat>)
    ensures reps == Planned(candidates, 0, occs, 0, rule) && Plans(reps, source, occs, candidates, rule)
    ensures PicksBy(candidates, occs, taken, reps, rule) && Picks(candidates, occs, reps, rule)
    ensures warnings == |candidates| - |taken| + CountWarned(occs, taken, rule)
  {
    reps, warnings, taken := [], 0, [];
    var next: nat := 0;
    for c := 0 to |candidates|
      invariant next <= |occs|
      invariant reps + Planned(candidates, c, occs, next, rule) == Planned(candidates, 0, occs, 0, rule)
      invariant PicksUpTo(candidates, c, occs, taken, next, reps, rule)
      invariant warnings == c - |taken| + CountWarned(occs, taken, rule)
    {
      PlanOne(candidates, c, occs, next, rule, reps);
      ghost var before := taken;
      taken := PicksMore(candidates, c, occs, taken, next, reps, rule);
      var mapped;
      next, mapped := AdvanceTo(candidates[c], occs, next, rule);
      if !mapped {
        warnings := warnings + 1;
        continue;
      }
      var occ := occs[next - 1];
      OneMoreWarned(occs, before, next - 1, rule);
      var r := rule.rewrite(occ.raw);
      if r.warned {
        warnings := warnings + 1;
      }
      if r.changed {
        reps := reps + [Replacement(occ.start, occ.end, r.text)];
      } else {
        assert reps + [] == reps;
      }
    }
    assert PicksBy(candidates, occs, taken, reps, rule);
    source := PlannedIsPlan(candidates, 0, occs, 0, rule);
  }

  /** What the scanner and the plan hand to applyReplacements is in the text, ordered and disjoint. */
  lemma PlannedEditsAreOrdered(content: string, occs: seq<Occurrence>,
                               reps: seq<Replacement>, source: seq<nat>, candidates: seq<string>, rule: Rule)
    requires OrderedLinks(content, occs) && Plans(reps, source, occs, candidates, rule)
    ensures InText(reps, |content|) && Ordered(reps)
    ensures forall i, j :: 0 <= i < j < |reps| ==> reps[i].end < reps[j].start
  {
    forall k | 0 <= k < |reps|
      ensures reps[k].start == occs[source[k]].start && reps[k].end == occs[source[k]].end
    {
    }
  }

  datatype RewriteResult = RewriteResult(content: string, replacements: seq<Replacement>)

  /** The result differs from the input by exactly the listed edits, each at its own place. */
  ghost predicate EditsOnly(content: string, r: RewriteResult)
  {
    && InText(r.replacements, |content|) && Ordered(r.replacements)
    && var gaps := Gaps(content, r.replacements, 0);
       content == Interleave(gaps, Olds(content, r.replacements)) && r.content == Interleave(gaps, News(r.replacements))
  }

  lemma AppliedEditsOnly(content: string, reps: seq<Replacement>)
    requires InText(reps, |content|) && Ordered(reps)
    ensures EditsOnly(content, RewriteResult(Applied(content, reps, 0), reps))
  {
    EveryEditLands(content, reps, 0);
    assert content[0..] == content;
  }

  /** An edit replaces a text by what the rule makes of that very text. */
  ghost predicate ByRule(content: string, e: Replacement, rewrite: string -> Rewritten)
    requires e.start <= e.end <= |content|
  {
    var was := rewrite(content[e.start..e.end]);
    was.changed && e.newValue == was.text
  }

  /** An edit replaces the destination of a link whose text begins outside code. */
  ghost predicate EditsALink(content: string, code: seq<Range>, e: Replacement)
    requires e.start <= e.end <= |content|
  {
    exists i: nat :: i < |content| && !Covered(code, i) && LinkAt(content, i) == Some(Occurrence(content[e.start..e.end], e.start, e.end))
  }

  lemma PlannedEditsFollowRule(content: string, code: seq<Range>, opens: seq<nat>, occs: seq<Occurrence>,
                               reps: seq<Replacement>, source: seq<nat>, candidates: seq<string>, rule: Rule, k: nat)
    requires OrderedLinks(content, occs) && LinksUpTo(content, code, |content|, opens, occs)
    requires Plans(reps, source, occs, candidates, rule) && k < |reps|
    ensures reps[k].start <= reps[k].end <= |content| && ByRule(content, reps[k], rule.rewrite) && EditsALink(content, code, reps[k])
  {
    assert IsOccurrence(content, 0, occs[source[k]]);
    assert LinksOutside(content, code)(opens[source[k]]) == Some(occs[source[k]]);
  }

  // ----- nothing is left out -----

  /** What RewriteLinks does with a destination; parsed and scanned destinations are compared without blanks and brackets. */
  function RuleOf(rewrite: string -> Rewritten): Rule
  {
    Rule(rewrite, NormalizeCandidateDestination)
  }

  /** The edits are those that the parsed links pick among the links of the page that begin outside code. */
  ghost predicate EditsPicked(content: string, code: seq<Range>, candidates: seq<string>, reps: seq<Replacement>, rule: Rule)
  {
    forall opens: seq<nat>, occs: seq<Occurrence> :: LinksUpTo(content, code, |content|, opens, occs) ==> Picks(candidates, occs, reps, rule)
  }

  /** What the rule makes of a destination stands where it was, moved by the drift of the edits before it. */
  ghost predicate LinkRewritten(r: RewriteResult, occ: Occurrence, rule: Rule)
  {
    var now := if rule.rewrite(occ.raw).changed then rule.rewrite(occ.raw).text else occ.raw;
    StandsAt(r.content, occ.start + Drift(r.replacements, occ.start), now)
  }

  /** When the parsed links are those of the page that begin outside code, in order, every one of them is rewritten. */
  ghost predicate AllRewritten(content: string, code: seq<Range>, candidates: seq<string>, r: RewriteResult, rule: Rule)
  {
    forall opens: seq<nat>, occs: seq<Occurrence> :: LinksUpTo(content, code, |content|, opens, occs) && Agree(candidates, occs, rule) ==>
      forall k :: 0 <= k < |occs| ==> LinkRewritten(r, occs[k], rule)
  }

  lemma EditsOnlyIsApplied(content: string, r: RewriteResult)
    requires EditsOnly(content, r)
    ensures r.content == Applied(content, r.replacements, 0)
  {
    EveryEditLands(content, r.replacements, 0);
  }

  lemma ChangedIsRewritten(content: string, r: RewriteResult, occ: Occurrence, rule: Rule, e: Replacement)
    requires EditsOnly(content, r) && IsEdit(e, occ, rule) && e in r.replacements
    ensures LinkRewritten(r, occ, rule)
  {
    EditsOnlyIsApplied(content, r);
    var m :| 0 <= m < |r.replacements| && r.replacements[m] == e;
    EditStands(content, r.replacements, 0, m);
    assert Lands(content, r.replacements, 0, e);
  }

  lemma UnchangedStays(content: string, r: RewriteResult, occ: Occurrence, rule: Rule)
    requires EditsOnly(content, r) && IsOccurrence(content, 0, occ) && !rule.rewrite(occ.raw).changed
    requires forall e :: e in r.replacements ==> e.end <= occ.start || occ.end <= e.start
    ensures LinkRewritten(r, occ, rule)
  {
    EditsOnlyIsApplied(content, r);
    StretchStays(content, r.replacements, 0, occ.start, occ.end);
  }

  lemma PickedIsRewritten(content: string, candidates: seq<string>, occs: seq<Occurrence>, r: RewriteResult, rule: Rule, k: nat)
    requires OrderedLinks(content, occs) && Agree(candidates, occs, rule) && Picks(candidates, occs, r.replacements, rule)
    requires EditsOnly(content, r) && k < |occs|
    ensures LinkRewritten(r, occs[k], rule)
  {
    AgreementPicksAll(candidates, occs, r.replacements, rule);
    if rule.rewrite(occs[k].raw).changed {
      var e := Replacement(occs[k].start, occs[k].end, rule.rewrite(occs[k].raw).text);
      assert IsEdit(e, occs[k], rule);
      ChangedIsRewritten(content, r, occs[k], rule, e);
    } else {
      forall e | e in r.replacements
        ensures e.end <= occs[k].start || occs[k].end <= e.start
      {
        var j :| 0 <= j < |occs| && IsEdit(e, occs[j], rule);
      }
      UnchangedStays(content, r, occs[k], rule);
    }
  }

  /** The links of a page are ordered, so all of them end up rewritten. */
  lemma PickedIsAllRewritten(content: string, code: seq<Range>, candidates: seq<string>, r: RewriteResult, rule: Rule)
    requires EditsOnly(content, r) && EditsPicked(content, code, candidates, r.replacements, rule)
    ensures AllRewritten(content, code, candidates, r, rule)
  {
    forall opens: seq<nat>, occs: seq<Occurrence>, k | LinksUpTo(content, code, |content|, opens, occs) && Agree(candidates, occs, rule) && 0 <= k < |occs|
      ensures LinkRewritten(r, occs[k], rule)
    {
      ScannedLinksAreOrdered(content, code, opens, occs);
      PickedIsRewritten(content, candidates, occs, r, rule, k);
    }
  }

  /** Without parsed links, or without text, no edit is due. */
  lemma NoneToPick(content: string, code: seq<Range>, candidates: seq<string>, rule: Rule)
    requires content == "" || candidates == []
    ensures EditsPicked(content, code, candidates, [], rule)
  {
    forall opens: seq<nat>, occs: seq<Occurrence> | LinksUpTo(content, code, |content|, opens, occs)
      ensures Picks(candidates, occs, [], rule)
    {
      assert forall k :: 0 <= k < |occs| ==> LinksOutside(content, code)(opens[k]) == Some(occs[k]);
      assert PicksBy(candidates, occs, [], [], rule);
    }
  }

  /** What the scanner found, whatever list of links is given for the page. */
  lemma ScannedIsPicked(content: string, code: seq<Range>, merged: seq<Range>, candidates: seq<string>, reps: seq<Replacement>,
                        rule: Rule, opens: seq<nat>, occs: seq<Occurrence>)
    requires forall o :: Covered(merged, o) <==> Covered(code, o)
    requires LinksUpTo(content, merged, |content|, opens, occs) && Picks(candidates, occs, reps, rule)
    ensures EditsPicked(content, code, candidates, reps, rule)
  {
    forall opens', occs' | LinksUpTo(content, code, |content|, opens', occs')
      ensures Picks(candidates, occs', reps, rule)
    {
      PageLinksAreDetermined(content, merged, code, opens, occs, opens', occs');
    }
  }

  /**
   The part that Rewrite and RewriteRelativeLinksForPathChange share. Every reported edit lands, replaces
   the destination of a link outside code by what the rule says of that very text, and nothing else in
   the page changes; the edits are those that the parsed links pick, and no link they agree on is left out.
   */
  method RewriteLinks(content: string, candidates: seq<string>, codeRanges: seq<Range>, rewrite: string -> Rewritten)
      returns (r: RewriteResult)
    ensures EditsOnly(content, r)
    ensures forall e :: e in r.replacements ==>
              e.start <= e.end <= |content| && ByRule(content, e, rewrite) && EditsALink(content, codeRanges, e)
    ensures EditsPicked(content, codeRanges, candidates, r.replacements, RuleOf(rewrite))
    ensures AllRewritten(content, codeRanges, candidates, r, RuleOf(rewrite))
  {
    r := RewriteResult(content, []);
    if content == "" || candidates == [] {
      NoEdits(content);
      NoneToPick(content, codeRanges, candidates, RuleOf(rewrite));
      PickedIsAllRewritten(content, codeRanges, candidates, r, RuleOf(rewrite));
      return;
    }
    var rule := RuleOf(rewrite);
    var excluded := MergeRanges(codeRanges);
    var occs, opens := ScanInlineLinkOccurrences(content, excluded);
    var reps, warnings, source, taken := BuildRewritePlan(candidates, occs, rule);
    ScannedIsPicked(content, codeRanges, excluded, candidates, reps, rule, opens, occs);
    PlannedEditsAreOrdered(content, occs, reps, source, candidates, rule);
    forall e | e in reps
      ensures e.start <= e.end <= |content| && ByRule(content, e, rewrite) && EditsALink(content, codeRanges, e)
    {
      var k :| 0 <= k < |reps| && reps[k] == e;
      PlannedEditsFollowRule(content, excluded, opens, occs, reps, source, candidates, rule, k);
    }
    AppliedEditsOnly(content, reps);
    if reps == [] {
      NoEdits(content);
      PickedIsAllRewritten(content, codeRanges, candidates, r, rule);
      return;
    }
    var out := ApplyReplacements(content, reps);
    r := RewriteResult(out, reps);
    PickedIsAllRewritten(content, codeRanges, candidates, r, rule);
  }

  /** The links of a page that stays, or moves by the rules: each edit keeps its suffix and reaches the new place of its target. */
  ghost predicate Follows(page: string, was: string, now: string, rules: seq<RewriteRule>)
  {
    var target, newPage := Mapped(Reaches(page, was), rules), Mapped(NormalizeRoutePath(page), rules);
    Reaches(newPage, now) == target && SplitLinkDestination(now).1 == SplitLinkDestination(was).1
  }

  lemma RewriteFollows(page: string, destination: string, rules: seq<RewriteRule>, parses: string -> bool)
    requires AllPlain(Segs(page)) && PlainRules(rules)
    requires RewriteLinkDestination(page, destination, rules, parses).changed
    ensures Follows(page, destination, RewriteLinkDestination(page, destination, rules, parses).text, rules)
  {
    MappedIsPlain(page, destination, rules);
    var base := SplitLinkDestination(destination).0;
    if HasPrefix(base, "/") {
      AbsoluteRewriteReaches(page, destination, rules, parses);
      AbsoluteFromAnywhere(page, Mapped(NormalizeRoutePath(page), rules), RewriteLinkDestination(page, destination, rules, parses).text, Mapped(Reaches(page, destination), rules));
    } else {
      RewriteCommutes(page, destination, rules, parses);
    }
  }

  /**
   A link that the rules move: not external, not to an asset, and what it reaches is given another place. One
   written relative to its page must also not lead to the page's own new place, which has no relative text.
   */
  predicate IsMoved(page: string, destination: string, rules: seq<RewriteRule>, parses: string -> bool)
  {
    var base, target := SplitLinkDestination(destination).0, Mapped(Reaches(page, destination), rules);
    && base != "" && !IsExternalLinkDestination(base) && !IsAssetLinkDestination(base) && parses(base)
    && target != Reaches(page, destination)
    && (HasPrefix(base, "/") || Segs(target) != Segs(Mapped(NormalizeRoutePath(page), rules)))
  }

  lemma MovedIsChanged(page: string, destination: string, rules: seq<RewriteRule>, parses: string -> bool)
    requires AllPlain(Segs(page)) && PlainRules(rules) && IsMoved(page, destination, rules, parses)
    ensures RewriteLinkDestination(page, destination, rules, parses).changed
  {
    MappedIsPlain(page, destination, rules);
    if !HasPrefix(SplitLinkDestination(destination).0, "/") {
      RewriteCommutes(page, destination, rules, parses);
    }
  }

  /** The link's new text stands in the page, and follows the rules. */
  ghost predicate LinkFollows(r: RewriteResult, page: string, occ: Occurrence, rules: seq<RewriteRule>)
  {
    exists now :: StandsAt(r.content, occ.start + Drift(r.replacements, occ.start), now) && Follows(page, occ.raw, now, rules)
  }

  /** Every link of the page that the rules move follows them. */
  ghost predicate AllFollow(content: string, code: seq<Range>, candidates: seq<string>, r: RewriteResult, page: string,
                            rules: seq<RewriteRule>, parses: string -> bool)
  {
    forall opens: seq<nat>, occs: seq<Occurrence> :: LinksUpTo(content, code, |content|, opens, occs) && Agree(candidates, occs, RuleOf(PageRewrite(page, rules, parses))) ==>
      forall k :: 0 <= k < |occs| && IsMoved(page, occs[k].raw, rules, parses) ==> LinkFollows(r, page, occs[k], rules)
  }

  function PageRewrite(page: string, rules: seq<RewriteRule>, parses: string -> bool): string -> Rewritten
  {
    destination => RewriteLinkDestination(page, destination, rules, parses)
  }

  lemma RewrittenFollows(content: string, code: seq<Range>, candidates: seq<string>, r: RewriteResult, page: string,
                         rules: seq<RewriteRule>, parses: string -> bool)
    requires AllPlain(Segs(page)) && PlainRules(rules)
    requires AllRewritten(content, code, candidates, r, RuleOf(PageRewrite(page, rules, parses)))
    ensures AllFollow(content, code, candidates, r, page, rules, parses)
  {
    var rule := RuleOf(PageRewrite(page, rules, parses));
    forall opens: seq<nat>, occs: seq<Occurrence>, k | LinksUpTo(content, code, |content|, opens, occs) && Agree(candidates, occs, rule) && 0 <= k < |occs| &&
                            IsMoved(page, occs[k].raw, rules, parses)
      ensures LinkFollows(r, page, occs[k], rules)
    {
      assert LinkRewritten(r, occs[k], rule);
      MovedIsChanged(page, occs[k].raw, rules, parses);
      RewriteFollows(page, occs[k].raw, rules, parses);
    }
  }

  /** Without rules no link is moved. */
  lemma NothingMoves(page: string, destination: string, parses: string -> bool)
    ensures !IsMoved(page, destination, [], parses)
  {
  }

  /**
   Rewrite, for the links of a page on which the rules act. Every edit replaces the destination of a link
   outside code by one that, from where the rules leave the page, reaches what the old one reached; and
   every link that the rules move and the parser saw gets one, so that its new text stands in the page.
   */
  method Rewrite(content: string, page: string, rules: seq<RewriteRule>, parses: string -> bool,
                 candidates: seq<string>, codeRanges: seq<Range>) returns (r: RewriteResult)
    ensures EditsOnly(content, r)
    ensures forall e :: e in r.replacements ==> e.start <= e.end <= |content| && EditsALink(content, codeRanges, e)
    ensures AllPlain(Segs(page)) && PlainRules(rules) ==>
              forall e :: e in r.replacements ==> Follows(page, content[e.start..e.end], e.newValue, rules)
    ensures rules == [] ==> r == RewriteResult(content, [])
    ensures rules != [] ==> EditsPicked(content, codeRanges, candidates, r.replacements, RuleOf(PageRewrite(page, rules, parses)))
    ensures AllPlain(Segs(page)) && PlainRules(rules) ==> AllFollow(content, codeRanges, candidates, r, page, rules, parses)
  {
    r := RewriteResult(content, []);
    if rules == [] {
      NoEdits(content);
      forall destination { NothingMoves(page, destination, parses); }
      return;
    }
    r := RewriteLinks(content, candidates, codeRanges, PageRewrite(page, rules, parses));
    if AllPlain(Segs(page)) && PlainRules(rules) {
      forall e | e in r.replacements
        ensures Follows(page, content[e.start..e.end], e.newValue, rules)
      {
        RewriteFollows(page, content[e.start..e.end], rules, parses);
      }
      RewrittenFollows(content, codeRanges, candidates, r, page, rules, parses);
    }
  }

  /** A relative link of a page that moves: from the new place it reaches where the rules put what it reached from the old one. */
  ghost predicate FollowsMove(oldPage: string, newPage: string, was: string, now: string, rules: seq<RewriteRule>)
  {
    Reaches(newPage, now) == Mapped(Reaches(oldPage, was), rules) && SplitLinkDestination(now).1 == SplitLinkDestination(was).1
  }

  lemma PathChangeFollows(oldPage: string, newPage: string, destination: string, rules: seq<RewriteRule>, parses: string -> bool)
    requires AllPlain(Segs(oldPage)) && PlainRules(rules)
    requires RewriteRelativeLinkForPathChange(oldPage, newPage, destination, rules, parses).changed
    ensures FollowsMove(oldPage, newPage, destination, RewriteRelativeLinkForPathChange(oldPage, newPage, destination, rules, parses).text, rules)
  {
    MappedIsPlain(oldPage, destination, rules);
    PathChangeCommutesIff(oldPage, newPage, destination, rules, parses);
  }

  function MoveRewrite(oldPage: string, newPage: string, rules: seq<RewriteRule>, parses: string -> bool): string -> Rewritten
  {
    destination => RewriteRelativeLinkForPathChange(oldPage, newPage, destination, rules, parses)
  }

  /** The link stands in the page, rewritten or not, and follows the move. */
  ghost predicate LinkFollowsMove(r: RewriteResult, oldPage: string, newPage: string, occ: Occurrence, rules: seq<RewriteRule>)
  {
    exists now :: StandsAt(r.content, occ.start + Drift(r.replacements, occ.start), now) && FollowsMove(oldPage, newPage, occ.raw, now, rules)
  }

  /** Every relative link of the page that does not lead to the page's own new place follows the move. */
  ghost predicate AllFollowMove(content: string, code: seq<Range>, candidates: seq<string>, r: RewriteResult, oldPage: string,
                                newPage: string, rules: seq<RewriteRule>, parses: string -> bool)
  {
    forall opens: seq<nat>, occs: seq<Occurrence> ::
      LinksUpTo(content, code, |content|, opens, occs) && Agree(candidates, occs, RuleOf(MoveRewrite(oldPage, newPage, rules, parses))) ==>
      forall k :: 0 <= k < |occs| && IsPageRelative(occs[k].raw, parses) && Segs(Mapped(Reaches(oldPage, occs[k].raw), rules)) != Segs(newPage) ==>
        LinkFollowsMove(r, oldPage, newPage, occs[k], rules)
  }

  /** Changed or not, the text that a relative link has after the move follows it. */
  lemma MoveFollows(oldPage: string, newPage: string, destination: string, rules: seq<RewriteRule>, parses: string -> bool)
    requires AllPlain(Segs(oldPage)) && PlainRules(rules) && IsPageRelative(destination, parses)
    requires Segs(Mapped(Reaches(oldPage, destination), rules)) != Segs(newPage)
    ensures
      var to := RewriteRelativeLinkForPathChange(oldPage, newPage, destination, rules, parses);
      FollowsMove(oldPage, newPage, destination, to.text, rules) && (!to.changed ==> to.text == destination)
  {
    MappedIsPlain(oldPage, destination, rules);
    PathChangeCommutesIff(oldPage, newPage, destination, rules, parses);
    PathChangeIsRetarget(oldPage, newPage, destination, rules, parses);
  }

  lemma RewrittenFollowsMove(content: string, code: seq<Range>, candidates: seq<string>, r: RewriteResult, oldPage: string,
                             newPage: string, rules: seq<RewriteRule>, parses: string -> bool)
    requires AllPlain(Segs(oldPage)) && PlainRules(rules)
    requires AllRewritten(content, code, candidates, r, RuleOf(MoveRewrite(oldPage, newPage, rules, parses)))
    ensures AllFollowMove(content, code, candidates, r, oldPage, newPage, rules, parses)
  {
    var rule := RuleOf(MoveRewrite(oldPage, newPage, rules, parses));
    forall opens: seq<nat>, occs: seq<Occurrence>, k | LinksUpTo(content, code, |content|, opens, occs) && Agree(candidates, occs, rule) && 0 <= k < |occs| &&
                            IsPageRelative(occs[k].raw, parses) && Segs(Mapped(Reaches(oldPage, occs[k].raw), rules)) != Segs(newPage)
      ensures LinkFollowsMove(r, oldPage, newPage, occs[k], rules)
    {
      assert LinkRewritten(r, occs[k], rule);
      MoveFollows(oldPage, newPage, occs[k].raw, rules, parses);
    }
  }

  /**
   RewriteRelativeLinksForPathChange, for the content of a page that moves. Every edit replaces the
   destination of a link outside code by one that reaches, from the page's new path, where the rules put
   what the old one reached; and afterwards every relative link that the parser saw, and that does not
   lead to the page itself, does so.
   */
  method RewriteRelativeLinksForPathChange(content: string, oldPage: string, newPage: string, rules: seq<RewriteRule>,
                                           parses: string -> bool, candidates: seq<string>, codeRanges: seq<Range>)
      returns (r: RewriteResult)
    ensures EditsOnly(content, r)
    ensures forall e :: e in r.replacements ==> e.start <= e.end <= |content| && EditsALink(content, codeRanges, e)
    ensures AllPlain(Segs(oldPage)) && PlainRules(rules) ==>
              forall e :: e in r.replacements ==> FollowsMove(oldPage, newPage, content[e.start..e.end], e.newValue, rules)
    ensures oldPage == newPage ==> r == RewriteResult(content, [])
    ensures oldPage != newPage ==>
              EditsPicked(content, codeRanges, candidates, r.replacements, RuleOf(MoveRewrite(oldPage, newPage, rules, parses)))
    ensures oldPage != newPage && AllPlain(Segs(oldPage)) && PlainRules(rules) ==>
              AllFollowMove(content, codeRanges, candidates, r, oldPage, newPage, rules, parses)
  {
    r := RewriteResult(content, []);
    if oldPage == newPage {
      NoEdits(content);
      return;
    }
    r := RewriteLinks(content, candidates, codeRanges, MoveRewrite(oldPage, newPage, rules, parses));
    if AllPlain(Segs(oldPage)) && PlainRules(rules) {
      forall e | e in r.replacements
        ensures FollowsMove(oldPage, newPage, content[e.start..e.end], e.newValue, rules)
      {
        PathChangeFollows(oldPage, newPage, content[e.start..e.end], rules, parses);
      }
      RewrittenFollowsMove(content, codeRanges, candidates, r, oldPage, newPage, rules, parses);
    }
  }

  lemma NoEdits(content: string)
    ensures EditsOnly(content, RewriteResult(content, []))
  {
    AppliedEditsOnly(content, []);
    assert content[0..] == content;
  }

  // ----- wiki links -----

  /** One regular-expression match of [[target]] or [[target|alias]], with the text that replaces it. */
  datatype Match = Match(start: nat, end: nat, newValue: string)

  /** sort.SliceStable by start. */
  function InsertByStart(r: Replacement, sorted: seq<Replacement>): (out: seq<Replacement>)
    requires SortedStarts(sorted)
    ensures SortedStarts(out) && |out| == |sorted| + 1
    ensures forall x :: x in out <==> x == r || x in sorted
    ensures forall i :: 0 <= i < |out| ==> out[i].start >= r.start || (sorted != [] && out[i].start >= sorted[0].start)
  {
    if sorted == [] || r.start <= sorted[0].start then [r] + sorted
    else
      assert [sorted[0]] + sorted[1..] == sorted;
      [sorted[0]] + InsertByStart(r, sorted[1..])
  }

  function SortByStart(reps: seq<Replacement>): (out: seq<Replacement>)
    ensures SortedStarts(out) && |out| == |reps|
    ensures forall x :: x in out <==> x in reps
  {
    if reps == [] then []
    else
      assert [reps[0]] + reps[1..] == reps;
      InsertByStart(reps[0], SortByStart(reps[1..]))
  }

  /** The edits that start at x, in their order. */
  function StartingAt(reps: seq<Replacement>, x: nat): seq<Replacement>
  {
    if reps == [] then [] else (if reps[0].start == x then [reps[0]] else []) + StartingAt(reps[1..], x)
  }

  lemma StartingFirst(first: Replacement, rest: seq<Replacement>, x: nat)
    ensures StartingAt([first] + rest, x) == (if first.start == x then [first] else []) + StartingAt(rest, x)
  {
    assert ([first] + rest)[1..] == rest;
  }

  lemma StartingBehind(first: Replacement, r: Replacement, rest: seq<Replacement>, out: seq<Replacement>, x: nat)
    requires first.start < r.start && StartingAt(out, x) == StartingAt([r], x) + StartingAt(rest, x)
    ensures StartingAt([first] + out, x) == StartingAt([r], x) + StartingAt([first] + rest, x)
  {
    StartingFirst(first, out, x);
    StartingFirst(first, rest, x);
    assert [r][1..] == [];
  }

  lemma {:induction false} InsertIsStable(r: Replacement, sorted: seq<Replacement>, x: nat)
    requires SortedStarts(sorted)
    ensures StartingAt(InsertByStart(r, sorted), x) == StartingAt([r], x) + StartingAt(sorted, x)
  {
    if sorted == [] || r.start <= sorted[0].start {
      StartingFirst(r, sorted, x);
      StartingFirst(r, [], x);
      assert [r] + [] == [r];
    } else {
      InsertIsStable(r, sorted[1..], x);
      StartingBehind(sorted[0], r, sorted[1..], InsertByStart(r, sorted[1..]), x);
      assert [sorted[0]] + sorted[1..] == sorted;
    }
  }

  /** Edits that start at the same place keep their order. */
  lemma {:induction false} SortIsStable(reps: seq<Replacement>, x: nat)
    ensures StartingAt(SortByStart(reps), x) == StartingAt(reps, x)
  {
    if reps != [] {
      SortIsStable(reps[1..], x);
      InsertIsStable(reps[0], SortByStart(reps[1..]), x);
      StartingFirst(reps[0], reps[1..], x);
      StartingFirst(reps[0], [], x);
      assert [reps[0]] + [] == [reps[0]] && [reps[0]] + reps[1..] == reps;
    }
  }

  /** The matches of all rewrites that do not begin inside code. */
  method CollectMatches(matches: seq<Match>, excluded: seq<Range>) returns (reps: seq<Replacement>)
    requires SortedByStart(excluded)
    ensures forall r :: r in reps <==> Match(r.start, r.end, r.newValue) in matches && !Covered(excluded, r.start)
  {
    reps := [];
    for i := 0 to |matches|
      invariant forall r :: r in reps <==> Match(r.start, r.end, r.newValue) in matches[..i] && !Covered(excluded, r.start)
    {
      var m := matches[i];
      assert matches[..i + 1] == matches[..i] + [m];
      var skip := IsExcludedOffset(m.start, excluded);
      if !skip {
        reps := reps + [Replacement(m.start, m.end, m.newValue)];
      }
    }
    assert matches[..|matches|] == matches;
  }

  lemma MatchesInText(matches: seq<Match>, reps: seq<Replacement>, n: nat)
    requires forall m :: m in matches ==> m.start < m.end <= n
    requires forall r :: r in reps ==> Match(r.start, r.end, r.newValue) in matches
    ensures InText(SortByStart(reps), n)
  {
    var sorted := SortByStart(reps);
    forall i | 0 <= i < |sorted|
      ensures sorted[i].start < sorted[i].end <= n
    {
      assert sorted[i] in sorted;
      assert Match(sorted[i].start, sorted[i].end, sorted[i].newValue) in matches;
    }
  }

  /** The match begins inside the kept edit, which begins no later: it is the edit itself, or gives way to it. */
  predicate BeginsIn(m: Match, e: Replacement)
  {
    e.start <= m.start < e.end
  }

  /** A match that is not kept begins inside one that is. */
  lemma MatchesKept(matches: seq<Match>, code: seq<Range>, reps: seq<Replacement>, n: nat)
    requires forall m :: m in matches ==> m.start < m.end <= n
    requires forall r :: r in reps <==> Match(r.start, r.end, r.newValue) in matches && !Covered(code, r.start)
    ensures forall m :: m in matches && !Covered(code, m.start) ==> exists e :: e in Kept(SortByStart(reps)) && BeginsIn(m, e)
  {
    MatchesInText(matches, reps, n);
    var sorted := SortByStart(reps);
    forall m | m in matches && !Covered(code, m.start)
      ensures exists e :: e in Kept(sorted) && BeginsIn(m, e)
    {
      var e := Replacement(m.start, m.end, m.newValue);
      assert Match(e.start, e.end, e.newValue) == m;
      assert e in reps && e in sorted;
      if e in Kept(sorted) {
        assert BeginsIn(m, e);
      } else {
        var j: nat :| j < |sorted| && sorted[j] == e;
        DroppedOverlapsKept(sorted, n, j);
        var i: nat :| i < j && sorted[i] in Kept(sorted) && Shadows(sorted, i, e);
        assert BeginsIn(m, sorted[i]);
      }
    }
  }

  /**
   RewriteWikiLinksPrecompiled, from the matches on. The edits kept are disjoint matches none of which
   begins inside code, each of them lands, nothing else changes, and a match outside code is dropped
   only when it begins inside a kept one.
   */
  method RewriteWikiLinks(content: string, matches: seq<Match>, codeRanges: seq<Range>) returns (r: RewriteResult)
    requires forall m :: m in matches ==> m.start < m.end <= |content|
    ensures EditsOnly(content, r)
    ensures forall e :: e in r.replacements ==>
              Match(e.start, e.end, e.newValue) in matches && !Covered(codeRanges, e.start)
    ensures forall m :: m in matches && !Covered(codeRanges, m.start) ==> exists e :: e in r.replacements && BeginsIn(m, e)
  {
    var excluded := MergeRanges(codeRanges);
    var reps := CollectMatches(matches, excluded);
    var sorted := SortByStart(reps);
    MatchesInText(matches, reps, |content|);
    var a := new Replacement[|sorted|](i requires 0 <= i < |sorted| => sorted[i]);
    assert a[..] == sorted;
    var n := CompactOverlaps(a);
    var kept := a[..n];
    KeptIsOrdered(sorted, |content|);
    AppliedEditsOnly(content, kept);
    var out := ApplyReplacements(content, kept);
    r := RewriteResult(out, kept);
    MatchesKept(matches, codeRanges, reps, |content|);
  }
}
