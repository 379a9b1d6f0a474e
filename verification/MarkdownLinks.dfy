/**
 The importer's rewrite of Markdown links in plain text: rewriteMarkdownLinks and rewriteDestination of
 internal/importer/content_transformer.go, and the pass over a whole page.

 What a destination resolves to is an arbitrary function of where it stands and what it says: it looks
 into the import plan and may upload an asset, or fail.
 */
module MarkdownLinks {
  import opened Common
  import opened Text
  import opened CodeSpans
  import R = Replacements

  // ----- the destination in a link's parentheses -----

  /** The parenthesis that closes depth + 1 open ones, from i on. */
  function ParenEnd(content: string, i: nat, depth: nat): (r: Option<nat>)
    ensures r.Some? ==> i <= r.value < |content|
    decreases |content| - i
  {
    if i >= |content| then None
    else if content[i] == '(' then ParenEnd(content, i + 1, depth + 1)
    else if content[i] == ')' then (if depth == 0 then Some(i) else ParenEnd(content, i + 1, depth - 1))
    else ParenEnd(content, i + 1, depth)
  }

  /** Opening less closing parentheses between two positions. */
  function Net(content: string, i: nat, j: nat): int
    requires i <= j <= |content|
    decreases j - i
  {
    if i == j then 0 else Net(content, i + 1, j) + (if content[i] == '(' then 1 else if content[i] == ')' then -1 else 0)
  }

  /** The end found is the first parenthesis that closes more than was opened; none is found if there is none. */
  lemma {:induction false} ParenEndIsFirst(content: string, i: nat, depth: nat)
    requires i <= |content|
    ensures
      var r := ParenEnd(content, i, depth);
      && (r.Some? ==> content[r.value] == ')' && Net(content, i, r.value) + depth == 0)
      && forall j :: i <= j < |content| && (r.Some? ==> j < r.value) && content[j] == ')' ==> Net(content, i, j) + depth > 0
    decreases |content| - i
  {
    if i < |content| {
      if content[i] == '(' {
        ParenEndIsFirst(content, i + 1, depth + 1);
      } else if content[i] != ')' {
        ParenEndIsFirst(content, i + 1, depth);
      } else if depth > 0 {
        ParenEndIsFirst(content, i + 1, depth - 1);
      }
    }
  }

  /** findMarkdownLinkDestinationEnd. */
  method FindMarkdownLinkDestinationEnd(content: string, start: nat) returns (end: int)
    ensures end == match ParenEnd(content, start, 0) case None => -1 case Some(at) => at
  {
    var depth: nat, i := 0, start;
    while i < |content|
      invariant ParenEnd(content, start, 0) == ParenEnd(content, i, depth)
    {
      if content[i] == '(' {
        depth := depth + 1;
      } else if content[i] == ')' {
        if depth == 0 {
          return i;
        }
        depth := depth - 1;
      }
      i := i + 1;
    }
    return -1;
  }

  // ----- the scan -----

  function IndexOf(content: string, i: nat, c: char): (r: Option<nat>)
    ensures r.Some? ==> i <= r.value < |content|
    decreases |content| - i
  {
    if i >= |content| then None else if content[i] == c then Some(i) else IndexOf(content, i + 1, c)
  }

  lemma {:induction false} IndexOfIsFirst(content: string, i: nat, c: char)
    ensures
      var r := IndexOf(content, i, c);
      && (r.Some? ==> content[r.value] == c)
      && forall j :: i <= j < |content| && (r.Some? ==> j < r.value) ==> content[j] != c
    decreases |content| - i
  {
    if i < |content| && content[i] != c { IndexOfIsFirst(content, i + 1, c); }
  }

  /** What begins at a position: a plain character, a bracketed text, a link, or a part that never closes. */
  datatype Step = Plain | Label(end: nat) | Unclosed | Link(start: nat, stop: nat)

  function Bracket(content: string, i: nat): (r: Option<nat>)
    requires i < |content|
    ensures r.Some? ==> i <= r.value < |content| && content[r.value] == '['
  {
    if content[i] == '[' then Some(i)
    else if content[i] == '!' && i + 1 < |content| && content[i + 1] == '[' then Some(i + 1)
    else None
  }

  function StepAt(content: string, i: nat): (s: Step)
    requires i < |content|
    ensures s.Label? ==> i < s.end < |content|
    ensures s.Link? ==> i + 2 < s.start <= s.stop < |content|
  {
    var bracket := Bracket(content, i);
    if bracket.None? then Plain
    else
      var labelEnd := IndexOf(content, bracket.value, ']');
      if labelEnd.None? then Unclosed
      else if labelEnd.value + 1 >= |content| || content[labelEnd.value + 1] != '(' then Label(labelEnd.value)
      else
        var stop := ParenEnd(content, labelEnd.value + 2, 0);
        if stop.None? then Unclosed else Link(labelEnd.value + 2, stop.value)
  }

  type Steps = nat -> Step

  /** What begins at each position of the text. */
  function StepsOf(content: string): (steps: Steps)
    ensures Within(steps, |content|)
  {
    (i: nat) => if i < |content| then StepAt(content, i) else Plain
  }

  /** Steps lead onward and stay in a text of length n. */
  ghost predicate Within(steps: Steps, n: nat)
  {
    forall i: nat :: i < n ==>
      (steps(i).Label? ==> i < steps(i).end < n) && (steps(i).Link? ==> i + 2 < steps(i).start <= steps(i).stop < n)
  }

  /** The destinations found from position i on, behind those found before. */
  function Found(n: nat, steps: Steps, i: nat, scan: Scan): Scan
    requires Within(steps, n)
    decreases n - i
  {
    if i >= n then scan
    else
      match steps(i)
      case Plain => Found(n, steps, i + 1, scan)
      case Label(end) => Found(n, steps, end + 1, scan)
      case Unclosed => scan
      case Link(start, stop) => Found(n, steps, stop + 1, Behind(scan, start, stop))
  }

  /** One of the destinations found is this one. */
  predicate Has(scan: Scan, start: nat, stop: nat)
  {
    scan.Behind? && ((scan.start == start && scan.stop == stop) || Has(scan.before, start, stop))
  }

  /** A link whose label begins at bracket b: no closing bracket inside it, and the destination closes at stop. */
  ghost predicate LinkFrom(content: string, b: nat, start: nat, stop: nat)
  {
    && b + 2 < start <= |content| && content[b] == '[' && content[start - 2] == ']' && content[start - 1] == '('
    && (forall j :: b <= j < start - 2 ==> content[j] != ']')
    && ParenEnd(content, start, 0) == Some(stop)
  }

  ghost predicate IsLink(content: string, start: nat, stop: nat)
  {
    exists b :: LinkFrom(content, b, start, stop)
  }

  lemma LinkStepIsLink(content: string, i: nat)
    requires i < |content| && StepAt(content, i).Link?
    ensures IsLink(content, StepAt(content, i).start, StepAt(content, i).stop)
  {
    var s, b := StepAt(content, i), Bracket(content, i).value;
    IndexOfIsFirst(content, b, ']');
    assert LinkFrom(content, b, s.start, s.stop);
  }

  /** What is found is in order and disjoint. */
  lemma {:induction false} FoundSplits(content: string, steps: Steps, i: nat, scan: Scan)
    requires Within(steps, |content|) && Splits(content, scan) && scan.Plain() <= i <= |content|
    ensures Splits(content, Found(|content|, steps, i, scan))
    decreases |content| - i
  {
    if i < |content| {
      match steps(i)
      case Plain => FoundSplits(content, steps, i + 1, scan);
      case Label(end) => FoundSplits(content, steps, end + 1, scan);
      case Unclosed =>
      case Link(start, stop) => FoundSplits(content, steps, stop + 1, Behind(scan, start, stop));
    }
  }

  /** What has been found stays found. */
  lemma {:induction false} FoundKeeps(n: nat, steps: Steps, i: nat, scan: Scan, a: nat, e: nat)
    requires Within(steps, n) && Has(scan, a, e)
    ensures Has(Found(n, steps, i, scan), a, e)
    decreases n - i
  {
    if i < n {
      match steps(i)
      case Plain => FoundKeeps(n, steps, i + 1, scan, a, e);
      case Label(end) => FoundKeeps(n, steps, end + 1, scan, a, e);
      case Unclosed =>
      case Link(start, stop) => FoundKeeps(n, steps, stop + 1, Behind(scan, start, stop), a, e);
    }
  }

  /** Nothing but links is found. */
  lemma {:induction false} FoundAreSteps(n: nat, steps: Steps, i: nat, scan: Scan, a: nat, e: nat)
    requires Within(steps, n) && Has(Found(n, steps, i, scan), a, e) && !Has(scan, a, e)
    ensures exists j :: i <= j < n && steps(j) == Link(a, e)
    decreases n - i
  {
    if i < n {
      match steps(i)
      case Plain => FoundAreSteps(n, steps, i + 1, scan, a, e);
      case Label(end) => FoundAreSteps(n, steps, end + 1, scan, a, e);
      case Unclosed =>
      case Link(start, stop) =>
        if start != a || stop != e { FoundAreSteps(n, steps, stop + 1, Behind(scan, start, stop), a, e); }
    }
  }

  /** The links of a text. */
  function LinksOf(content: string): (scan: Scan)
    ensures Splits(content, scan)
  {
    FoundSplits(content, StepsOf(content), 0, Begin);
    Found(|content|, StepsOf(content), 0, Begin)
  }

  /** Every destination found is that of a link. */
  lemma LinksAreLinks(content: string, a: nat, e: nat)
    requires Has(LinksOf(content), a, e)
    ensures IsLink(content, a, e)
  {
    FoundAreSteps(|content|, StepsOf(content), 0, Begin, a, e);
    var j :| 0 <= j < |content| && StepsOf(content)(j) == Link(a, e);
    LinkStepIsLink(content, j);
  }

  /** A link's parenthesis opens here and never closes. */
  predicate NeverCloses(content: string, p: nat)
  {
    p + 1 < |content| && content[p] == ']' && content[p + 1] == '(' && ParenEnd(content, p + 2, 0).None?
  }

  /** Some link found has the bracket inside its destination. */
  ghost predicate InDestination(scan: Scan, b: nat)
  {
    exists a: nat, e: nat :: Has(scan, a, e) && a <= b <= e
  }

  /** Some link between the two positions never closes. */
  ghost predicate UnclosedBetween(content: string, i: nat, j: nat)
  {
    exists p :: i <= p < j && NeverCloses(content, p)
  }

  /** The link is found, or its bracket lies in another link's destination or behind a link that never closes. */
  ghost predicate AccountedFor(content: string, links: Scan, from: nat, b: nat, start: nat, stop: nat)
    requires b + 2 < start
  {
    Has(links, start, stop) || InDestination(links, b) || UnclosedBetween(content, from, start - 2)
  }

  /** No link is missed, but for these two reasons. */
  lemma NoLinkMissed(content: string, b: nat, start: nat, stop: nat)
    requires LinkFrom(content, b, start, stop)
    ensures AccountedFor(content, LinksOf(content), 0, b, start, stop)
  {
    NotMissedFrom(content, StepsOf(content), 0, Begin, b, start, stop);
  }

  lemma Earlier(content: string, links: Scan, i: nat, j: nat, b: nat, start: nat, stop: nat)
    requires i <= j && b + 2 < start && AccountedFor(content, links, j, b, start, stop)
    ensures AccountedFor(content, links, i, b, start, stop)
  {
  }

  lemma {:induction false} NotMissedFrom(content: string, steps: Steps, i: nat, scan: Scan, b: nat, start: nat, stop: nat)
    requires Within(steps, |content|) && forall j: nat :: j < |content| ==> steps(j) == StepAt(content, j)
    requires i <= b && LinkFrom(content, b, start, stop)
    ensures AccountedFor(content, Found(|content|, steps, i, scan), i, b, start, stop)
    decreases |content| - i
  {
    StepBefore(content, i, b, start, stop);
    var links := Found(|content|, steps, i, scan);
    match steps(i)
    case Plain =>
      NotMissedFrom(content, steps, i + 1, scan, b, start, stop);
      Earlier(content, links, i, i + 1, b, start, stop);
    case Label(end) =>
      NotMissedFrom(content, steps, end + 1, scan, b, start, stop);
      Earlier(content, links, i, end + 1, b, start, stop);
    case Unclosed =>
    case Link(from, to) =>
      if to < b {
        NotMissedFrom(content, steps, to + 1, Behind(scan, from, to), b, start, stop);
        Earlier(content, links, i, to + 1, b, start, stop);
      } else {
        FoundKeeps(|content|, steps, to + 1, Behind(scan, from, to), from, to);
        FoundOrAround(content, links, i, from, to, b, start, stop);
      }
  }

  lemma FoundOrAround(content: string, links: Scan, i: nat, from: nat, to: nat, b: nat, start: nat, stop: nat)
    requires b + 2 < start && Has(links, from, to) && (from <= b <= to || (from == start && to == stop))
    ensures AccountedFor(content, links, i, b, start, stop)
  {
  }

  /** What a step at or before the bracket of a link may be. */
  lemma StepBefore(content: string, i: nat, b: nat, start: nat, stop: nat)
    requires i <= b && LinkFrom(content, b, start, stop)
    ensures
      match StepAt(content, i)
      case Plain => i < b
      case Label(end) => end < b
      case Unclosed => UnclosedBetween(content, i, start - 2)
      case Link(from, to) => from <= b || (from == start && to == stop)
  {
    match StepAt(content, i)
    case Plain =>
    case Label(_) => ClosingBracketOf(content, i, b, start, stop);
    case Unclosed => UnclosedBefore(content, i, b, start, stop);
    case Link(from, _) => if b < from { SameLink(content, i, b, start, stop); }
  }

  lemma UnclosedBefore(content: string, i: nat, b: nat, start: nat, stop: nat)
    requires i <= b && LinkFrom(content, b, start, stop) && StepAt(content, i).Unclosed?
    ensures UnclosedBetween(content, i, start - 2)
  {
    ClosingBracketOf(content, i, b, start, stop);
    IndexOfIsFirst(content, Bracket(content, i).value, ']');
    assert NeverCloses(content, IndexOf(content, Bracket(content, i).value, ']').value);
  }

  lemma SameLink(content: string, i: nat, b: nat, start: nat, stop: nat)
    requires i <= b && LinkFrom(content, b, start, stop) && StepAt(content, i).Link? && b < StepAt(content, i).start
    ensures StepAt(content, i) == Link(start, stop)
  {
    ClosingBracketOf(content, i, b, start, stop);
    var s := StepAt(content, i);
    assert content[s.start - 1] == '(' && content[b] == '[';
  }

  /** The first closing bracket behind a bracket at or before b is before b or the link's own. */
  lemma ClosingBracketOf(content: string, i: nat, b: nat, start: nat, stop: nat)
    requires i <= b && LinkFrom(content, b, start, stop) && Bracket(content, i).Some?
    ensures
      var end := IndexOf(content, Bracket(content, i).value, ']');
      end.Some? && (end.value < b || end.value == start - 2)
  {
    IndexOfIsFirst(content, Bracket(content, i).value, ']');
    assert content[start - 2] == ']' && Bracket(content, i).value <= b;
  }

  // ----- one destination -----

  /** The href a resolver is asked for, and what it answers; empty for what it does not resolve. */
  type Resolve = (nat, string) -> Result<string, string>

  /** splitMarkdownDestination: an opening angle bracket, the href, and a title or closing bracket. */
  function SplitMarkdownDestination(destination: string): (r: (string, string, string))
    ensures r.0 + r.1 + r.2 == destination
  {
    if destination != "" && destination[0] == '<' && '>' in destination then
      var cut := CutAt(destination[1..], {'>'});
      PutTogether(destination, "<", cut.0, cut.1);
      ("<", cut.0, cut.1)
    else
      var cut := CutAt(destination, {' ', '\t'});
      PutTogether(destination, "", cut.0, cut.1);
      ("", cut.0, cut.1)
  }

  lemma PutTogether(whole: string, a: string, b: string, c: string)
    requires a <= whole && b + c == whole[|a|..]
    ensures a + b + c == whole
  {
    assert a + b + c == a + (b + c);
  }

  predicate LooksLikeWindowsDrivePath(value: string)
  {
    |value| >= 3 && ('a' <= value[0] <= 'z' || 'A' <= value[0] <= 'Z') && value[1] == ':' && (value[2] == '\\' || value[2] == '/')
  }

  function NormalizeImportedHref(href: string): string
  {
    if TrimSpace(href) == "" || LooksLikeWindowsDrivePath(TrimSpace(href)) then href
    else seq(|href|, i requires 0 <= i < |href| => if href[i] == '\\' then '/' else href[i])
  }

  /** rewriteDestination. */
  function RewriteDestination(at: nat, destination: string, resolve: Resolve): Result<string, string>
  {
    var trimmed := TrimSpace(destination);
    if trimmed == "" then Ok(destination)
    else
      var parts := SplitMarkdownDestination(trimmed);
      match resolve(at, NormalizeImportedHref(parts.1))
      case Err(e) => Err(e)
      case Ok(resolved) => Ok(if resolved == "" then destination else parts.0 + resolved + parts.2)
  }

  /** A destination's parts: brackets around the href, or the href up to a blank; what follows it is a title, or nothing. */
  predicate PartsOf(text: string, bracket: string, href: string, title: string)
  {
    text == bracket + href + title &&
    if bracket == "<" then '>' !in href && HasPrefix(title, ">")
    else
      && bracket == "" && ' ' !in href && '\t' !in href && (title == "" || title[0] in {' ', '\t'})
      && !(HasPrefix(text, "<") && '>' in text)
  }

  lemma PartsAreUnique(text: string, bracket: string, href: string, title: string)
    requires PartsOf(text, bracket, href, title) && text != ""
    ensures SplitMarkdownDestination(text) == (bracket, href, title)
  {
    if bracket == "<" {
      assert text[0] == '<' && text[1..] == href + title && title[0] == '>' && '>' in text;
      CutAtOf(href, title, {'>'});
    } else {
      assert text == href + title;
      CutAtOf(href, title, {' ', '\t'});
    }
  }

  /**
   What stands around a resolved href stays, on its own side; an href that is not resolved, and a blank
   destination, stay whole.
   */
  lemma RewriteKeepsAround(at: nat, destination: string, resolve: Resolve, bracket: string, href: string, title: string)
    requires PartsOf(TrimSpace(destination), bracket, href, title)
    ensures
      RewriteDestination(at, destination, resolve) ==
        if TrimSpace(destination) == "" then Ok(destination)
        else
          match resolve(at, NormalizeImportedHref(href))
          case Err(e) => Err(e)
          case Ok(target) => Ok(if target == "" then destination else bracket + target + title)
  {
    if TrimSpace(destination) != "" { PartsAreUnique(TrimSpace(destination), bracket, href, title); }
  }

  /** A drive path is a letter, a colon and a slash of either kind, with anything behind it. */
  lemma DrivePathIff(value: string)
    ensures LooksLikeWindowsDrivePath(value) <==>
              exists drive: char, slash: char, rest :: value == [drive, ':', slash] + rest && slash in {'\\', '/'} && LowerChar(drive) in LETTERS
  {
    if LooksLikeWindowsDrivePath(value) {
      assert value == [value[0], ':', value[2]] + value[3..];
    }
  }

  const LETTERS: set<char> := set c: char | 'a' <= c <= 'z'

  /** The href that is asked for: a drive path as it is, any other one with slashes for backslashes. */
  lemma NormalizedHref(href: string)
    ensures |NormalizeImportedHref(href)| == |href|
    ensures forall i :: 0 <= i < |href| && href[i] != '\\' ==> NormalizeImportedHref(href)[i] == href[i]
    ensures LooksLikeWindowsDrivePath(TrimSpace(href)) ==> NormalizeImportedHref(href) == href
    ensures TrimSpace(href) != "" && !LooksLikeWindowsDrivePath(TrimSpace(href)) ==> '\\' !in NormalizeImportedHref(href)
  {
  }

  // ----- one piece of plain text -----

  /** The text up to the last destination, each destination rewritten; the first error wins. */
  function Edited(content: string, scan: Scan, at: nat, rewrite: Rewrite): Result<string, string>
    requires Splits(content, scan)
  {
    match scan
    case Begin => Ok("")
    case Behind(before, start, stop) =>
      var done := Edited(content, before, at, rewrite);
      if done.Err? then done
      else
        var dest := rewrite(at + start, content[start..stop]);
        if dest.Err? then dest else Ok(done.value + content[before.Plain()..start] + dest.value)
  }

  /** The output for these destinations, with the text behind them up to i. */
  function Written(content: string, scan: Scan, i: nat, at: nat, rewrite: Rewrite): Result<string, string>
    requires Splits(content, scan) && scan.Plain() <= i <= |content|
  {
    match Edited(content, scan, at, rewrite)
    case Err(e) => Err(e)
    case Ok(done) => Ok(done + content[scan.Plain()..i])
  }

  /** The text with the destination of every link rewritten, and everything else as it is. */
  function LinksRewritten(content: string, at: nat, rewrite: Rewrite): Result<string, string>
  {
    Written(content, LinksOf(content), |content|, at, rewrite)
  }

  /** Each destination is rewritten to the text given for it. */
  ghost predicate DestinationsBecome(content: string, scan: Scan, at: nat, rewrite: Rewrite, now: seq<string>)
    requires Splits(content, scan)
  {
    |now| == scan.Length() && forall i :: 0 <= i < |now| ==> rewrite(at + StartsOf(scan)[i], Inside(content, scan)[i]) == Ok(now[i])
  }

  /** Where the destinations begin. */
  function StartsOf(scan: Scan): (at: seq<nat>)
    ensures |at| == scan.Length()
  {
    if scan.Begin? then [] else StartsOf(scan.before) + [scan.start]
  }

  lemma DestinationsBefore(content: string, scan: Scan, at: nat, rewrite: Rewrite, now: seq<string>)
    requires scan.Behind? && Splits(content, scan) && DestinationsBecome(content, scan, at, rewrite, now)
    ensures DestinationsBecome(content, scan.before, at, rewrite, now[..|now| - 1])
    ensures rewrite(at + scan.start, content[scan.start..scan.stop]) == Ok(now[|now| - 1])
  {
    var n := |now| - 1;
    forall i | 0 <= i < n
      ensures rewrite(at + StartsOf(scan.before)[i], Inside(content, scan.before)[i]) == Ok(now[..n][i])
    {
      assert StartsOf(scan)[i] == StartsOf(scan.before)[i] && Inside(content, scan)[i] == Inside(content, scan.before)[i];
    }
    assert StartsOf(scan)[n] == scan.start && Inside(content, scan)[n] == content[scan.start..scan.stop];
  }

  lemma {:induction false} EditedIs(content: string, scan: Scan, at: nat, rewrite: Rewrite, now: seq<string>)
    requires Splits(content, scan) && DestinationsBecome(content, scan, at, rewrite, now)
    ensures Edited(content, scan, at, rewrite) == Ok(R.Interleave(Before(content, scan) + [""], now))
  {
    if scan.Behind? {
      var front, last := now[..|now| - 1], now[|now| - 1];
      DestinationsBefore(content, scan, at, rewrite, now);
      EditedIs(content, scan.before, at, rewrite, front);
      PairMore(Before(content, scan.before), content[scan.before.Plain()..scan.start], front, last);
      assert now == front + [last];
    }
  }

  /**
   What the pass makes of a text when every destination can be rewritten: the text is its stretches with the
   destinations between them, and the output is the very same stretches with the rewritten ones between them.
   */
  lemma WrittenIs(content: string, scan: Scan, at: nat, rewrite: Rewrite, now: seq<string>)
    requires Splits(content, scan) && DestinationsBecome(content, scan, at, rewrite, now)
    ensures content == R.Interleave(Before(content, scan) + [content[scan.Plain()..]], Inside(content, scan))
    ensures Written(content, scan, |content|, at, rewrite) == Ok(R.Interleave(Before(content, scan) + [content[scan.Plain()..]], now))
  {
    PartsAreText(content, scan);
    LastGap(Before(content, scan), content[scan.Plain()..], Inside(content, scan));
    assert content[..scan.Plain()] + content[scan.Plain()..] == content;
    EditedIs(content, scan, at, rewrite, now);
    LastGap(Before(content, scan), content[scan.Plain()..], now);
    assert content[scan.Plain()..|content|] == content[scan.Plain()..];
  }

  /** What the i-th destination is rewritten to. */
  function Answer(content: string, scan: Scan, at: nat, rewrite: Rewrite, i: nat): Result<string, string>
    requires Splits(content, scan) && i < scan.Length()
  {
    rewrite(at + StartsOf(scan)[i], Inside(content, scan)[i])
  }

  lemma AnswerBefore(content: string, scan: Scan, at: nat, rewrite: Rewrite, i: nat)
    requires Splits(content, scan) && i < scan.Length()
    ensures Answer(content, scan, at, rewrite, i) ==
            if i == scan.Length() - 1 then rewrite(at + scan.start, content[scan.start..scan.stop]) else Answer(content, scan.before, at, rewrite, i)
  {
  }

  /** The i-th destination is the first that cannot be rewritten. */
  ghost predicate FailsAt(content: string, scan: Scan, at: nat, rewrite: Rewrite, i: nat)
    requires Splits(content, scan)
  {
    i < scan.Length() && Answer(content, scan, at, rewrite, i).Err? && forall j: nat :: j < i ==> Answer(content, scan, at, rewrite, j).Ok?
  }

  /** The first destination that cannot be rewritten is the error of the text. */
  lemma {:induction false} FirstErrorWins(content: string, scan: Scan, at: nat, rewrite: Rewrite, i: nat)
    requires Splits(content, scan) && FailsAt(content, scan, at, rewrite, i)
    ensures Edited(content, scan, at, rewrite) == Answer(content, scan, at, rewrite, i)
  {
    AnswerBefore(content, scan, at, rewrite, i);
    forall j: nat | j <= i && j < scan.before.Length()
      ensures Answer(content, scan.before, at, rewrite, j) == Answer(content, scan, at, rewrite, j)
    {
      AnswerBefore(content, scan, at, rewrite, j);
    }
    if i < scan.before.Length() {
      FirstErrorWins(content, scan.before, at, rewrite, i);
    } else {
      AllAnswered(content, scan.before, at, rewrite);
    }
  }

  lemma {:induction false} AllAnswered(content: string, scan: Scan, at: nat, rewrite: Rewrite)
    requires Splits(content, scan) && forall j: nat :: j < scan.Length() ==> Answer(content, scan, at, rewrite, j).Ok?
    ensures Edited(content, scan, at, rewrite).Ok?
  {
    if scan.Behind? {
      forall j: nat | j < scan.before.Length()
        ensures Answer(content, scan.before, at, rewrite, j).Ok?
      {
        AnswerBefore(content, scan, at, rewrite, j);
      }
      AllAnswered(content, scan.before, at, rewrite);
      AnswerBefore(content, scan, at, rewrite, scan.Length() - 1);
    }
  }

  /** later has the destinations of scan, and possibly some behind them. */
  predicate Begins(scan: Scan, later: Scan)
  {
    later == scan || (later.Behind? && Begins(scan, later.before))
  }

  lemma {:induction false} BeginsOn(scan: Scan, start: nat, stop: nat, later: Scan)
    requires Begins(Behind(scan, start, stop), later)
    ensures Begins(scan, later)
  {
    if later != Behind(scan, start, stop) { BeginsOn(scan, start, stop, later.before); } else { assert Begins(scan, later.before); }
  }

  lemma {:induction false} FoundBegins(n: nat, steps: Steps, i: nat, scan: Scan)
    requires Within(steps, n)
    ensures Begins(scan, Found(n, steps, i, scan))
    decreases n - i
  {
    if i < n {
      match steps(i)
      case Plain => FoundBegins(n, steps, i + 1, scan);
      case Label(end) => FoundBegins(n, steps, end + 1, scan);
      case Unclosed =>
      case Link(start, stop) =>
        FoundBegins(n, steps, stop + 1, Behind(scan, start, stop));
        BeginsOn(scan, start, stop, Found(n, steps, i, scan));
    }
  }

  lemma {:induction false} ErrorOfLonger(content: string, scan: Scan, later: Scan, at: nat, rewrite: Rewrite)
    requires Splits(content, scan) && Splits(content, later) && Begins(scan, later) && Edited(content, scan, at, rewrite).Err?
    ensures Edited(content, later, at, rewrite) == Edited(content, scan, at, rewrite)
  {
    if later != scan { ErrorOfLonger(content, scan, later.before, at, rewrite); }
  }

  /** An error met before the last link is the error of the whole text. */
  lemma ErrorStays(content: string, steps: Steps, i: nat, scan: Scan, at: nat, rewrite: Rewrite)
    requires Within(steps, |content|) && Splits(content, scan) && scan.Plain() <= i <= |content|
    requires Edited(content, scan, at, rewrite).Err?
    ensures Splits(content, Found(|content|, steps, i, scan))
    ensures Edited(content, Found(|content|, steps, i, scan), at, rewrite) == Edited(content, scan, at, rewrite)
  {
    FoundSplits(content, steps, i, scan);
    FoundBegins(|content|, steps, i, scan);
    ErrorOfLonger(content, scan, Found(|content|, steps, i, scan), at, rewrite);
  }

  /** What the loop has written and where it is; or the whole result. */
  datatype Turn = Next(i: nat, out: string) | Return(r: Result<string, string>)

  ghost predicate Scanning(content: string, steps: Steps, i: nat, scan: Scan, out: string, at: nat, rewrite: Rewrite)
  {
    && Within(steps, |content|) && Splits(content, scan) && scan.Plain() <= i <= |content|
    && Found(|content|, steps, i, scan) == Found(|content|, steps, 0, Begin)
    && Written(content, scan, i, at, rewrite) == Ok(out)
  }

  /** A plain character or a label is written as it is. */
  lemma PassText(content: string, steps: Steps, i: nat, to: nat, scan: Scan, out: string, at: nat, rewrite: Rewrite)
    requires Scanning(content, steps, i, scan, out, at, rewrite) && i < |content|
    requires match steps(i) case Plain => to == i + 1 case Label(end) => to == end + 1 case _ => false
    ensures to <= |content| && Scanning(content, steps, to, scan, out + content[i..to], at, rewrite)
  {
    StretchesJoin(Edited(content, scan, at, rewrite).value, content, scan.Plain(), i, to);
  }

  /** At the end of the text, or where something never closes, the rest is written as it is. */
  lemma Finish(content: string, steps: Steps, i: nat, scan: Scan, out: string, at: nat, rewrite: Rewrite)
    requires Scanning(content, steps, i, scan, out, at, rewrite) && (i < |content| ==> steps(i).Unclosed?)
    ensures Found(|content|, steps, 0, Begin) == scan && Written(content, scan, |content|, at, rewrite) == Ok(out + content[i..])
  {
    StretchesJoin(Edited(content, scan, at, rewrite).value, content, scan.Plain(), i, |content|);
    assert content[i..|content|] == content[i..];
  }

  lemma StretchesJoin(done: string, content: string, a: nat, b: nat, c: nat)
    requires a <= b <= c <= |content|
    ensures (done + content[a..b]) + content[b..c] == done + content[a..c]
  {
    assert content[a..b] + content[b..c] == content[a..c];
  }

  /** A link's destination is rewritten. */
  lemma PassLink(content: string, steps: Steps, i: nat, scan: Scan, out: string, at: nat, rewrite: Rewrite)
    requires Scanning(content, steps, i, scan, out, at, rewrite) && i < |content| && steps(i).Link?
    requires content[steps(i).stop] == ')' && rewrite(at + steps(i).start, content[steps(i).start..steps(i).stop]).Ok?
    ensures
      var s := steps(i);
      Scanning(content, steps, s.stop + 1, Behind(scan, s.start, s.stop),
               out + content[i..s.start] + rewrite(at + s.start, content[s.start..s.stop]).value + ")", at, rewrite)
  {
    var s := steps(i);
    var done, dest := Edited(content, scan, at, rewrite).value, rewrite(at + s.start, content[s.start..s.stop]).value;
    assert content[s.stop..s.stop + 1] == ")";
    assert (done + content[scan.Plain()..i]) + content[i..s.start] + dest + ")" ==
           (done + content[scan.Plain()..s.start] + dest) + content[s.stop..s.stop + 1];
  }

  /** Its error is the result. */
  lemma FailLink(content: string, steps: Steps, i: nat, scan: Scan, out: string, at: nat, rewrite: Rewrite)
    requires Scanning(content, steps, i, scan, out, at, rewrite) && i < |content| && steps(i).Link?
    requires rewrite(at + steps(i).start, content[steps(i).start..steps(i).stop]).Err?
    ensures
      var links := Found(|content|, steps, 0, Begin);
      Splits(content, links) && Edited(content, links, at, rewrite) == rewrite(at + steps(i).start, content[steps(i).start..steps(i).stop])
  {
    ErrorStays(content, steps, steps(i).stop + 1, Behind(scan, steps(i).start, steps(i).stop), at, rewrite);
  }

  /** The part of the loop body behind a label: start is where the link begins. */
  method DestinationTurn(content: string, start: nat, destStart: nat, at: nat, rewrite: Rewrite, out: string,
                         ghost steps: Steps, ghost scan: Scan)
    returns (turn: Turn, ghost after: Scan)
    requires Within(steps, |content|) && Found(|content|, steps, 0, Begin) == LinksOf(content)
    requires Scanning(content, steps, start, scan, out, at, rewrite) && start < destStart <= |content|
    requires
      var stop := ParenEnd(content, destStart, 0);
      steps(start) == if stop.None? then Unclosed else Link(destStart, stop.value)
    ensures turn.Next? ==> turn.i > start && Scanning(content, steps, turn.i, after, turn.out, at, rewrite)
    ensures turn.Return? ==> turn.r == LinksRewritten(content, at, rewrite)
  {
    after := scan;
    var destEnd := FindMarkdownLinkDestinationEnd(content, destStart);
    if destEnd < 0 {
      Finish(content, steps, start, scan, out, at, rewrite);
      return Return(Ok(out + content[start..])), after;
    }
    ParenEndIsFirst(content, destStart, 0);
    after := Behind(scan, destStart, destEnd);
    var rewritten := rewrite(at + destStart, content[destStart..destEnd]);
    if rewritten.Err? {
      FailLink(content, steps, start, scan, out, at, rewrite);
      return Return(rewritten), after;
    }
    PassLink(content, steps, start, scan, out, at, rewrite);
    return Next(destEnd + 1, out + content[start..destStart] + rewritten.value + ")"), after;
  }

  /** The loop body behind a bracket. */
  method LinkTurn(content: string, start: nat, at: nat, rewrite: Rewrite, out: string, ghost steps: Steps, ghost scan: Scan)
    returns (turn: Turn, ghost after: Scan)
    requires Within(steps, |content|) && Found(|content|, steps, 0, Begin) == LinksOf(content)
    requires start < |content| && steps(start) == StepAt(content, start)
    requires Bracket(content, start).Some? && Scanning(content, steps, start, scan, out, at, rewrite)
    ensures turn.Next? ==> turn.i > start && Scanning(content, steps, turn.i, after, turn.out, at, rewrite)
    ensures turn.Return? ==> turn.r == LinksRewritten(content, at, rewrite)
  {
    var i := if content[start] == '!' then start + 1 else start;
    var labelEnd := IndexOf(content, i, ']');
    if labelEnd.None? {
      Finish(content, steps, start, scan, out, at, rewrite);
      return Return(Ok(out + content[start..])), scan;
    }
    if labelEnd.value + 1 >= |content| || content[labelEnd.value + 1] != '(' {
      PassText(content, steps, start, labelEnd.value + 1, scan, out, at, rewrite);
      return Next(labelEnd.value + 1, out + content[start..labelEnd.value + 1]), scan;
    }
    turn, after := DestinationTurn(content, start, labelEnd.value + 2, at, rewrite, out, steps, scan);
  }

  /** rewriteMarkdownLinks. */
  method RewriteMarkdownLinks(content: string, at: nat, rewrite: Rewrite) returns (r: Result<string, string>)
    ensures r == LinksRewritten(content, at, rewrite)
  {
    var out, i := "", 0;
    ghost var scan, steps := Begin, StepsOf(content);
    assert "" + content[0..0] == "";
    assert Written(content, scan, 0, at, rewrite) == Ok(out);
    while i < |content|
      invariant Scanning(content, steps, i, scan, out, at, rewrite)
      decreases |content| - i
    {
      if Bracket(content, i).None? {
        PassText(content, steps, i, i + 1, scan, out, at, rewrite);
        assert content[i..i + 1] == [content[i]];
        out := out + [content[i]];
        i := i + 1;
        continue;
      }
      var turn;
      turn, scan := LinkTurn(content, i, at, rewrite, out, steps, scan);
      if turn.Return? {
        return turn.r;
      }
      i, out := turn.i, turn.out;
    }
    Finish(content, steps, i, scan, out, at, rewrite);
    assert out + content[i..] == out;
    return Ok(out);
  }

  // ----- nothing resolved, nothing changed -----

  /** rewriteDestination with a resolver, as the rule for every destination of a page. */
  function DestinationRule(resolve: Resolve): Rewrite
  {
    (at: nat, destination: string) => RewriteDestination(at, destination, resolve)
  }

  /** The Markdown pass, as the rule for every plain piece of a page. */
  function LinkRule(rewrite: Rewrite): Rewrite
  {
    (at: nat, content: string) => LinksRewritten(content, at, rewrite)
  }

  /** TransformContent's first pass. */
  method RewritePageLinks(content: string, resolve: Resolve) returns (r: Result<string, string>, ghost scan: Scan)
    ensures r.Ok? ==> CodeUpTo(content, scan, |content|) && Splits(content, scan) &&
                      r == WholeOutput(content, scan, LinkRule(DestinationRule(resolve)))
    ensures r.Err? ==> exists upTo: nat :: StoppedAt(content, scan, upTo, LinkRule(DestinationRule(resolve)), r)
    ensures (forall at, href :: resolve(at, href) == Ok("")) ==> r == Ok(content)
  {
    r, scan := RewriteOutsideCodeSpans(content, LinkRule(DestinationRule(resolve)));
    if forall at, href :: resolve(at, href) == Ok("") {
      UnresolvedPageStays(content, resolve);
    }
  }

  lemma {:induction false} UneditedText(content: string, scan: Scan, at: nat, rewrite: Rewrite)
    requires Splits(content, scan) && forall n, s :: rewrite(n, s) == Ok(s)
    ensures Edited(content, scan, at, rewrite) == Ok(content[..scan.Plain()])
  {
    if scan.Behind? {
      UneditedText(content, scan.before, at, rewrite);
      var from := scan.before.Plain();
      assert content[..from] + content[from..scan.start] + content[scan.start..scan.stop] == content[..scan.stop];
    }
  }

  lemma UneditedLinks(content: string, at: nat, rewrite: Rewrite)
    requires forall n, s :: rewrite(n, s) == Ok(s)
    ensures LinksRewritten(content, at, rewrite) == Ok(content)
  {
    var links := LinksOf(content);
    UneditedText(content, links, at, rewrite);
    assert content[..links.Plain()] + content[links.Plain()..|content|] == content;
  }

  /** The Markdown pass over a page whose links resolve to nothing gives the page back, whatever code it holds. */
  lemma UnresolvedPageStays(content: string, resolve: Resolve)
    requires forall at, href :: resolve(at, href) == Ok("")
    ensures forall scan :: Splits(content, scan) ==> WholeOutput(content, scan, LinkRule(DestinationRule(resolve))) == Ok(content)
    ensures forall scan, upTo: nat, r :: StoppedAt(content, scan, upTo, LinkRule(DestinationRule(resolve)), r) ==> r.Ok?
  {
    var rule := DestinationRule(resolve);
    forall n, s
      ensures LinkRule(rule)(n, s) == Ok(s)
    {
      UneditedLinks(s, n, rule);
    }
    forall scan | Splits(content, scan)
      ensures WholeOutput(content, scan, LinkRule(rule)) == Ok(content)
    {
      IdentityKeepsText(content, scan, LinkRule(rule));
    }
  }
}
