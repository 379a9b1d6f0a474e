/**
 The importer's rewrite of wiki links in plain text, rewriteWikiLinks of
 internal/importer/content_transformer.go, and its two passes over a whole page.

 What a link is replaced by is an arbitrary function of where it stands and what it says: it looks into the
 import plan and may upload an asset, or fail.
 */
module WikiLinks {
  import opened Common
  import opened Text
  import opened CodeSpans
  import opened MarkdownLinks

  // ----- the links of a text -----

  /** How long the brackets are that open a link or an embed at i; nothing opens where it is 0. */
  function Opening(content: string, i: nat): (n: nat)
    requires i <= |content|
    ensures n > 0 ==> i + n <= |content|
  {
    if i + 2 < |content| && content[i] == '!' && content[i + 1] == '[' && content[i + 2] == '[' then 3
    else if i + 1 < |content| && content[i] == '[' && content[i + 1] == '[' then 2
    else 0
  }

  predicate ClosesAt(content: string, i: nat)
  {
    i + 2 <= |content| && content[i] == ']' && content[i + 1] == ']'
  }

  /** The first closing brackets at or behind i. */
  function CloseFrom(content: string, i: nat): (r: Option<nat>)
    ensures r.Some? ==> i <= r.value && r.value + 2 <= |content| && ClosesAt(content, r.value)
    ensures forall j: nat :: i <= j && (r.Some? ==> j < r.value) ==> !ClosesAt(content, j)
    decreases |content| - i
  {
    if i + 2 > |content| then None else if ClosesAt(content, i) then Some(i) else CloseFrom(content, i + 1)
  }

  /** The text has the part at position i. */
  predicate At(content: string, i: nat, part: string)
  {
    i <= |content| && HasPrefix(content[i..], part)
  }

  /** A link or an embed from start to stop: [[ or ![[ and, at its end, the first ]] behind that. */
  ghost predicate IsWikiLink(content: string, start: nat, stop: nat)
  {
    exists open :: open in {"[[", "![["} && At(content, start, open) && Closed(content, start + |open|, stop)
  }

  /** The first ]] at or behind position i ends at stop. */
  ghost predicate Closed(content: string, i: nat, stop: nat)
  {
    i + 2 <= stop <= |content| && At(content, stop - 2, "]]") && forall j :: i <= j < stop - 2 ==> !At(content, j, "]]")
  }

  lemma AtIff(content: string, i: nat)
    ensures At(content, i, "]]") <==> ClosesAt(content, i)
    ensures i <= |content| ==> (At(content, i, "![[") <==> Opening(content, i) == 3) && (At(content, i, "[[") <==> Opening(content, i) == 2)
  {
    if i <= |content| {
      var rest := content[i..];
      assert |rest| >= 2 ==> rest[..2] == [content[i], content[i + 1]];
      assert |rest| >= 3 ==> rest[..3] == [content[i], content[i + 1], content[i + 2]];
      assert HasPrefix(rest, "]]") <==> |rest| >= 2 && rest[..2] == "]]";
      assert HasPrefix(rest, "[[") <==> |rest| >= 2 && rest[..2] == "[[";
      assert HasPrefix(rest, "![[") <==> |rest| >= 3 && rest[..3] == "![[";
    }
  }

  /** How the code finds it. */
  lemma WikiLinkIff(content: string, start: nat, stop: nat)
    ensures IsWikiLink(content, start, stop) <==>
            start <= |content| && Opening(content, start) > 0 && stop >= 2 && CloseFrom(content, start + Opening(content, start)) == Some(stop - 2)
  {
    AtIff(content, start);
    forall i: nat { AtIff(content, i); }
    if start <= |content| && Opening(content, start) > 0 {
      var open := if Opening(content, start) == 3 then "![[" else "[[";
      assert At(content, start, open) && |open| == Opening(content, start);
      ClosedIff(content, start + |open|, stop);
    }
    if IsWikiLink(content, start, stop) {
      var open :| open in {"[[", "![["} && At(content, start, open) && Closed(content, start + |open|, stop);
      assert |open| == Opening(content, start);
      ClosedIff(content, start + |open|, stop);
    }
  }

  lemma ClosedIff(content: string, i: nat, stop: nat)
    ensures Closed(content, i, stop) <==> stop >= 2 && CloseFrom(content, i) == Some(stop - 2)
  {
    forall j: nat { AtIff(content, j); }
    if Closed(content, i, stop) {
      assert ClosesAt(content, stop - 2);
      if CloseFrom(content, i).Some? { assert CloseFrom(content, i).value <= stop - 2; }
    }
    if stop >= 2 && CloseFrom(content, i) == Some(stop - 2) {
      CloseIsClosing(content, i);
    }
  }

  lemma {:induction false} CloseIsClosing(content: string, i: nat)
    requires CloseFrom(content, i).Some?
    ensures ClosesAt(content, CloseFrom(content, i).value)
    decreases |content| - i
  {
    if !ClosesAt(content, i) { CloseIsClosing(content, i + 1); }
  }

  /** What begins at a position: no link, one that never closes, or one that ends at stop. */
  datatype Begins = Nothing | Never | Ends(stop: nat)

  function BeginsAt(content: string, i: nat): (b: Begins)
    requires i < |content|
    ensures b.Ends? ==> i < b.stop <= |content|
  {
    if Opening(content, i) == 0 then Nothing
    else
      var close := CloseFrom(content, i + Opening(content, i));
      if close.None? then Never else Ends(close.value + 2)
  }

  type Links = nat -> Begins

  /** What begins at each position of the text. */
  function LinksIn(content: string): (links: Links)
    ensures InText(links, |content|)
  {
    (i: nat) => if i < |content| then BeginsAt(content, i) else Nothing
  }

  ghost predicate InText(links: Links, n: nat)
  {
    forall i: nat :: i < n && links(i).Ends? ==> i < links(i).stop <= n
  }

  /** The links found from position i on, behind those found before. */
  function FoundFrom(n: nat, links: Links, i: nat, scan: Scan): Scan
    requires InText(links, n)
    decreases n - i
  {
    if i >= n then scan
    else
      match links(i)
      case Nothing => FoundFrom(n, links, i + 1, scan)
      case Never => scan
      case Ends(stop) => FoundFrom(n, links, stop, Behind(scan, i, stop))
  }

  lemma {:induction false} FoundSplitsText(content: string, links: Links, i: nat, scan: Scan)
    requires InText(links, |content|) && Splits(content, scan) && scan.Plain() <= i <= |content|
    ensures Splits(content, FoundFrom(|content|, links, i, scan))
    decreases |content| - i
  {
    if i < |content| {
      match links(i)
      case Nothing => FoundSplitsText(content, links, i + 1, scan);
      case Never =>
      case Ends(stop) => FoundSplitsText(content, links, stop, Behind(scan, i, stop));
    }
  }

  function WikiLinksOf(content: string): (scan: Scan)
    ensures Splits(content, scan)
  {
    FoundSplitsText(content, LinksIn(content), 0, Begin);
    FoundFrom(|content|, LinksIn(content), 0, Begin)
  }

  lemma {:induction false} StaysFound(n: nat, links: Links, i: nat, scan: Scan, a: nat, e: nat)
    requires InText(links, n) && Has(scan, a, e)
    ensures Has(FoundFrom(n, links, i, scan), a, e)
    decreases n - i
  {
    if i < n {
      match links(i)
      case Nothing => StaysFound(n, links, i + 1, scan, a, e);
      case Never =>
      case Ends(stop) => StaysFound(n, links, stop, Behind(scan, i, stop), a, e);
    }
  }

  lemma {:induction false} FoundBegin(n: nat, links: Links, i: nat, scan: Scan, a: nat, e: nat)
    requires InText(links, n) && Has(FoundFrom(n, links, i, scan), a, e) && !Has(scan, a, e)
    ensures a < n && links(a) == Ends(e)
    decreases n - i
  {
    if i < n {
      match links(i)
      case Nothing => FoundBegin(n, links, i + 1, scan, a, e);
      case Never =>
      case Ends(stop) => if i != a || stop != e { FoundBegin(n, links, stop, Behind(scan, i, stop), a, e); }
    }
  }

  /** Some link found has the position inside it. */
  ghost predicate InsideSome(scan: Scan, b: nat)
  {
    exists a: nat, e: nat :: Has(scan, a, e) && a <= b < e
  }

  lemma {:induction false} NoneMissedFrom(n: nat, links: Links, i: nat, scan: Scan, b: nat)
    requires InText(links, n) && i <= b < n && links(b).Ends? && forall j: nat :: j <= b ==> !links(j).Never?
    ensures InsideSome(FoundFrom(n, links, i, scan), b)
    decreases n - i
  {
    match links(i)
    case Nothing => NoneMissedFrom(n, links, i + 1, scan, b);
    case Ends(stop) =>
      if stop <= b {
        NoneMissedFrom(n, links, stop, Behind(scan, i, stop), b);
      } else {
        StaysFound(n, links, stop, Behind(scan, i, stop), i, stop);
      }
  }

  /** What opens at or before a link that closes, closes too. */
  lemma ClosesBehind(content: string, i: nat, b: nat, e: nat)
    requires i <= b && IsWikiLink(content, b, e) && Opening(content, i) > 0
    ensures CloseFrom(content, i + Opening(content, i)).Some?
  {
    WikiLinkIff(content, b, e);
    CloseIsClosing(content, b + Opening(content, b));
    assert ClosesAt(content, e - 2);
  }

  /** What is found are the links: each is one, and every link of the text is found or begins inside one that is. */
  lemma WikiLinksFound(content: string, a: nat, e: nat)
    ensures Has(WikiLinksOf(content), a, e) ==> IsWikiLink(content, a, e)
    ensures IsWikiLink(content, a, e) ==> InsideSome(WikiLinksOf(content), a)
  {
    var links := LinksIn(content);
    WikiLinkIff(content, a, e);
    if Has(WikiLinksOf(content), a, e) { FoundBegin(|content|, links, 0, Begin, a, e); }
    if IsWikiLink(content, a, e) {
      forall j: nat | j <= a
        ensures !links(j).Never?
      {
        if j < |content| && Opening(content, j) > 0 { ClosesBehind(content, j, a, e); }
      }
      NoneMissedFrom(|content|, links, 0, Begin, a);
    }
  }

  // ----- one piece of plain text -----

  /** The text with every link replaced, and everything else as it is; the first error wins. */
  function WikiLinksReplaced(content: string, at: nat, render: Rewrite): Result<string, string>
  {
    Written(content, WikiLinksOf(content), |content|, at, render)
  }

  /** The two calls of strings.Index: the next link or embed, and how it opens. */
  method FindOpening(content: string, from: nat) returns (next: int, length: nat)
    requires from <= |content|
    ensures next == -1 ==> forall j: nat :: from <= j < |content| ==> LinksIn(content)(j).Nothing?
    ensures next != -1 ==> from <= next < |content| && length == Opening(content, next) > 0
    ensures next != -1 ==> forall j: nat :: from <= j < next ==> LinksIn(content)(j).Nothing?
  {
    for i := from to |content|
      invariant forall j: nat :: from <= j < i ==> LinksIn(content)(j).Nothing?
    {
      if Opening(content, i) > 0 {
        return i, Opening(content, i);
      }
    }
    return -1, 0;
  }

  /** Nothing begins up to a position: the scan passes over it. */
  lemma {:induction false} PassOver(n: nat, links: Links, i: nat, to: nat, scan: Scan)
    requires InText(links, n) && i <= to <= n && forall j: nat :: i <= j < to ==> links(j).Nothing?
    ensures FoundFrom(n, links, i, scan) == FoundFrom(n, links, to, scan)
    decreases n - i
  {
    if i < to { PassOver(n, links, i + 1, to, scan); }
  }

  /** An error met before the last link is the error of the whole text. */
  lemma {:induction false} FirstErrorStays(content: string, links: Links, i: nat, scan: Scan, at: nat, render: Rewrite)
    requires InText(links, |content|) && Splits(content, scan) && scan.Plain() <= i <= |content| && Edited(content, scan, at, render).Err?
    ensures Splits(content, FoundFrom(|content|, links, i, scan))
    ensures Edited(content, FoundFrom(|content|, links, i, scan), at, render) == Edited(content, scan, at, render)
    decreases |content| - i
  {
    if i < |content| {
      match links(i)
      case Nothing => FirstErrorStays(content, links, i + 1, scan, at, render);
      case Never =>
      case Ends(stop) => FirstErrorStays(content, links, stop, Behind(scan, i, stop), at, render);
    }
  }

  /** out is the text up to i with the links found replaced; `all` are all of them. */
  ghost predicate Replacing(content: string, links: Links, i: nat, scan: Scan, out: string, at: nat, render: Rewrite, all: Scan)
  {
    && InText(links, |content|) && Splits(content, scan) && scan.Plain() <= i <= |content|
    && Splits(content, all) && FoundFrom(|content|, links, i, scan) == all
    && Written(content, scan, i, at, render) == Ok(out)
  }

  /** A piece of the text is replaced. */
  lemma EditOne(content: string, i: nat, next: nat, stop: nat, scan: Scan, out: string, at: nat, render: Rewrite)
    requires Splits(content, scan) && scan.Plain() <= i <= next <= stop <= |content| && Written(content, scan, i, at, render) == Ok(out)
    ensures Splits(content, Behind(scan, next, stop))
    ensures
      var link := render(at + next, content[next..stop]);
      && (link.Ok? ==> Written(content, Behind(scan, next, stop), stop, at, render) == Ok(out + content[i..next] + link.value))
      && (link.Err? ==> Edited(content, Behind(scan, next, stop), at, render) == link)
  {
    var done := Edited(content, scan, at, render).value;
    assert out + content[i..next] == done + content[scan.Plain()..next];
    var link := render(at + next, content[next..stop]);
    if link.Ok? {
      var text := out + content[i..next] + link.value;
      assert Edited(content, Behind(scan, next, stop), at, render) == Ok(text);
      assert text + content[stop..stop] == text;
    }
  }

  /** The link that begins at next is replaced. */
  lemma ReplaceOne(content: string, links: Links, i: nat, next: nat, scan: Scan, out: string, at: nat, render: Rewrite, all: Scan)
    requires Replacing(content, links, i, scan, out, at, render, all) && i <= next < |content| && links(next).Ends?
    requires forall j: nat :: i <= j < next ==> links(j).Nothing?
    ensures
      var stop := links(next).stop;
      var link := render(at + next, content[next..stop]);
      && (link.Ok? ==> Replacing(content, links, stop, Behind(scan, next, stop), out + content[i..next] + link.value, at, render, all))
      && (link.Err? ==> Written(content, all, |content|, at, render) == link)
  {
    var stop := links(next).stop;
    PassOver(|content|, links, i, next, scan);
    EditOne(content, i, next, stop, scan, out, at, render);
    if render(at + next, content[next..stop]).Err? {
      FirstErrorStays(content, links, stop, Behind(scan, next, stop), at, render);
    }
  }

  /** At the end, or where a link never closes, the rest is written as it is. */
  lemma WriteRest(content: string, links: Links, i: nat, to: nat, scan: Scan, out: string, at: nat, render: Rewrite, all: Scan)
    requires Replacing(content, links, i, scan, out, at, render, all) && i <= to <= |content|
    requires (forall j: nat :: i <= j < to ==> links(j).Nothing?) && (to < |content| ==> links(to).Never?)
    ensures Written(content, all, |content|, at, render) == Ok(out + content[i..])
  {
    PassOver(|content|, links, i, to, scan);
    var done := Edited(content, scan, at, render).value;
    assert (done + content[scan.Plain()..i]) + content[i..] == done + content[scan.Plain()..|content|];
  }

  /** The next link from i on and where it ends, if it does; the end of the text when there is none. */
  method NextLink(content: string, i: nat, ghost links: Links) returns (next: nat, b: Begins)
    requires i <= |content| && links == LinksIn(content)
    ensures i <= next <= |content| && forall j: nat :: i <= j < next ==> links(j).Nothing?
    ensures if next < |content| then b == links(next) && !b.Nothing? else b.Never?
  {
    var at, length := FindOpening(content, i);
    if at == -1 {
      return |content|, Never;
    }
    var close := CloseFrom(content, at + length);
    return at, if close.None? then Never else Ends(close.value + 2);
  }

  /** The loop body behind the search: the link is replaced, or the rest of the text written. */
  method ReplaceNext(content: string, i: nat, next: nat, b: Begins, at: nat, render: Rewrite, out: string,
                     ghost links: Links, ghost scan: Scan, ghost all: Scan)
      returns (turn: Turn, ghost after: Scan)
    requires Replacing(content, links, i, scan, out, at, render, all)
    requires i <= next <= |content| && forall j: nat :: i <= j < next ==> links(j).Nothing?
    requires if next < |content| then b == links(next) && !b.Nothing? else b.Never?
    ensures turn.Next? ==> turn.i > i && Replacing(content, links, turn.i, after, turn.out, at, render, all)
    ensures turn.Return? ==> turn.r == Written(content, all, |content|, at, render)
  {
    if b.Never? {
      WriteRest(content, links, i, next, scan, out, at, render, all);
      assert content[i..] == content[i..next] + content[next..];
      return Return(Ok(out + (content[i..next] + content[next..]))), scan;
    }
    ReplaceOne(content, links, i, next, scan, out, at, render, all);
    var link := render(at + next, content[next..b.stop]);
    if link.Err? {
      return Return(link), scan;
    }
    return Next(b.stop, out + content[i..next] + link.value), Behind(scan, next, b.stop);
  }

  /** rewriteWikiLinks. */
  method RewriteWikiLinks(content: string, at: nat, render: Rewrite) returns (r: Result<string, string>)
    ensures r == WikiLinksReplaced(content, at, render)
  {
    var out, i := "", 0;
    ghost var links, scan, all := LinksIn(content), Begin, WikiLinksOf(content);
    assert "" + content[0..0] == "";
    while i < |content|
      invariant Replacing(content, links, i, scan, out, at, render, all)
      decreases |content| - i
    {
      var turn;
      var next, b := NextLink(content, i, links);
      turn, scan := ReplaceNext(content, i, next, b, at, render, out, links, scan, all);
      if turn.Return? {
        return turn.r;
      }
      i, out := turn.i, turn.out;
    }
    WriteRest(content, links, i, i, scan, out, at, render, all);
    assert out + content[i..] == out;
    return Ok(out);
  }

  // ----- both passes over a page -----

  /** The pass over wiki links, as the rule for every plain piece of a page. */
  function WikiRule(render: Rewrite): Rewrite
  {
    (at: nat, content: string) => WikiLinksReplaced(content, at, render)
  }

  /** r is what a pass makes of the page: code verbatim and plain pieces rewritten, or the first piece's error. */
  ghost predicate IsPass(content: string, rule: Rewrite, r: Result<string, string>)
  {
    exists scan ::
      if r.Ok? then CodeUpTo(content, scan, |content|) && Splits(content, scan) && r == WholeOutput(content, scan, rule)
      else exists upTo: nat :: StoppedAt(content, scan, upTo, rule, r)
  }

  /**
   TransformContent: the Markdown links of the page's plain pieces are rewritten, and then the wiki links of
   the plain pieces of what came out; an error of the first pass is the result. A page whose links
   resolve to nothing, and whose wiki links are written as they are, comes back as it was.
   */
  method TransformContent(content: string, resolve: Resolve, render: Rewrite) returns (r: Result<string, string>, ghost first: Result<string, string>)
    ensures IsPass(content, LinkRule(DestinationRule(resolve)), first)
    ensures if first.Err? then r == first else IsPass(first.value, WikiRule(render), r)
    ensures (forall at, href :: resolve(at, href) == Ok("")) && (forall at, link :: render(at, link) == Ok(link)) ==> r == Ok(content)
  {
    var mid;
    ghost var scan, scan2;
    mid, scan := RewritePageLinks(content, resolve);
    first := mid;
    if mid.Err? {
      return mid, first;
    }
    r, scan2 := RewriteOutsideCodeSpans(mid.value, WikiRule(render));
    if (forall at, href :: resolve(at, href) == Ok("")) && (forall at, link :: render(at, link) == Ok(link)) {
      KeptLinksKeepPage(content, render);
    }
  }

  lemma KeptLinksKeepPage(content: string, render: Rewrite)
    requires forall at, link :: render(at, link) == Ok(link)
    ensures forall scan :: Splits(content, scan) ==> WholeOutput(content, scan, WikiRule(render)) == Ok(content)
    ensures forall scan, upTo: nat, r :: StoppedAt(content, scan, upTo, WikiRule(render), r) ==> r.Ok?
  {
    forall n, s
      ensures WikiRule(render)(n, s) == Ok(s)
    {
      var links := WikiLinksOf(s);
      UneditedText(s, links, n, render);
      assert s[..links.Plain()] + s[links.Plain()..|s|] == s;
    }
    forall scan | Splits(content, scan)
      ensures WholeOutput(content, scan, WikiRule(render)) == Ok(content)
    {
      IdentityKeepsText(content, scan, WikiRule(render));
    }
  }
}
