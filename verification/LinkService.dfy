/**
 The title index of internal/links/link_service.go: rows of [[title]] links kept up to date step by
 step, against what resolving every page afresh would store.

 `lower` is the Unicode folding of the page tree. The table folds ASCII letters only, so the two agree
 only on titles that never differ by a non-ASCII capital; `alike` is a set of titles on which they do.
 */
module LinkService {
  import opened Common
  import opened Text
  import opened LinksStore

  type Fold = string -> string

  /** A page: its title, its route path, the [[title]] targets of its content, and its resolved path links. */
  datatype Page = Page(title: string, path: string, titles: seq<string>, pathLinks: seq<TargetLink>)
  type Pages = map<PageId, Page>

  // ----- fresh resolution -----

  /** FindPagesByTitle: the query is trimmed, the stored title is not. */
  function Matches(pages: Pages, title: string, lower: Fold): set<PageId>
  {
    set id | id in pages && pages[id].title != "" && TrimSpace(title) != "" && lower(pages[id].title) == lower(TrimSpace(title))
  }

  /** classifyTitleMatches. */
  function Classify(matches: nat): LinkState
  {
    if matches == 0 then Broken else if matches == 1 then Resolved else Ambiguous
  }

  function TheOne(s: set<PageId>): (r: Option<PageId>)
    ensures |s| == 1 ==> r.Some? && s == {r.value}
    ensures |s| != 1 ==> r.None?
  {
    if |s| == 1 then
      SingletonOf(s);
      var x :| s == {x};
      Some(x)
    else None
  }

  lemma SingletonOf(s: set<PageId>)
    requires |s| == 1
    ensures exists x :: s == {x}
    ensures forall x, y :: s == {x} && s == {y} ==> x == y
  {
    var x :| x in s;
    assert |s - {x}| == 0;
    assert s == {x};
  }

  function FreshState(pages: Pages, title: string, lower: Fold): LinkState
  {
    Classify(|Matches(pages, title, lower)|)
  }

  function FreshTarget(pages: Pages, title: string, lower: Fold): Option<PageId>
  {
    TheOne(Matches(pages, title, lower))
  }

  /** The page answers to the title: titles are compared folded, and the link's without blanks around it. */
  predicate Carries(page: Page, title: string, lower: Fold)
  {
    page.title != "" && TrimSpace(title) != "" && lower(page.title) == lower(TrimSpace(title))
  }

  /** A title link is broken without a page of that title, ambiguous with two, and otherwise leads to the only one. */
  lemma FreshStateIff(pages: Pages, title: string, lower: Fold)
    ensures FreshState(pages, title, lower) == Broken <==> forall id :: id in pages ==> !Carries(pages[id], title, lower)
    ensures FreshState(pages, title, lower) == Ambiguous <==>
              exists a, b :: a in pages && b in pages && a != b && Carries(pages[a], title, lower) && Carries(pages[b], title, lower)
    ensures FreshState(pages, title, lower) == Resolved ==>
              FreshTarget(pages, title, lower).Some? && forall id :: id in pages && Carries(pages[id], title, lower) <==> FreshTarget(pages, title, lower) == Some(id)
    ensures FreshState(pages, title, lower) != Resolved ==> FreshTarget(pages, title, lower).None?
  {
    var matches := Matches(pages, title, lower);
    assert forall id :: id in matches <==> id in pages && Carries(pages[id], title, lower);
    if a, b :| a in matches && b in matches && a != b {
      assert {a, b} <= matches && |{a, b}| == 2;
      SubsetSize({a, b}, matches);
    }
    if |matches| >= 2 {
      var a :| a in matches;
      assert |matches - {a}| >= 1;
      var b :| b in matches - {a};
    }
  }

  lemma {:induction false} SubsetSize(a: set<PageId>, b: set<PageId>)
    requires a <= b
    ensures |a| <= |b|
  {
    if a != {} {
      var x :| x in a;
      SubsetSize(a - {x}, b - {x});
    }
  }

  /** resolveWikiLinkTargets for one target; a slash-containing title without a match becomes a route row. */
  function ResolveTitle(pages: Pages, title: string, lower: Fold, routes: string -> Option<PageId>): (r: TargetLink)
    ensures IsSentinel(r.path) || HasPrefix(r.path, "/")
  {
    if '/' in title && Matches(pages, title, lower) == {} then
      var route := "/" + TrimPrefix(title, "/");
      TargetLink(routes(route), route, if routes(route).Some? then Resolved else Broken)
    else
      TargetLink(FreshTarget(pages, title, lower), Sentinel(title), FreshState(pages, title, lower))
  }

  /** collectTargetsFromContent: the path links of a page, then its title links. */
  function CollectTargets(pages: Pages, page: Page, lower: Fold, routes: string -> Option<PageId>): (links: seq<TargetLink>)
    ensures |links| == |page.pathLinks| + |page.titles|
    ensures forall i :: 0 <= i < |page.pathLinks| ==> links[i] == page.pathLinks[i]
    ensures forall i :: 0 <= i < |page.titles| ==> links[|page.pathLinks| + i] == ResolveTitle(pages, page.titles[i], lower, routes)
  {
    page.pathLinks + seq(|page.titles|, i requires 0 <= i < |page.titles| => ResolveTitle(pages, page.titles[i], lower, routes))
  }

  // ----- the invariant -----

  ghost predicate PathLinksOk(page: Page)
  {
    && HasPrefix(page.path, "/")
    && (forall l :: l in page.pathLinks ==> HasPrefix(l.path, "/"))
    && (forall t :: t in page.titles ==> t != "" && TrimSpace(t) == t)
  }

  ghost predicate KeysOk(rows: Rows)
  {
    forall k :: k in rows ==> IsSentinel(k.toPath) || HasPrefix(k.toPath, "/")
  }

  /** The row says what a fresh resolution of its title says now. */
  ghost predicate RowExact(rows: Rows, k: Key, pages: Pages, lower: Fold)
    requires k in rows && IsSentinel(k.toPath)
  {
    rows[k].state == FreshState(pages, TitleOf(k.toPath), lower) && rows[k].toPage == FreshTarget(pages, TitleOf(k.toPath), lower)
  }

  /** One of the given titles is folded together with t by the page tree. */
  ghost predicate Stale(t: string, titles: seq<string>, lower: Fold)
  {
    exists u :: u in titles && lower(u) == lower(t)
  }

  /**
   Every title row is exact, apart from rows of the titles still to be reconciled; the folded titles in
   seen are done.
   */
  ghost predicate ExactExcept(rows: Rows, pages: Pages, lower: Fold, titles: seq<string>, seen: set<string>)
  {
    forall k :: k in rows && IsSentinel(k.toPath) ==>
      RowExact(rows, k, pages, lower) ||
      (Stale(TitleOf(k.toPath), titles, lower) && lower(TitleOf(k.toPath)) !in seen)
  }

  /** A slash-free title has a row exactly where a page's content links it, apart from the open pages. */
  ghost predicate RowsMatchContent(rows: Rows, pages: Pages, open: set<PageId>)
  {
    forall from, t :: from !in open && '/' !in t ==>
      (Key(from, Sentinel(t)) in rows <==> from in pages && t in pages[from].titles)
  }

  /** The two foldings agree on these titles; Unicode folding only ever joins more than ASCII folding. */
  ghost predicate FoldAlike(lower: Fold, alike: iset<string>)
  {
    && (forall s, t :: s in alike && t in alike && lower(s) == lower(t) ==> AsciiLower(s) == AsciiLower(t))
    && (forall s, t :: AsciiLower(s) == AsciiLower(t) ==> lower(s) == lower(t))
    && (forall s :: s in alike ==> TrimSpace(s) in alike)
    && (forall s :: lower(s) == "" <==> s == "")
  }

  ghost predicate TitlesIn(rows: Rows, alike: iset<string>)
  {
    forall k :: k in rows && IsSentinel(k.toPath) ==> TitleOf(k.toPath) in alike && TrimSpace(TitleOf(k.toPath)) == TitleOf(k.toPath) != ""
  }

  /** The rows are right but for titles still to be reconciled and pages still to be re-linked. */
  ghost predicate Good(rows: Rows, pages: Pages, lower: Fold, alike: iset<string>,
                       titles: seq<string>, seen: set<string>, open: set<PageId>)
  {
    && KeysOk(rows) && TitlesIn(rows, alike)
    && ExactExcept(rows, pages, lower, titles, seen)
    && RowsMatchContent(rows, pages, open)
  }

  // ----- folding -----

  lemma LowerAppend(a: string, b: string)
    ensures AsciiLower(a + b) == AsciiLower(a) + AsciiLower(b)
  {
  }

  lemma SentinelFolds(s: string, t: string)
    ensures AsciiLower(Sentinel(s)) == AsciiLower(Sentinel(t)) <==> AsciiLower(s) == AsciiLower(t)
  {
    var p := AsciiLower(SENTINEL_PREFIX);
    LowerAppend(SENTINEL_PREFIX, s);
    LowerAppend(SENTINEL_PREFIX, t);
    assert (p + AsciiLower(s))[|p|..] == AsciiLower(s) && (p + AsciiLower(t))[|p|..] == AsciiLower(t);
  }

  predicate Edged(s: string)
  {
    s != "" && (IsSpace(s[0]) || IsSpace(s[|s| - 1]))
  }

  lemma {:induction false} TrimmedIff(s: string)
    ensures TrimSpace(s) == s <==> !Edged(s)
    ensures |TrimSpace(s)| <= |s|
  {
    TrimLeftShrinks(s);
    TrimRightShrinks(TrimLeft(s));
  }

  lemma {:induction false} TrimLeftShrinks(s: string)
    ensures |TrimLeft(s)| <= |s|
    ensures if s == "" || !IsSpace(s[0]) then TrimLeft(s) == s else |TrimLeft(s)| < |s|
  {
    if s != "" && IsSpace(s[0]) { TrimLeftShrinks(s[1..]); }
  }

  lemma {:induction false} TrimRightShrinks(s: string)
    ensures |TrimRight(s)| <= |s|
    ensures if s == "" || !IsSpace(s[|s| - 1]) then TrimRight(s) == s else |TrimRight(s)| < |s|
  {
    if s != "" && IsSpace(s[|s| - 1]) { TrimRightShrinks(s[..|s| - 1]); }
  }

  /** Titles that fold alike are trimmed alike. */
  lemma TrimmedAlike(s: string, t: string)
    requires AsciiLower(s) == AsciiLower(t) && TrimSpace(s) == s
    ensures TrimSpace(t) == t
  {
    TrimmedIff(s);
    TrimmedIff(t);
    assert forall c: char :: IsSpace(LowerChar(c)) == IsSpace(c);
    assert |AsciiLower(s)| == |s| && |AsciiLower(t)| == |t|;
    if t != "" {
      assert AsciiLower(t)[0] == LowerChar(t[0]) && AsciiLower(s)[0] == LowerChar(s[0]);
      assert AsciiLower(t)[|t| - 1] == LowerChar(t[|t| - 1]) && AsciiLower(s)[|s| - 1] == LowerChar(s[|s| - 1]);
    }
  }

  /** A path that folds like a sentinel key is a sentinel, when keys are well-formed. */
  lemma FoldedSentinelIsSentinel(rows: Rows, k: Key, title: string)
    requires KeysOk(rows) && k in rows && AsciiLower(k.toPath) == AsciiLower(Sentinel(title))
    ensures IsSentinel(k.toPath) && k.toPath == Sentinel(TitleOf(k.toPath))
  {
    assert AsciiLower(k.toPath)[0] == LowerChar(k.toPath[0]);
    assert AsciiLower(Sentinel(title))[0] == LowerChar(SENTINEL_PREFIX[0]) == 'w';
    assert LowerChar('/') != 'w';
  }

  // ----- reconciling one title -----

  function AfterReconcile(rows: Rows, pages: Pages, lower: Fold, title: string): Rows
  {
    if TrimSpace(title) == "" then rows
    else TitleReconciled(rows, TrimSpace(title), FreshState(pages, TrimSpace(title), lower), FreshTarget(pages, TrimSpace(title), lower))
  }

  /** Titles the tree folds together have the same matches. */
  lemma SameMatches(pages: Pages, s: string, t: string, lower: Fold)
    requires TrimSpace(s) == s && TrimSpace(t) == t && lower(s) == lower(t) && (s == "" <==> t == "")
    ensures Matches(pages, s, lower) == Matches(pages, t, lower)
  {
  }

  lemma EmptyFoldsAlone(s: string, t: string)
    requires AsciiLower(s) == AsciiLower(t)
    ensures s == "" <==> t == ""
  {
    assert |AsciiLower(s)| == |s| && |AsciiLower(t)| == |t|;
  }

  /** A reconciled row is exact: the key matched, and the match decides the classification. */
  lemma MatchedRowIsExact(rows: Rows, pages: Pages, lower: Fold, alike: iset<string>, title: string, k: Key)
    requires FoldAlike(lower, alike) && KeysOk(rows) && TitlesIn(rows, alike)
    requires TrimSpace(title) == title && title != ""
    requires k in rows && AsciiLower(k.toPath) == SentinelKey(title)
    ensures IsSentinel(k.toPath) && RowExact(AfterReconcile(rows, pages, lower, title), k, pages, lower)
  {
    FoldedSentinelIsSentinel(rows, k, title);
    var t := TitleOf(k.toPath);
    SentinelFolds(t, title);
    EmptyFoldsAlone(t, title);
    SameMatches(pages, t, title, lower);
    assert AfterReconcile(rows, pages, lower, title) ==
           TitleReconciled(rows, title, FreshState(pages, title, lower), FreshTarget(pages, title, lower));
  }

  /** A row of a stale title is matched, because its title folds like the reconciled one. */
  lemma StaleRowIsMatched(rows: Rows, lower: Fold, alike: iset<string>, title: string, k: Key)
    requires FoldAlike(lower, alike) && TitlesIn(rows, alike) && title in alike
    requires k in rows && IsSentinel(k.toPath) && lower(TitleOf(k.toPath)) == lower(title)
    ensures TrimSpace(title) == title && AsciiLower(k.toPath) == SentinelKey(title)
  {
    var t := TitleOf(k.toPath);
    TrimmedAlike(t, title);
    SentinelFolds(t, title);
    assert k.toPath == Sentinel(t);
  }

  /** One reconcile makes every row of that title exact and leaves the exact ones exact. */
  lemma ReconcileOne(rows: Rows, pages: Pages, lower: Fold, alike: iset<string>,
                     title: string, titles: seq<string>, seen: set<string>, open: set<PageId>)
    requires FoldAlike(lower, alike) && title in alike
    requires Good(rows, pages, lower, alike, [title] + titles, seen, open)
    ensures Good(AfterReconcile(rows, pages, lower, title), pages, lower, alike, titles, seen + {lower(TrimSpace(title))}, open)
  {
    var after := AfterReconcile(rows, pages, lower, title);
    assert after.Keys == rows.Keys;
    TrimTwice(title);
    forall k | k in after && IsSentinel(k.toPath)
      ensures RowExact(after, k, pages, lower) ||
              (Stale(TitleOf(k.toPath), titles, lower) && lower(TitleOf(k.toPath)) !in seen + {lower(TrimSpace(title))})
    {
      var t := TitleOf(k.toPath);
      if lower(t) == lower(title) || lower(t) == lower(TrimSpace(title)) {
        var u := if lower(t) == lower(title) then title else TrimSpace(title);
        StaleRowIsMatched(rows, lower, alike, u, k);
        SentinelFolds(t, u);
        EmptyFoldsAlone(t, u);
        MatchedRowIsExact(rows, pages, lower, alike, u, k);
      } else if TrimSpace(title) != "" && AsciiLower(k.toPath) == SentinelKey(TrimSpace(title)) {
        MatchedRowIsExact(rows, pages, lower, alike, TrimSpace(title), k);
      } else {
        assert after[k] == rows[k];
        if !RowExact(rows, k, pages, lower) {
          var u :| u in [title] + titles && lower(u) == lower(t);
          assert u in titles;
        }
      }
    }
  }

  /** A title whose folded form has been seen needs no second reconcile. */
  lemma SkipSeen(rows: Rows, pages: Pages, lower: Fold, alike: iset<string>,
                 title: string, titles: seq<string>, seen: set<string>, open: set<PageId>)
    requires FoldAlike(lower, alike) && title in alike
    requires Good(rows, pages, lower, alike, [title] + titles, seen, open)
    requires TrimSpace(title) == "" || lower(TrimSpace(title)) in seen
    ensures Good(rows, pages, lower, alike, titles, seen, open)
  {
    forall k | k in rows && IsSentinel(k.toPath) && !RowExact(rows, k, pages, lower)
      ensures Stale(TitleOf(k.toPath), titles, lower)
    {
      var t := TitleOf(k.toPath);
      var u :| u in [title] + titles && lower(u) == lower(t);
      if u == title {
        StaleRowIsMatched(rows, lower, alike, title, k);
        SentinelFolds(t, title);
        EmptyFoldsAlone(t, title);
        assert false;
      }
      assert u in titles;
    }
  }

  lemma {:induction false} TrimTwice(s: string)
    ensures TrimSpace(TrimSpace(s)) == TrimSpace(s)
  {
    var r := TrimSpace(s);
    TrimmedIff(r);
    LeftTrimmed(s);
    RightTrimmed(TrimLeft(s));
  }

  lemma {:induction false} LeftTrimmed(s: string)
    ensures TrimLeft(s) == "" || !IsSpace(TrimLeft(s)[0])
  {
    if s != "" && IsSpace(s[0]) { LeftTrimmed(s[1..]); }
  }

  lemma {:induction false} RightTrimmed(s: string)
    requires s == "" || !IsSpace(s[0])
    ensures TrimRight(s) == "" || (!IsSpace(TrimRight(s)[|TrimRight(s)| - 1]) && !IsSpace(TrimRight(s)[0]))
  {
    if s != "" && IsSpace(s[|s| - 1]) { RightTrimmed(s[..|s| - 1]); }
  }

  // ----- what the other statements keep -----

  lemma PathsAreNoSentinels(path: string)
    requires HasPrefix(path, "/")
    ensures !IsSentinel(path)
  {
    assert path[0] == '/';
  }

  /** A statement that leaves every sentinel row as it is leaves the title index as it is. */
  lemma SentinelRowsKept(rows: Rows, after: Rows, pages: Pages, lower: Fold, alike: iset<string>,
                         titles: seq<string>, seen: set<string>, open: set<PageId>)
    requires Good(rows, pages, lower, alike, titles, seen, open)
    requires after.Keys == rows.Keys && forall k :: k in rows && IsSentinel(k.toPath) ==> after[k] == rows[k]
    ensures Good(after, pages, lower, alike, titles, seen, open)
  {
    forall k | k in after && IsSentinel(k.toPath)
      ensures RowExact(after, k, pages, lower) == RowExact(rows, k, pages, lower)
    {
    }
  }

  lemma HealKeeps(rows: Rows, path: string, page: PageId, pages: Pages, lower: Fold, alike: iset<string>,
                  titles: seq<string>, seen: set<string>, open: set<PageId>)
    requires Good(rows, pages, lower, alike, titles, seen, open) && HasPrefix(path, "/")
    ensures Good(PathHealed(rows, path, page), pages, lower, alike, titles, seen, open)
  {
    PathsAreNoSentinels(path);
    SentinelRowsKept(rows, PathHealed(rows, path, page), pages, lower, alike, titles, seen, open);
  }

  lemma BreakPathKeeps(rows: Rows, path: string, pages: Pages, lower: Fold, alike: iset<string>,
                       titles: seq<string>, seen: set<string>, open: set<PageId>)
    requires Good(rows, pages, lower, alike, titles, seen, open) && HasPrefix(path, "/")
    ensures Good(PathBroken(rows, path), pages, lower, alike, titles, seen, open)
    ensures Good(PrefixBroken(rows, path), pages, lower, alike, titles, seen, open)
  {
    PathsAreNoSentinels(path);
    forall k | k in rows && IsSentinel(k.toPath)
      ensures !UnderPrefix(k.toPath, path)
    {
      assert AsciiLower(k.toPath)[0] == LowerChar(k.toPath[0]) == LowerChar(SENTINEL_PREFIX[0]);
      assert AsciiLower(path + "/")[0] == LowerChar(path[0]) == '/';
    }
    SentinelRowsKept(rows, PathBroken(rows, path), pages, lower, alike, titles, seen, open);
    SentinelRowsKept(rows, PrefixBroken(rows, path), pages, lower, alike, titles, seen, open);
  }

  /** Breaking the links to a page that is gone touches only rows that are about to be reconciled. */
  lemma BreakIncomingKeeps(rows: Rows, id: PageId, pages: Pages, lower: Fold, alike: iset<string>,
                           titles: seq<string>, seen: set<string>, open: set<PageId>)
    requires Good(rows, pages, lower, alike, titles, seen, open) && id !in pages
    ensures Good(IncomingBroken(rows, id), pages, lower, alike, titles, seen, open)
  {
    var after := IncomingBroken(rows, id);
    assert after.Keys == rows.Keys;
    forall k | k in after && IsSentinel(k.toPath)
      ensures RowExact(after, k, pages, lower) ||
              (Stale(TitleOf(k.toPath), titles, lower) && lower(TitleOf(k.toPath)) !in seen)
    {
      var t := TitleOf(k.toPath);
      if RowExact(rows, k, pages, lower) && rows[k].toPage.Some? {
        assert rows[k].toPage.value in Matches(pages, t, lower);
      }
    }
  }

  lemma DropRowsKeeps(rows: Rows, id: PageId, pages: Pages, lower: Fold, alike: iset<string>,
                      titles: seq<string>, seen: set<string>, open: set<PageId>)
    requires Good(rows, pages, lower, alike, titles, seen, open) && id !in pages
    ensures Good(WithoutFrom(rows, id), pages, lower, alike, titles, seen, open - {id})
  {
    var after := WithoutFrom(rows, id);
    forall k | k in after && IsSentinel(k.toPath)
      ensures RowExact(after, k, pages, lower) == RowExact(rows, k, pages, lower)
    {
    }
  }

  /**
   These links may become a page's rows: path links, and title links as a fresh resolution gives them,
   with a slash-free title exactly where the page's content links it.
   */
  ghost predicate LinksFit(links: seq<TargetLink>, pages: Pages, page: Page, lower: Fold, alike: iset<string>)
  {
    && (forall i :: 0 <= i < |links| ==> HasPrefix(links[i].path, "/") || FreshTitleLink(links[i], pages, lower, alike))
    && (forall t :: '/' !in t ==> (HasPath(links, Sentinel(t)) <==> t in page.titles))
  }

  ghost predicate FreshTitleLink(l: TargetLink, pages: Pages, lower: Fold, alike: iset<string>)
  {
    && IsSentinel(l.path) && TitleOf(l.path) in alike && TrimSpace(TitleOf(l.path)) == TitleOf(l.path) != ""
    && l.state == FreshState(pages, TitleOf(l.path), lower) && l.page == FreshTarget(pages, TitleOf(l.path), lower)
  }

  ghost predicate HasPath(links: seq<TargetLink>, path: string)
  {
    exists i :: 0 <= i < |links| && links[i].path == path
  }

  /** Replacing a page's rows by links that fit settles the page. */
  lemma ReplaceKeeps(rows: Rows, id: PageId, pages: Pages, lower: Fold, alike: iset<string>, links: seq<TargetLink>,
                     titles: seq<string>, seen: set<string>, open: set<PageId>)
    requires Good(rows, pages, lower, alike, titles, seen, open)
    requires id in pages && LinksFit(links, pages, pages[id], lower, alike)
    ensures Good(WithLinks(WithoutFrom(rows, id), id, pages[id].title, links), pages, lower, alike, titles, seen, open - {id})
  {
    var cleared := WithoutFrom(rows, id);
    var after := WithLinks(cleared, id, pages[id].title, links);
    forall k | k in after
      ensures IsSentinel(k.toPath) || HasPrefix(k.toPath, "/")
      ensures IsSentinel(k.toPath) ==>
                && TitleOf(k.toPath) in alike && TrimSpace(TitleOf(k.toPath)) == TitleOf(k.toPath) != ""
                && (RowExact(after, k, pages, lower) ||
                    (Stale(TitleOf(k.toPath), titles, lower) && lower(TitleOf(k.toPath)) !in seen))
    {
      WithLinksAt(cleared, id, pages[id].title, links, k);
      if k.from == id {
        var i :| 0 <= i < |links| && links[i].path == k.toPath && after[k] == Row(links[i].page, pages[id].title, links[i].state);
        if HasPrefix(k.toPath, "/") { PathsAreNoSentinels(k.toPath); }
      } else {
        assert after[k] == rows[k];
      }
    }
    forall from, t | from !in open - {id} && '/' !in t
      ensures Key(from, Sentinel(t)) in after <==> from in pages && t in pages[from].titles
    {
      WithLinksAt(cleared, id, pages[id].title, links, Key(from, Sentinel(t)));
    }
  }

  /** A page's links as its content has them, resolved now, fit. */
  lemma CollectedFit(pages: Pages, page: Page, lower: Fold, alike: iset<string>, routes: string -> Option<PageId>)
    requires PathLinksOk(page) && forall t :: t in page.titles ==> t in alike
    ensures LinksFit(CollectTargets(pages, page, lower, routes), pages, page, lower, alike)
  {
    var links, n := CollectTargets(pages, page, lower, routes), |page.pathLinks|;
    forall i | 0 <= i < |links|
      ensures HasPrefix(links[i].path, "/") || FreshTitleLink(links[i], pages, lower, alike)
    {
      CollectedLink(pages, page, i, lower, alike, routes);
    }
    forall t | '/' !in t
      ensures HasPath(links, Sentinel(t)) <==> t in page.titles
    {
      if t in page.titles {
        var j :| 0 <= j < |page.titles| && page.titles[j] == t;
        TitleLink(pages, t, lower, routes);
        assert links[n + j].path == Sentinel(t);
      }
      if i :| 0 <= i < |links| && links[i].path == Sentinel(t) {
        TitleOfLink(pages, page, i, t, lower, routes);
      }
    }
  }

  lemma CollectedLink(pages: Pages, page: Page, i: nat, lower: Fold, alike: iset<string>, routes: string -> Option<PageId>)
    requires PathLinksOk(page) && forall t :: t in page.titles ==> t in alike
    requires i < |CollectTargets(pages, page, lower, routes)|
    ensures
      var l := CollectTargets(pages, page, lower, routes)[i];
      HasPrefix(l.path, "/") || FreshTitleLink(l, pages, lower, alike)
  {
    var n := |page.pathLinks|;
    if i < n {
      assert page.pathLinks[i] in page.pathLinks;
    } else {
      TitleLink(pages, page.titles[i - n], lower, routes);
      assert page.titles[i - n] in page.titles && CollectTargets(pages, page, lower, routes)[n + (i - n)] ==
             ResolveTitle(pages, page.titles[i - n], lower, routes);
    }
  }

  /** A title link stored under a title is a link to that title. */
  lemma TitleOfLink(pages: Pages, page: Page, i: nat, t: string, lower: Fold, routes: string -> Option<PageId>)
    requires PathLinksOk(page) && i < |CollectTargets(pages, page, lower, routes)|
    requires CollectTargets(pages, page, lower, routes)[i].path == Sentinel(t)
    ensures t in page.titles
  {
    var links, n := CollectTargets(pages, page, lower, routes), |page.pathLinks|;
    assert Sentinel(t)[0] == 'w';
    assert forall l :: l in page.pathLinks ==> l.path[0] == '/';
    assert forall j :: 0 <= j < n ==> links[j].path[0] == '/';
    assert links[n + (i - n)] == ResolveTitle(pages, page.titles[i - n], lower, routes);
    TitleLink(pages, page.titles[i - n], lower, routes);
    SameSentinel(page.titles[i - n], t);
    assert page.titles[i - n] in page.titles;
  }

  /** A page's links, resolved now: its title rows are exact and match its content. */
  lemma RelinkKeeps(rows: Rows, id: PageId, pages: Pages, lower: Fold, alike: iset<string>, routes: string -> Option<PageId>,
                    titles: seq<string>, seen: set<string>, open: set<PageId>)
    requires Good(rows, pages, lower, alike, titles, seen, open)
    requires id in pages && PathLinksOk(pages[id]) && forall t :: t in pages[id].titles ==> t in alike
    ensures Good(WithLinks(WithoutFrom(rows, id), id, pages[id].title, CollectTargets(pages, pages[id], lower, routes)),
                 pages, lower, alike, titles, seen, open - {id})
  {
    CollectedFit(pages, pages[id], lower, alike, routes);
    ReplaceKeeps(rows, id, pages, lower, alike, CollectTargets(pages, pages[id], lower, routes), titles, seen, open);
  }

  lemma SameSentinel(s: string, t: string)
    requires Sentinel(s) == Sentinel(t)
    ensures s == t
  {
    assert Sentinel(s)[|SENTINEL_PREFIX|..] == s && Sentinel(t)[|SENTINEL_PREFIX|..] == t;
  }

  lemma TitleLink(pages: Pages, t: string, lower: Fold, routes: string -> Option<PageId>)
    ensures
      var l := ResolveTitle(pages, t, lower, routes);
      if IsSentinel(l.path)
      then l.path == Sentinel(t) && TitleOf(l.path) == t && l.state == FreshState(pages, t, lower) && l.page == FreshTarget(pages, t, lower)
      else '/' in t && Matches(pages, t, lower) == {}
    ensures
      var l := ResolveTitle(pages, t, lower, routes);
      '/' in t && FreshState(pages, t, lower) == Broken ==>
        l.path == (if HasPrefix(t, "/") then t else "/" + t) && l.page == routes(l.path) && (l.state == Resolved <==> l.page.Some?) && l.state != Ambiguous
  {
    assert Sentinel(t)[|SENTINEL_PREFIX|..] == t;
    var route := "/" + TrimPrefix(t, "/");
    PathsAreNoSentinels(route);
  }

  // ----- rows re-derived after a refactoring -----

  /** A rewrite rule as [[...]] links see it: two titles, and two routes without their leading slash. */
  datatype WikiRule = WikiRule(oldTitle: string, newTitle: string, oldHint: string, newHint: string)
  {
    predicate Renames() { oldTitle != "" && oldTitle != newTitle }

    predicate Moves() { oldHint != "" && oldHint != newHint }
  }

  /** How a refactoring renames [[...]] links; equalFold is strings.EqualFold. */
  datatype Renaming = Renaming(rules: seq<WikiRule>, equalFold: (string, string) -> bool)
  {
    predicate RenamedBy(i: nat, title: string)
      requires i < |rules|
    {
      rules[i].Renames() && equalFold(rules[i].oldTitle, title)
    }

    predicate MovedBy(i: nat, title: string)
      requires i < |rules|
    {
      rules[i].Moves() && rules[i].oldHint == title
    }

    /** rewriteWikiTitle, for a stored row: the first rule whose old title matches, ignoring case. */
    function Title(title: string): (r: string)
      ensures r == title || exists i :: 0 <= i < |rules| && rules[i].Renames() && r == rules[i].newTitle
    {
      TitleFrom(title, 0)
    }

    function TitleFrom(title: string, i: nat): (r: string)
      requires i <= |rules|
      ensures r == title || exists k :: i <= k < |rules| && rules[k].Renames() && r == rules[k].newTitle
      decreases |rules| - i
    {
      if i == |rules| then title
      else if RenamedBy(i, title) then rules[i].newTitle
      else TitleFrom(title, i + 1)
    }

    /**
     RewriteWikiLinks, for a [[title]] in the content: each rule has a pattern for its old title and one
     for its old path hint, and of two patterns that match the same link the first one wins.
     */
    function Content(title: string): string
    {
      ContentFrom(title, 0)
    }

    function ContentFrom(title: string, i: nat): string
      requires i <= |rules|
      decreases |rules| - i
    {
      if i == |rules| then title
      else if RenamedBy(i, title) then rules[i].newTitle
      else if MovedBy(i, title) then rules[i].newHint
      else ContentFrom(title, i + 1)
    }

    lemma {:induction false} TitleFromIs(title: string, k: nat, i: nat)
      requires k <= i <= |rules| && (forall j :: k <= j < i ==> !RenamedBy(j, title)) && (i < |rules| ==> RenamedBy(i, title))
      ensures TitleFrom(title, k) == if i < |rules| then rules[i].newTitle else title
      decreases i - k
    {
      if k < i { TitleFromIs(title, k + 1, i); }
    }

    /** The first rule with another title to give, and the title as its old one in whatever case, gives it; without one it stays. */
    lemma FirstRenameWins(title: string, i: nat)
      requires i <= |rules|
      requires forall j :: 0 <= j < i ==> rules[j].oldTitle == "" || rules[j].oldTitle == rules[j].newTitle || !equalFold(rules[j].oldTitle, title)
      requires i < |rules| ==> rules[i].oldTitle != "" && rules[i].oldTitle != rules[i].newTitle && equalFold(rules[i].oldTitle, title)
      ensures Title(title) == if i < |rules| then rules[i].newTitle else title
    {
      TitleFromIs(title, 0, i);
    }

    lemma {:induction false} ContentFromIs(title: string, k: nat, i: nat)
      requires k <= i <= |rules| && (forall j :: k <= j < i ==> !RenamedBy(j, title) && !MovedBy(j, title))
      requires i < |rules| ==> RenamedBy(i, title) || MovedBy(i, title)
      ensures ContentFrom(title, k) == if i == |rules| then title else if RenamedBy(i, title) then rules[i].newTitle else rules[i].newHint
      decreases i - k
    {
      if k < i { ContentFromIs(title, k + 1, i); }
    }

    /** In the content the first rule that matches wins too, its title pattern before its path hint, which is matched letter by letter. */
    lemma FirstPatternWins(title: string, i: nat)
      requires i <= |rules| && (forall j :: 0 <= j < i ==> !RenamedBy(j, title) && !MovedBy(j, title))
      requires i < |rules| ==> RenamedBy(i, title) || (rules[i].oldHint == title != "" && rules[i].oldHint != rules[i].newHint)
      ensures Content(title) == if i == |rules| then title else if RenamedBy(i, title) then rules[i].newTitle else rules[i].newHint
    {
      ContentFromIs(title, 0, i);
    }

    /** The new titles are titles this wiki uses. */
    ghost predicate Fits(alike: iset<string>)
    {
      forall i :: 0 <= i < |rules| && rules[i].Renames() ==>
        rules[i].newTitle in alike && TrimSpace(rules[i].newTitle) == rules[i].newTitle != ""
    }

    /** A rewritten link of the page is [[t]]. */
    ghost predicate Linked(page: Page, t: string)
    {
      exists s :: s in page.titles && Content(s) == t
    }

    /** A stored title row of the page becomes one of t. */
    ghost predicate Rederived(rows: Rows, from: PageId, t: string)
    {
      exists s :: Key(from, Sentinel(s)) in rows && Title(s) == t
    }

    /** The refactoring has rewritten the [[...]] links of the content. */
    ghost predicate Rewrote(before: Page, after: Page)
    {
      forall t :: '/' !in t ==> (t in after.titles <==> Linked(before, t))
    }

    /** The stored rows, renamed, are those of the slash-free titles that the rewritten content links. */
    ghost predicate Follows(rows: Rows, from: PageId, page: Page)
    {
      forall t :: '/' !in t ==> (Rederived(rows, from, t) <==> Linked(page, t))
    }
  }

  /** What a stored path link becomes: rewritten by the path rules and resolved again, or dropped. */
  type Repath = string -> Option<TargetLink>

  ghost predicate RepathOk(repath: Repath)
  {
    forall p :: repath(p).Some? ==> HasPrefix(repath(p).value.path, "/")
  }

  /** The rows of a page by their paths, each once, in some order. */
  ghost predicate OutgoingOf(rows: Rows, from: PageId, outgoing: seq<string>)
  {
    forall p :: p in outgoing <==> Key(from, p) in rows
  }

  function PathTargets(outgoing: seq<string>, repath: Repath): seq<TargetLink>
  {
    if outgoing == [] then []
    else
      var front, last := PathTargets(outgoing[..|outgoing| - 1], repath), outgoing[|outgoing| - 1];
      if IsSentinel(last) || repath(last).None? then front else front + [repath(last).value]
  }

  function TitleTargets(outgoing: seq<string>, pages: Pages, lower: Fold, routes: string -> Option<PageId>, renaming: Renaming): seq<TargetLink>
  {
    if outgoing == [] then []
    else
      var front, last := TitleTargets(outgoing[..|outgoing| - 1], pages, lower, routes, renaming), outgoing[|outgoing| - 1];
      if !IsSentinel(last) then front else front + [ResolveTitle(pages, renaming.Title(TitleOf(last)), lower, routes)]
  }

  lemma {:induction false} PathTargetsArePaths(outgoing: seq<string>, repath: Repath)
    requires RepathOk(repath)
    ensures forall i :: 0 <= i < |PathTargets(outgoing, repath)| ==> HasPrefix(PathTargets(outgoing, repath)[i].path, "/")
  {
    if outgoing != [] { PathTargetsArePaths(outgoing[..|outgoing| - 1], repath); }
  }

  /** The path targets are the stored path rows, each rewritten; only those that the rules drop are missing. */
  lemma {:induction false} PathTargetsOf(outgoing: seq<string>, repath: Repath, l: TargetLink)
    ensures l in PathTargets(outgoing, repath) <==> exists p :: p in outgoing && !IsSentinel(p) && repath(p) == Some(l)
  {
    if outgoing != [] {
      var front, last := outgoing[..|outgoing| - 1], outgoing[|outgoing| - 1];
      assert outgoing == front + [last];
      PathTargetsOf(front, repath, l);
    }
  }

  /** The title targets are the renamed titles of the stored title rows, each resolved now. */
  lemma {:induction false} TitleTargetsOf(outgoing: seq<string>, pages: Pages, lower: Fold, routes: string -> Option<PageId>,
                                          renaming: Renaming, l: TargetLink)
    ensures l in TitleTargets(outgoing, pages, lower, routes, renaming) <==>
            exists p :: p in outgoing && IsSentinel(p) && l == ResolveTitle(pages, renaming.Title(TitleOf(p)), lower, routes)
  {
    if outgoing != [] {
      var front, last := outgoing[..|outgoing| - 1], outgoing[|outgoing| - 1];
      assert outgoing == front + [last];
      TitleTargetsOf(front, pages, lower, routes, renaming, l);
    }
  }

  /** A renamed title of the wiki is a title of the wiki. */
  lemma RenamedTitle(renaming: Renaming, alike: iset<string>, s: string)
    requires renaming.Fits(alike) && s in alike && TrimSpace(s) == s != ""
    ensures renaming.Title(s) in alike && TrimSpace(renaming.Title(s)) == renaming.Title(s) != ""
  {
  }

  /** Path links, and title links as a fresh resolution gives them. */
  ghost predicate LinksSound(links: seq<TargetLink>, pages: Pages, lower: Fold, alike: iset<string>)
  {
    forall i :: 0 <= i < |links| ==> HasPrefix(links[i].path, "/") || FreshTitleLink(links[i], pages, lower, alike)
  }

  /** The links derived from the stored rows are as a fresh resolution gives them, and they are those of the renamed rows. */
  lemma RederivedLinks(rows: Rows, from: PageId, pages: Pages, lower: Fold, alike: iset<string>,
                       routes: string -> Option<PageId>, renaming: Renaming, repath: Repath, outgoing: seq<string>)
    requires TitlesIn(rows, alike) && OutgoingOf(rows, from, outgoing) && renaming.Fits(alike) && RepathOk(repath)
    ensures
      var links := PathTargets(outgoing, repath) + TitleTargets(outgoing, pages, lower, routes, renaming);
      && LinksSound(links, pages, lower, alike)
      && forall t :: '/' !in t ==> (HasPath(links, Sentinel(t)) <==> renaming.Rederived(rows, from, t))
  {
    var paths, titles := PathTargets(outgoing, repath), TitleTargets(outgoing, pages, lower, routes, renaming);
    var links := paths + titles;
    PathTargetsArePaths(outgoing, repath);
    forall i | 0 <= i < |links|
      ensures HasPrefix(links[i].path, "/") || FreshTitleLink(links[i], pages, lower, alike)
    {
      if i >= |paths| {
        assert links[i] in titles;
        RederivedTitle(rows, from, pages, lower, alike, routes, renaming, outgoing, links[i]);
      }
    }
    forall t | '/' !in t
      ensures HasPath(links, Sentinel(t)) <==> renaming.Rederived(rows, from, t)
    {
      SentinelIsNoPath(paths, titles, t);
      RederivedPath(rows, from, pages, lower, routes, renaming, outgoing, t);
    }
  }

  /**
   The rows derived from the stored ones fit the rewritten page exactly when the renamed rows follow the
   content: the stored rows know the title rules only, the content was also rewritten by path hints.
   */
  lemma RederivedFitIff(rows: Rows, from: PageId, before: Pages, pages: Pages, lower: Fold, alike: iset<string>,
                        routes: string -> Option<PageId>, renaming: Renaming, repath: Repath, outgoing: seq<string>)
    requires TitlesIn(rows, alike) && OutgoingOf(rows, from, outgoing)
    requires from in before && from in pages && renaming.Rewrote(before[from], pages[from])
    requires renaming.Fits(alike) && RepathOk(repath)
    ensures
      LinksFit(PathTargets(outgoing, repath) + TitleTargets(outgoing, pages, lower, routes, renaming), pages, pages[from], lower, alike)
      <==> renaming.Follows(rows, from, before[from])
  {
    var links := PathTargets(outgoing, repath) + TitleTargets(outgoing, pages, lower, routes, renaming);
    RederivedLinks(rows, from, pages, lower, alike, routes, renaming, repath, outgoing);
    assert LinksSound(links, pages, lower, alike);
    assert forall t :: '/' !in t ==> (t in pages[from].titles <==> renaming.Linked(before[from], t));
  }

  lemma SentinelIsNoPath(paths: seq<TargetLink>, titles: seq<TargetLink>, t: string)
    requires forall i :: 0 <= i < |paths| ==> HasPrefix(paths[i].path, "/")
    ensures HasPath(paths + titles, Sentinel(t)) <==> HasPath(titles, Sentinel(t))
  {
    var links := paths + titles;
    assert Sentinel(t)[0] == 'w' && forall i :: 0 <= i < |paths| ==> links[i].path[0] == '/';
    if i :| 0 <= i < |titles| && titles[i].path == Sentinel(t) {
      assert links[|paths| + i].path == Sentinel(t);
    }
  }

  /** A re-derived title link is a path link or what a fresh resolution of a title of the wiki gives. */
  lemma RederivedTitle(rows: Rows, from: PageId, pages: Pages, lower: Fold, alike: iset<string>,
                       routes: string -> Option<PageId>, renaming: Renaming, outgoing: seq<string>, l: TargetLink)
    requires TitlesIn(rows, alike) && OutgoingOf(rows, from, outgoing) && renaming.Fits(alike)
    requires l in TitleTargets(outgoing, pages, lower, routes, renaming)
    ensures HasPrefix(l.path, "/") || FreshTitleLink(l, pages, lower, alike)
  {
    TitleTargetsOf(outgoing, pages, lower, routes, renaming, l);
    var p :| p in outgoing && IsSentinel(p) && l == ResolveTitle(pages, renaming.Title(TitleOf(p)), lower, routes);
    assert Key(from, p) in rows;
    RenamedTitle(renaming, alike, TitleOf(p));
    TitleLink(pages, renaming.Title(TitleOf(p)), lower, routes);
  }

  lemma RederivedPath(rows: Rows, from: PageId, pages: Pages, lower: Fold, routes: string -> Option<PageId>,
                      renaming: Renaming, outgoing: seq<string>, t: string)
    requires OutgoingOf(rows, from, outgoing) && '/' !in t
    ensures HasPath(TitleTargets(outgoing, pages, lower, routes, renaming), Sentinel(t)) <==> renaming.Rederived(rows, from, t)
  {
    var titles := TitleTargets(outgoing, pages, lower, routes, renaming);
    if s :| Key(from, Sentinel(s)) in rows && renaming.Title(s) == t {
      assert Sentinel(s) in outgoing && TitleOf(Sentinel(s)) == s;
      var l := ResolveTitle(pages, t, lower, routes);
      TitleTargetsOf(outgoing, pages, lower, routes, renaming, l);
      assert l in titles;
      TitleLink(pages, t, lower, routes);
    }
    if i :| 0 <= i < |titles| && titles[i].path == Sentinel(t) {
      var l := titles[i];
      assert l in titles;
      TitleTargetsOf(outgoing, pages, lower, routes, renaming, l);
      var p :| p in outgoing && IsSentinel(p) && l == ResolveTitle(pages, renaming.Title(TitleOf(p)), lower, routes);
      var s := TitleOf(p);
      assert p == Sentinel(s) && Key(from, p) in rows;
      TitleLink(pages, renaming.Title(s), lower, routes);
      assert IsSentinel(Sentinel(t));
      SameSentinel(renaming.Title(s), t);
    }
  }

  // ----- one rule, as a rename or a move of one page applies it -----

  /** The path hint of the rule rewrites a link of the page. */
  predicate HintFires(renaming: Renaming, page: Page)
    requires |renaming.rules| == 1
  {
    renaming.MovedBy(0, renaming.rules[0].oldHint) && renaming.rules[0].oldHint in page.titles &&
    !renaming.RenamedBy(0, renaming.rules[0].oldHint)
  }

  /** Some other link of the page is [[t]] once titles are renamed. */
  ghost predicate AlsoLinked(renaming: Renaming, page: Page, t: string)
    requires |renaming.rules| == 1
  {
    exists s :: s in page.titles && s != renaming.rules[0].oldHint && renaming.Title(s) == t
  }

  /** A link the hint does not rewrite gets the same title in the content and in its row. */
  lemma OneRule(renaming: Renaming, page: Page, s: string)
    requires |renaming.rules| == 1 && s in page.titles
    ensures renaming.Content(s) ==
            if HintFires(renaming, page) && s == renaming.rules[0].oldHint then renaming.rules[0].newHint else renaming.Title(s)
    ensures HintFires(renaming, page) && s == renaming.rules[0].oldHint ==> renaming.Title(s) == s
  {
    assert renaming.TitleFrom(s, 1) == s && renaming.ContentFrom(s, 1) == s;
    assert renaming.TitleFrom(s, 0) == if renaming.RenamedBy(0, s) then renaming.rules[0].newTitle else renaming.TitleFrom(s, 1);
    assert renaming.ContentFrom(s, 0) ==
           if renaming.RenamedBy(0, s) then renaming.rules[0].newTitle
           else if renaming.MovedBy(0, s) then renaming.rules[0].newHint else renaming.ContentFrom(s, 1);
  }

  /** A title rule that leaves slashes alone gives a slash-free title only to rows of slash-free titles. */
  lemma OneRuleRederives(rows: Rows, from: PageId, before: Pages, lower: Fold, alike: iset<string>, renaming: Renaming, t: string)
    requires Good(rows, before, lower, alike, [], {}, {}) && from in before && '/' !in t
    requires |renaming.rules| == 1 && '/' !in renaming.rules[0].oldTitle
    requires forall s, u :: renaming.equalFold(s, u) ==> ('/' in s <==> '/' in u)
    ensures renaming.Rederived(rows, from, t) <==> exists s :: s in before[from].titles && renaming.Title(s) == t
  {
    forall s | renaming.Title(s) == t
      ensures Key(from, Sentinel(s)) in rows <==> s in before[from].titles
    {
      assert renaming.TitleFrom(s, 1) == s;
      assert '/' !in s;
      assert from !in {};
    }
  }

  /**
   With the one rule of a rename or a move, the stored rows follow the content exactly unless the rule's
   path hint rewrites a link of the page and one of the two hints is slash-free and not also the title of
   another link.
   */
  lemma OneRuleFollowsIff(rows: Rows, from: PageId, before: Pages, lower: Fold, alike: iset<string>, renaming: Renaming)
    requires Good(rows, before, lower, alike, [], {}, {}) && from in before
    requires |renaming.rules| == 1 && '/' !in renaming.rules[0].oldTitle
    requires forall s, u :: renaming.equalFold(s, u) ==> ('/' in s <==> '/' in u)
    ensures
      var page, rule := before[from], renaming.rules[0];
      renaming.Follows(rows, from, page) <==>
        !HintFires(renaming, page) ||
        (('/' in rule.oldHint || AlsoLinked(renaming, page, rule.oldHint)) &&
         ('/' in rule.newHint || AlsoLinked(renaming, page, rule.newHint)))
  {
    var page, rule := before[from], renaming.rules[0];
    forall t | '/' !in t
      ensures renaming.Rederived(rows, from, t) <==> AlsoLinked(renaming, page, t) || (rule.oldHint in page.titles && renaming.Title(rule.oldHint) == t)
      ensures renaming.Linked(page, t) <==> AlsoLinked(renaming, page, t) || (rule.oldHint in page.titles && renaming.Content(rule.oldHint) == t)
    {
      OneRuleRederives(rows, from, before, lower, alike, renaming, t);
      LinkedByOneRule(renaming, page, t);
    }
    if rule.oldHint in page.titles {
      OneRule(renaming, page, rule.oldHint);
    }
  }

  lemma LinkedByOneRule(renaming: Renaming, page: Page, t: string)
    requires |renaming.rules| == 1
    ensures
      var hint := renaming.rules[0].oldHint;
      renaming.Linked(page, t) <==> AlsoLinked(renaming, page, t) || (hint in page.titles && renaming.Content(hint) == t)
  {
    forall s | s in page.titles && s != renaming.rules[0].oldHint
      ensures renaming.Content(s) == renaming.Title(s)
    {
      OneRule(renaming, page, s);
    }
  }

  /** The failing case is real: moving /docs to /guide turns [[docs]] into [[guide]], and the row stays that of docs. */
  lemma MovedHintIsMissed(rows: Rows, from: PageId, before: Pages, lower: Fold, alike: iset<string>, renaming: Renaming)
    requires Good(rows, before, lower, alike, [], {}, {}) && from in before && before[from].titles == ["docs"]
    requires renaming.rules == [WikiRule("", "", "docs", "guide")]
    ensures renaming.Linked(before[from], "guide") && !renaming.Linked(before[from], "docs")
    ensures Key(from, Sentinel("docs")) in rows && renaming.Rederived(rows, from, "docs")
    ensures !renaming.Follows(rows, from, before[from])
  {
    var page := before[from];
    OneRule(renaming, page, "docs");
    assert "docs" in page.titles && from !in {};
    assert renaming.Content("docs") == "guide" && renaming.Title("docs") == "docs";
    assert "docs" != "guide";
    assert '/' !in "docs";
    assert renaming.Rederived(rows, from, "docs");
  }

  /** A batch of replaced pages settles all of them. */
  lemma {:induction false} ReplacedKeeps(rows: Rows, updates: seq<PageLinkUpdate>, pages: Pages, lower: Fold, alike: iset<string>,
                                         open: set<PageId>)
    requires Good(rows, pages, lower, alike, [], {}, open)
    requires forall i :: 0 <= i < |updates| ==> UpdateFits(updates[i], pages, lower, alike)
    ensures Good(Replaced(rows, updates), pages, lower, alike, [], {}, open - Sources(updates))
  {
    if updates == [] {
      assert open - Sources(updates) == open;
    } else {
      var front, u := updates[..|updates| - 1], updates[|updates| - 1];
      ReplacedKeeps(rows, front, pages, lower, alike, open);
      ReplaceKeeps(Replaced(rows, front), u.from, pages, lower, alike, u.targets, [], {}, open - Sources(front));
      assert updates == front + [u];
      assert open - Sources(front) - {u.from} == open - Sources(updates);
    }
  }

  /** The targets of the last update of the page. */
  ghost function TargetsOf(updates: seq<PageLinkUpdate>, id: PageId): seq<TargetLink>
  {
    if updates == [] then []
    else if updates[|updates| - 1].from == id then updates[|updates| - 1].targets
    else TargetsOf(updates[..|updates| - 1], id)
  }

  lemma {:induction false} TargetsAreOfOne(updates: seq<PageLinkUpdate>, id: PageId)
    requires id in Sources(updates)
    ensures exists i :: 0 <= i < |updates| && updates[i].from == id && updates[i].targets == TargetsOf(updates, id)
  {
    var n := |updates| - 1;
    if updates[n].from != id {
      var u :| u in updates && u.from == id;
      assert u in updates[..n];
      TargetsAreOfOne(updates[..n], id);
      var i :| 0 <= i < n && updates[..n][i].from == id && updates[..n][i].targets == TargetsOf(updates[..n], id);
      assert updates[i] == updates[..n][i];
    }
  }

  /** The titles of the title links; a path link stands for no slash-free title. */
  ghost function ShownTitles(links: seq<TargetLink>): (titles: seq<string>)
    ensures |titles| == |links|
    ensures forall i :: 0 <= i < |links| ==> titles[i] == if IsSentinel(links[i].path) then TitleOf(links[i].path) else "/"
  {
    seq(|links|, i requires 0 <= i < |links| => if IsSentinel(links[i].path) then TitleOf(links[i].path) else "/")
  }

  lemma ShownIff(links: seq<TargetLink>, t: string)
    requires '/' !in t
    ensures t in ShownTitles(links) <==> HasPath(links, Sentinel(t))
  {
    if i :| 0 <= i < |links| && links[i].path == Sentinel(t) {
      assert ShownTitles(links)[i] == t;
    }
    if i :| 0 <= i < |links| && ShownTitles(links)[i] == t {
      assert links[i].path == Sentinel(t);
    }
  }

  /** The pages as the updates show them: with the titles of their new links for content. */
  ghost function Shown(pages: Pages, updates: seq<PageLinkUpdate>): (shown: Pages)
    ensures shown.Keys == pages.Keys
    ensures forall id :: id in pages ==>
              shown[id] == if id in Sources(updates) then pages[id].(titles := ShownTitles(TargetsOf(updates, id))) else pages[id]
  {
    map id | id in pages :: if id in Sources(updates) then pages[id].(titles := ShownTitles(TargetsOf(updates, id))) else pages[id]
  }

  /** The update's links are sound, and their slash-free titles are those the renamed rows have. */
  ghost predicate Derives(u: PageLinkUpdate, rows: Rows, pages: Pages, lower: Fold, alike: iset<string>, renaming: Renaming)
  {
    && u.from in pages && u.title == pages[u.from].title && HasPrefix(u.path, "/") && LinksSound(u.targets, pages, lower, alike)
    && forall t :: '/' !in t ==> (HasPath(u.targets, Sentinel(t)) <==> renaming.Rederived(rows, u.from, t))
  }

  /** What the pages show is what their renamed rows have, and the updates fit that. */
  lemma DerivedFits(updates: seq<PageLinkUpdate>, rows: Rows, pages: Pages, lower: Fold, alike: iset<string>, renaming: Renaming, i: nat)
    requires i < |updates| && forall j :: 0 <= j < |updates| ==> Derives(updates[j], rows, pages, lower, alike, renaming)
    ensures UpdateFits(updates[i], Shown(pages, updates), lower, alike)
    ensures forall t :: '/' !in t ==>
              (t in Shown(pages, updates)[updates[i].from].titles <==> renaming.Rederived(rows, updates[i].from, t))
  {
    var shown, u := Shown(pages, updates), updates[i];
    assert u in updates && u.from in Sources(updates);
    TargetsAreOfOne(updates, u.from);
    var j :| 0 <= j < |updates| && updates[j].from == u.from && updates[j].targets == TargetsOf(updates, u.from);
    forall t | '/' !in t
      ensures t in shown[u.from].titles <==> renaming.Rederived(rows, u.from, t)
    {
      ShownIff(updates[j].targets, t);
      assert Derives(updates[j], rows, pages, lower, alike, renaming);
    }
    assert Derives(u, rows, pages, lower, alike, renaming);
    SoundFor(u.targets, pages, shown, lower, alike);
  }

  /** Only ids and titles matter for a fresh resolution. */
  lemma SoundFor(links: seq<TargetLink>, pages: Pages, shown: Pages, lower: Fold, alike: iset<string>)
    requires LinksSound(links, pages, lower, alike)
    requires shown.Keys == pages.Keys && forall id :: id in pages ==> shown[id].title == pages[id].title
    ensures LinksSound(links, shown, lower, alike)
  {
    assert forall t :: Matches(shown, t, lower) == Matches(pages, t, lower);
  }

  /** A table that is right for what the pages show is right for the pages exactly when both have the same slash-free titles. */
  lemma GoodForBothIff(rows: Rows, shown: Pages, pages: Pages, lower: Fold, alike: iset<string>)
    requires Good(rows, shown, lower, alike, [], {}, {})
    requires shown.Keys == pages.Keys && forall id :: id in pages ==> shown[id].title == pages[id].title
    ensures Good(rows, pages, lower, alike, [], {}, {}) <==>
              forall id, t :: id in pages && '/' !in t ==> (t in shown[id].titles <==> t in pages[id].titles)
  {
    assert forall t :: Matches(shown, t, lower) == Matches(pages, t, lower);
    forall k | k in rows && IsSentinel(k.toPath)
      ensures RowExact(rows, k, pages, lower) <==> RowExact(rows, k, shown, lower)
    {
    }
    if Good(rows, pages, lower, alike, [], {}, {}) {
      forall id, t | id in pages && '/' !in t
        ensures t in shown[id].titles <==> t in pages[id].titles
      {
        assert Key(id, Sentinel(t)) in rows <==> t in shown[id].titles;
      }
    }
  }

  ghost predicate UpdateFits(u: PageLinkUpdate, pages: Pages, lower: Fold, alike: iset<string>)
  {
    u.from in pages && u.title == pages[u.from].title && HasPrefix(u.path, "/") && LinksFit(u.targets, pages, pages[u.from], lower, alike)
  }

  ghost function Sources(updates: seq<PageLinkUpdate>): set<PageId>
  {
    set u | u in updates :: u.from
  }

  lemma {:induction false} HealedKeeps(rows: Rows, updates: seq<PageLinkUpdate>, pages: Pages, lower: Fold, alike: iset<string>,
                                       open: set<PageId>)
    requires Good(rows, pages, lower, alike, [], {}, open)
    requires forall i :: 0 <= i < |updates| ==> HasPrefix(updates[i].path, "/")
    ensures Good(Healed(rows, updates), pages, lower, alike, [], {}, open)
  {
    if updates != [] {
      var front, u := updates[..|updates| - 1], updates[|updates| - 1];
      HealedKeeps(rows, front, pages, lower, alike, open);
      HealKeeps(Healed(rows, front), u.path, u.from, pages, lower, alike, [], {}, open);
    }
  }

  // ----- changes of the page tree -----

  /** Between two trees only pages whose old and new titles are listed came, went or changed their title. */
  ghost predicate TitlesChanged(before: Pages, after: Pages, titles: seq<string>)
  {
    && (forall id :: id in before && (id !in after || after[id].title != before[id].title) ==> before[id].title in titles)
    && (forall id :: id in after && (id !in before || after[id].title != before[id].title) ==> after[id].title in titles)
  }

  /** After a tree change every title row is still exact, but for the changed titles. */
  lemma TreeChange(rows: Rows, before: Pages, after: Pages, lower: Fold, alike: iset<string>,
                   titles: seq<string>, open: set<PageId>)
    requires Good(rows, before, lower, alike, [], {}, open) && TitlesChanged(before, after, titles)
    requires forall id :: id !in open ==> (id in before <==> id in after)
    requires forall id :: id !in open && id in before ==> before[id].titles == after[id].titles
    ensures Good(rows, after, lower, alike, titles, {}, open)
  {
    forall k | k in rows && IsSentinel(k.toPath)
      ensures RowExact(rows, k, after, lower) || Stale(TitleOf(k.toPath), titles, lower)
    {
      var t := TitleOf(k.toPath);
      if !Stale(t, titles, lower) {
        assert Matches(before, t, lower) == Matches(after, t, lower);
        assert RowExact(rows, k, before, lower);
      }
    }
  }
}
