/**
 The page events that keep the title index: LinkService of internal/links/link_service.go as the save
 side effects of internal/wiki/pagesave/link_effect.go call it. The page tree has already changed when
 they run.
 */
module TitleIndex {
  import opened Common
  import opened Text
  import opened LinksStore
  import opened LinkService

  // ----- what the events do to the table -----

  /** The rows after reconciling each title whose folded form is not empty and not seen before. */
  function ReconciledAll(rows: Rows, pages: Pages, lower: Fold, titles: seq<string>, seen: set<string>): Rows
  {
    if titles == [] then rows
    else
      var key := lower(TrimSpace(titles[0]));
      if key == "" || key in seen then ReconciledAll(rows, pages, lower, titles[1..], seen)
      else ReconciledAll(AfterReconcile(rows, pages, lower, titles[0]), pages, lower, titles[1..], seen + {key})
  }

  /** The rows after a page's links were resolved anew and links to its path healed. */
  function Settled(rows: Rows, pages: Pages, id: PageId, lower: Fold, routes: string -> Option<PageId>): Rows
    requires id in pages
  {
    PathHealed(WithLinks(WithoutFrom(rows, id), id, pages[id].title, CollectTargets(pages, pages[id], lower, routes)), pages[id].path, id)
  }

  function SettledAll(rows: Rows, pages: Pages, ids: seq<PageId>, lower: Fold, routes: string -> Option<PageId>): Rows
    requires forall id :: id in ids ==> id in pages
  {
    if ids == [] then rows
    else Settled(SettledAll(rows, pages, ids[..|ids| - 1], lower, routes), pages, ids[|ids| - 1], lower, routes)
  }

  function WithoutAll(rows: Rows, ids: seq<PageId>): Rows
  {
    if ids == [] then rows else WithoutFrom(WithoutAll(rows, ids[..|ids| - 1]), ids[|ids| - 1])
  }

  function IncomingBrokenAll(rows: Rows, ids: seq<PageId>): Rows
  {
    if ids == [] then rows else IncomingBroken(IncomingBrokenAll(rows, ids[..|ids| - 1]), ids[|ids| - 1])
  }

  /** The rows after a delete, before its titles are reconciled: by path for one page, by prefix for a subtree. */
  function Deleted(rows: Rows, ids: seq<PageId>, oldPath: string): Rows
  {
    var dropped := WithoutAll(rows, ids);
    if |ids| > 1 then IncomingBrokenAll(PrefixBroken(dropped, oldPath), ids)
    else if |ids| == 1 then PathBroken(IncomingBrokenAll(dropped, ids), oldPath)
    else dropped
  }

  // ----- what becomes of the path rows -----

  ghost function SetOf(ids: seq<PageId>): set<PageId>
  {
    set id | id in ids
  }

  /** A link that the content of a page holds, resolved now. */
  ghost predicate IsLinkOf(l: TargetLink, pages: Pages, page: Page, lower: Fold, routes: string -> Option<PageId>)
  {
    l in page.pathLinks || exists t :: t in page.titles && l == ResolveTitle(pages, t, lower, routes)
  }

  /** The row `was` to the path, after the paths of the given pages were healed: broken, it points at one of them. */
  ghost predicate HealedBy(was: Row, now: Row, path: string, pages: Pages, ids: set<PageId>)
  {
    if was.state == Broken && exists id :: id in ids && id in pages && pages[id].path == path
    then exists id :: id in ids && id in pages && pages[id].path == path && now == Row(Some(id), was.fromTitle, Resolved)
    else now == was
  }

  /** As before, or broken before and healed by one of the given pages. */
  ghost predicate SameOrHealed(was: Row, now: Row, path: string, pages: Pages, ids: set<PageId>)
  {
    now == was || HealedBy(was, now, path, pages, ids)
  }

  /** The links a page gets its rows from. */
  type LinkSets = PageId -> iset<TargetLink>

  /** The links in the contents of the pages. */
  ghost function ContentLinks(pages: Pages, lower: Fold, routes: string -> Option<PageId>): LinkSets
  {
    (id: PageId) => iset l: TargetLink | id in pages && IsLinkOf(l, pages, pages[id], lower, routes)
  }

  /** A settled page's row to a path: there is one exactly where one of its links has the path, as that link is resolved now or healed. */
  ghost predicate OwnPathRow(after: Rows, pages: Pages, ids: set<PageId>, links: LinkSets, k: Key)
    requires k.from in pages
  {
    && (k in after <==> exists l :: l in links(k.from) && l.path == k.toPath)
    && (k in after ==> exists l :: l in links(k.from) && l.path == k.toPath &&
                                   SameOrHealed(Row(l.page, pages[k.from].title, l.state), after[k], k.toPath, pages, ids))
    && (k in after && k.toPath == pages[k.from].path ==> after[k].state != Broken)
  }

  /** The path rows after the given pages were settled: theirs are new, every other page's are healed where they lead to one of them. */
  ghost predicate PathsSettled(before: Rows, after: Rows, pages: Pages, ids: set<PageId>, links: LinkSets)
    requires ids <= pages.Keys
  {
    forall k: Key :: HasPrefix(k.toPath, "/") ==> PathSettled(before, after, pages, ids, links, k)
  }

  ghost predicate PathSettled(before: Rows, after: Rows, pages: Pages, ids: set<PageId>, links: LinkSets, k: Key)
    requires ids <= pages.Keys
  {
    if k.from in ids then OwnPathRow(after, pages, ids, links, k)
    else (k in after <==> k in before) && (k in after ==> HealedBy(before[k], after[k], k.toPath, pages, ids))
  }

  /** Path rows are out of reach of title reconciles. */
  lemma {:induction false} ReconcilesLeavePaths(rows: Rows, pages: Pages, lower: Fold, titles: seq<string>, seen: set<string>, k: Key)
    requires HasPrefix(k.toPath, "/")
    ensures
      var after := ReconciledAll(rows, pages, lower, titles, seen);
      (k in after <==> k in rows) && (k in after ==> after[k] == rows[k])
  {
    if titles != [] {
      var key := lower(TrimSpace(titles[0]));
      ReconcileLeavesPaths(rows, pages, lower, titles[0], k);
      if key == "" || key in seen {
        ReconcilesLeavePaths(rows, pages, lower, titles[1..], seen, k);
      } else {
        ReconcilesLeavePaths(AfterReconcile(rows, pages, lower, titles[0]), pages, lower, titles[1..], seen + {key}, k);
      }
    }
  }

  lemma ReconcileLeavesPaths(rows: Rows, pages: Pages, lower: Fold, title: string, k: Key)
    requires HasPrefix(k.toPath, "/")
    ensures
      var after := AfterReconcile(rows, pages, lower, title);
      (k in after <==> k in rows) && (k in after ==> after[k] == rows[k])
  {
    assert AsciiLower(k.toPath)[0] == LowerChar(k.toPath[0]) == '/';
    assert SentinelKey(TrimSpace(title))[0] == LowerChar(SENTINEL_PREFIX[0]) == 'w';
  }

  lemma LinkIsCollected(pages: Pages, page: Page, lower: Fold, routes: string -> Option<PageId>, l: TargetLink)
    requires IsLinkOf(l, pages, page, lower, routes)
    ensures l in CollectTargets(pages, page, lower, routes)
  {
    var links := CollectTargets(pages, page, lower, routes);
    if l in page.pathLinks {
      var i :| 0 <= i < |page.pathLinks| && page.pathLinks[i] == l;
      assert links[i] == l;
    } else {
      var t :| t in page.titles && l == ResolveTitle(pages, t, lower, routes);
      var j :| 0 <= j < |page.titles| && page.titles[j] == t;
      assert links[|page.pathLinks| + j] == l;
    }
  }

  lemma CollectedIsLink(pages: Pages, page: Page, lower: Fold, routes: string -> Option<PageId>, i: nat)
    requires i < |CollectTargets(pages, page, lower, routes)|
    ensures IsLinkOf(CollectTargets(pages, page, lower, routes)[i], pages, page, lower, routes)
  {
    var links, n := CollectTargets(pages, page, lower, routes), |page.pathLinks|;
    if i < n {
      assert links[i] == page.pathLinks[i];
    } else {
      assert links[n + (i - n)] == ResolveTitle(pages, page.titles[i - n], lower, routes);
      assert page.titles[i - n] in page.titles;
    }
  }

  lemma CollectedAre(pages: Pages, id: PageId, lower: Fold, routes: string -> Option<PageId>, l: TargetLink)
    requires id in pages
    ensures l in CollectTargets(pages, pages[id], lower, routes) <==> l in ContentLinks(pages, lower, routes)(id)
  {
    var links := CollectTargets(pages, pages[id], lower, routes);
    if i :| 0 <= i < |links| && links[i] == l {
      CollectedIsLink(pages, pages[id], lower, routes, i);
    }
    if l in ContentLinks(pages, lower, routes)(id) {
      LinkIsCollected(pages, pages[id], lower, routes, l);
    }
  }

  /** The row the inserted links leave for a path of the page. */
  lemma InsertedRow(rows: Rows, id: PageId, title: string, targets: seq<TargetLink>, links: iset<TargetLink>, k: Key)
    requires k.from == id && forall l :: l in targets <==> l in links
    ensures
      var after := WithLinks(WithoutFrom(rows, id), id, title, targets);
      && (k in after <==> exists l :: l in links && l.path == k.toPath)
      && (k in after ==> exists l :: l in links && l.path == k.toPath && after[k] == Row(l.page, title, l.state))
  {
    WithLinksAt(WithoutFrom(rows, id), id, title, targets, k);
    if i :| 0 <= i < |targets| && targets[i].path == k.toPath {
      assert targets[i] in links;
      var j :| 0 <= j < |targets| && targets[j].path == k.toPath &&
               WithLinks(WithoutFrom(rows, id), id, title, targets)[k] == Row(targets[j].page, title, targets[j].state);
      assert targets[j] in links;
    }
    if l :| l in links && l.path == k.toPath {
      var i :| 0 <= i < |targets| && targets[i] == l;
    }
  }

  /** One page settled. */
  lemma SettledRow(rows: Rows, pages: Pages, id: PageId, lower: Fold, routes: string -> Option<PageId>, k: Key)
    requires id in pages
    ensures PathSettled(rows, Settled(rows, pages, id, lower, routes), pages, {id}, ContentLinks(pages, lower, routes), k)
  {
    var targets, links := CollectTargets(pages, pages[id], lower, routes), ContentLinks(pages, lower, routes);
    var linked := WithLinks(WithoutFrom(rows, id), id, pages[id].title, targets);
    var after := PathHealed(linked, pages[id].path, id);
    forall l { CollectedAre(pages, id, lower, routes, l); }
    if k.from == id {
      InsertedRow(rows, id, pages[id].title, targets, links(id), k);
      if k in linked {
        var l :| l in links(id) && l.path == k.toPath && linked[k] == Row(l.page, pages[id].title, l.state);
        assert SameOrHealed(Row(l.page, pages[id].title, l.state), after[k], k.toPath, pages, {id});
      }
    } else {
      WithLinksAt(WithoutFrom(rows, id), id, pages[id].title, targets, k);
    }
  }

  lemma {:induction false} SettledAllRow(rows: Rows, pages: Pages, ids: seq<PageId>, lower: Fold, routes: string -> Option<PageId>, k: Key)
    requires forall id :: id in ids ==> id in pages
    ensures PathSettled(rows, SettledAll(rows, pages, ids, lower, routes), pages, SetOf(ids), ContentLinks(pages, lower, routes), k)
  {
    if ids != [] {
      var front, last := ids[..|ids| - 1], ids[|ids| - 1];
      var links := ContentLinks(pages, lower, routes);
      assert ids == front + [last];
      SettledAllRow(rows, pages, front, lower, routes, k);
      SettledRow(SettledAll(rows, pages, front, lower, routes), pages, last, lower, routes, k);
      SettledMore(rows, SettledAll(rows, pages, front, lower, routes), SettledAll(rows, pages, ids, lower, routes), pages,
                  SetOf(front), {last}, links, links, k);
      assert SetOf(ids) == SetOf(front) + {last};
    }
  }

  /** Pages settled one batch after another. */
  lemma SettledMore(rows: Rows, mid: Rows, after: Rows, pages: Pages, front: set<PageId>, behind: set<PageId>,
                    links: LinkSets, links': LinkSets, k: Key)
    requires front <= pages.Keys && behind <= pages.Keys && (k.from in front && k.from !in behind ==> links(k.from) == links'(k.from))
    requires PathSettled(rows, mid, pages, front, links, k) && PathSettled(mid, after, pages, behind, links', k)
    ensures PathSettled(rows, after, pages, front + behind, links', k)
  {
    var all := front + behind;
    assert forall id :: id in front || id in behind ==> id in all;
    if k.from in behind {
      if k in after {
        var l :| l in links'(k.from) && l.path == k.toPath &&
                 SameOrHealed(Row(l.page, pages[k.from].title, l.state), after[k], k.toPath, pages, behind);
        assert SameOrHealed(Row(l.page, pages[k.from].title, l.state), after[k], k.toPath, pages, all);
      }
    } else if k.from in front && k in after {
      var l :| l in links(k.from) && l.path == k.toPath &&
               SameOrHealed(Row(l.page, pages[k.from].title, l.state), mid[k], k.toPath, pages, front);
      assert SameOrHealed(Row(l.page, pages[k.from].title, l.state), after[k], k.toPath, pages, all);
    }
  }

  /** The path rows after page events that end with title reconciles. */
  lemma SettledPaths(rows: Rows, pages: Pages, ids: seq<PageId>, lower: Fold, routes: string -> Option<PageId>, titles: seq<string>)
    requires forall id :: id in ids ==> id in pages
    ensures PathsSettled(rows, ReconciledAll(SettledAll(rows, pages, ids, lower, routes), pages, lower, titles, {}), pages,
                         SetOf(ids), ContentLinks(pages, lower, routes))
  {
    forall k: Key | HasPrefix(k.toPath, "/")
      ensures PathSettled(rows, ReconciledAll(SettledAll(rows, pages, ids, lower, routes), pages, lower, titles, {}), pages,
                          SetOf(ids), ContentLinks(pages, lower, routes), k)
    {
      SettledAllRow(rows, pages, ids, lower, routes, k);
      ReconcilesLeavePaths(SettledAll(rows, pages, ids, lower, routes), pages, lower, titles, {}, k);
    }
  }

  /** The same for one page, with or without title reconciles behind it. */
  lemma SettledOnePaths(rows: Rows, pages: Pages, id: PageId, lower: Fold, routes: string -> Option<PageId>, titles: seq<string>)
    requires id in pages
    ensures PathsSettled(rows, ReconciledAll(Settled(rows, pages, id, lower, routes), pages, lower, titles, {}), pages, {id},
                         ContentLinks(pages, lower, routes))
  {
    var after := ReconciledAll(Settled(rows, pages, id, lower, routes), pages, lower, titles, {});
    forall k: Key | HasPrefix(k.toPath, "/")
      ensures PathSettled(rows, after, pages, {id}, ContentLinks(pages, lower, routes), k)
    {
      SettledRow(rows, pages, id, lower, routes, k);
      ReconcilesLeavePaths(Settled(rows, pages, id, lower, routes), pages, lower, titles, {}, k);
    }
  }

  /** The page's update brings the given links. */
  ghost predicate Brings(u: PageLinkUpdate, pages: Pages, links: LinkSets)
  {
    u.from in pages && u.title == pages[u.from].title && u.path == pages[u.from].path && forall l :: l in u.targets <==> l in links(u.from)
  }

  lemma {:induction false} ReplacedRow(rows: Rows, updates: seq<PageLinkUpdate>, pages: Pages, links: LinkSets, k: Key)
    requires forall i :: 0 <= i < |updates| ==> Brings(updates[i], pages, links)
    ensures Sources(updates) <= pages.Keys
    ensures
      var after := Replaced(rows, updates);
      if k.from in Sources(updates) then
        && (k in after <==> exists l :: l in links(k.from) && l.path == k.toPath)
        && (k in after ==> exists l :: l in links(k.from) && l.path == k.toPath && after[k] == Row(l.page, pages[k.from].title, l.state))
      else (k in after <==> k in rows) && (k in after ==> after[k] == rows[k])
  {
    if updates != [] {
      var front, u := updates[..|updates| - 1], updates[|updates| - 1];
      assert updates == front + [u];
      ReplacedRow(rows, front, pages, links, k);
      if k.from == u.from {
        InsertedRow(Replaced(rows, front), u.from, u.title, u.targets, links(u.from), k);
      } else {
        WithLinksAt(WithoutFrom(Replaced(rows, front), u.from), u.from, u.title, u.targets, k);
      }
    }
  }

  lemma {:induction false} HealedRow(rows: Rows, updates: seq<PageLinkUpdate>, pages: Pages, links: LinkSets, k: Key)
    requires forall i :: 0 <= i < |updates| ==> Brings(updates[i], pages, links)
    ensures k in Healed(rows, updates) <==> k in rows
    ensures k in rows ==> HealedBy(rows[k], Healed(rows, updates)[k], k.toPath, pages, Sources(updates))
  {
    if updates != [] {
      var front, u := updates[..|updates| - 1], updates[|updates| - 1];
      assert updates == front + [u];
      HealedRow(rows, front, pages, links, k);
      assert Sources(updates) == Sources(front) + {u.from};
    }
  }

  /** The path rows after a batch of updates. */
  lemma BatchPaths(rows: Rows, updates: seq<PageLinkUpdate>, pages: Pages, links: LinkSets)
    requires forall i :: 0 <= i < |updates| ==> Brings(updates[i], pages, links)
    ensures Sources(updates) <= pages.Keys && PathsSettled(rows, Healed(Replaced(rows, updates), updates), pages, Sources(updates), links)
  {
    forall k: Key | HasPrefix(k.toPath, "/")
      ensures PathSettled(rows, Healed(Replaced(rows, updates), updates), pages, Sources(updates), links, k)
    {
      ReplacedRow(rows, updates, pages, links, k);
      HealedRow(Replaced(rows, updates), updates, pages, links, k);
    }
  }

  /** The links that a page's stored rows become when titles are renamed and paths rewritten. */
  ghost predicate IsRederived(l: TargetLink, rows: Rows, from: PageId, pages: Pages, lower: Fold, routes: string -> Option<PageId>,
                              renaming: Renaming, repath: Repath)
  {
    exists p :: Key(from, p) in rows &&
      if IsSentinel(p) then l == ResolveTitle(pages, renaming.Title(TitleOf(p)), lower, routes) else repath(p) == Some(l)
  }

  ghost function StoredLinks(rows: Rows, pages: Pages, lower: Fold, routes: string -> Option<PageId>, renaming: Renaming, repath: Repath): LinkSets
  {
    (id: PageId) => iset l: TargetLink | IsRederived(l, rows, id, pages, lower, routes, renaming, repath)
  }

  lemma RederivedAre(rows: Rows, from: PageId, pages: Pages, lower: Fold, routes: string -> Option<PageId>, renaming: Renaming,
                     repath: Repath, outgoing: seq<string>, l: TargetLink)
    requires OutgoingOf(rows, from, outgoing)
    ensures l in PathTargets(outgoing, repath) + TitleTargets(outgoing, pages, lower, routes, renaming) <==>
            l in StoredLinks(rows, pages, lower, routes, renaming, repath)(from)
  {
    PathTargetsOf(outgoing, repath, l);
    TitleTargetsOf(outgoing, pages, lower, routes, renaming, l);
    if l in StoredLinks(rows, pages, lower, routes, renaming, repath)(from) {
      var p :| Key(from, p) in rows &&
               if IsSentinel(p) then l == ResolveTitle(pages, renaming.Title(TitleOf(p)), lower, routes) else repath(p) == Some(l);
      assert p in outgoing;
    }
    if p :| p in outgoing && !IsSentinel(p) && repath(p) == Some(l) {
      assert Key(from, p) in rows;
    }
    if p :| p in outgoing && IsSentinel(p) && l == ResolveTitle(pages, renaming.Title(TitleOf(p)), lower, routes) {
      assert Key(from, p) in rows;
    }
  }

  /** Only titles and paths of the pages matter. */
  lemma SettledForBoth(before: Rows, after: Rows, pages: Pages, pages': Pages, ids: set<PageId>, links: LinkSets, k: Key)
    requires pages.Keys == pages'.Keys && ids <= pages.Keys
    requires forall id :: id in pages ==> pages[id].title == pages'[id].title && pages[id].path == pages'[id].path
    requires PathSettled(before, after, pages, ids, links, k)
    ensures PathSettled(before, after, pages', ids, links, k)
  {
    if k.from in ids && k in after {
      var l :| l in links(k.from) && l.path == k.toPath &&
               SameOrHealed(Row(l.page, pages[k.from].title, l.state), after[k], k.toPath, pages, ids);
      assert SameOrHealed(Row(l.page, pages'[k.from].title, l.state), after[k], k.toPath, pages', ids);
    }
  }

  /**
   The three steps behind a path change: the last two make up for the first, so that the rows of all pages
   concerned are those of their contents.
   */
  lemma FinishedPaths(rows: Rows, first: Rows, second: Rows, last: Rows, rewritten: Pages, finished: Pages,
                      affected: set<PageId>, subtree: set<PageId>, stored: LinkSets, content: LinkSets)
    requires rewritten.Keys == finished.Keys && affected <= finished.Keys && subtree <= finished.Keys
    requires forall id :: id in finished ==> finished[id].title == rewritten[id].title && finished[id].path == rewritten[id].path
    requires PathsSettled(rows, first, rewritten, affected, stored)
    requires PathsSettled(first, second, finished, subtree, content) && PathsSettled(second, last, finished, affected, content)
    ensures PathsSettled(rows, last, finished, affected + subtree, content)
  {
    forall k: Key | HasPrefix(k.toPath, "/")
      ensures PathSettled(rows, last, finished, affected + subtree, content, k)
    {
      var mid := if k.from in subtree then content else stored;
      SettledForBoth(rows, first, rewritten, finished, affected, stored, k);
      SettledMore(rows, first, second, finished, affected, subtree, stored, mid, k);
      SettledMore(rows, second, last, finished, affected + subtree, affected, mid, content, k);
      assert affected + subtree + affected == affected + subtree;
    }
  }

  /** The rows of a table that has been rebuilt for some of the pages: those of their contents, and no other. */
  ghost predicate Rebuilt(rows: Rows, pages: Pages, ids: set<PageId>, links: LinkSets)
    requires ids <= pages.Keys
  {
    forall k: Key :: RebuiltRow(rows, pages, ids, links, k)
  }

  ghost predicate RebuiltRow(rows: Rows, pages: Pages, ids: set<PageId>, links: LinkSets, k: Key)
    requires ids <= pages.Keys
  {
    && (k in rows <==> k.from in ids && exists l :: l in links(k.from) && l.path == k.toPath)
    && (k in rows ==> exists l :: l in links(k.from) && l.path == k.toPath && rows[k] == Row(l.page, pages[k.from].title, l.state))
  }

  lemma RebuiltMore(rows: Rows, pages: Pages, ids: set<PageId>, id: PageId, lower: Fold, routes: string -> Option<PageId>)
    requires ids <= pages.Keys && id in pages && Rebuilt(rows, pages, ids, ContentLinks(pages, lower, routes))
    ensures Rebuilt(WithLinks(WithoutFrom(rows, id), id, pages[id].title, CollectTargets(pages, pages[id], lower, routes)), pages, ids + {id},
                    ContentLinks(pages, lower, routes))
  {
    var targets, links := CollectTargets(pages, pages[id], lower, routes), ContentLinks(pages, lower, routes);
    forall l { CollectedAre(pages, id, lower, routes, l); }
    forall k: Key
      ensures RebuiltRow(WithLinks(WithoutFrom(rows, id), id, pages[id].title, targets), pages, ids + {id}, links, k)
    {
      assert RebuiltRow(rows, pages, ids, links, k);
      if k.from == id {
        InsertedRow(rows, id, pages[id].title, targets, links(id), k);
      } else {
        WithLinksAt(WithoutFrom(rows, id), id, pages[id].title, targets, k);
      }
    }
  }

  /** ReconcileTitle, as a reconcile of one title. */
  lemma ReconciledAllOfOne(rows: Rows, pages: Pages, lower: Fold, title: string)
    requires forall s :: lower(s) == "" <==> s == ""
    ensures ReconciledAll(rows, pages, lower, [title], {}) == AfterReconcile(rows, pages, lower, title)
  {
    assert [title][1..] == [];
    assert ReconciledAll(AfterReconcile(rows, pages, lower, title), pages, lower, [], {lower(TrimSpace(title))}) ==
           AfterReconcile(rows, pages, lower, title);
  }

  /** A path that is gone with deleted pages: the one page's own, or with a subtree everything below it. */
  predicate PathGone(path: string, count: nat, oldPath: string)
  {
    if count > 1 then UnderPrefix(path, oldPath) else count == 1 && path == oldPath
  }

  /** The row led to one of the pages. */
  predicate PointedAt(r: Row, ids: seq<PageId>)
  {
    r.state == Resolved && r.toPage.Some? && r.toPage.value in ids
  }

  /**
   The path rows after a delete: those of the deleted pages are gone; of the others, resolved rows to a path
   that is gone or to a deleted page are broken, and every other row is as before.
   */
  ghost predicate PathsDeleted(before: Rows, after: Rows, ids: seq<PageId>, oldPath: string)
  {
    forall k: Key :: HasPrefix(k.toPath, "/") ==>
      && (k in after <==> k in before && k.from !in ids)
      && (k in after ==> after[k] == if before[k].state == Resolved && (PathGone(k.toPath, |ids|, oldPath) || PointedAt(before[k], ids))
                                     then BrokenRow(before[k]) else before[k])
  }

  lemma {:induction false} WithoutAllAt(rows: Rows, ids: seq<PageId>, k: Key)
    ensures k in WithoutAll(rows, ids) <==> k in rows && k.from !in ids
    ensures k in WithoutAll(rows, ids) ==> WithoutAll(rows, ids)[k] == rows[k]
  {
    if ids != [] {
      assert ids == ids[..|ids| - 1] + [ids[|ids| - 1]];
      WithoutAllAt(rows, ids[..|ids| - 1], k);
    }
  }

  lemma {:induction false} IncomingBrokenAllAt(rows: Rows, ids: seq<PageId>, k: Key)
    ensures k in IncomingBrokenAll(rows, ids) <==> k in rows
    ensures k in rows ==> IncomingBrokenAll(rows, ids)[k] == if PointedAt(rows[k], ids) then BrokenRow(rows[k]) else rows[k]
  {
    if ids != [] {
      assert ids == ids[..|ids| - 1] + [ids[|ids| - 1]];
      IncomingBrokenAllAt(rows, ids[..|ids| - 1], k);
    }
  }

  lemma {:induction false} ReconciledKeys(rows: Rows, pages: Pages, lower: Fold, titles: seq<string>, seen: set<string>)
    ensures ReconciledAll(rows, pages, lower, titles, seen).Keys == rows.Keys
  {
    if titles != [] {
      var key := lower(TrimSpace(titles[0]));
      if key == "" || key in seen {
        ReconciledKeys(rows, pages, lower, titles[1..], seen);
      } else {
        ReconciledKeys(AfterReconcile(rows, pages, lower, titles[0]), pages, lower, titles[1..], seen + {key});
      }
    }
  }

  /** A delete leaves the keys of the other pages' rows. */
  lemma DeletedKeys(rows: Rows, ids: seq<PageId>, oldPath: string, pages: Pages, lower: Fold, titles: seq<string>, k: Key)
    ensures k in ReconciledAll(Deleted(rows, ids, oldPath), pages, lower, titles, {}) <==> k in rows && k.from !in ids
  {
    ReconciledKeys(Deleted(rows, ids, oldPath), pages, lower, titles, {});
    WithoutAllAt(rows, ids, k);
    IncomingBrokenAllAt(PrefixBroken(WithoutAll(rows, ids), oldPath), ids, k);
    IncomingBrokenAllAt(WithoutAll(rows, ids), ids, k);
  }

  lemma DeletedPaths(rows: Rows, ids: seq<PageId>, oldPath: string, pages: Pages, lower: Fold, titles: seq<string>)
    ensures PathsDeleted(rows, ReconciledAll(Deleted(rows, ids, oldPath), pages, lower, titles, {}), ids, oldPath)
  {
    var dropped := WithoutAll(rows, ids);
    forall k: Key | HasPrefix(k.toPath, "/")
      ensures
        var after := ReconciledAll(Deleted(rows, ids, oldPath), pages, lower, titles, {});
        && (k in after <==> k in rows && k.from !in ids)
        && (k in after ==> after[k] == if rows[k].state == Resolved && (PathGone(k.toPath, |ids|, oldPath) || PointedAt(rows[k], ids))
                                       then BrokenRow(rows[k]) else rows[k])
    {
      ReconcilesLeavePaths(Deleted(rows, ids, oldPath), pages, lower, titles, {}, k);
      WithoutAllAt(rows, ids, k);
      IncomingBrokenAllAt(PrefixBroken(dropped, oldPath), ids, k);
      IncomingBrokenAllAt(dropped, ids, k);
    }
  }

  /** The rows of a path that moved pages leave behind: resolved ones are broken, then those that lead to a new path are healed. */
  ghost predicate PathsMoved(before: Rows, after: Rows, moved: Pages, ids: set<PageId>, oldPath: string, links: LinkSets)
    requires ids <= moved.Keys
  {
    forall k: Key :: HasPrefix(k.toPath, "/") ==>
      if k.from in ids then OwnPathRow(after, moved, ids, links, k)
      else (k in after <==> k in before) &&
           (k in after ==>
              var left := if UnderPrefix(k.toPath, oldPath) && before[k].state == Resolved then BrokenRow(before[k]) else before[k];
              HealedBy(left, after[k], k.toPath, moved, ids))
  }

  lemma MovedPaths(rows: Rows, moved: Pages, ids: seq<PageId>, oldPath: string, lower: Fold, routes: string -> Option<PageId>, titles: seq<string>)
    requires forall id :: id in ids ==> id in moved
    ensures PathsMoved(rows, ReconciledAll(SettledAll(PrefixBroken(rows, oldPath), moved, ids, lower, routes), moved, lower, titles, {}),
                       moved, SetOf(ids), oldPath, ContentLinks(moved, lower, routes))
  {
    var after := ReconciledAll(SettledAll(PrefixBroken(rows, oldPath), moved, ids, lower, routes), moved, lower, titles, {});
    SettledPaths(PrefixBroken(rows, oldPath), moved, ids, lower, routes, titles);
    forall k: Key | HasPrefix(k.toPath, "/")
      ensures PathSettled(PrefixBroken(rows, oldPath), after, moved, SetOf(ids), ContentLinks(moved, lower, routes), k)
    {
    }
  }

  class LinkIndex {
    const lower: Fold
    /** The titles this wiki uses; the two foldings agree on them. */
    ghost const alike: iset<string>
    const store: LinksStore
    var pages: Pages

    constructor (lower: Fold, ghost alike: iset<string>, store: LinksStore)
      requires FoldAlike(lower, alike) && store.rows == map[]
      ensures Valid() && pages == map[] && this.store == store
    {
      this.lower, this.alike, this.store, this.pages := lower, alike, store, map[];
    }

    ghost predicate PageOk(page: Page)
    {
      PathLinksOk(page) && page.title in alike && forall t :: t in page.titles ==> t in alike
    }

    ghost predicate PagesOk()
      reads this
    {
      FoldAlike(lower, alike) && forall id :: id in pages ==> PageOk(pages[id])
    }

    ghost predicate GoodNow(titles: seq<string>, seen: set<string>, open: set<PageId>)
      reads this, store
    {
      Good(store.rows, pages, lower, alike, titles, seen, open)
    }

    /**
     The title index agrees with a fresh resolution: every title row has the state and target that the
     current pages give its title, and a slash-free title has a row exactly where content links it.
     */
    ghost predicate Valid()
      reads this, store
    {
      PagesOk() && GoodNow([], {}, {})
    }

    /**
     ReconcileTitle. Where the two foldings agree, every row of the title is what a fresh resolution gives
     now; the rows of other titles and of paths stay.
     */
    method ReconcileTitle(title: string)
      modifies store
      ensures store.rows == AfterReconcile(old(store.rows), pages, lower, title)
      ensures store.rows.Keys == old(store.rows).Keys
      ensures PagesOk() && KeysOk(old(store.rows)) && TitlesIn(old(store.rows), alike) && title in alike ==>
                forall k :: k in store.rows && IsSentinel(k.toPath) && lower(TitleOf(k.toPath)) == lower(TrimSpace(title)) ==>
                  RowExact(store.rows, k, pages, lower)
      ensures forall k :: k in store.rows && AsciiLower(k.toPath) != AsciiLower(Sentinel(TrimSpace(title))) ==>
                store.rows[k] == old(store.rows)[k]
    {
      TrimTwice(title);
      var trimmed := TrimSpace(title);
      if PagesOk() && KeysOk(store.rows) && TitlesIn(store.rows, alike) && title in alike {
        ReconciledRowsExact(store.rows, trimmed);
      }
      if trimmed == "" {
        return;
      }
      var matches := Matches(pages, trimmed, lower);
      store.ReconcileWikiLinksForTitle(trimmed, Classify(|matches|), TheOne(matches));
    }

    lemma ReconciledRowsExact(rows: Rows, title: string)
      requires FoldAlike(lower, alike) && KeysOk(rows) && TitlesIn(rows, alike) && title in alike && TrimSpace(title) == title
      ensures forall k :: k in rows && IsSentinel(k.toPath) && lower(TitleOf(k.toPath)) == lower(title) ==>
                RowExact(AfterReconcile(rows, pages, lower, title), k, pages, lower)
    {
      forall k | k in rows && IsSentinel(k.toPath) && lower(TitleOf(k.toPath)) == lower(title)
        ensures RowExact(AfterReconcile(rows, pages, lower, title), k, pages, lower)
      {
        StaleRowIsMatched(rows, lower, alike, title, k);
        SentinelFolds(TitleOf(k.toPath), title);
        EmptyFoldsAlone(TitleOf(k.toPath), title);
        MatchedRowIsExact(rows, pages, lower, alike, title, k);
      }
    }

    /** The loop body of reconcileTitles: a title whose folded form is empty or was seen is passed over. */
    method ReconcileNext(title: string, ghost rest: seq<string>, seen: set<string>) returns (now: set<string>)
      requires PagesOk() && GoodNow([title] + rest, seen, {}) && title in alike
      modifies store
      ensures GoodNow(rest, now, {})
      ensures ReconciledAll(old(store.rows), pages, lower, [title] + rest, seen) == ReconciledAll(store.rows, pages, lower, rest, now)
    {
      ghost var titles := [title] + rest;
      assert titles[0] == title && titles[1..] == rest;
      var key := lower(TrimSpace(title));
      if key == "" || key in seen {
        SkipSeen(store.rows, pages, lower, alike, title, rest, seen, {});
        return seen;
      }
      ReconcileOne(store.rows, pages, lower, alike, title, rest, seen, {});
      ReconcileTitle(title);
      now := seen + {key};
    }

    /** reconcileTitles: once per distinct folded title. */
    method ReconcileTitles(titles: seq<string>)
      requires PagesOk() && GoodNow(titles, {}, {}) && forall t :: t in titles ==> t in alike
      modifies store
      ensures Valid() && store.rows == ReconciledAll(old(store.rows), pages, lower, titles, {})
    {
      var seen: set<string> := {};
      assert titles[0..] == titles;
      for i := 0 to |titles|
        invariant PagesOk() && GoodNow(titles[i..], seen, {})
        invariant ReconciledAll(old(store.rows), pages, lower, titles, {}) == ReconciledAll(store.rows, pages, lower, titles[i..], seen)
      {
        assert titles[i..] == [titles[i]] + titles[i + 1..] && titles[i] in titles;
        seen := ReconcileNext(titles[i], titles[i + 1..], seen);
      }
      assert titles[|titles|..] == [];
      Finished(seen);
    }

    lemma Finished(seen: set<string>)
      requires GoodNow([], seen, {})
      ensures GoodNow([], {}, {})
    {
      forall t: string
        ensures !Stale(t, [], lower)
      {
      }
    }

    /** UpdateLinksForPage and HealLinksForExactPath. */
    method UpdateAndHeal(id: PageId, routes: string -> Option<PageId>, ghost titles: seq<string>, ghost open: set<PageId>)
      requires PagesOk() && id in pages && GoodNow(titles, {}, open)
      modifies store
      ensures GoodNow(titles, {}, open - {id})
      ensures store.rows == Settled(old(store.rows), pages, id, lower, routes)
    {
      RelinkKeeps(store.rows, id, pages, lower, alike, routes, titles, {}, open);
      store.AddLinks(id, pages[id].title, CollectTargets(pages, pages[id], lower, routes));
      HealKeeps(store.rows, pages[id].path, id, pages, lower, alike, titles, {}, open - {id});
      store.HealLinksForPath(pages[id].path, id);
    }

    /** A content save that changes neither slug nor title. */
    method SavePage(id: PageId, page: Page, routes: string -> Option<PageId>)
      requires Valid() && id in pages && PageOk(page) && page.title == pages[id].title && page.path == pages[id].path
      modifies this, store
      ensures Valid() && pages == old(pages)[id := page]
      ensures store.rows == Settled(old(store.rows), pages, id, lower, routes)
      ensures PathsSettled(old(store.rows), store.rows, pages, {id}, ContentLinks(pages, lower, routes))
    {
      ghost var rows := store.rows;
      TreeChange(store.rows, pages, pages[id := page], lower, alike, [], {id});
      pages := pages[id := page];
      UpdateAndHeal(id, routes, [], {id});
      assert {id} - {id} == {};
      SettledOnePaths(rows, pages, id, lower, routes, []);
    }

    /** A page is created. */
    method CreatePage(id: PageId, page: Page, routes: string -> Option<PageId>)
      requires Valid() && id !in pages && PageOk(page)
      modifies this, store
      ensures Valid() && pages == old(pages)[id := page]
      ensures store.rows == ReconciledAll(Settled(old(store.rows), pages, id, lower, routes), pages, lower, [page.title], {})
      ensures PathsSettled(old(store.rows), store.rows, pages, {id}, ContentLinks(pages, lower, routes))
    {
      ghost var rows := store.rows;
      TreeChange(store.rows, pages, pages[id := page], lower, alike, [page.title], {id});
      pages := pages[id := page];
      UpdateAndHeal(id, routes, [page.title], {id});
      assert {id} - {id} == {};
      ReconcileTitles([page.title]);
      SettledOnePaths(rows, pages, id, lower, routes, [page.title]);
    }

    /**
     A revision is restored onto its page: content and title become those of the revision, the path stays.
     Only the new title is reconciled, so the index is right afterwards exactly when the old title is the
     same title, at least three pages carried it, or no other page links it.
     */
    method RestorePage(id: PageId, page: Page, routes: string -> Option<PageId>)
      requires Valid() && id in pages && PageOk(page) && page.path == pages[id].path
      modifies this, store
      ensures PagesOk() && pages == old(pages)[id := page] && GoodNow([old(pages)[id].title], {}, {})
      ensures store.rows == AfterReconcile(Settled(old(store.rows), pages, id, lower, routes), pages, lower, page.title)
      ensures PathsSettled(old(store.rows), store.rows, pages, {id}, ContentLinks(pages, lower, routes))
      ensures Valid() <==>
                || lower(old(pages)[id].title) == lower(TrimSpace(page.title))
                || |Matches(old(pages), old(pages)[id].title, lower)| >= 3
                || !LinkedByOthers(old(store.rows), id, old(pages)[id].title, lower)
    {
      ghost var rows, before := store.rows, pages;
      SettledOnePaths(rows, pages[id := page], id, lower, routes, [page.title]);
      ReconciledAllOfOne(Settled(rows, pages[id := page], id, lower, routes), pages[id := page], lower, page.title);
      var titles := [page.title, pages[id].title];
      assert forall t :: t in titles ==> t == pages[id].title || t == page.title;
      TreeChange(store.rows, pages, pages[id := page], lower, alike, titles, {id});
      pages := pages[id := page];
      UpdateAndHeal(id, routes, titles, {id});
      assert {id} - {id} == {} && titles == [page.title] + [before[id].title];
      RestoredIff(rows, before, id, page, lower, alike, routes);
      ReconcileOne(store.rows, pages, lower, alike, page.title, [before[id].title], {}, {});
      ReconcileTitle(page.title);
    }

    /** A page gets a new title, with or without new content; the slug stays. */
    method RenamePage(id: PageId, page: Page, routes: string -> Option<PageId>)
      requires Valid() && id in pages && PageOk(page) && page.path == pages[id].path
      modifies this, store
      ensures Valid() && pages == old(pages)[id := page]
      ensures store.rows ==
              ReconciledAll(Settled(old(store.rows), pages, id, lower, routes), pages, lower, [old(pages)[id].title, page.title], {})
      ensures PathsSettled(old(store.rows), store.rows, pages, {id}, ContentLinks(pages, lower, routes))
    {
      var titles := [pages[id].title, page.title];
      SettledOnePaths(store.rows, pages[id := page], id, lower, routes, titles);
      assert forall t :: t in titles ==> t == pages[id].title || t == page.title;
      TreeChange(store.rows, pages, pages[id := page], lower, alike, titles, {id});
      pages := pages[id := page];
      UpdateAndHeal(id, routes, titles, {id});
      assert {id} - {id} == {};
      ReconcileTitles(titles);
    }

    /** UpdateLinksForPage and HealLinksForExactPath for each page in turn. */
    method SettlePages(ids: seq<PageId>, ghost titles: seq<string>, routes: string -> Option<PageId>)
      requires PagesOk() && GoodNow(titles, {}, set id | id in ids) && forall id :: id in ids ==> id in pages
      modifies store
      ensures GoodNow(titles, {}, {}) && store.rows == SettledAll(old(store.rows), pages, ids, lower, routes)
    {
      ghost var open := set id | id in ids;
      for i := 0 to |ids|
        invariant GoodNow(titles, {}, open) && open == set id | id in ids && id !in ids[..i]
        invariant store.rows == SettledAll(old(store.rows), pages, ids[..i], lower, routes)
      {
        assert ids[..i + 1] == ids[..i] + [ids[i]];
        assert ids[..i + 1][..i] == ids[..i];
        UpdateAndHeal(ids[i], routes, titles, open);
        open := open - {ids[i]};
      }
      assert ids[..|ids|] == ids;
      assert open == {};
    }

    /** The tree has changed; links to the old paths are broken. */
    method BreakMoved(ids: seq<PageId>, moved: Pages, oldPath: string, ghost titles: seq<string>)
      requires Valid() && HasPrefix(oldPath, "/") && moved.Keys == pages.Keys && TitlesChanged(pages, moved, titles)
      requires forall id :: id in pages && id !in ids ==> moved[id] == pages[id]
      requires forall id :: id in ids ==> id in pages && PageOk(moved[id])
      modifies this, store
      ensures PagesOk() && GoodNow(titles, {}, set id | id in ids)
      ensures pages == moved && store.rows == PrefixBroken(old(store.rows), oldPath)
    {
      TreeChange(store.rows, pages, moved, lower, alike, titles, set id | id in ids);
      pages := moved;
      BreakPathKeeps(store.rows, oldPath, pages, lower, alike, titles, {}, set id | id in ids);
      store.MarkLinksBrokenForPrefix(oldPath);
    }

    /**
     A page moves or gets a new slug, with its subtree: old paths are marked broken, every moved page is
     re-linked, and the old and new titles are reconciled if the save changed the title too.
     */
    method MovePages(ids: seq<PageId>, moved: Pages, oldPath: string, titles: seq<string>, routes: string -> Option<PageId>)
      requires Valid() && HasPrefix(oldPath, "/")
      requires moved.Keys == pages.Keys
      requires forall id :: id in pages && id !in ids ==> moved[id] == pages[id]
      requires forall id :: id in ids ==> id in pages && PageOk(moved[id])
      requires TitlesChanged(pages, moved, titles) && forall t :: t in titles ==> t in alike
      modifies this, store
      ensures Valid() && pages == moved
      ensures store.rows ==
              ReconciledAll(SettledAll(PrefixBroken(old(store.rows), oldPath), moved, ids, lower, routes), moved, lower, titles, {})
      ensures PathsMoved(old(store.rows), store.rows, pages, SetOf(ids), oldPath, ContentLinks(pages, lower, routes))
    {
      MovedPaths(store.rows, moved, ids, oldPath, lower, routes, titles);
      BreakMoved(ids, moved, oldPath, titles);
      SettlePages(ids, titles, routes);
      ReconcileTitles(titles);
    }

    /** The titles of the pages about to go. */
    method TitlesOf(ids: seq<PageId>) returns (titles: seq<string>)
      requires PagesOk() && forall id :: id in ids ==> id in pages
      ensures |titles| == |ids| && forall i :: 0 <= i < |ids| ==> titles[i] == pages[ids[i]].title
      ensures forall t :: t in titles ==> t in alike
      ensures forall id :: id in ids ==> pages[id].title in titles
    {
      titles := [];
      for i := 0 to |ids|
        invariant |titles| == i && forall j :: 0 <= j < i ==> titles[j] == pages[ids[j]].title
        invariant forall t :: t in titles ==> t in alike
        invariant forall j :: 0 <= j < i ==> pages[ids[j]].title in titles
      {
        assert ids[i] in ids && PageOk(pages[ids[i]]);
        titles := titles + [pages[ids[i]].title];
      }
    }

    /** The rows of deleted pages go. */
    method DropRows(ids: seq<PageId>, ghost titles: seq<string>)
      requires PagesOk() && GoodNow(titles, {}, set id | id in ids) && forall id :: id in ids ==> id !in pages
      modifies store
      ensures GoodNow(titles, {}, {}) && store.rows == WithoutAll(old(store.rows), ids)
    {
      ghost var open := set id | id in ids;
      for i := 0 to |ids|
        invariant PagesOk() && GoodNow(titles, {}, open) && store.rows == WithoutAll(old(store.rows), ids[..i])
        invariant open == set id | id in ids && id !in ids[..i]
      {
        assert ids[..i + 1] == ids[..i] + [ids[i]] && ids[i] in ids;
        assert ids[..i + 1][..i] == ids[..i];
        DropRowsKeeps(store.rows, ids[i], pages, lower, alike, titles, {}, open);
        store.DeleteOutgoingLinks(ids[i]);
        open := open - {ids[i]};
      }
      assert ids[..|ids|] == ids;
      assert open == {};
    }

    /** Rows that pointed at deleted pages are broken. */
    method BreakIncoming(ids: seq<PageId>, ghost titles: seq<string>)
      requires PagesOk() && GoodNow(titles, {}, {}) && forall id :: id in ids ==> id !in pages
      modifies store
      ensures GoodNow(titles, {}, {}) && store.rows == IncomingBrokenAll(old(store.rows), ids)
    {
      for i := 0 to |ids|
        invariant PagesOk() && GoodNow(titles, {}, {}) && store.rows == IncomingBrokenAll(old(store.rows), ids[..i])
      {
        assert ids[i] in ids && ids[..i + 1][..i] == ids[..i];
        BreakIncomingKeeps(store.rows, ids[i], pages, lower, alike, titles, {}, {});
        store.MarkIncomingLinksBroken(ids[i]);
      }
      assert ids[..|ids|] == ids;
    }

    /** The statements of a delete, before its titles are reconciled. */
    method DropAndBreak(ids: seq<PageId>, oldPath: string, ghost titles: seq<string>)
      requires PagesOk() && HasPrefix(oldPath, "/") && GoodNow(titles, {}, set id | id in ids) && forall id :: id in ids ==> id !in pages
      modifies store
      ensures GoodNow(titles, {}, {}) && store.rows == Deleted(old(store.rows), ids, oldPath)
    {
      DropRows(ids, titles);
      if |ids| > 1 {
        BreakPathKeeps(store.rows, oldPath, pages, lower, alike, titles, {}, {});
        store.MarkLinksBrokenForPrefix(oldPath);
      }
      BreakIncoming(ids, titles);
      if |ids| == 1 {
        BreakPathKeeps(store.rows, oldPath, pages, lower, alike, titles, {}, {});
        store.MarkLinksBrokenForPath(oldPath);
      }
    }

    /**
     A page is deleted, alone or with its subtree; titles of all of them are reconciled. Afterwards no row
     comes from a deleted page, points at one, or is resolved to a path that is gone; every other path row is
     as it was.
     */
    method DeletePages(ids: seq<PageId>, oldPath: string) returns (titles: seq<string>)
      requires Valid() && HasPrefix(oldPath, "/") && forall id :: id in ids ==> id in pages
      modifies this, store
      ensures Valid() && pages == map id | id in old(pages) && id !in ids :: old(pages)[id]
      ensures |titles| == |ids| && forall i :: 0 <= i < |ids| ==> titles[i] == old(pages)[ids[i]].title
      ensures store.rows == ReconciledAll(Deleted(old(store.rows), ids, oldPath), pages, lower, titles, {})
      ensures PathsDeleted(old(store.rows), store.rows, ids, oldPath)
      ensures forall k :: k in store.rows ==> k.from !in ids && !PointedAt(store.rows[k], ids)
      ensures forall k :: k in store.rows && PathGone(k.toPath, |ids|, oldPath) ==> store.rows[k].state != Resolved
    {
      ghost var rows := store.rows;
      titles := TitlesOf(ids);
      var left := map id | id in pages && id !in ids :: pages[id];
      TreeChange(store.rows, pages, left, lower, alike, titles, set id | id in ids);
      pages := left;
      DropAndBreak(ids, oldPath, titles);
      ReconcileTitles(titles);
      DeletedPaths(rows, ids, oldPath, pages, lower, titles);
      DeletedIsUnlinked(rows, ids, oldPath, titles);
    }

    /** No row comes from a deleted page, points at one, or is resolved to a path that is gone. */
    lemma DeletedIsUnlinked(rows: Rows, ids: seq<PageId>, oldPath: string, titles: seq<string>)
      requires Valid() && HasPrefix(oldPath, "/") && (forall id :: id in ids ==> id !in pages)
      requires PathsDeleted(rows, store.rows, ids, oldPath)
      requires store.rows == ReconciledAll(Deleted(rows, ids, oldPath), pages, lower, titles, {})
      ensures forall k :: k in store.rows ==> k.from !in ids && !PointedAt(store.rows[k], ids)
      ensures forall k :: k in store.rows && PathGone(k.toPath, |ids|, oldPath) ==> store.rows[k].state != Resolved
    {
      forall k | k in store.rows
        ensures k.from !in ids && !PointedAt(store.rows[k], ids)
        ensures PathGone(k.toPath, |ids|, oldPath) ==> store.rows[k].state != Resolved
      {
        DeletedKeys(rows, ids, oldPath, pages, lower, titles, k);
        if IsSentinel(k.toPath) {
          assert !Stale(TitleOf(k.toPath), [], lower);
          assert store.rows[k].toPage.Some? ==> store.rows[k].toPage.value in pages;
          assert AsciiLower(k.toPath)[0] == LowerChar(k.toPath[0]) == 'w';
          assert AsciiLower(oldPath + "/")[0] == LowerChar(oldPath[0]) == '/';
        } else {
          assert k in rows;
        }
      }
    }

    /** GetOutgoingLinksForPages, for one page. */
    method OutgoingPaths(from: PageId) returns (outgoing: seq<string>)
      ensures OutgoingOf(store.rows, from, outgoing)
    {
      outgoing := [];
      var todo := set k | k in store.rows && k.from == from;
      ghost var all := todo;
      while todo != {}
        invariant todo <= all
        invariant forall p :: p in outgoing <==> Key(from, p) in all && Key(from, p) !in todo
      {
        var k :| k in todo;
        outgoing := outgoing + [k.toPath];
        todo := todo - {k};
      }
    }

    /** rewriteResolvedTargets: every stored link comes back, rewritten and resolved again. */
    method RewriteResolvedTargets(outgoing: seq<string>, renaming: Renaming, repath: Repath, routes: string -> Option<PageId>)
      returns (targets: seq<TargetLink>)
      ensures targets == PathTargets(outgoing, repath) + TitleTargets(outgoing, pages, lower, routes, renaming)
    {
      var paths, titles := [], [];
      for i := 0 to |outgoing|
        invariant paths == PathTargets(outgoing[..i], repath)
        invariant titles == TitleTargets(outgoing[..i], pages, lower, routes, renaming)
      {
        assert outgoing[..i + 1][..i] == outgoing[..i];
        if IsSentinel(outgoing[i]) {
          titles := titles + [ResolveTitle(pages, renaming.Title(TitleOf(outgoing[i])), lower, routes)];
        } else if repath(outgoing[i]).Some? {
          paths := paths + [repath(outgoing[i]).value];
        }
      }
      assert outgoing[..|outgoing|] == outgoing;
      targets := paths + titles;
    }

    /** The updates of a batch settle the pages they are about when they fit. */
    method ReplaceAndHeal(updates: seq<PageLinkUpdate>, ghost open: set<PageId>)
      requires PagesOk() && GoodNow([], {}, open)
      requires forall i :: 0 <= i < |updates| ==> UpdateFits(updates[i], pages, lower, alike)
      modifies store
      ensures GoodNow([], {}, open - Sources(updates)) && store.rows == Healed(Replaced(old(store.rows), updates), updates)
    {
      BatchSettles(store.rows, updates, pages, lower, alike, open);
      store.ReplaceLinksAndHeal(updates);
    }

    /** The updates of UpdateLinksAndHealForPages: links collected from the content. */
    method CollectUpdates(ids: seq<PageId>, routes: string -> Option<PageId>) returns (updates: seq<PageLinkUpdate>)
      requires PagesOk() && forall id :: id in ids ==> id in pages
      ensures UpdatesOf(ids, updates, pages, lower, alike)
      ensures forall i :: 0 <= i < |updates| ==> Brings(updates[i], pages, ContentLinks(pages, lower, routes))
    {
      updates := [];
      for i := 0 to |ids|
        invariant UpdatesOf(ids[..i], updates, pages, lower, alike)
        invariant forall j :: 0 <= j < |updates| ==> Brings(updates[j], pages, ContentLinks(pages, lower, routes))
      {
        assert ids[i] in ids;
        var page := pages[ids[i]];
        assert PageOk(page);
        CollectedFit(pages, page, lower, alike, routes);
        forall l { CollectedAre(pages, ids[i], lower, routes, l); }
        updates := updates + [PageLinkUpdate(ids[i], page.title, page.path, CollectTargets(pages, page, lower, routes))];
      }
      assert ids[..|ids|] == ids;
    }

    /** The updates of UpdateRewrittenLinksAndHealForPages: links re-derived from the rows. */
    method RewrittenUpdates(ids: seq<PageId>, renaming: Renaming, repath: Repath, routes: string -> Option<PageId>)
      returns (updates: seq<PageLinkUpdate>)
      requires PagesOk() && TitlesIn(store.rows, alike) && forall id :: id in ids ==> id in pages
      requires renaming.Fits(alike) && RepathOk(repath)
      ensures DerivedFor(ids, updates, store.rows, pages, lower, alike, renaming)
      ensures forall i :: 0 <= i < |updates| ==>
                Brings(updates[i], pages, StoredLinks(store.rows, pages, lower, routes, renaming, repath))
    {
      updates := [];
      for i := 0 to |ids|
        invariant DerivedFor(ids[..i], updates, store.rows, pages, lower, alike, renaming)
        invariant forall j :: 0 <= j < |updates| ==>
                    Brings(updates[j], pages, StoredLinks(store.rows, pages, lower, routes, renaming, repath))
      {
        assert ids[i] in ids;
        var page := pages[ids[i]];
        assert PageOk(page);
        var outgoing := OutgoingPaths(ids[i]);
        var targets := RewriteResolvedTargets(outgoing, renaming, repath, routes);
        RederivedLinks(store.rows, ids[i], pages, lower, alike, routes, renaming, repath, outgoing);
        forall l { RederivedAre(store.rows, ids[i], pages, lower, routes, renaming, repath, outgoing, l); }
        updates := updates + [PageLinkUpdate(ids[i], page.title, page.path, targets)];
      }
      assert ids[..|ids|] == ids;
    }

    /** Pages got new content, nothing else: only their own rows may be out of date. */
    method AdoptContent(ids: seq<PageId>, changed: Pages, ghost open: set<PageId>)
      requires PagesOk() && GoodNow([], {}, open) && ContentChanged(pages, changed, ids) && forall id :: id in ids ==> id in open
      requires forall id :: id in ids ==> PageOk(changed[id])
      modifies this`pages
      ensures PagesOk() && pages == changed && GoodNow([], {}, open)
    {
      TreeChange(store.rows, pages, changed, lower, alike, [], open);
      pages := changed;
    }

    /**
     UpdateLinksAndHealForPages: pages got new content, nothing else; their links are resolved from it. The
     index is right about them afterwards even if it was wrong about them before, and stays right about
     every page it was right about.
     */
    method UpdateLinksAndHealForPages(ids: seq<PageId>, changed: Pages, routes: string -> Option<PageId>, ghost open: set<PageId>)
      requires PagesOk() && GoodNow([], {}, open) && ContentChanged(pages, changed, ids)
      requires forall id :: id in ids ==> PageOk(changed[id])
      modifies this, store
      ensures PagesOk() && pages == changed && GoodNow([], {}, open - (set id | id in ids))
      ensures open <= (set id | id in ids) ==> Valid()
      ensures PathsSettled(old(store.rows), store.rows, pages, SetOf(ids), ContentLinks(pages, lower, routes))
    {
      ghost var mine, rows := SetOf(ids), store.rows;
      WiderIsGood(open, open + mine);
      AdoptContent(ids, changed, open + mine);
      var updates := CollectUpdates(ids, routes);
      CoversAll(ids, updates, pages, lower, alike);
      ReplaceAndHeal(updates, open + mine);
      BatchPaths(rows, updates, pages, ContentLinks(pages, lower, routes));
      WiderIsGood(open + mine - Sources(updates), open - mine);
      if open <= mine { assert open - mine == {}; }
    }

    /** Fewer pages to be right about. */
    lemma WiderIsGood(open: set<PageId>, wider: set<PageId>)
      requires GoodNow([], {}, open) && open <= wider
      ensures GoodNow([], {}, wider)
    {
    }

    /**
     UpdateRewrittenLinksAndHealForPages: after a refactoring has rewritten the content, the new rows come
     from the stored rows and the title rules, not from the content. The index is right then exactly when
     on each of the pages the renamed rows are those of the rewritten links; where they are not, because a
     path hint was rewritten, only the rows of these pages are wrong.
     */
    method UpdateRewrittenLinksAndHealForPages(ids: seq<PageId>, changed: Pages, renaming: Renaming, repath: Repath,
                                               routes: string -> Option<PageId>)
      requires Valid() && ContentChanged(pages, changed, ids)
      requires forall id :: id in ids ==> PageOk(changed[id]) && renaming.Rewrote(pages[id], changed[id])
      requires renaming.Fits(alike) && RepathOk(repath)
      modifies this, store
      ensures PagesOk() && pages == changed && GoodNow([], {}, set id | id in ids)
      ensures Valid() <==> forall id :: id in ids ==> renaming.Follows(old(store.rows), id, old(pages)[id])
      ensures PathsSettled(old(store.rows), store.rows, pages, SetOf(ids),
                           StoredLinks(old(store.rows), pages, lower, routes, renaming, repath))
    {
      ghost var rows, before := store.rows, pages;
      WiderIsGood({}, set id | id in ids);
      AdoptContent(ids, changed, set id | id in ids);
      var updates := RewrittenUpdates(ids, renaming, repath, routes);
      store.ReplaceLinksAndHeal(updates);
      DerivedSettles(ids, updates, rows, before, pages, lower, alike, renaming);
      DerivedShow(ids, updates, rows, pages, lower, alike, renaming);
      BatchPaths(rows, updates, pages, StoredLinks(rows, pages, lower, routes, renaming, repath));
    }

    /**
     The link steps of finishPathChange. The affected pages' links are rewritten and their rows re-derived
     from the stored ones; then the links inside the moved subtree are rewritten and its rows collected from
     the content; in the end the affected pages are refreshed from their content. That makes up for every
     rewritten path hint.
     */
    method FinishPathChange(affected: seq<PageId>, rewritten: Pages, subtree: seq<PageId>, finished: Pages, renaming: Renaming,
                            repath: Repath, routes: string -> Option<PageId>)
      requires Valid() && ContentChanged(pages, rewritten, affected) && ContentChanged(rewritten, finished, subtree)
      requires forall id :: id in affected ==> PageOk(rewritten[id]) && renaming.Rewrote(pages[id], rewritten[id])
      requires forall id :: id in subtree ==> PageOk(finished[id])
      requires renaming.Fits(alike) && RepathOk(repath)
      modifies this, store
      ensures Valid() && pages == finished
      ensures PathsSettled(old(store.rows), store.rows, pages, SetOf(affected) + SetOf(subtree), ContentLinks(pages, lower, routes))
    {
      ghost var open, rows := SetOf(affected), store.rows;
      UpdateRewrittenLinksAndHealForPages(affected, rewritten, renaming, repath, routes);
      ghost var first := store.rows;
      UpdateLinksAndHealForPages(subtree, finished, routes, open);
      ghost var second := store.rows;
      UpdateLinksAndHealForPages(affected, pages, routes, open - SetOf(subtree));
      FinishedPaths(rows, first, second, store.rows, rewritten, pages, SetOf(affected), SetOf(subtree),
                    StoredLinks(rows, rewritten, lower, routes, renaming, repath), ContentLinks(pages, lower, routes));
    }

    /** IndexAllPages: the table rebuilt from scratch. */
    method IndexAllPages(routes: string -> Option<PageId>)
      requires PagesOk()
      modifies store
      ensures Valid() && Rebuilt(store.rows, pages, pages.Keys, ContentLinks(pages, lower, routes))
    {
      store.Clear();
      var todo := pages.Keys;
      assert GoodNow([], {}, todo);
      while todo != {}
        invariant todo <= pages.Keys && PagesOk() && GoodNow([], {}, todo)
        invariant Rebuilt(store.rows, pages, pages.Keys - todo, ContentLinks(pages, lower, routes))
      {
        var id :| id in todo;
        RebuiltMore(store.rows, pages, pages.Keys - todo, id, lower, routes);
        assert pages.Keys - todo + {id} == pages.Keys - (todo - {id});
        RelinkKeeps(store.rows, id, pages, lower, alike, routes, [], {}, todo);
        store.AddLinks(id, pages[id].title, CollectTargets(pages, pages[id], lower, routes));
        todo := todo - {id};
      }
      assert pages.Keys - todo == pages.Keys;
    }
  }

  /** The tree after pages got new content: the same pages, titles and paths. */
  ghost predicate ContentChanged(before: Pages, after: Pages, ids: seq<PageId>)
  {
    && before.Keys == after.Keys && (forall id :: id in ids ==> id in before)
    && (forall id :: id in before ==>
          after[id].title == before[id].title && after[id].path == before[id].path && (id !in ids ==> after[id] == before[id]))
  }

  /** One update for each page, and each fits. */
  ghost predicate UpdatesOf(ids: seq<PageId>, updates: seq<PageLinkUpdate>, pages: Pages, lower: Fold, alike: iset<string>)
  {
    |updates| == |ids| && forall i :: 0 <= i < |ids| ==> updates[i].from == ids[i] && UpdateFits(updates[i], pages, lower, alike)
  }

  /** One update for each page, re-derived from its rows. */
  ghost predicate DerivedFor(ids: seq<PageId>, updates: seq<PageLinkUpdate>, rows: Rows, pages: Pages, lower: Fold,
                             alike: iset<string>, renaming: Renaming)
  {
    |updates| == |ids| &&
    forall i :: 0 <= i < |ids| ==> updates[i].from == ids[i] && Derives(updates[i], rows, pages, lower, alike, renaming)
  }

  /** What the re-derived updates show of the pages. */
  lemma DerivedShow(ids: seq<PageId>, updates: seq<PageLinkUpdate>, rows: Rows, pages: Pages, lower: Fold,
                    alike: iset<string>, renaming: Renaming)
    requires DerivedFor(ids, updates, rows, pages, lower, alike, renaming)
    ensures Sources(updates) == set id | id in ids
    ensures forall i :: 0 <= i < |updates| ==> UpdateFits(updates[i], Shown(pages, updates), lower, alike)
    ensures forall id, t :: id in ids && '/' !in t ==>
              (t in Shown(pages, updates)[id].titles <==> renaming.Rederived(rows, id, t))
  {
    forall i | 0 <= i < |updates|
      ensures UpdateFits(updates[i], Shown(pages, updates), lower, alike) && updates[i].from == ids[i]
      ensures forall t :: '/' !in t ==> (t in Shown(pages, updates)[ids[i]].titles <==> renaming.Rederived(rows, ids[i], t))
    {
      DerivedFits(updates, rows, pages, lower, alike, renaming, i);
    }
    forall id
      ensures id in ids <==> id in Sources(updates)
    {
      if i :| 0 <= i < |ids| && ids[i] == id { assert updates[i] in updates; }
    }
  }

  /** Pages show the titles of their content exactly where their renamed rows follow it. */
  lemma FollowsShown(ids: seq<PageId>, rows: Rows, before: Pages, pages: Pages, shown: Pages, renaming: Renaming)
    requires before.Keys == pages.Keys == shown.Keys && forall id :: id in ids ==> id in pages && renaming.Rewrote(before[id], pages[id])
    requires forall id, t :: id in ids && '/' !in t ==> (t in shown[id].titles <==> renaming.Rederived(rows, id, t))
    requires forall id :: id in pages && id !in ids ==> shown[id] == pages[id]
    ensures (forall id, t :: id in pages && '/' !in t ==> (t in shown[id].titles <==> t in pages[id].titles)) <==>
            forall id :: id in ids ==> renaming.Follows(rows, id, before[id])
  {
    forall id | id in ids
      ensures renaming.Follows(rows, id, before[id]) <==>
              forall t :: '/' !in t ==> (t in shown[id].titles <==> t in pages[id].titles)
    {
    }
  }

  /** Updates that fit settle their pages. */
  lemma BatchSettles(rows: Rows, updates: seq<PageLinkUpdate>, pages: Pages, lower: Fold, alike: iset<string>, open: set<PageId>)
    requires Good(rows, pages, lower, alike, [], {}, open)
    requires forall i :: 0 <= i < |updates| ==> UpdateFits(updates[i], pages, lower, alike)
    ensures Good(Healed(Replaced(rows, updates), updates), pages, lower, alike, [], {}, open - Sources(updates))
  {
    ReplacedKeeps(rows, updates, pages, lower, alike, open);
    HealedKeeps(Replaced(rows, updates), updates, pages, lower, alike, open - Sources(updates));
  }

  /** What a batch of re-derived updates makes of the table. */
  lemma DerivedSettles(ids: seq<PageId>, updates: seq<PageLinkUpdate>, rows: Rows, before: Pages, pages: Pages, lower: Fold,
                       alike: iset<string>, renaming: Renaming)
    requires Good(rows, pages, lower, alike, [], {}, set id | id in ids)
    requires DerivedFor(ids, updates, rows, pages, lower, alike, renaming)
    requires before.Keys == pages.Keys && forall id :: id in ids ==> id in pages && renaming.Rewrote(before[id], pages[id])
    ensures
      var after := Healed(Replaced(rows, updates), updates);
      && Good(after, pages, lower, alike, [], {}, set id | id in ids)
      && (Good(after, pages, lower, alike, [], {}, {}) <==> forall id :: id in ids ==> renaming.Follows(rows, id, before[id]))
  {
    var shown, open := Shown(pages, updates), set id | id in ids;
    var after := Healed(Replaced(rows, updates), updates);
    DerivedShow(ids, updates, rows, pages, lower, alike, renaming);
    TreeChange(rows, pages, shown, lower, alike, [], open);
    BatchSettles(rows, updates, shown, lower, alike, open);
    assert open - Sources(updates) == {};
    TreeChange(after, shown, pages, lower, alike, [], open);
    GoodForBothIff(after, shown, pages, lower, alike);
    FollowsShown(ids, rows, before, pages, shown, renaming);
  }

  lemma CoversAll(ids: seq<PageId>, updates: seq<PageLinkUpdate>, pages: Pages, lower: Fold, alike: iset<string>)
    requires UpdatesOf(ids, updates, pages, lower, alike)
    ensures Sources(updates) == SetOf(ids)
  {
    forall id | id in ids
      ensures id in Sources(updates)
    {
      var i :| 0 <= i < |ids| && ids[i] == id;
      assert updates[i] in updates;
    }
    forall u | u in updates
      ensures u.from in ids
    {
      var i :| 0 <= i < |updates| && updates[i] == u;
      assert updates[i].from == ids[i];
    }
  }

  /** Any two tables that are right for the same pages hold the same slash-free title rows. */
  lemma TitleRowsAreDetermined(a: Rows, b: Rows, pages: Pages, lower: Fold, alike: iset<string>, from: PageId, t: string)
    requires Good(a, pages, lower, alike, [], {}, {}) && Good(b, pages, lower, alike, [], {}, {}) && '/' !in t
    ensures Key(from, Sentinel(t)) in a <==> Key(from, Sentinel(t)) in b
    ensures Key(from, Sentinel(t)) in a ==>
              a[Key(from, Sentinel(t))].state == b[Key(from, Sentinel(t))].state &&
              a[Key(from, Sentinel(t))].toPage == b[Key(from, Sentinel(t))].toPage
  {
    var k := Key(from, Sentinel(t));
    assert IsSentinel(k.toPath) && from !in {} && !Stale(TitleOf(k.toPath), [], lower);
    assert k in a <==> from in pages && t in pages[from].titles;
    assert k in b <==> from in pages && t in pages[from].titles;
    assert k in a && k in b ==> RowExact(a, k, pages, lower) && RowExact(b, k, pages, lower);
  }

  // ----- a restored revision -----

  /** Some other page has a row whose title the tree folds together with t. */
  ghost predicate LinkedByOthers(rows: Rows, id: PageId, t: string, lower: Fold)
  {
    exists k :: k in rows && k.from != id && IsSentinel(k.toPath) && lower(TitleOf(k.toPath)) == lower(t)
  }

  /** The statements of a restore leave another page's title row as it was, unless its title is the new one. */
  lemma RestoreLeavesRow(rows: Rows, now: Pages, id: PageId, lower: Fold, routes: string -> Option<PageId>, title: string, k: Key)
    requires id in now && HasPrefix(now[id].path, "/") && k in rows && k.from != id && IsSentinel(k.toPath)
    requires AsciiLower(k.toPath) != SentinelKey(TrimSpace(title))
    ensures
      var after := AfterReconcile(Settled(rows, now, id, lower, routes), now, lower, title);
      k in after && after[k] == rows[k]
  {
    PathsAreNoSentinels(now[id].path);
    WithLinksAt(WithoutFrom(rows, id), id, now[id].title, CollectTargets(now, now[id], lower, routes), k);
  }

  /** A page that loses a title is one match less for it. */
  lemma MatchesAfterRetitle(before: Pages, id: PageId, page: Page, lower: Fold, t: string)
    requires id in before && TrimSpace(t) == t != "" && before[id].title != "" && lower(t) == lower(before[id].title)
    requires lower(t) != lower(page.title)
    ensures Matches(before[id := page], t, lower) == Matches(before, t, lower) - {id} && id in Matches(before, t, lower)
  {
  }

  /** Such a row stays right exactly when the title was carried by at least three pages. */
  lemma StaleAfterRetitle(rows: Rows, before: Pages, id: PageId, page: Page, lower: Fold, k: Key)
    requires k in rows && IsSentinel(k.toPath) && RowExact(rows, k, before, lower)
    requires
      var t := TitleOf(k.toPath);
      id in before && TrimSpace(t) == t != "" && before[id].title != "" && lower(t) == lower(before[id].title) && lower(t) != lower(page.title)
    ensures RowExact(rows, k, before[id := page], lower) <==> |Matches(before, TitleOf(k.toPath), lower)| >= 3
  {
    MatchesAfterRetitle(before, id, page, lower, TitleOf(k.toPath));
  }

  /** After a restore only rows of the old title may be wrong. */
  lemma RestoredNearly(rows: Rows, before: Pages, id: PageId, page: Page, lower: Fold, alike: iset<string>, routes: string -> Option<PageId>)
    requires FoldAlike(lower, alike) && Good(rows, before, lower, alike, [], {}, {}) && id in before
    requires page.title in alike && PathLinksOk(page) && forall t :: t in page.titles ==> t in alike
    ensures
      var now := before[id := page];
      Good(AfterReconcile(Settled(rows, now, id, lower, routes), now, lower, page.title), now, lower, alike, [before[id].title], {}, {})
  {
    var now, titles := before[id := page], [page.title, before[id].title];
    assert titles == [page.title] + [before[id].title];
    assert forall t :: t in titles <==> t == before[id].title || t == page.title;
    TreeChange(rows, before, now, lower, alike, titles, {id});
    RelinkKeeps(rows, id, now, lower, alike, routes, titles, {}, {id});
    assert {id} - {id} == {};
    var linked := WithLinks(WithoutFrom(rows, id), id, page.title, CollectTargets(now, page, lower, routes));
    HealKeeps(linked, page.path, id, now, lower, alike, titles, {}, {});
    ReconcileOne(Settled(rows, now, id, lower, routes), now, lower, alike, page.title, [before[id].title], {}, {});
  }

  /** The page's own title rows were resolved a moment ago. */
  lemma OwnRowExact(rows: Rows, before: Pages, id: PageId, page: Page, lower: Fold, alike: iset<string>,
                    routes: string -> Option<PageId>, k: Key)
    requires FoldAlike(lower, alike) && Good(rows, before, lower, alike, [], {}, {}) && id in before
    requires PathLinksOk(page) && page.title in alike && forall t :: t in page.titles ==> t in alike
    requires
      var now := before[id := page];
      k in AfterReconcile(Settled(rows, now, id, lower, routes), now, lower, page.title) && IsSentinel(k.toPath) && k.from == id
    ensures
      var now := before[id := page];
      RowExact(AfterReconcile(Settled(rows, now, id, lower, routes), now, lower, page.title), k, now, lower)
  {
    var now := before[id := page];
    var links := CollectTargets(now, page, lower, routes);
    var settled := Settled(rows, now, id, lower, routes);
    CollectedFit(now, page, lower, alike, routes);
    WithLinksAt(WithoutFrom(rows, id), id, page.title, links, k);
    PathsAreNoSentinels(page.path);
    var i :| 0 <= i < |links| && links[i].path == k.toPath &&
             WithLinks(WithoutFrom(rows, id), id, page.title, links)[k] == Row(links[i].page, page.title, links[i].state);
    if HasPrefix(links[i].path, "/") { PathsAreNoSentinels(links[i].path); }
    assert RowExact(settled, k, now, lower);
    SettledIsWellFormed(rows, before, id, page, lower, alike, routes);
    TrimTwice(page.title);
    if TrimSpace(page.title) != "" && AsciiLower(k.toPath) == SentinelKey(TrimSpace(page.title)) {
      ReconciledIsExact(settled, now, lower, alike, page.title, k);
    }
  }

  /** A row matched by the reconcile of a title, trimmed or not, is exact. */
  lemma ReconciledIsExact(rows: Rows, pages: Pages, lower: Fold, alike: iset<string>, title: string, k: Key)
    requires FoldAlike(lower, alike) && KeysOk(rows) && TitlesIn(rows, alike) && TrimSpace(title) != ""
    requires k in rows && AsciiLower(k.toPath) == SentinelKey(TrimSpace(title))
    ensures IsSentinel(k.toPath) && RowExact(AfterReconcile(rows, pages, lower, title), k, pages, lower)
  {
    TrimTwice(title);
    MatchedRowIsExact(rows, pages, lower, alike, TrimSpace(title), k);
  }

  lemma SettledIsWellFormed(rows: Rows, before: Pages, id: PageId, page: Page, lower: Fold, alike: iset<string>, routes: string -> Option<PageId>)
    requires FoldAlike(lower, alike) && Good(rows, before, lower, alike, [], {}, {}) && id in before
    requires page.title in alike && PathLinksOk(page) && forall t :: t in page.titles ==> t in alike
    ensures KeysOk(Settled(rows, before[id := page], id, lower, routes)) && TitlesIn(Settled(rows, before[id := page], id, lower, routes), alike)
  {
    var now, titles := before[id := page], [page.title, before[id].title];
    assert forall t :: t in titles <==> t == before[id].title || t == page.title;
    TreeChange(rows, before, now, lower, alike, titles, {id});
    RelinkKeeps(rows, id, now, lower, alike, routes, titles, {}, {id});
    var linked := WithLinks(WithoutFrom(rows, id), id, page.title, CollectTargets(now, page, lower, routes));
    HealKeeps(linked, page.path, id, now, lower, alike, titles, {}, {id} - {id});
  }

  /** Another page has the same rows after the restore. */
  lemma KeyOfOthers(rows: Rows, now: Pages, id: PageId, lower: Fold, routes: string -> Option<PageId>, title: string, k: Key)
    requires id in now && k.from != id
    ensures k in AfterReconcile(Settled(rows, now, id, lower, routes), now, lower, title) <==> k in rows
  {
    WithLinksAt(WithoutFrom(rows, id), id, now[id].title, CollectTargets(now, now[id], lower, routes), k);
  }

  /** Another page's row of the old title. */
  lemma RestoredRow(rows: Rows, before: Pages, id: PageId, page: Page, lower: Fold, alike: iset<string>,
                    routes: string -> Option<PageId>, k: Key)
    requires FoldAlike(lower, alike) && Good(rows, before, lower, alike, [], {}, {}) && id in before
    requires before[id].title in alike && page.title in alike && PathLinksOk(page) && forall t :: t in page.titles ==> t in alike
    requires k in rows && IsSentinel(k.toPath) && k.from != id && lower(TitleOf(k.toPath)) == lower(before[id].title)
    ensures
      var now, was := before[id := page], before[id].title;
      var after := AfterReconcile(Settled(rows, now, id, lower, routes), now, lower, page.title);
      && k in after
      && (RowExact(after, k, now, lower) <==> lower(was) == lower(TrimSpace(page.title)) || |Matches(before, was, lower)| >= 3)
  {
    var now, was, t := before[id := page], before[id].title, TitleOf(k.toPath);
    var settled, trimmed := Settled(rows, now, id, lower, routes), TrimSpace(page.title);
    assert k.toPath == Sentinel(t) && !Stale(t, [], lower);
    KeyOfOthers(rows, now, id, lower, routes, page.title, k);
    KeyOfOthers(rows, now, id, lower, routes, "", k);
    SettledIsWellFormed(rows, before, id, page, lower, alike, routes);
    StaleRowIsMatched(rows, lower, alike, was, k);
    SentinelFolds(t, trimmed);
    TrimTwice(page.title);
    if lower(was) == lower(trimmed) {
      StaleRowIsMatched(rows, lower, alike, trimmed, k);
      EmptyFoldsAlone(t, trimmed);
      ReconciledIsExact(settled, now, lower, alike, page.title, k);
    } else {
      if lower(t) == lower(page.title) {
        StaleRowIsMatched(rows, lower, alike, page.title, k);
        assert false;
      }
      SentinelFolds(t, was);
      EmptyFoldsAlone(t, was);
      SameMatches(before, t, was, lower);
      RestoreLeavesRow(rows, now, id, lower, routes, page.title, k);
      StaleAfterRetitle(rows, before, id, page, lower, k);
    }
  }

  /** The exact condition of RestorePage. */
  lemma RestoredIff(rows: Rows, before: Pages, id: PageId, page: Page, lower: Fold, alike: iset<string>, routes: string -> Option<PageId>)
    requires FoldAlike(lower, alike) && Good(rows, before, lower, alike, [], {}, {}) && id in before
    requires before[id].title in alike && page.title in alike && PathLinksOk(page) && forall t :: t in page.titles ==> t in alike
    requires page.path == before[id].path
    ensures
      var now, was := before[id := page], before[id].title;
      Good(AfterReconcile(Settled(rows, now, id, lower, routes), now, lower, page.title), now, lower, alike, [], {}, {}) <==>
        || lower(was) == lower(TrimSpace(page.title))
        || |Matches(before, was, lower)| >= 3
        || !LinkedByOthers(rows, id, was, lower)
  {
    var now, was := before[id := page], before[id].title;
    var after := AfterReconcile(Settled(rows, now, id, lower, routes), now, lower, page.title);
    RestoredNearly(rows, before, id, page, lower, alike, routes);
    forall k | k in after && IsSentinel(k.toPath)
      ensures RowExact(after, k, now, lower) <==>
                k.from == id || lower(TitleOf(k.toPath)) != lower(was) ||
                lower(was) == lower(TrimSpace(page.title)) || |Matches(before, was, lower)| >= 3
      ensures k.from != id ==> k in rows
    {
      if k.from == id {
        OwnRowExact(rows, before, id, page, lower, alike, routes, k);
      } else {
        KeyOfOthers(rows, now, id, lower, routes, page.title, k);
        if lower(TitleOf(k.toPath)) == lower(was) { RestoredRow(rows, before, id, page, lower, alike, routes, k); }
      }
    }
    if k :| k in rows && k.from != id && IsSentinel(k.toPath) && lower(TitleOf(k.toPath)) == lower(was) {
      KeyOfOthers(rows, now, id, lower, routes, page.title, k);
      assert !Stale(TitleOf(k.toPath), [], lower);
    }
  }

  /**
   The failing case is real: a page was renamed, say from Queue to Kafka, another page links [[Kafka]], and
   the older revision is restored. The row still points at the page, although no page is called Kafka.
   */
  lemma RestoredTitleLeavesOldOne(queue: string, kafka: string, notes: string, id: PageId, other: PageId, path: string,
                                  lower: Fold, routes: string -> Option<PageId>)
    requires id != other && lower(kafka) != lower(queue) && lower(kafka) != lower(notes) && HasPrefix(path, "/")
    requires TrimSpace(kafka) == kafka != "" && TrimSpace(queue) == queue != ""
    requires forall s, t :: AsciiLower(s) == AsciiLower(t) ==> lower(s) == lower(t)
    ensures
      var before := map[id := Page(kafka, path, [], []), other := Page(notes, "/notes", [kafka], [])];
      var k := Key(other, Sentinel(kafka));
      var rows := map[k := Row(Some(id), notes, Resolved)];
      var now := before[id := Page(queue, path, [], [])];
      var after := AfterReconcile(Settled(rows, now, id, lower, routes), now, lower, queue);
      && RowExact(rows, k, before, lower)
      && k in after && after[k] == Row(Some(id), notes, Resolved) && FreshState(now, kafka, lower) == Broken
  {
    var before := map[id := Page(kafka, path, [], []), other := Page(notes, "/notes", [kafka], [])];
    var k := Key(other, Sentinel(kafka));
    var rows := map[k := Row(Some(id), notes, Resolved)];
    var now := before[id := Page(queue, path, [], [])];
    assert TitleOf(Sentinel(kafka)) == kafka;
    assert Matches(before, kafka, lower) == {id};
    assert Matches(now, kafka, lower) == {};
    SentinelFolds(kafka, queue);
    RestoreLeavesRow(rows, now, id, lower, routes, queue, k);
  }

  // ----- where the two foldings part -----

  /**
   Without agreeing foldings one created page decides it: reconciling its title leaves every title row
   exact exactly when each row the tree folds together with the title, but the table does not, was
   ambiguous already.
   */
  lemma CreateReconcilesIff(rows: Rows, before: Pages, id: PageId, page: Page, lower: Fold, alike: iset<string>)
    requires KeysOk(rows) && TitlesIn(rows, alike) && ExactExcept(rows, before, lower, [], {})
    requires id !in before && TrimSpace(page.title) == page.title != ""
    requires forall s, t :: AsciiLower(s) == AsciiLower(t) ==> lower(s) == lower(t)
    ensures
      ExactExcept(AfterReconcile(rows, before[id := page], lower, page.title), before[id := page], lower, [], {}) <==>
      forall k :: k in rows && IsSentinel(k.toPath) && lower(TitleOf(k.toPath)) == lower(page.title) &&
                  AsciiLower(TitleOf(k.toPath)) != AsciiLower(page.title) ==>
                    |Matches(before, TitleOf(k.toPath), lower)| >= 2
  {
    var now := before[id := page];
    var after := AfterReconcile(rows, now, lower, page.title);
    forall k | k in rows && IsSentinel(k.toPath)
      ensures RowExact(after, k, now, lower) <==>
                !(lower(TitleOf(k.toPath)) == lower(page.title) && AsciiLower(TitleOf(k.toPath)) != AsciiLower(page.title)) ||
                |Matches(before, TitleOf(k.toPath), lower)| >= 2
    {
      RowAfterCreate(rows, before, id, page, lower, alike, k);
    }
    assert after.Keys == rows.Keys;
    assert forall t :: !Stale(t, [], lower);
  }

  /** A created page is one more match for the titles the tree folds together with its own. */
  lemma MatchesAfterCreate(before: Pages, id: PageId, page: Page, lower: Fold, t: string)
    requires id !in before && page.title != "" && TrimSpace(t) == t != ""
    ensures Matches(before[id := page], t, lower) == Matches(before, t, lower) + (if lower(t) == lower(page.title) then {id} else {})
    ensures id !in Matches(before, t, lower)
  {
  }

  lemma RowAfterCreate(rows: Rows, before: Pages, id: PageId, page: Page, lower: Fold, alike: iset<string>, k: Key)
    requires KeysOk(rows) && TitlesIn(rows, alike) && ExactExcept(rows, before, lower, [], {})
    requires id !in before && TrimSpace(page.title) == page.title != ""
    requires forall s, t :: AsciiLower(s) == AsciiLower(t) ==> lower(s) == lower(t)
    requires k in rows && IsSentinel(k.toPath)
    ensures
      var now := before[id := page];
      RowExact(AfterReconcile(rows, now, lower, page.title), k, now, lower) <==>
        !(lower(TitleOf(k.toPath)) == lower(page.title) && AsciiLower(TitleOf(k.toPath)) != AsciiLower(page.title)) ||
        |Matches(before, TitleOf(k.toPath), lower)| >= 2
  {
    var now, t := before[id := page], TitleOf(k.toPath);
    var after := AfterReconcile(rows, now, lower, page.title);
    assert k.toPath == Sentinel(t);
    SentinelFolds(t, page.title);
    assert RowExact(rows, k, before, lower) by { assert !Stale(t, [], lower); }
    MatchesAfterCreate(before, id, page, lower, t);
    if AsciiLower(t) == AsciiLower(page.title) {
      assert Matches(now, t, lower) == Matches(now, page.title, lower);
    } else {
      assert after[k] == rows[k];
    }
  }

  /** A broken link to a title with a non-ASCII capital stays broken when a page with the small letter is created. */
  lemma NonAsciiCapitalStaysBroken(capital: string, small: string, lower: Fold, from: PageId, id: PageId, path: string)
    requires lower(capital) == lower(small) && AsciiLower(capital) != AsciiLower(small)
    requires TrimSpace(capital) == capital != "" && TrimSpace(small) == small != ""
    requires forall s, t :: AsciiLower(s) == AsciiLower(t) ==> lower(s) == lower(t)
    ensures
      var k := Key(from, Sentinel(capital));
      var rows := map[k := Row(None, "", Broken)];
      var now := map[id := Page(small, path, [], [])];
      AfterReconcile(rows, now, lower, small)[k].state == Broken && FreshState(now, capital, lower) == Resolved
  {
    var k := Key(from, Sentinel(capital));
    var now := map[id := Page(small, path, [], [])];
    SentinelFolds(capital, small);
    assert Matches(now, capital, lower) == {id};
  }

  // ----- titles with a slash -----

  /** A slash-containing title without a match is stored as a route row, so reconciling its title never reaches it. */
  lemma SlashTitleIsNotReconciled(pages: Pages, later: Pages, t: string, lower: Fold, routes: string -> Option<PageId>, from: PageId)
    requires '/' in t && Matches(pages, t, lower) == {}
    ensures
      var l := ResolveTitle(pages, t, lower, routes);
      var rows := map[Key(from, l.path) := Row(l.page, "", l.state)];
      !IsSentinel(l.path) && AfterReconcile(rows, later, lower, t) == rows
  {
    var l := ResolveTitle(pages, t, lower, routes);
    var rows := map[Key(from, l.path) := Row(l.page, "", l.state)];
    PathsAreNoSentinels(l.path);
    assert AsciiLower(l.path)[0] == LowerChar(l.path[0]) == '/';
    assert SentinelKey(TrimSpace(t))[0] == LowerChar(SENTINEL_PREFIX[0]) == 'w';
  }
}
