/**
 The link table of internal/links/links_store.go: one row per source page and target path. Each method
 is one transaction; the SQL statements are the functions on row maps below.

 A row of a [[title]] link has the path "wikilink:<title>"; every other path begins with a slash. The
 missing target page is None, whether the column holds NULL or the empty string.
 */
module LinksStore {
  import opened Common
  import opened Text

  type PageId = string

  datatype LinkState = Resolved | Broken | Ambiguous

  datatype Key = Key(from: PageId, toPath: string)
  datatype Row = Row(toPage: Option<PageId>, fromTitle: string, state: LinkState)
  type Rows = map<Key, Row>

  datatype TargetLink = TargetLink(page: Option<PageId>, path: string, state: LinkState)

  const SENTINEL_PREFIX := "wikilink:"

  function Sentinel(title: string): string
  {
    SENTINEL_PREFIX + title
  }

  predicate IsSentinel(path: string)
  {
    HasPrefix(path, SENTINEL_PREFIX)
  }

  function TitleOf(path: string): string
    requires IsSentinel(path)
  {
    path[|SENTINEL_PREFIX|..]
  }

  /** sentinelKey: the key is folded as SQLite's LOWER folds the stored path, which is ASCII only. */
  function SentinelKey(title: string): string
  {
    AsciiLower(SENTINEL_PREFIX + TrimSpace(title))
  }

  // ----- the statements -----

  /** DELETE ... WHERE from_page_id = from */
  function WithoutFrom(rows: Rows, from: PageId): Rows
  {
    map k | k in rows && k.from != from :: rows[k]
  }

  /** INSERT OR REPLACE for each link, in order. */
  function WithLinks(rows: Rows, from: PageId, title: string, links: seq<TargetLink>): Rows
  {
    if links == [] then rows
    else
      var last := links[|links| - 1];
      WithLinks(rows, from, title, links[..|links| - 1])[Key(from, last.path) := Row(last.page, title, last.state)]
  }

  function BrokenRow(r: Row): Row
  {
    r.(toPage := None, state := Broken)
  }

  function IncomingBroken(rows: Rows, page: PageId): Rows
  {
    map k | k in rows :: if rows[k].toPage == Some(page) && rows[k].state == Resolved then BrokenRow(rows[k]) else rows[k]
  }

  function PathBroken(rows: Rows, path: string): Rows
  {
    map k | k in rows :: if k.toPath == path && rows[k].state == Resolved then BrokenRow(rows[k]) else rows[k]
  }

  /** LIKE ignores ASCII case; route slugs hold no wildcard characters. */
  predicate UnderPrefix(path: string, prefix: string)
  {
    path == prefix || HasPrefix(AsciiLower(path), AsciiLower(prefix + "/"))
  }

  lemma FoldAppend(a: string, b: string)
    ensures AsciiLower(a + b) == AsciiLower(a) + AsciiLower(b)
  {
  }

  /** A path that goes on behind the prefix, in whatever case, is under it exactly when it goes on with a slash. */
  lemma UnderPrefixIff(path: string, prefix: string, rest: string)
    requires AsciiLower(path) == AsciiLower(prefix + rest)
    ensures UnderPrefix(path, prefix) <==> path == prefix || HasPrefix(rest, "/")
  {
    FoldAppend(prefix, rest);
    FoldAppend(prefix, "/");
    var low := AsciiLower(prefix);
    assert AsciiLower("/") == "/";
    assert AsciiLower(path) == low + AsciiLower(rest);
    if rest != "" {
      assert AsciiLower(path)[|low|] == AsciiLower(rest)[0] == LowerChar(rest[0]);
      assert HasPrefix(low + AsciiLower(rest), low + "/") <==> AsciiLower(rest)[0] == '/' by {
        if AsciiLower(rest)[0] == '/' { assert AsciiLower(rest) == "/" + AsciiLower(rest)[1..]; }
      }
    }
  }

  function PrefixBroken(rows: Rows, prefix: string): Rows
  {
    map k | k in rows :: if UnderPrefix(k.toPath, prefix) && rows[k].state == Resolved then BrokenRow(rows[k]) else rows[k]
  }

  function PathHealed(rows: Rows, path: string, page: PageId): Rows
  {
    map k | k in rows :: if k.toPath == path && rows[k].state == Broken
                         then rows[k].(toPage := Some(page), state := Resolved) else rows[k]
  }

  function TitleReconciled(rows: Rows, title: string, state: LinkState, page: Option<PageId>): Rows
  {
    map k | k in rows :: if AsciiLower(k.toPath) == SentinelKey(title)
                         then rows[k].(toPage := if state == Resolved then page else None, state := state) else rows[k]
  }

  /** Rows were only marked broken, and only resolved ones. */
  ghost predicate OnlyBroken(before: Rows, after: Rows)
  {
    && after.Keys == before.Keys
    && forall k :: k in after && after[k] != before[k] ==> before[k].state == Resolved && after[k] == BrokenRow(before[k])
  }

  /**
   A page that loses its path and gets it back: healing after breaking restores the table exactly when no
   link to the path was broken before, or resolved to another page.
   */
  lemma HealUndoesBreakIff(rows: Rows, path: string, page: PageId)
    ensures PathHealed(PathBroken(rows, path), path, page) == rows <==>
              forall k :: k in rows && k.toPath == path ==>
                rows[k].state != Broken && (rows[k].state == Resolved ==> rows[k].toPage == Some(page))
  {
    var after := PathHealed(PathBroken(rows, path), path, page);
    assert after.Keys == rows.Keys;
    forall k | k in rows
      ensures after[k] == rows[k] <==>
                (k.toPath == path ==> rows[k].state != Broken && (rows[k].state == Resolved ==> rows[k].toPage == Some(page)))
    {
    }
  }

  /** Breaking a subtree's links breaks those of its root, and what heals one path of it afterwards heals just that path. */
  lemma BreakPrefixCoversPath(rows: Rows, path: string, page: PageId)
    ensures PathBroken(PrefixBroken(rows, path), path) == PrefixBroken(rows, path)
    ensures PrefixBroken(PathBroken(rows, path), path) == PrefixBroken(rows, path)
    ensures forall k :: k in rows && k.toPath != path && UnderPrefix(k.toPath, path) ==>
              PathHealed(PrefixBroken(rows, path), path, page)[k].state != Resolved
  {
    assert PathBroken(PrefixBroken(rows, path), path).Keys == rows.Keys;
    assert PrefixBroken(PathBroken(rows, path), path).Keys == rows.Keys;
  }

  /** Reconciles of titles that fold differently do not disturb each other; of the same title, the last one counts. */
  lemma ReconcilesCommute(rows: Rows, t: string, ts: LinkState, tp: Option<PageId>, u: string, us: LinkState, up: Option<PageId>)
    ensures SentinelKey(t) != SentinelKey(u) ==>
              TitleReconciled(TitleReconciled(rows, t, ts, tp), u, us, up) == TitleReconciled(TitleReconciled(rows, u, us, up), t, ts, tp)
    ensures SentinelKey(t) == SentinelKey(u) ==>
              TitleReconciled(TitleReconciled(rows, t, ts, tp), u, us, up) == TitleReconciled(rows, u, us, up)
  {
    assert TitleReconciled(TitleReconciled(rows, t, ts, tp), u, us, up).Keys == rows.Keys;
    assert TitleReconciled(TitleReconciled(rows, u, us, up), t, ts, tp).Keys == rows.Keys;
  }

  /** What the inserted links leave for a key: the last of them with its path, else the row before. */
  lemma {:induction false} WithLinksAt(rows: Rows, from: PageId, title: string, links: seq<TargetLink>, k: Key)
    ensures k in WithLinks(rows, from, title, links) <==>
              k in rows || (k.from == from && exists i :: 0 <= i < |links| && links[i].path == k.toPath)
    ensures k in WithLinks(rows, from, title, links) && !(k.from == from && exists i :: 0 <= i < |links| && links[i].path == k.toPath) ==>
              WithLinks(rows, from, title, links)[k] == rows[k]
    ensures k.from == from && (exists i :: 0 <= i < |links| && links[i].path == k.toPath) ==>
              exists i :: 0 <= i < |links| && links[i].path == k.toPath &&
                          WithLinks(rows, from, title, links)[k] == Row(links[i].page, title, links[i].state)
  {
    if links != [] {
      var n := |links| - 1;
      var front := links[..n];
      WithLinksAt(rows, from, title, front, k);
      if k == Key(from, links[n].path) {
        assert WithLinks(rows, from, title, links)[k] == Row(links[n].page, title, links[n].state);
      } else {
        if i :| 0 <= i < |links| && links[i].path == k.toPath && k.from == from {
          assert i < n && front[i].path == k.toPath;
          var j :| 0 <= j < |front| && front[j].path == k.toPath &&
                   WithLinks(rows, from, title, front)[k] == Row(front[j].page, title, front[j].state);
          assert links[j].path == k.toPath;
        }
        if i :| 0 <= i < |front| && front[i].path == k.toPath {
          assert links[i].path == k.toPath;
        }
      }
    }
  }

  datatype PageLinkUpdate = PageLinkUpdate(from: PageId, title: string, path: string, targets: seq<TargetLink>)

  /** ReplaceLinksAndHeal: first every page's rows are replaced, then every page's path is healed. */
  function Replaced(rows: Rows, updates: seq<PageLinkUpdate>): Rows
  {
    if updates == [] then rows
    else
      var u := updates[|updates| - 1];
      WithLinks(WithoutFrom(Replaced(rows, updates[..|updates| - 1]), u.from), u.from, u.title, u.targets)
  }

  function Healed(rows: Rows, updates: seq<PageLinkUpdate>): Rows
  {
    if updates == [] then rows
    else PathHealed(Healed(rows, updates[..|updates| - 1]), updates[|updates| - 1].path, updates[|updates| - 1].from)
  }

  class LinksStore {
    var rows: Rows

    constructor ()
      ensures rows == map[]
    {
      rows := map[];
    }

    method Clear()
      modifies this
      ensures rows == map[]
    {
      rows := map[];
    }

    /** The page links nowhere any more; every other page's rows stay. */
    method DeleteOutgoingLinks(from: PageId)
      modifies this
      ensures forall k :: k in rows <==> k in old(rows) && k.from != from
      ensures forall k :: k in rows ==> rows[k] == old(rows)[k]
      ensures rows == WithoutFrom(old(rows), from)
    {
      rows := map k | k in rows && k.from != from :: rows[k];
    }

    /** No resolved row points at the page any more; every row that did is broken, every other one stays. */
    method MarkIncomingLinksBroken(page: PageId)
      modifies this
      ensures OnlyBroken(old(rows), rows)
      ensures forall k :: k in rows ==> !(rows[k].state == Resolved && rows[k].toPage == Some(page))
      ensures forall k :: k in rows && old(rows)[k].toPage != Some(page) ==> rows[k] == old(rows)[k]
      ensures rows == IncomingBroken(old(rows), page)
    {
      rows := IncomingBroken(rows, page);
    }

    /** No row to the path is resolved any more; every row that was is broken, every other one stays. */
    method MarkLinksBrokenForPath(path: string)
      modifies this
      ensures OnlyBroken(old(rows), rows)
      ensures forall k :: k in rows && k.toPath == path ==> rows[k].state != Resolved
      ensures forall k :: k in rows && k.toPath != path ==> rows[k] == old(rows)[k]
      ensures rows == PathBroken(old(rows), path)
    {
      rows := PathBroken(rows, path);
    }

    /** No row to the subtree of the prefix is resolved any more; every row that was is broken, every other one stays. */
    method MarkLinksBrokenForPrefix(prefix: string)
      modifies this
      ensures OnlyBroken(old(rows), rows)
      ensures forall k :: k in rows && UnderPrefix(k.toPath, prefix) ==> rows[k].state != Resolved
      ensures forall k :: k in rows && !UnderPrefix(k.toPath, prefix) ==> rows[k] == old(rows)[k]
      ensures rows == PrefixBroken(old(rows), prefix)
    {
      rows := PrefixBroken(rows, prefix);
    }

    /** No row to the path is broken any more; every row that was points at the page, every other one stays. */
    method HealLinksForPath(path: string, page: PageId)
      modifies this
      ensures rows.Keys == old(rows).Keys
      ensures forall k :: k in rows && k.toPath == path ==> rows[k].state != Broken
      ensures forall k :: k in rows && rows[k] != old(rows)[k] ==>
                k.toPath == path && old(rows)[k].state == Broken && rows[k] == Row(Some(page), old(rows)[k].fromTitle, Resolved)
      ensures rows == PathHealed(old(rows), path, page)
    {
      rows := PathHealed(rows, path, page);
    }

    /** All rows of the title, in whatever case, agree on the state and the page afterwards; every other one stays. */
    method ReconcileWikiLinksForTitle(title: string, state: LinkState, page: Option<PageId>)
      modifies this
      ensures rows.Keys == old(rows).Keys
      ensures forall k :: k in rows && AsciiLower(k.toPath) == SentinelKey(title) ==>
                rows[k].state == state && rows[k].fromTitle == old(rows)[k].fromTitle &&
                (state == Resolved ==> rows[k].toPage == page) && (state != Resolved ==> rows[k].toPage.None?)
      ensures forall k :: k in rows && AsciiLower(k.toPath) != SentinelKey(title) ==> rows[k] == old(rows)[k]
      ensures rows == TitleReconciled(old(rows), title, state, page)
    {
      rows := TitleReconciled(rows, title, state, page);
    }

    /** AddLinks replaces all rows of the page. */
    method AddLinks(from: PageId, title: string, links: seq<TargetLink>)
      modifies this
      ensures rows == WithLinks(WithoutFrom(old(rows), from), from, title, links)
    {
      DeleteOutgoingLinks(from);
      ghost var cleared := rows;
      for i := 0 to |links|
        invariant rows == WithLinks(cleared, from, title, links[..i])
      {
        assert links[..i + 1][..i] == links[..i];
        rows := rows[Key(from, links[i].path) := Row(links[i].page, title, links[i].state)];
      }
      assert links[..|links|] == links;
    }

    method ReplaceLinksAndHeal(updates: seq<PageLinkUpdate>)
      modifies this
      ensures rows == Healed(Replaced(old(rows), updates), updates)
    {
      for i := 0 to |updates|
        invariant rows == Replaced(old(rows), updates[..i])
      {
        assert updates[..i + 1][..i] == updates[..i];
        AddLinks(updates[i].from, updates[i].title, updates[i].targets);
      }
      assert updates[..|updates|] == updates;
      ghost var replaced := rows;
      for i := 0 to |updates|
        invariant rows == Healed(replaced, updates[..i])
      {
        assert updates[..i + 1][..i] == updates[..i];
        HealLinksForPath(updates[i].path, updates[i].from);
      }
    }
  }
}
