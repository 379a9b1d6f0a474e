/**
 Route paths and folder-relative links: NormalizeRoutePath and ResolveFolderRelative of
 internal/core/markdown/links.go, and relativeWikiLinkPath of internal/links/link_refactor.go.

 A path is resolved on its segments, by the reference resolution of section 5.2.4 of RFC 3986 as
 Go's net/url applies it. Percent-escapes and scheme or host prefixes are not interpreted here.
 */
module RoutePaths {
  import opened Common
  import opened Text

  type Segments = seq<string>

  const QUERY_OR_HASH: set<char> := {'?', '#'}

  function NonEmpty(parts: Segments): (r: Segments)
    ensures forall s :: s in r <==> s in parts && s != ""
  {
    if parts == [] then []
    else if parts[0] == "" then NonEmpty(parts[1..])
    else [parts[0]] + NonEmpty(parts[1..])
  }

  lemma {:induction false} NonEmptyOfFull(parts: Segments)
    requires "" !in parts
    ensures NonEmpty(parts) == parts
  {
    if parts != [] {
      assert parts[0] in parts;
      NonEmptyOfFull(parts[1..]);
      assert [parts[0]] + parts[1..] == parts;
    }
  }

  /** The segments of a path: query and fragment cut off, repeated and outer slashes dropped. */
  function Segs(p: string): (r: Segments)
    ensures forall s :: s in r ==> s != "" && '/' !in s && '?' !in s && '#' !in s
  {
    NonEmpty(Split(CutAt(p, QUERY_OR_HASH).0, '/'))
  }

  /** The normal form of the route with these segments. */
  function Route(segs: Segments): string
  {
    "/" + Join(segs, '/')
  }

  /** NormalizeRoutePath: the empty string stays empty. */
  function NormalizeRoutePath(p: string): string
  {
    if p == "" then "" else Route(Segs(p))
  }

  /** A segment that may stand in a route: not empty, no separators, not a dot segment. */
  predicate Plain(s: string)
  {
    s != "" && '/' !in s && '?' !in s && '#' !in s && s != "." && s != ".."
  }

  predicate AllPlain(segs: Segments)
  {
    forall s :: s in segs ==> Plain(s)
  }

  lemma SegsOfJoin(segs: Segments)
    requires forall s :: s in segs ==> s != "" && '/' !in s && '?' !in s && '#' !in s
    ensures Segs(Join(segs, '/')) == segs
    ensures Segs(Route(segs)) == segs
    ensures segs != [] ==> Split(Join(segs, '/'), '/') == segs
    ensures CutAt(Join(segs, '/'), QUERY_OR_HASH) == (Join(segs, '/'), "")
  {
    var text := Join(segs, '/');
    JoinChars(segs, '/', '?');
    JoinChars(segs, '/', '#');
    CutAtOf(text, "", QUERY_OR_HASH);
    assert text + "" == text;
    CutAtOf("/" + text, "", QUERY_OR_HASH);
    assert "/" + text + "" == "/" + text;
    if segs == [] {
      assert Split("", '/') == [""];
      assert "/" + text == "/";
      assert Split("/", '/') == ["", ""];
    } else {
      SplitJoin(segs, '/');
      NonEmptyOfFull(segs);
      assert ("/" + text)[0] == '/' && ("/" + text)[1..] == text;
      assert Split("/" + text, '/') == [""] + segs;
      assert ([""] + segs)[1..] == segs;
    }
  }

  /** Normalizing twice is normalizing once, and a normal form determines its segments. */
  lemma NormalFormIsStable(p: string)
    ensures NormalizeRoutePath(NormalizeRoutePath(p)) == NormalizeRoutePath(p)
    ensures Segs(NormalizeRoutePath(p)) == Segs(p)
    ensures NormalizeRoutePath(p) == "" <==> p == ""
  {
    SegsOfJoin(Segs(p));
    if p == "" {
      assert CutAt("", QUERY_OR_HASH) == ("", "");
      assert NonEmpty([""]) == NonEmpty([""][1..]) == [];
    }
  }

  lemma {:induction false} NonEmptyAppend(a: Segments, b: Segments)
    ensures NonEmpty(a + b) == NonEmpty(a) + NonEmpty(b)
  {
    if a == [] {
      assert a + b == b;
    } else {
      assert (a + b)[1..] == a[1..] + b;
      NonEmptyAppend(a[1..], b);
    }
  }

  /** What lies below a path has the path's segments and then its own. */
  lemma SegsAppend(p: string, rest: string)
    requires forall c :: c in p + rest ==> c !in QUERY_OR_HASH
    ensures Segs(p + "/" + rest) == Segs(p) + Segs(rest)
  {
    var whole := p + "/" + rest;
    CutAtOf(whole, "", QUERY_OR_HASH);
    CutAtOf(p, "", QUERY_OR_HASH);
    CutAtOf(rest, "", QUERY_OR_HASH);
    assert whole + "" == whole && p + "" == p && rest + "" == rest;
    assert "/" == ['/'];
    SplitAppend(p, rest, '/');
    NonEmptyAppend(Split(p, '/'), Split(rest, '/'));
  }

  /** The normal form of a route with plain segments. */
  predicate CanonicalRoute(p: string)
  {
    p == Route(Segs(p)) && AllPlain(Segs(p))
  }

  lemma CanonicalChars(p: string)
    requires CanonicalRoute(p)
    ensures forall c :: c in p ==> c !in QUERY_OR_HASH
  {
    JoinChars(Segs(p), '/', '?');
    JoinChars(Segs(p), '/', '#');
    assert p == "/" + Join(Segs(p), '/');
  }

  /** Only the root has no segments. */
  lemma RootRoute(p: string)
    requires CanonicalRoute(p) && p != "/"
    ensures Segs(p) != []
  {
    assert Segs(p) == [] ==> Route(Segs(p)) == "/";
  }

  /** The route of a path and more segments below it. */
  lemma RouteBelow(upper: Segments, lower: Segments)
    requires upper != [] && lower != []
    ensures Route(upper + lower) == Route(upper) + "/" + Join(lower, '/')
  {
    JoinAppend(upper, lower, '/');
    assert "/" + (Join(upper, '/') + ['/'] + Join(lower, '/')) == ("/" + Join(upper, '/')) + "/" + Join(lower, '/');
  }

  /** The text below a route, when it is one of plain segments. */
  predicate PlainRest(rest: string)
  {
    AllPlain(Segs(rest)) && Segs(rest) != [] && rest == Join(Segs(rest), '/') && forall c :: c in rest ==> c !in QUERY_OR_HASH
  }

  lemma RestOfCanonical(p: string, top: string, rest: string)
    requires CanonicalRoute(p) && p == top + "/" + rest
    ensures (forall c :: c in rest ==> c !in QUERY_OR_HASH) && Segs(p) == Segs(top) + Segs(rest) && AllPlain(Segs(rest))
  {
    CanonicalChars(p);
    SegsAppend(top, rest);
    assert forall s :: s in Segs(rest) ==> s in Segs(p);
  }

  /** A route below another one consists of it and a plain rest. */
  lemma BelowCanonical(p: string, top: string, rest: string)
    requires CanonicalRoute(p) && CanonicalRoute(top) && top != "/" && p == top + "/" + rest
    ensures PlainRest(rest)
  {
    RestOfCanonical(p, top, rest);
    RootRoute(top);
    assert Segs(rest) == [] ==> Segs(p) == Segs(top) && |p| == |top|;
    RouteBelow(Segs(top), Segs(rest));
    assert top + "/" + rest == top + "/" + Join(Segs(rest), '/');
    assert rest == (top + "/" + rest)[|top| + 1..] == Join(Segs(rest), '/');
  }

  /** Putting a plain rest below a route gives a route. */
  lemma CanonicalBelow(top: string, rest: string)
    requires CanonicalRoute(top) && top != "/" && PlainRest(rest)
    ensures CanonicalRoute(top + "/" + rest)
  {
    CanonicalChars(top);
    SegsAppend(top, rest);
    RootRoute(top);
    RouteBelow(Segs(top), Segs(rest));
  }

  // ----- resolution -----

  /** One segment walked from a directory. */
  function Walk(at: Segments, s: string): Segments
  {
    if s == "." then at
    else if s == ".." then (if at == [] then [] else at[..|at| - 1])
    else at + [s]
  }

  function WalkAll(at: Segments, parts: Segments): Segments
    decreases |parts|
  {
    if parts == [] then at else WalkAll(Walk(at, parts[0]), parts[1..])
  }

  /** ResolveFolderRelative: the page is a folder, so a relative link is walked from the page itself. */
  function ResolveSegs(current: Segments, href: string): Segments
  {
    var path := CutAt(href, QUERY_OR_HASH).0;
    if path == "" then current
    else if path[0] == '/' then NonEmpty(WalkAll([], Split(path, '/')))
    else NonEmpty(WalkAll(current, Split(path, '/')))
  }

  function ResolveFolderRelative(currentPath: string, href: string): string
  {
    Route(ResolveSegs(Segs(currentPath), href))
  }

  lemma {:induction false} WalkPlain(at: Segments, parts: Segments)
    requires forall s :: s in parts ==> s != "." && s != ".."
    ensures WalkAll(at, parts) == at + parts
    decreases |parts|
  {
    if parts != [] {
      assert parts[0] in parts && forall s :: s in parts[1..] ==> s in parts;
      WalkPlain(at + [parts[0]], parts[1..]);
      assert at + [parts[0]] + parts[1..] == at + parts;
    }
  }

  lemma {:induction false} WalkAppend(at: Segments, a: Segments, b: Segments)
    ensures WalkAll(at, a + b) == WalkAll(WalkAll(at, a), b)
    decreases |a|
  {
    if a == [] {
      assert a + b == b;
    } else {
      assert (a + b)[1..] == a[1..] + b;
      WalkAppend(Walk(at, a[0]), a[1..], b);
    }
  }

  function Ups(n: nat): (r: Segments)
    ensures |r| == n && forall s :: s in r ==> s == ".."
  {
    if n == 0 then [] else [".."] + Ups(n - 1)
  }

  lemma {:induction false} WalkUps(at: Segments, n: nat)
    requires n <= |at|
    ensures WalkAll(at, Ups(n)) == at[..|at| - n]
    decreases n
  {
    if n > 0 {
      WalkUps(at[..|at| - 1], n - 1);
      assert Ups(n)[1..] == Ups(n - 1);
    } else {
      assert at[..|at|] == at;
    }
  }

  /** Walking never leaves a dot segment behind. */
  lemma {:induction false} WalkLeavesNoDots(at: Segments, parts: Segments)
    requires forall s :: s in at ==> s != "." && s != ".."
    ensures forall s :: s in WalkAll(at, parts) ==> s != "." && s != ".." && (s in at || s in parts)
    decreases |parts|
  {
    if parts != [] {
      assert forall s :: s in Walk(at, parts[0]) ==> s in at || (s == parts[0] && s != "." && s != "..");
      assert forall s :: s in parts[1..] ==> s in parts;
      WalkLeavesNoDots(Walk(at, parts[0]), parts[1..]);
    }
  }

  /** Whatever a link says, it resolves to a plain route. */
  lemma ResolvedIsPlain(current: Segments, href: string)
    requires AllPlain(current)
    ensures AllPlain(ResolveSegs(current, href))
  {
    var path := CutAt(href, QUERY_OR_HASH).0;
    if path != "" {
      var parts := Split(path, '/');
      WalkLeavesNoDots(if path[0] == '/' then [] else current, parts);
      assert '?' !in path && '#' !in path;
      assert forall s :: s in parts ==> '/' !in s && '?' !in s && '#' !in s;
    }
  }

  /** A link that is a query or a fragment, or nothing at all, leads to the page itself. */
  lemma NothingLeadsToPage(page: string, suffix: string)
    requires suffix == "" || suffix[0] in QUERY_OR_HASH
    ensures ResolveFolderRelative(page, suffix) == Route(Segs(page))
  {
    CutAtOf("", suffix, QUERY_OR_HASH);
    assert "" + suffix == suffix;
  }

  /** A page is a folder: a plain name leads to its child. */
  lemma NameLeadsToChild(page: string, name: string)
    requires Plain(name)
    ensures ResolveFolderRelative(page, name) == Route(Segs(page) + [name])
  {
    CutAtOf(name, "", QUERY_OR_HASH);
    assert name + "" == name && name[0] in name;
    SplitOfPart(name, "", '/');
    assert WalkAll(Segs(page), [name]) == WalkAll(Segs(page) + [name], []);
    NonEmptyOfFull(Segs(page) + [name]);
  }

  /** One behind ../ leads to its sibling; at the root there is nothing above. */
  lemma UpLeadsToSibling(page: string, name: string)
    requires Plain(name)
    ensures ResolveFolderRelative(page, "../" + name) == Route((if Segs(page) == [] then [] else Segs(page)[..|Segs(page)| - 1]) + [name])
  {
    var up, at := "../" + name, Segs(page);
    var above := Walk(at, "..");
    CutAtOf(up, "", QUERY_OR_HASH);
    assert up + "" == up && up == ".." + ['/'] + name && up[0] == '.';
    SplitOfPart("..", name, '/');
    SplitOfPart(name, "", '/');
    WalkTwo(at, "..", name);
    assert forall s :: s in above ==> s in at;
    NonEmptyOfFull(above + [name]);
  }

  lemma WalkTwo(at: Segments, a: string, b: string)
    ensures WalkAll(at, [a] + [b]) == Walk(Walk(at, a), b)
  {
    assert ([a] + [b])[1..] == [b] && [b][1..] == [];
    assert WalkAll(Walk(at, a), [b]) == WalkAll(Walk(Walk(at, a), b), []);
  }

  // ----- relative links -----

  /** How many leading segments two paths share. */
  function Shared(a: Segments, b: Segments): (n: nat)
    ensures n <= |a| && n <= |b| && a[..n] == b[..n]
    ensures n < |a| && n < |b| ==> a[n] != b[n]
  {
    if a != [] && b != [] && a[0] == b[0] then
      var n := Shared(a[1..], b[1..]);
      assert a[..n + 1] == [a[0]] + a[1..][..n] && b[..n + 1] == [b[0]] + b[1..][..n];
      n + 1
    else 0
  }

  function RelativeSegs(base: Segments, target: Segments): Segments
  {
    Ups(|base| - Shared(base, target)) + target[Shared(base, target)..]
  }

  /** relativeWikiLinkPath as a function; the method below is the code's loops. */
  function RelativePath(currentPath: string, targetPath: string): string
  {
    if targetPath == "" then "" else Join(RelativeSegs(Segs(currentPath), Segs(targetPath)), '/')
  }

  /** The relative link between two paths is empty exactly when they are the same. */
  lemma RelativeEmptyIff(base: Segments, target: Segments)
    ensures RelativeSegs(base, target) == [] <==> base == target
  {
    var n := Shared(base, target);
    assert |RelativeSegs(base, target)| == (|base| - n) + (|target| - n);
    assert base[..|base|] == base && target[..|target|] == target;
  }

  lemma RelativeChars(base: Segments, target: Segments)
    requires AllPlain(target)
    ensures forall s :: s in RelativeSegs(base, target) ==> s != "" && '/' !in s && '?' !in s && '#' !in s
  {
    var n := Shared(base, target);
    forall s | s in RelativeSegs(base, target)
      ensures s != "" && '/' !in s && '?' !in s && '#' !in s
    {
      if s in target[n..] { assert s in target; } else { assert s in Ups(|base| - n); }
    }
  }

  lemma WalkRelative(base: Segments, target: Segments)
    requires AllPlain(target)
    ensures WalkAll(base, RelativeSegs(base, target)) == target
  {
    var n := Shared(base, target);
    var down := target[n..];
    WalkAppend(base, Ups(|base| - n), down);
    WalkUps(base, |base| - n);
    assert forall s :: s in down ==> s in target;
    WalkPlain(base[..n], down);
    assert target[..n] + down == target;
  }

  lemma {:induction false} SharedIsLongest(a: Segments, b: Segments, k: nat)
    requires k <= |a| && k <= |b| && a[..k] == b[..k]
    ensures k <= Shared(a, b)
  {
    if k > 0 {
      assert a[0] == a[..k][0] == b[..k][0] == b[0];
      assert a[1..][..k - 1] == a[..k][1..] == b[..k][1..] == b[1..][..k - 1];
      SharedIsLongest(a[1..], b[1..], k - 1);
    }
  }

  lemma WalkGainsOne(at: Segments, s: string, target: Segments)
    ensures |RelativeSegs(at, target)| <= |RelativeSegs(Walk(at, s), target)| + 1
  {
    var next := Walk(at, s);
    var m, n := Shared(at, target), Shared(next, target);
    assert |RelativeSegs(at, target)| == |at| + |target| - 2 * m;
    assert |RelativeSegs(next, target)| == |next| + |target| - 2 * n;
    if n > 0 {
      var k := if s == "." || s == ".." then n else n - 1;
      assert at[..k] == next[..k] == next[..n][..k] == target[..n][..k] == target[..k];
      SharedIsLongest(at, target, k);
    }
  }

  /** No relative link with fewer segments leads to the target. */
  lemma {:induction false} RelativeIsShortest(base: Segments, target: Segments, walk: Segments)
    requires WalkAll(base, walk) == target
    ensures |RelativeSegs(base, target)| <= |walk|
    decreases |walk|
  {
    if walk == [] {
      RelativeEmptyIff(base, target);
    } else {
      WalkGainsOne(base, walk[0], target);
      RelativeIsShortest(Walk(base, walk[0]), target, walk[1..]);
    }
  }

  lemma JoinStartsLikeFirst(parts: Segments)
    requires parts != [] && parts[0] != ""
    ensures Join(parts, '/') != "" && Join(parts, '/')[0] == parts[0][0]
  {
  }

  /** Folder-relative resolution undoes relativeWikiLinkPath, for every pair of distinct paths. */
  lemma ResolveUndoesRelative(base: Segments, target: Segments)
    requires AllPlain(target) && base != target
    ensures Join(RelativeSegs(base, target), '/') != ""
    ensures Join(RelativeSegs(base, target), '/')[0] != '/'
    ensures ResolveSegs(base, Join(RelativeSegs(base, target), '/')) == target
  {
    var rel := RelativeSegs(base, target);
    RelativeEmptyIff(base, target);
    RelativeChars(base, target);
    assert rel[0] in rel;
    JoinStartsLikeFirst(rel);
    assert rel[0][0] in rel[0];
    SegsOfJoin(rel);
    WalkRelative(base, target);
    NonEmptyOfFull(target);
  }

  /** Between different plain routes the relative link is there, and resolves to the target. */
  lemma RelativePathResolves(currentPath: string, targetPath: string)
    requires targetPath != "" && AllPlain(Segs(targetPath)) && Segs(currentPath) != Segs(targetPath)
    ensures RelativePath(currentPath, targetPath) != ""
    ensures ResolveFolderRelative(currentPath, RelativePath(currentPath, targetPath)) == NormalizeRoutePath(targetPath)
  {
    ResolveUndoesRelative(Segs(currentPath), Segs(targetPath));
  }

  /** The first loop of relativeWikiLinkPath. */
  method CountShared(base: Segments, target: Segments) returns (common: nat)
    ensures common == Shared(base, target)
  {
    common := 0;
    while common < |base| && common < |target| && base[common] == target[common]
      invariant common <= |base| && common <= |target|
      invariant Shared(base, target) == common + Shared(base[common..], target[common..])
    {
      assert base[common..][1..] == base[common + 1..] && target[common..][1..] == target[common + 1..];
      common := common + 1;
    }
  }

  /** relativeWikiLinkPath. */
  method RelativeWikiLinkPath(currentPath: string, targetPath: string) returns (rel: string)
    ensures rel == RelativePath(currentPath, targetPath)
  {
    if targetPath == "" {
      return "";
    }
    var base, target := Segs(currentPath), Segs(targetPath);
    var common := CountShared(base, target);
    var parts: Segments := [];
    for i := common to |base|
      invariant parts == Ups(i - common)
    {
      UpsGrows(i - common);
      parts := parts + [".."];
    }
    parts := parts + target[common..];
    rel := Join(parts, '/');
  }

  lemma {:induction false} UpsGrows(n: nat)
    ensures Ups(n) + [".."] == Ups(n + 1)
  {
    if n > 0 {
      UpsGrows(n - 1);
      assert Ups(n) + [".."] == [".."] + (Ups(n - 1) + [".."]);
    }
  }
}
