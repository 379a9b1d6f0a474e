/** The commit graph. A commit is its tree, its parents and what tells it apart from its twins. */
module Commits {
  import opened Common
  import opened GitTrees

  datatype Commit = Commit(tree: Tree, parents: seq<Commit>, stamp: nat)

  /** git merge-base --is-ancestor: a is c itself or reachable from it through parents. */
  predicate IsAncestor(a: Commit, c: Commit)
    decreases c
  {
    a == c || exists i :: 0 <= i < |c.parents| && IsAncestor(a, c.parents[i])
  }

  /** Commits from c down to a, each one some parent of the one before. */
  ghost predicate Chain(path: seq<Commit>, c: Commit, a: Commit)
  {
    && path != [] && path[0] == c && path[|path| - 1] == a
    && forall k :: 0 <= k < |path| - 1 ==> path[k + 1] in path[k].parents
  }

  /** a can be reached from c through parents, first ones or others. */
  ghost predicate Reachable(c: Commit, a: Commit)
  {
    exists path :: Chain(path, c, a)
  }

  lemma ParentIsAncestor(c: Commit, i: nat)
    requires i < |c.parents|
    ensures IsAncestor(c.parents[i], c)
  {
    assert IsAncestor(c.parents[i], c.parents[i]);
  }

  lemma {:induction false} ChainOf(a: Commit, c: Commit) returns (path: seq<Commit>)
    requires IsAncestor(a, c)
    ensures Chain(path, c, a)
    decreases c
  {
    if a == c {
      path := [c];
    } else {
      var i :| 0 <= i < |c.parents| && IsAncestor(a, c.parents[i]);
      path := ChainOf(a, c.parents[i]);
      path := [c] + path;
    }
  }

  lemma {:induction false} ChainLeadsDown(path: seq<Commit>, c: Commit, a: Commit)
    requires Chain(path, c, a)
    ensures IsAncestor(a, c)
    decreases |path|
  {
    if |path| > 1 {
      var rest := path[1..];
      forall k | 0 <= k < |rest| - 1
        ensures rest[k + 1] in rest[k].parents
      {
        assert path[(k + 1) + 1] in path[k + 1].parents;
      }
      ChainLeadsDown(rest, path[1], a);
      var i :| 0 <= i < |c.parents| && c.parents[i] == path[1];
    }
  }

  /** The ancestors of a commit are what can be reached from it. */
  lemma AncestorIffReachable(a: Commit, c: Commit)
    ensures IsAncestor(a, c) <==> Reachable(c, a)
  {
    if IsAncestor(a, c) {
      var path := ChainOf(a, c);
    }
    if path :| Chain(path, c, a) {
      ChainLeadsDown(path, c, a);
    }
  }

  lemma {:induction false} AncestorsCompose(a: Commit, b: Commit, c: Commit)
    requires IsAncestor(a, b) && IsAncestor(b, c)
    ensures IsAncestor(a, c)
    decreases c
  {
    if b != c {
      var i :| 0 <= i < |c.parents| && IsAncestor(b, c.parents[i]);
      AncestorsCompose(a, b, c.parents[i]);
    }
  }

  /** The number of commits on the longest way down, which only grows towards descendants. */
  ghost function Height(c: Commit): (h: nat)
    ensures forall i :: 0 <= i < |c.parents| ==> Height(c.parents[i]) < h
    decreases c
  {
    HeightOf(c, |c.parents|)
  }

  ghost function HeightOf(c: Commit, n: nat): (h: nat)
    requires n <= |c.parents|
    ensures forall i :: 0 <= i < n ==> Height(c.parents[i]) < h
    decreases c, 0, n
  {
    if n == 0 then 1
    else
      var h, rest := Height(c.parents[n - 1]), HeightOf(c, n - 1);
      if h < rest then rest else h + 1
  }

  lemma {:induction false} AncestorsAreLower(a: Commit, c: Commit)
    requires IsAncestor(a, c) && a != c
    ensures Height(a) < Height(c)
    decreases c
  {
    var i :| 0 <= i < |c.parents| && IsAncestor(a, c.parents[i]);
    if a != c.parents[i] {
      AncestorsAreLower(a, c.parents[i]);
    }
  }

  /** Two commits that reach each other are the same. */
  lemma AncestryIsAntisymmetric(a: Commit, b: Commit)
    requires IsAncestor(a, b) && IsAncestor(b, a)
    ensures a == b
  {
    if a != b {
      AncestorsAreLower(a, b);
      AncestorsAreLower(b, a);
    }
  }

  /** A branch pointer that was unborn, or points at a descendant of what it pointed at. */
  ghost predicate FastForward(before: Option<Commit>, after: Option<Commit>)
  {
    before.None? || (after.Some? && IsAncestor(before.value, after.value))
  }

  lemma FastForwardsCompose(a: Option<Commit>, b: Option<Commit>, c: Option<Commit>)
    requires FastForward(a, b) && FastForward(b, c)
    ensures FastForward(a, c)
  {
    if a.Some? {
      AncestorsCompose(a.value, b.value, c.value);
    }
  }
}
