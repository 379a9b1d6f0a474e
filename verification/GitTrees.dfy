/**
 Git tree objects, as internal/backup/tree.go reads them.

 A tree object is a map from entry name to node: git writes the entries in one canonical order,
 so a tree whose names are distinct is determined by that map, and two trees are equal exactly
 when their hashes are. A blob is its bytes.
 */
module GitTrees {
  import opened Common

  type Blob = string
  type Path = seq<string>

  datatype Mode = Regular | Executable | Symlink
  datatype Leaf = Leaf(mode: Mode, blob: Blob)
  datatype Node = File(leaf: Leaf) | Dir(children: map<string, Node>)
  type Tree = map<string, Node>

  /** The file at path p, if p names one. */
  function Lookup(t: Tree, p: Path): Option<Leaf>
    decreases |p|
  {
    if p == [] || p[0] !in t then None
    else match t[p[0]]
      case File(leaf) => if |p| == 1 then Some(leaf) else None
      case Dir(children) => Lookup(children, p[1..])
  }

  /** The content of the file at path p, if p names one. */
  function BlobAt(t: Tree, p: Path): Option<Blob>
  {
    match Lookup(t, p)
    case None => None
    case Some(leaf) => Some(leaf.blob)
  }

  /** The directory at path p, if p names one. The empty path names t itself. */
  function Subtree(t: Tree, p: Path): Option<Tree>
    decreases |p|
  {
    if p == [] then Some(t)
    else if p[0] in t && t[p[0]].Dir? then Subtree(t[p[0]].children, p[1..])
    else None
  }

  /** No directory below t is empty; git itself never writes one. */
  ghost predicate NoEmptyDirs(t: Tree)
  {
    forall p: Path :: p != [] && Subtree(t, p).Some? ==> Subtree(t, p).value != map[]
  }

  /** Every entry name reachable in t is accepted by valid. */
  ghost predicate NamesValid(t: Tree, valid: string -> bool)
  {
    forall p: Path :: Subtree(t, p).Some? ==> forall name :: name in Subtree(t, p).value ==> valid(name)
  }

  lemma {:induction false} SubtreeStep(t: Tree, p: Path, q: Path)
    ensures Subtree(t, p + q) == if Subtree(t, p).Some? then Subtree(Subtree(t, p).value, q) else None
    decreases |p|
  {
    if p == [] {
      assert p + q == q;
    } else {
      assert (p + q)[1..] == p[1..] + q;
      if p[0] in t && t[p[0]].Dir? {
        SubtreeStep(t[p[0]].children, p[1..], q);
      }
    }
  }

  /** Looking up p + q is looking up q in the directory at p. */
  lemma {:induction false} LookupBelow(t: Tree, p: Path, q: Path)
    requires q != []
    ensures Lookup(t, p + q) == if Subtree(t, p).Some? then Lookup(Subtree(t, p).value, q) else None
    decreases |p|
  {
    if p == [] {
      assert p + q == q;
    } else {
      assert (p + q)[1..] == p[1..] + q;
      if p[0] in t && t[p[0]].Dir? {
        LookupBelow(t[p[0]].children, p[1..], q);
      }
    }
  }

  /** The files of a tree never clash: no file lies below another file. */
  lemma {:induction false} FilesArePrefixFree(t: Tree, p: Path, q: Path)
    requires Lookup(t, p).Some? && q != []
    ensures Lookup(t, p + q) == None
    decreases |p|
  {
    assert (p + q)[1..] == p[1..] + q;
    if t[p[0]].Dir? {
      FilesArePrefixFree(t[p[0]].children, p[1..], q);
    }
  }

  /** A child directory inherits both well-formedness properties. */
  lemma ChildInherits(t: Tree, name: string, valid: string -> bool)
    requires name in t && t[name].Dir?
    ensures NoEmptyDirs(t) ==> NoEmptyDirs(t[name].children) && t[name].children != map[]
    ensures NamesValid(t, valid) ==> NamesValid(t[name].children, valid) && valid(name)
  {
    forall p: Path
      ensures Subtree(t[name].children, p) == Subtree(t, [name] + p)
    {
      assert ([name] + p)[1..] == p;
    }
    assert Subtree(t, [name]) == Subtree(t[name].children, []) by { assert [name] + [] == [name]; }
    assert Subtree(t, []) == Some(t);
  }

  /** A tree with an entry and no empty directory holds at least one file. */
  lemma {:induction false} NonEmptyTreeHasFile(n: Node, name: string, t: Tree) returns (p: Path)
    requires name in t && t[name] == n && NoEmptyDirs(t)
    ensures Lookup(t, p).Some?
    decreases n
  {
    match n {
      case File(_) => p := [name];
      case Dir(children) =>
        ChildInherits(t, name, _ => true);
        var child :| child in children;
        var q := NonEmptyTreeHasFile(children[child], child, children);
        p := [name] + q;
        assert p[1..] == q;
    }
  }

  /** subtreeAt: walks dirPath segment by segment; a missing or non-directory segment is "not present". */
  method SubtreeAt(t: Tree, dirPath: Path) returns (r: Option<Tree>)
    ensures r == Subtree(t, dirPath)
  {
    var current := t;
    for i := 0 to |dirPath|
      invariant Subtree(t, dirPath) == Subtree(current, dirPath[i..])
    {
      var seg := dirPath[i];
      assert dirPath[i..][1..] == dirPath[i + 1..];
      if seg !in current || current[seg].File? {
        return None;
      }
      current := current[seg].children;
    }
    r := Some(current);
  }

  /** out is acc with every file of t below prefix recorded; only entries in names count. */
  ghost predicate Flattened(t: Tree, names: set<string>, prefix: Path, acc: map<Path, Blob>, out: map<Path, Blob>)
  {
    forall p: Path :: Get(out, p) ==
      if prefix < p && p[|prefix|] in names && BlobAt(t, p[|prefix|..]).Some?
      then BlobAt(t, p[|prefix|..])
      else Get(acc, p)
  }

  /** Recording one directory entry extends the recorded files by that directory's. */
  lemma FlattenedDir(t: Tree, done: set<string>, name: string, prefix: Path,
                     acc: map<Path, Blob>, mid: map<Path, Blob>, out: map<Path, Blob>)
    requires name in t && t[name].Dir? && name !in done
    requires Flattened(t, done, prefix, acc, mid)
    requires Flattened(t[name].children, t[name].children.Keys, prefix + [name], mid, out)
    ensures Flattened(t, done + {name}, prefix, acc, out)
  {
    var children := t[name].children;
    var deep := prefix + [name];
    forall p: Path
      ensures Get(out, p) ==
        if prefix < p && p[|prefix|] in done + {name} && BlobAt(t, p[|prefix|..]).Some?
        then BlobAt(t, p[|prefix|..]) else Get(acc, p)
    {
      if prefix < p && p[|prefix|] == name {
        var rest := p[|prefix|..];
        assert rest[1..] == p[|deep|..];
        assert Lookup(t, rest) == Lookup(children, rest[1..]);
        assert deep <= p;
        if deep < p {
          assert p[|deep|] == rest[1..][0];
        } else {
          assert rest[1..] == [];
        }
      } else {
        assert deep[|prefix|] == name && deep[..|prefix|] == prefix;
        assert !(deep <= p);
      }
    }
  }

  lemma FlattenedFile(t: Tree, done: set<string>, name: string, prefix: Path,
                      acc: map<Path, Blob>, mid: map<Path, Blob>)
    requires name in t && t[name].File? && name !in done
    requires Flattened(t, done, prefix, acc, mid)
    ensures Flattened(t, done + {name}, prefix, acc, mid[prefix + [name] := t[name].leaf.blob])
  {
    var out := mid[prefix + [name] := t[name].leaf.blob];
    forall p: Path
      ensures Get(out, p) ==
        if prefix < p && p[|prefix|] in done + {name} && BlobAt(t, p[|prefix|..]).Some?
        then BlobAt(t, p[|prefix|..]) else Get(acc, p)
    {
      if prefix < p && p[|prefix|] == name {
        var rest := p[|prefix|..];
        if |rest| == 1 {
          assert p == prefix + [name];
        } else {
          assert Lookup(t, rest) == None;
          assert p != prefix + [name];
        }
      } else {
        assert p != prefix + [name];
      }
    }
  }

  /**
   flattenTree: records every file below t under prefix + its path. Entries are visited in some
   order; any invalid name anywhere makes the whole read fail.
   */
  method FlattenTree(t: Tree, valid: string -> bool, prefix: Path, acc: map<Path, Blob>)
      returns (ok: bool, out: map<Path, Blob>)
    ensures ok <==> NamesValid(t, valid)
    ensures ok ==> Flattened(t, t.Keys, prefix, acc, out)
    decreases Dir(t)
  {
    out := acc;
    var todo := t.Keys;
    assert forall p: Path :: Subtree(t, p).Some? && p != [] ==> p[0] in t && t[p[0]].Dir?;
    while todo != {}
      invariant todo <= t.Keys
      invariant forall name :: name in t && name !in todo ==>
                  valid(name) && (t[name].Dir? ==> NamesValid(t[name].children, valid))
      invariant Flattened(t, t.Keys - todo, prefix, acc, out)
    {
      var name :| name in todo;
      if !valid(name) {
        assert Subtree(t, []) == Some(t);
        return false, out;
      }
      ghost var done := t.Keys - todo;
      assert done + {name} == t.Keys - (todo - {name});
      match t[name] {
        case Dir(children) =>
          ghost var mid := out;
          var subOk;
          subOk, out := FlattenTree(children, valid, prefix + [name], out);
          if !subOk {
            if NamesValid(t, valid) { ChildInherits(t, name, valid); }
            return false, out;
          }
          FlattenedDir(t, done, name, prefix, acc, mid, out);
        case File(leaf) =>
          FlattenedFile(t, done, name, prefix, acc, out);
          out := out[prefix + [name] := leaf.blob];
      }
      todo := todo - {name};
    }
    forall p: Path | Subtree(t, p).Some?
      ensures forall name :: name in Subtree(t, p).value ==> valid(name)
    {
      if p != [] {
        assert t[p[0]].Dir? && Subtree(t, p) == Subtree(t[p[0]].children, p[1..]);
      }
    }
    assert t.Keys - todo == t.Keys;
    ok := true;
  }

  /** files is exactly the content of the directory dirPath of t, by path relative to it. */
  ghost predicate FilesOf(t: Tree, dirPath: Path, files: map<Path, Blob>)
  {
    forall p: Path :: Get(files, p) == if p == [] then None else BlobAt(t, dirPath + p)
  }

  /** filesUnder: the files below dirPath, read through subtreeAt and flattenTree. */
  method FilesUnder(t: Tree, valid: string -> bool, dirPath: Path) returns (ok: bool, files: map<Path, Blob>)
    ensures !ok <==> Subtree(t, dirPath).Some? && !NamesValid(Subtree(t, dirPath).value, valid)
    ensures ok ==> FilesOf(t, dirPath, files)
  {
    var sub := SubtreeAt(t, dirPath);
    files := map[];
    ok := true;
    if sub.Some? {
      ok, files := FlattenTree(sub.value, valid, [], files);
    }
    forall p: Path | ok
      ensures Get(files, p) == if p == [] then None else BlobAt(t, dirPath + p)
    {
      if p != [] {
        LookupBelow(t, dirPath, p);
        if sub.Some? {
          assert p[0..] == p;
        }
      }
    }
  }
}
