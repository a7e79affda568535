/**
 * An abstract filesystem: a tree of directories and files kept as a map from
 * paths (sequences of component names) to nodes. A file holds a JSON document.
 * The class `FileSystem` is the mutable disk the run store writes to; its two
 * methods stand for `create_dir_all` and for `File::create` followed by
 * `write_all` and `flush`.
 */
module Fs {
  import opened Wrappers
  import opened Json

  type Path = seq<string>

  datatype Node = Dir | File(data: Json)

  type Tree = map<Path, Node>

  /** Failure of a filesystem call, naming the path it failed on. */
  datatype IoError = IoError(path: Path)

  predicate IsDir(t: Tree, p: Path) {
    p in t && t[p].Dir?
  }

  /** The directory holding `p`. */
  function Parent(p: Path): (q: Path)
    requires p != []
    ensures q < p && |q| == |p| - 1
  {
    p[..|p| - 1]
  }

  /** A tree: the root directory exists, and everything else sits in an existing directory. */
  ghost predicate WellFormed(t: Tree) {
    && IsDir(t, [])
    && forall p: Path, c: string :: p + [c] in t ==> IsDir(t, p)
  }

  /** In a tree, the parent of an existing path is an existing directory. */
  lemma ParentIsDir(t: Tree, d: Path)
    requires WellFormed(t) && d in t && d != []
    ensures IsDir(t, Parent(d))
  {
    assert d == Parent(d) + [d[|d| - 1]];
  }

  /** In a tree, nothing lies below a path that does not exist. */
  lemma {:induction false} NoOrphans(t: Tree, q: Path, d: Path)
    requires WellFormed(t)
    requires q !in t && q <= d
    ensures d !in t
    decreases |d| - |q|
  {
    if d != q {
      assert |d| > |q|;
      assert q <= Parent(d);
      NoOrphans(t, q, Parent(d));
      if d in t {
        ParentIsDir(t, d);
      }
    }
  }

  /** In a tree, every proper prefix of an existing path is an existing directory. */
  lemma {:induction false} AncestorsAreDirs(t: Tree, p: Path, k: nat)
    requires WellFormed(t) && p in t
    requires k < |p|
    ensures IsDir(t, p[..k])
    decreases |p| - k
  {
    var up := Parent(p);
    ParentIsDir(t, p);
    if k < |up| {
      AncestorsAreDirs(t, up, k);
      assert up[..k] == p[..k];
    }
  }

  /** The prefixes of `p` of length below `k`. */
  function PrefixesBelow(p: Path, k: nat): set<Path> {
    set i | 0 <= i < k && i <= |p| :: p[..i]
  }

  /** Directories `create_dir_all(p)` has to create once it has looked at the first `k` prefixes. */
  function MissingDirs(t: Tree, p: Path, k: nat): (m: Tree)
    ensures forall q :: q in m ==> q !in t && m[q] == Dir
  {
    map q | q in PrefixesBelow(p, k) && q !in t :: Dir
  }

  /** No prefix of `p` of length below `k` is an existing file. */
  predicate NoFileBelow(t: Tree, p: Path, k: nat) {
    forall i :: 0 <= i < k && i <= |p| && p[..i] in t ==> t[p[..i]].Dir?
  }

  /** No prefix of `p` (`p` included) is an existing file. */
  predicate NoFileOnPath(t: Tree, p: Path) {
    NoFileBelow(t, p, |p| + 1)
  }

  /** Creating a directory inside an existing one creates that directory alone. */
  lemma CreateChildDir(t: Tree, p: Path)
    requires WellFormed(t) && p != []
    requires IsDir(t, Parent(p)) && p !in t
    ensures NoFileOnPath(t, p)
    ensures MissingDirs(t, p, |p| + 1) == map[p := Dir]
  {
    var up := Parent(p);
    forall i | 0 <= i < |p|
      ensures IsDir(t, p[..i])
    {
      if i < |up| {
        AncestorsAreDirs(t, up, i);
        assert up[..i] == p[..i];
      } else {
        assert p[..i] == up;
      }
    }
    assert p[..|p|] == p;
    var m := MissingDirs(t, p, |p| + 1);
    forall q | q in m
      ensures q == p
    {
      var i :| 0 <= i < |p| + 1 && i <= |p| && q == p[..i];
    }
    assert p in PrefixesBelow(p, |p| + 1);
  }

  /** Looking at one more prefix adds it to the missing directories exactly when it is absent. */
  lemma MissingDirsStep(t: Tree, p: Path, k: nat)
    requires k <= |p|
    ensures p[..k] in t ==> MissingDirs(t, p, k + 1) == MissingDirs(t, p, k)
    ensures p[..k] !in t ==> MissingDirs(t, p, k + 1) == MissingDirs(t, p, k)[p[..k] := Dir]
  {
    assert PrefixesBelow(p, k + 1) == PrefixesBelow(p, k) + {p[..k]};
  }

  /** The missing directories seen so far are all shorter than `k`. */
  lemma MissingDirsShorter(t: Tree, p: Path, k: nat, q: Path)
    requires q in MissingDirs(t, p, k)
    ensures |q| < k
  {
  }

  /** Adding a directory inside an existing directory keeps a tree a tree. */
  lemma AddDirKeepsWellFormed(t: Tree, q: Path)
    requires WellFormed(t) && q != [] && IsDir(t, Parent(q))
    ensures WellFormed(t[q := Dir])
  {
    var t' := t[q := Dir];
    forall p: Path, c: string | p + [c] in t'
      ensures IsDir(t', p)
    {
      if p + [c] == q {
        assert p == Parent(q);
      } else {
        assert IsDir(t, p);
      }
    }
  }

  /** Writing a file into an existing directory, where no directory of that name exists, keeps a tree a tree. */
  lemma AddFileKeepsWellFormed(t: Tree, q: Path, data: Json)
    requires WellFormed(t) && q != [] && IsDir(t, Parent(q)) && !IsDir(t, q)
    ensures WellFormed(t[q := File(data)])
  {
    var t' := t[q := File(data)];
    forall p: Path, c: string | p + [c] in t'
      ensures IsDir(t', p)
    {
      if p + [c] == q {
        assert p == Parent(q);
      } else {
        assert IsDir(t, p);
      }
    }
  }

  /**
   * One step of `create_dir_all`: after the first `k` prefixes, the next prefix either
   * exists and nothing has been created yet, or it is missing and its parent is a directory.
   */
  lemma CreateStep(t0: Tree, t: Tree, p: Path, k: nat)
    requires k <= |p| && WellFormed(t0)
    requires NoFileBelow(t0, p, k)
    requires t == t0 + MissingDirs(t0, p, k)
    requires t != t0 ==> k > 0 && p[..k - 1] !in t0
    ensures p[..k] in t ==> t == t0
    ensures p[..k] !in t ==> p[..k] !in t0 && k > 0 && IsDir(t, Parent(p[..k]))
  {
    var q := p[..k];
    if t != t0 {
      assert p[..k - 1] <= q;
      NoOrphans(t0, p[..k - 1], q);
      if q in MissingDirs(t0, p, k) {
        MissingDirsShorter(t0, p, k, q);
      }
    }
    if q !in t {
      assert [] in t0 && p[..0] == [];
      assert Parent(q) == p[..k - 1] && p[..k - 1] in PrefixesBelow(p, k);
    }
  }

  /** Names of the entries directly in `dir`: what `read_dir(dir)` lists. */
  function ChildNames(t: Tree, dir: Path): set<string> {
    set p | p in t && |p| == |dir| + 1 && dir <= p :: p[|dir|]
  }

  /** Names of the subdirectories of `dir`. */
  function SubdirNames(t: Tree, dir: Path): set<string> {
    set p | p in t && |p| == |dir| + 1 && dir <= p && t[p].Dir? :: p[|dir|]
  }

  /** Names of the files directly in `dir`. */
  function FileNames(t: Tree, dir: Path): set<string> {
    set p | p in t && |p| == |dir| + 1 && dir <= p && t[p].File? :: p[|dir|]
  }

  lemma ChildNamesMember(t: Tree, dir: Path, name: string)
    ensures name in ChildNames(t, dir) <==> dir + [name] in t
  {
    if name in ChildNames(t, dir) {
      var p :| p in t && |p| == |dir| + 1 && dir <= p && p[|dir|] == name;
      assert p == dir + [name];
    }
    assert (dir + [name])[|dir|] == name;
  }

  lemma SubdirNamesMember(t: Tree, dir: Path, name: string)
    ensures name in SubdirNames(t, dir) <==> IsDir(t, dir + [name])
  {
    if name in SubdirNames(t, dir) {
      var p :| p in t && |p| == |dir| + 1 && dir <= p && t[p].Dir? && p[|dir|] == name;
      assert p == dir + [name];
    }
    assert (dir + [name])[|dir|] == name;
  }

  class FileSystem {
    var tree: Tree

    ghost predicate Valid()
      reads this
    {
      WellFormed(tree)
    }

    /** An empty disk: the root directory alone. */
    constructor ()
      ensures Valid() && tree == map[[] := Dir]
    {
      tree := map[[] := Dir];
    }

    /**
     * `create_dir_all(p)`: creates every missing directory on the way to `p`.
     * It fails, changing nothing, when some prefix of `p` is a file; a path that is
     * already a directory is not an error.
     */
    method CreateDirAll(p: Path) returns (r: Outcome<IoError>)
      requires Valid()
      modifies this
      ensures Valid()
      ensures r.Pass? <==> NoFileOnPath(old(tree), p)
      ensures r.Pass? ==> tree == old(tree) + MissingDirs(old(tree), p, |p| + 1)
      ensures r.Fail? ==> tree == old(tree)
    {
      r := Pass;
      ghost var t0 := tree;
      var k := 0;
      while k <= |p|
        invariant 0 <= k <= |p| + 1
        invariant WellFormed(tree)
        invariant NoFileBelow(t0, p, k)
        invariant tree == t0 + MissingDirs(t0, p, k)
        invariant tree != t0 ==> k > 0 && p[..k - 1] !in t0
      {
        var q := p[..k];
        CreateStep(t0, tree, p, k);
        if q in tree && tree[q].File? {
          return Fail(IoError(q));
        }
        MissingDirsStep(t0, p, k);
        if q !in tree {
          AddDirKeepsWellFormed(tree, q);
          tree := tree[q := Dir];
        }
        k := k + 1;
      }
    }

    /**
     * `File::create(p)` followed by `write_all` and `flush`: creates or truncates the
     * file `p` and stores `data` in it. It fails, changing nothing, when `p` has no
     * parent directory or is itself a directory.
     */
    method WriteFile(p: Path, data: Json) returns (r: Outcome<IoError>)
      requires Valid()
      modifies this
      ensures Valid()
      ensures r.Pass? <==> p != [] && IsDir(old(tree), Parent(p)) && !IsDir(old(tree), p)
      ensures r.Pass? ==> tree == old(tree)[p := File(data)]
      ensures r.Fail? ==> tree == old(tree)
    {
      if p == [] || !IsDir(tree, Parent(p)) || IsDir(tree, p) {
        return Fail(IoError(p));
      }
      AddFileKeepsWellFormed(tree, p, data);
      tree := tree[p := File(data)];
      r := Pass;
    }
  }
}
