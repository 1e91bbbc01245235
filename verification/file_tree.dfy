/** File trees of build contexts: relative paths as segment lists, entries by path. */
module FileTree {

  type Path = seq<string>

  datatype Entry =
    | File(bytes: string, mode: nat)
    | Link(target: string)
    | Directory
    | Special

  type Tree = map<Path, Entry>

  /** Every entry but those at the top stands in a real directory. */
  ghost predicate WellFormed(tree: Tree) {
    forall p :: p in tree ==> |p| > 0 && (|p| > 1 ==> IsDirectory(tree, p[..|p| - 1]))
  }

  predicate IsDirectory(tree: Tree, p: Path) {
    p in tree && tree[p].Directory?
  }

  predicate IsFile(tree: Tree, p: Path) {
    p in tree && tree[p].File?
  }

  predicate Beneath(q: Path, p: Path) {
    |p| < |q| && q[..|p|] == p
  }

  /** What a container sees of a context besides its directories. */
  function Contents(tree: Tree): Tree {
    map p | p in tree && !tree[p].Directory? :: tree[p]
  }

  function Without(tree: Tree, paths: set<Path>): Tree {
    map p | p in tree && p !in paths :: tree[p]
  }

  lemma BeneathTransitive(r: Path, q: Path, p: Path)
    requires Beneath(r, q) && Beneath(q, p)
    ensures Beneath(r, p)
  {
    assert r[..|p|] == r[..|q|][..|p|];
  }

  /** In a well-formed tree every proper prefix of an entry is a directory. */
  lemma {:induction false} AncestorsAreDirectories(tree: Tree, q: Path, k: nat)
    requires WellFormed(tree) && q in tree && 0 < k < |q|
    ensures IsDirectory(tree, q[..k])
    decreases |q| - k
  {
    if k < |q| - 1 {
      AncestorsAreDirectories(tree, q, k + 1);
      assert q[..k + 1][..k] == q[..k];
    }
  }
}
