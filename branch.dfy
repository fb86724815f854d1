/** walkBranch (cwalk.go): a directory's position in the walk as a parent
    link plus a basename, and the paths computed from it. */
module Branches {
  import opened Wrappers
  import opened Text

  /** A branch; the root of the walk is the one without a parent. */
  datatype Branch = Branch(parent: Option<Branch>, basename: string)

  /** The branch seeded by Run (`&walkBranch{}`). */
  const Root: Branch := Branch(None, "")

  /** The branch pushed for a sub-directory entry of `b`. */
  function Child(b: Branch, name: string): Branch
  {
    Branch(Some(b), name)
  }

  /** isRoot: the branch has no parent; any other branch is the child of its
      parent under its basename. */
  predicate IsRoot(b: Branch): (r: bool)
    ensures r <==> b.parent == None
    ensures !r ==> b == Child(b.parent.value, b.basename)
  {
    b.parent.None?
  }

  /** The root is exactly the branch that no branch has as a child. */
  lemma RootIsNoChild(b: Branch)
    ensures IsRoot(b) <==> forall p: Branch, n: string :: b != Child(p, n)
  {
    if !IsRoot(b) {
      assert b == Child(b.parent.value, b.basename);
    }
  }

  /** Number of parent links above the branch. */
  function Depth(b: Branch): nat
  {
    if IsRoot(b) then 0 else 1 + Depth(b.parent.value)
  }

  /** relPathElems: the basenames from the root's child down to the branch. */
  function RelPathElems(b: Branch): (elems: seq<string>)
    ensures |elems| == Depth(b)
    ensures IsRoot(b) <==> elems == []
    ensures !IsRoot(b) ==> elems == RelPathElems(b.parent.value) + [b.basename]
  {
    if IsRoot(b) then [] else RelPathElems(b.parent.value) + [b.basename]
  }

  /** relPath: the elements joined with '/'. The root's path is empty, a
      child of the root has its basename, and any deeper branch has its
      parent's path, '/', then its basename. */
  function RelPath(b: Branch): (p: string)
    ensures IsRoot(b) ==> p == ""
    ensures !IsRoot(b) && IsRoot(b.parent.value) ==> p == b.basename
    ensures !IsRoot(b) && !IsRoot(b.parent.value) ==> p == RelPath(b.parent.value) + "/" + b.basename
  {
    if !IsRoot(b) then JoinSnoc(RelPathElems(b.parent.value), b.basename, "/"); Join(RelPathElems(b), "/")
    else Join(RelPathElems(b), "/")
  }

  /** The relative path processBranch reports for entry `name` of branch `b`
      (the bare name at the root, otherwise the branch's path, '/', name). */
  function ChildRelPath(b: Branch, name: string): (p: string)
    ensures p == Join(RelPathElems(b) + [name], "/")
  {
    JoinSnoc(RelPathElems(b), name, "/");
    if IsRoot(b) then name else RelPath(b) + "/" + name
  }

  /** absPath: the root path itself for the root, otherwise the root path
      joined with every element of the relative path. */
  function AbsPath(b: Branch, rootPath: string): (p: string)
    ensures IsRoot(b) ==> p == rootPath
    ensures !IsRoot(b) ==> p == Join([rootPath] + RelPathElems(b), "/")
  {
    if IsRoot(b) then rootPath else rootPath + "/" + RelPath(b)
  }

  /** The root yields no elements and the empty relative path. */
  lemma RootHasEmptyPath()
    ensures IsRoot(Root) && RelPathElems(Root) == [] && RelPath(Root) == ""
  {
  }

  /** A child's elements are its parent's followed by its basename, so the
      path computed for an entry is exactly the relative path of the branch
      pushed for it. */
  lemma {:induction false} ChildRelPathIsRelPath(b: Branch, name: string)
    ensures RelPathElems(Child(b, name)) == RelPathElems(b) + [name]
    ensures RelPath(Child(b, name)) == ChildRelPath(b, name)
  {
    JoinSnoc(RelPathElems(b), name, "/");
  }

  /** Names taken from directory listings: non-empty and free of '/'. */
  predicate PlainNames(b: Branch)
  {
    !IsRoot(b) ==> b.basename != "" && '/' !in b.basename && PlainNames(b.parent.value)
  }

  /** The relative path of a non-root branch splits on '/' back into its
      elements: paths are '/'-joined and nothing else. */
  lemma {:induction false} RelPathSplitsIntoElems(b: Branch)
    requires !IsRoot(b) && PlainNames(b)
    ensures Split(RelPath(b), '/') == RelPathElems(b)
  {
    var elems := RelPathElems(b);
    forall i | 0 <= i < |elems| ensures '/' !in elems[i] {
      ElemsArePlain(b, i);
    }
    JoinThenSplit(elems, '/');
  }

  lemma {:induction false} ElemsArePlain(b: Branch, i: nat)
    requires PlainNames(b) && i < Depth(b)
    ensures '/' !in RelPathElems(b)[i]
    decreases Depth(b)
  {
    var p := b.parent.value;
    if i < Depth(p) {
      ElemsArePlain(p, i);
    }
  }

  /** `a` is `x` itself or one of its ancestors. */
  predicate Extends(x: Branch, a: Branch)
    decreases x
  {
    x == a || (!IsRoot(x) && Extends(x.parent.value, a))
  }

  /** The ancestor `k` parent links above `x`. */
  function Ancestor(x: Branch, k: nat): Branch
    requires k <= Depth(x)
  {
    if k == 0 then x else Ancestor(x.parent.value, k - 1)
  }

  /** An ancestor sits at a fixed height: the difference of the depths. */
  lemma {:induction false} ExtendsAtDepth(x: Branch, a: Branch)
    requires Extends(x, a)
    ensures Depth(a) <= Depth(x) && Ancestor(x, Depth(x) - Depth(a)) == a
    decreases x
  {
    if x != a {
      ExtendsAtDepth(x.parent.value, a);
    }
  }

  /** Two sibling branches have no common descendant unless their names agree. */
  lemma SiblingsDisjoint(x: Branch, b: Branch, n1: string, n2: string)
    requires Extends(x, Child(b, n1)) && Extends(x, Child(b, n2))
    ensures n1 == n2
  {
    ExtendsAtDepth(x, Child(b, n1));
    ExtendsAtDepth(x, Child(b, n2));
  }

  /** A branch is never a descendant of its own child. */
  lemma NotBelowOwnChild(b: Branch, n: string)
    ensures !Extends(b, Child(b, n))
  {
    if Extends(b, Child(b, n)) {
      ExtendsAtDepth(b, Child(b, n));
      assert false;
    }
  }
}
