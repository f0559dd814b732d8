/**
 * `buildFileTree` of components/dashboard/repo-manager.tsx: a flat recursive
 * tree listing becomes a forest of nodes. The first pass indexes one node per
 * path; the second attaches every entry to the node at its parent path (or to
 * the roots when that parent is the empty string) and drops it silently when
 * no such node exists; finally every level is sorted, directories first, then
 * by name.
 *
 * The two passes are modelled by `Index` (the cache) and by `Level`, which
 * collects, in input order, the cached node of every entry whose parent path is
 * `p` and then sorts them. The node at path `p` has `Level(es, p)` as its
 * children, except the node at the empty path, whose would-be children all go
 * to the roots instead.
 */
module FileTree {
  import opened Basics
  import opened Paths

  /** The `type` of a listing entry; submodule (`commit`) entries are not modelled. */
  datatype Kind = Blob | Tree

  /** One entry of the tree listing. */
  datatype Entry = Entry(path: string, kind: Kind, sha: string, url: string)

  /** `FileNode`: the entry's fields, its name and its children. */
  datatype Node = Node(path: string, kind: Kind, sha: string, url: string, name: string, children: seq<Node>)

  function PathSet(es: seq<Entry>): set<string> {
    set e | e in es :: e.path
  }

  /** True of the entries whose path is `q`. */
  function HasPath(q: string): Entry -> bool {
    (e: Entry) => e.path == q
  }

  /** True of the entries whose parent path is `p`. */
  function ChildOf(p: string): Entry -> bool {
    (e: Entry) => Parent(e.path) == p
  }

  predicate DistinctPaths(es: seq<Entry>) {
    forall i, j :: 0 <= i < j < |es| ==> es[i].path != es[j].path
  }

  /**
   * First pass: the cache from path to entry. Entries are stored in input
   * order, so when two entries share a path the later one is kept.
   */
  function Index(es: seq<Entry>): (m: map<string, Entry>)
    ensures m.Keys == PathSet(es)
    ensures forall q :: q in m ==> m[q] in es && m[q].path == q
    ensures |es| > 0 ==> m[es[|es| - 1].path] == es[|es| - 1]
  {
    if es == [] then map[]
    else
      var init, last := es[..|es| - 1], es[|es| - 1];
      assert es == init + [last];
      PathSetSnoc(init, last);
      var m := Index(init);
      assert forall q :: q in m ==> m[q] in es;
      m[last.path := last]
  }

  lemma PathSetSnoc(init: seq<Entry>, last: Entry)
    ensures PathSet(init + [last]) == PathSet(init) + {last.path}
  {
    var es := init + [last];
    forall q | q in PathSet(es) ensures q in PathSet(init) + {last.path} {
      var e :| e in es && e.path == q;
      if e != last {
        assert e in init;
      }
    }
    forall q | q in PathSet(init) ensures q in PathSet(es) {
      var e :| e in init && e.path == q;
      assert e in es;
    }
    assert last in es;
  }

  /** The longest path of the listing; every path is at most this long. */
  function MaxLen(es: seq<Entry>): (n: nat)
    ensures forall i :: 0 <= i < |es| ==> |es[i].path| <= n
  {
    if es == [] then 0
    else
      var rest := MaxLen(es[1..]);
      if |es[0].path| > rest then |es[0].path| else rest
  }

  lemma PathBounded(es: seq<Entry>, q: string)
    requires q in PathSet(es)
    ensures |q| <= MaxLen(es)
  {
    var e :| e in es && e.path == q;
    var i :| 0 <= i < |es| && es[i] == e;
  }

  /** The entries whose parent path is `p`, in input order. */
  function ChildEntries(es: seq<Entry>, p: string): (kids: seq<Entry>)
    ensures |kids| <= |es|
    ensures forall k :: k in kids ==> k in es && Parent(k.path) == p
    ensures forall k :: k in es && Parent(k.path) == p ==> k in kids
  {
    var kids := Filter(es, ChildOf(p));
    FilterSubset(es, ChildOf(p));
    FilterComplete(es, ChildOf(p));
    assert forall i :: 0 <= i < |kids| ==> kids[i] in es && Parent(kids[i].path) == p;
    assert forall i :: 0 <= i < |es| && Parent(es[i].path) == p ==> es[i] in kids;
    kids
  }

  /** The cached node for path `q`, with its children attached and sorted. */
  function NodeAt(es: seq<Entry>, q: string): Node
    requires q in PathSet(es)
    decreases MaxLen(es) - |q|, 1, 0
  {
    PathBounded(es, q);
    var e := Index(es)[q];
    Node(q, e.kind, e.sha, e.url, BaseName(q), if q == "" then [] else Level(es, q))
  }

  /** Second pass and sort for one level: the sorted nodes of the entries whose parent path is `p`. */
  function Level(es: seq<Entry>, p: string): seq<Node>
    requires p == "" || p in PathSet(es)
    decreases MaxLen(es) - |p| + (if p == "" then 1 else 0), 0, |es| + 1
  {
    assert p == "" || |p| <= MaxLen(es) by {
      if p != "" { PathBounded(es, p); }
    }
    SortNodes(Nodes(es, p, ChildEntries(es, p)))
  }

  /** The cached nodes of `kids`, in the order of `kids`. */
  function Nodes(es: seq<Entry>, p: string, kids: seq<Entry>): seq<Node>
    requires p == "" || p in PathSet(es)
    requires forall k :: k in kids ==> k in es && Parent(k.path) == p
    decreases MaxLen(es) - |p| + (if p == "" then 1 else 0), 0, |kids|
  {
    if kids == [] then []
    else
      assert kids[0] in kids;
      assert p == "" || |p| <= MaxLen(es) by {
        if p != "" { PathBounded(es, p); }
      }
      PathBounded(es, kids[0].path);
      assert Parent(kids[0].path) == p;
      assert p == "" || |p| < |kids[0].path|;
      [NodeAt(es, kids[0].path)] + Nodes(es, p, kids[1..])
  }

  /** `buildFileTree`: the sorted roots, i.e. the level of the empty parent path. */
  function BuildFileTree(es: seq<Entry>): (roots: seq<Node>)
    ensures es == [] ==> roots == []
  {
    Level(es, "")
  }

  // ---------------------------------------------------------------------------
  // Sorting (`sortNodes`): trees before blobs, then by name, stable.
  // ---------------------------------------------------------------------------

  /** The comparator of `sortNodes`, as "a may stay before b". */
  predicate NodeLe(a: Node, b: Node) {
    if a.kind == b.kind then NameLe(a.name, b.name) else a.kind == Tree
  }

  predicate Sorted(ns: seq<Node>) {
    forall i, j :: 0 <= i < j < |ns| ==> NodeLe(ns[i], ns[j])
  }

  lemma NodeLeTotal(a: Node, b: Node)
    ensures NodeLe(a, b) || NodeLe(b, a)
  {
    NameLeTotal(a.name, b.name);
  }

  lemma NodeLeTransitive(a: Node, b: Node, c: Node)
    requires NodeLe(a, b) && NodeLe(b, c)
    ensures NodeLe(a, c)
  {
    if a.kind == b.kind == c.kind {
      NameLeTransitive(a.name, b.name, c.name);
    }
  }

  /** Inserts `x` before the first element it may precede. */
  function Insert(x: Node, ns: seq<Node>): (r: seq<Node>)
    ensures multiset(r) == multiset(ns) + multiset{x}
  {
    if ns == [] then [x]
    else if NodeLe(x, ns[0]) then [x] + ns
    else
      assert ns == [ns[0]] + ns[1..];
      [ns[0]] + Insert(x, ns[1..])
  }

  /** Inserting into a sorted level keeps it sorted. */
  lemma {:induction false} InsertSorted(x: Node, ns: seq<Node>)
    requires Sorted(ns)
    ensures Sorted(Insert(x, ns))
  {
    if ns == [] {
    } else if NodeLe(x, ns[0]) {
      forall j | 0 <= j < |ns| ensures NodeLe(x, ns[j]) {
        if j > 0 { NodeLeTransitive(x, ns[0], ns[j]); }
      }
    } else {
      var rest := Insert(x, ns[1..]);
      InsertSorted(x, ns[1..]);
      NodeLeTotal(x, ns[0]);
      forall y | y in rest ensures NodeLe(ns[0], y) {
        assert y in multiset(rest);
        if y != x {
          assert y in multiset(ns[1..]);
          var j :| 0 <= j < |ns[1..]| && ns[1..][j] == y;
          assert ns[j + 1] == y;
        }
      }
    }
  }

  /** `sortNodes` on one level: a stable insertion sort by `NodeLe`. */
  function SortNodes(ns: seq<Node>): (r: seq<Node>)
    ensures multiset(r) == multiset(ns)
    ensures Sorted(r)
  {
    if ns == [] then []
    else
      assert ns == [ns[0]] + ns[1..];
      InsertSorted(ns[0], SortNodes(ns[1..]));
      Insert(ns[0], SortNodes(ns[1..]))
  }

  // ---------------------------------------------------------------------------
  // Shape of the result.
  // ---------------------------------------------------------------------------

  /**
   * A well-formed subtree over the listed `paths`: the node's path is listed,
   * its name is the last segment of its path, its children are sorted, each
   * child's parent path is this node's path, and so on all the way down.
   */
  ghost predicate Shaped(n: Node, paths: set<string>)
    decreases n
  {
    && n.path in paths
    && n.name == BaseName(n.path)
    && (n.path == "" ==> n.children == [])
    && Sorted(n.children)
    && forall c :: c in n.children ==> Parent(c.path) == n.path && Shaped(c, paths)
  }

  /** A well-formed forest: sorted roots, each at the empty parent path and well formed. */
  ghost predicate Forest(roots: seq<Node>, paths: set<string>) {
    && Sorted(roots)
    && forall r :: r in roots ==> Parent(r.path) == "" && Shaped(r, paths)
  }

  lemma {:induction false} NodeAtShaped(es: seq<Entry>, q: string)
    requires q in PathSet(es)
    ensures Shaped(NodeAt(es, q), PathSet(es))
    decreases MaxLen(es) - |q|, 1, 0
  {
    PathBounded(es, q);
    if q != "" {
      LevelMembers(es, q);
    }
  }

  /**
   * The nodes of level `p` are exactly the cached nodes of the entries whose
   * parent path is `p`, each well formed, and the level is sorted.
   */
  lemma {:induction false} LevelMembers(es: seq<Entry>, p: string)
    requires p == "" || p in PathSet(es)
    ensures Sorted(Level(es, p))
    ensures forall n :: n in Level(es, p) ==>
      n.path in PathSet(es) && Parent(n.path) == p && n == NodeAt(es, n.path) && Shaped(n, PathSet(es))
    ensures forall e :: e in es && Parent(e.path) == p ==> NodeAt(es, e.path) in Level(es, p)
    decreases MaxLen(es) - |p| + (if p == "" then 1 else 0), 0, |es| + 1
  {
    if p != "" { PathBounded(es, p); }
    var kids := ChildEntries(es, p);
    var unsorted := Nodes(es, p, kids);
    NodesMembers(es, p, kids);
    forall n | n in Level(es, p)
      ensures n.path in PathSet(es) && Parent(n.path) == p && n == NodeAt(es, n.path) && Shaped(n, PathSet(es))
    {
      assert n in multiset(unsorted);
    }
    forall e | e in es && Parent(e.path) == p ensures NodeAt(es, e.path) in Level(es, p) {
      assert NodeAt(es, e.path) in multiset(unsorted);
    }
  }

  lemma {:induction false} NodesMembers(es: seq<Entry>, p: string, kids: seq<Entry>)
    requires p == "" || p in PathSet(es)
    requires forall k :: k in kids ==> k in es && Parent(k.path) == p
    ensures forall n :: n in Nodes(es, p, kids) ==>
      n.path in PathSet(es) && Parent(n.path) == p && n == NodeAt(es, n.path) && Shaped(n, PathSet(es))
    ensures forall k :: k in kids ==> NodeAt(es, k.path) in Nodes(es, p, kids)
    decreases MaxLen(es) - |p| + (if p == "" then 1 else 0), 0, |kids|
  {
    if kids != [] {
      assert kids[0] in kids;
      if p != "" { PathBounded(es, p); }
      PathBounded(es, kids[0].path);
      NodeAtShaped(es, kids[0].path);
      NodesMembers(es, p, kids[1..]);
      forall k | k in kids ensures NodeAt(es, k.path) in Nodes(es, p, kids) {
        if k != kids[0] {
          assert k in kids[1..];
        }
      }
    }
  }

  /**
   * The result is a well-formed forest: every node keeps its entry's path and
   * is named after its last segment, every level lists trees before blobs and
   * same-kind nodes by name, and every child sits under its parent path.
   */
  lemma BuildFileTreeShaped(es: seq<Entry>)
    ensures Forest(BuildFileTree(es), PathSet(es))
  {
    LevelMembers(es, "");
  }

  /** A child's path is its parent's path, a slash and the child's name. */
  lemma ChildPath(n: Node, c: Node, paths: set<string>)
    requires Shaped(n, paths) && c in n.children
    ensures c.path == n.path + "/" + c.name
  {
    assert Shaped(c, paths);
    ParentJoin(c.path);
  }

  /** An entry is a root exactly when its parent path is empty (its path has no `/`, or only a leading one). */
  lemma RootIff(es: seq<Entry>, e: Entry)
    requires e in es
    ensures NodeAt(es, e.path) in BuildFileTree(es) <==> Parent(e.path) == ""
  {
    LevelMembers(es, "");
  }

  /**
   * The node of `c` is a child of the node of `e` exactly when `c`'s parent
   * path is `e`'s path, wherever the two entries sit in the input.
   */
  lemma ChildIff(es: seq<Entry>, e: Entry, c: Entry)
    requires e in es && c in es && e.path != ""
    ensures NodeAt(es, c.path) in NodeAt(es, e.path).children <==> Parent(c.path) == e.path
  {
    LevelMembers(es, e.path);
  }

  // ---------------------------------------------------------------------------
  // Orphans are dropped.
  // ---------------------------------------------------------------------------

  ghost function SubtreePaths(n: Node): set<string>
    decreases n
  {
    {n.path} + ForestPaths(n.children)
  }

  ghost function ForestPaths(ns: seq<Node>): set<string>
    decreases ns
  {
    if ns == [] then {} else SubtreePaths(ns[0]) + ForestPaths(ns[1..])
  }

  lemma {:induction false} ForestPathsMember(ns: seq<Node>, x: string)
    requires x in ForestPaths(ns)
    ensures exists n :: n in ns && x in SubtreePaths(n)
    decreases ns
  {
    if x !in SubtreePaths(ns[0]) {
      ForestPathsMember(ns[1..], x);
      var n :| n in ns[1..] && x in SubtreePaths(n);
      assert n in ns;
    }
  }

  /** Below the top of a well-formed subtree, every path's parent is a listed, non-empty path. */
  lemma {:induction false} ShapedPaths(n: Node, paths: set<string>, x: string)
    requires Shaped(n, paths) && x in SubtreePaths(n)
    ensures x in paths
    ensures x == n.path || (Parent(x) != "" && Parent(x) in paths)
    decreases n
  {
    if x != n.path {
      ForestPathsMember(n.children, x);
      var c :| c in n.children && x in SubtreePaths(c);
      ShapedPaths(c, paths, x);
    }
  }

  /**
   * Every path in the built forest is listed, and its parent path is either
   * empty (a root) or itself listed.
   */
  lemma ForestPathsAnchored(es: seq<Entry>, x: string)
    requires x in ForestPaths(BuildFileTree(es))
    ensures x in PathSet(es)
    ensures Parent(x) == "" || Parent(x) in PathSet(es)
  {
    BuildFileTreeShaped(es);
    ForestPathsMember(BuildFileTree(es), x);
    var r :| r in BuildFileTree(es) && x in SubtreePaths(r);
    ShapedPaths(r, PathSet(es), x);
  }

  /**
   * An entry whose parent path is neither empty nor listed appears nowhere in
   * the result: not among the roots and not below any node.
   */
  lemma OrphanDropped(es: seq<Entry>, e: Entry)
    requires e in es && Parent(e.path) != "" && Parent(e.path) !in PathSet(es)
    ensures e.path !in ForestPaths(BuildFileTree(es))
  {
    if e.path in ForestPaths(BuildFileTree(es)) {
      ForestPathsAnchored(es, e.path);
    }
  }

  // ---------------------------------------------------------------------------
  // With distinct paths every node occurs once on its level.
  // ---------------------------------------------------------------------------

  lemma {:induction false} NodesCount(es: seq<Entry>, p: string, kids: seq<Entry>, q: string)
    requires p == "" || p in PathSet(es)
    requires forall k :: k in kids ==> k in es && Parent(k.path) == p
    requires q in PathSet(es)
    ensures multiset(Nodes(es, p, kids))[NodeAt(es, q)] == Count(kids, HasPath(q))
    decreases |kids|
  {
    if kids != [] {
      assert kids[0] in kids;
      NodesCount(es, p, kids[1..], q);
      assert NodeAt(es, kids[0].path).path == kids[0].path;
    }
  }

  lemma {:induction false} ChildCount(es: seq<Entry>, p: string, q: string)
    ensures Count(Filter(es, ChildOf(p)), HasPath(q)) == if Parent(q) == p then Count(es, HasPath(q)) else 0
  {
    if es != [] {
      ChildCount(es[1..], p, q);
      var tail := Filter(es[1..], ChildOf(p));
      assert Count(es, HasPath(q)) == (if es[0].path == q then 1 else 0) + Count(es[1..], HasPath(q));
      if Parent(es[0].path) == p {
        var f := [es[0]] + tail;
        assert Filter(es, ChildOf(p)) == f;
        assert f[0] == es[0] && f[1..] == tail;
        assert Count(f, HasPath(q)) == (if es[0].path == q then 1 else 0) + Count(tail, HasPath(q));
      } else {
        assert Filter(es, ChildOf(p)) == tail;
        assert es[0].path == q ==> Parent(q) != p;
      }
    }
  }

  lemma {:induction false} DistinctCount(es: seq<Entry>, e: Entry)
    requires DistinctPaths(es) && e in es
    ensures Count(es, HasPath(e.path)) == 1
  {
    if es[0] == e {
      assert forall i :: 0 <= i < |es[1..]| ==> es[1..][i] == es[i + 1];
      assert Count(es[1..], HasPath(e.path)) == 0;
    } else {
      assert e in es[1..];
      assert DistinctPaths(es[1..]) by {
        forall i, j | 0 <= i < j < |es[1..]| ensures es[1..][i].path != es[1..][j].path {
          assert es[1..][i] == es[i + 1] && es[1..][j] == es[j + 1];
        }
      }
      DistinctCount(es[1..], e);
      var k :| 0 <= k < |es| && es[k] == e;
      assert es[0].path != es[k].path;
    }
  }

  /**
   * With distinct input paths, each entry's node occurs exactly once on the
   * level of its parent path and on no other level.
   */
  lemma LevelOnce(es: seq<Entry>, p: string, e: Entry)
    requires DistinctPaths(es) && e in es
    requires p == "" || p in PathSet(es)
    ensures multiset(Level(es, p))[NodeAt(es, e.path)] == if Parent(e.path) == p then 1 else 0
  {
    var kids := ChildEntries(es, p);
    NodesCount(es, p, kids, e.path);
    ChildCount(es, p, e.path);
    DistinctCount(es, e);
  }

  // ---------------------------------------------------------------------------
  // Duplicate paths.
  // ---------------------------------------------------------------------------

  /** With distinct paths, the cache holds each entry under its own path. */
  lemma IndexDistinct(es: seq<Entry>, e: Entry)
    requires DistinctPaths(es) && e in es
    ensures e.path in Index(es) && Index(es)[e.path] == e
  {
    var m := Index(es);
    assert e.path in PathSet(es);
    var i :| 0 <= i < |es| && es[i] == e;
    var j :| 0 <= j < |es| && es[j] == m[e.path];
  }

  /**
   * When paths repeat, the cache holds the last entry listed under each path:
   * an entry no later entry shares its path with is the one kept.
   */
  lemma {:induction false} IndexLastWins(es: seq<Entry>, i: nat)
    requires i < |es|
    requires forall j :: i < j < |es| ==> es[j].path != es[i].path
    ensures es[i].path in Index(es) && Index(es)[es[i].path] == es[i]
  {
    if i < |es| - 1 {
      var init := es[..|es| - 1];
      assert init[i] == es[i];
      IndexLastWins(init, i);
    }
  }
}
