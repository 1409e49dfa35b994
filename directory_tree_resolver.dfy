/**
 * DirectoryTreeResolver: builds a tree of InMemoryDirectoryInfo nodes from
 * separator-delimited path strings. Every ancestor of a requested path is
 * created on demand, each full path is created exactly once and handed back
 * as the same instance afterwards, a new node is linked into its parent's
 * directory list (or into the root list when it has no parent), and every node
 * carries the resolver's baseline timestamp.
 */
module DirectoryTree {
  import opened Wrappers
  import opened Paths
  import opened FileSystem
  import opened InMemory

  // ---------------------------------------------------------------------------
  // Paths as the resolver sees them

  /** A non-empty path none of whose segments is empty. */
  predicate WellFormedPath(p: string, seps: set<char>)
    decreases |p|
  {
    && p != []
    && LastSegment(p, seps) != []
    && match DirectoryPart(p, seps)
       case None => true
       case Some(q) => WellFormedPath(q, seps)
  }

  /** The path and every proper prefix of it that ends at a segment boundary. */
  function Ancestors(p: string, seps: set<char>): set<string>
    decreases |p|
  {
    {p} + match DirectoryPart(p, seps)
          case None => {}
          case Some(q) => Ancestors(q, seps)
  }

  /** The outermost ancestor: the text before the first separator. */
  function FirstSegment(p: string, seps: set<char>): string
    decreases |p|
  {
    match DirectoryPart(p, seps)
    case None => p
    case Some(q) => FirstSegment(q, seps)
  }

  predicate NoDuplicates<T(==)>(s: seq<T>) {
    forall i, j | 0 <= i < j < |s| :: s[i] != s[j]
  }

  /**
   * Every ancestor of `p` is a well-formed prefix of it, no longer than `p`, whose
   * own ancestors are ancestors of `p`; the one without a parent is the first segment.
   */
  lemma {:induction false} AncestorFacts(p: string, a: string, seps: set<char>)
    requires a in Ancestors(p, seps)
    ensures |a| <= |p| && a == p[..|a|]
    ensures WellFormedPath(p, seps) ==> WellFormedPath(a, seps)
    ensures Ancestors(a, seps) <= Ancestors(p, seps)
    ensures DirectoryPart(a, seps).None? ==> a == FirstSegment(p, seps)
    decreases |p|
  {
    if a != p {
      DirectoryPartAndLastSegment(p, seps);
      var q := DirectoryPart(p, seps).value;
      AncestorFacts(q, a, seps);
      assert p[..|q|] == q;
      assert p[..|a|] == q[..|a|];
    }
  }

  /** The first segment is an ancestor without a parent. */
  lemma {:induction false} FirstSegmentIsRootAncestor(p: string, seps: set<char>)
    ensures FirstSegment(p, seps) in Ancestors(p, seps)
    ensures DirectoryPart(FirstSegment(p, seps), seps).None?
    decreases |p|
  {
    match DirectoryPart(p, seps)
    case None =>
    case Some(q) => FirstSegmentIsRootAncestor(q, seps);
  }

  /** Along one path each ancestor has at most one child among the other ancestors. */
  lemma {:induction false} AncestorChildUnique(p: string, c1: string, c2: string, seps: set<char>)
    requires c1 in Ancestors(p, seps) && c2 in Ancestors(p, seps)
    requires DirectoryPart(c1, seps).Some? && DirectoryPart(c1, seps) == DirectoryPart(c2, seps)
    ensures c1 == c2
    decreases |p|
  {
    match DirectoryPart(p, seps)
    case None =>
    case Some(q) =>
      if c1 != p && c2 != p {
        AncestorChildUnique(q, c1, c2, seps);
      } else if c1 != p {
        AncestorFacts(q, c1, seps);
      } else if c2 != p {
        AncestorFacts(q, c2, seps);
      }
  }

  /** No ancestor of a path has the path itself as its parent. */
  lemma AncestorNotBelow(p: string, c: string, seps: set<char>)
    requires c in Ancestors(p, seps)
    ensures DirectoryPart(c, seps) != Some(p)
  {
    AncestorFacts(p, c, seps);
  }

  /** A sequence that repeats one value is duplicate-free exactly when it is at most one long. */
  lemma RepeatedValue<T>(s: seq<T>, x: T)
    requires forall i | 0 <= i < |s| :: s[i] == x
    ensures NoDuplicates(s) <==> |s| <= 1
  {
    if |s| >= 2 {
      assert s[0] == s[1];
    }
  }

  /**
   * The Name of a resolved directory is the last segment of its path, provided
   * the resolver's separators are file-name separators and the segment holds no
   * other file-name separator.
   */
  lemma ResolvedName(path: string, seps: set<char>)
    requires seps <= FileNameSeparators
    requires NoSeparator(LastSegment(path, seps), FileNameSeparators)
    ensures GetFileName(path) == LastSegment(path, seps)
  {
    DirectoryPartAndLastSegment(path, seps);
    var l := LastSegment(path, seps);
    match DirectoryPart(path, seps)
    case None =>
      LastSegmentIsSeparatorFreeSuffix(path, seps);
      assert l == path;
      LastSegmentIsSeparatorFreeSuffix(path, FileNameSeparators);
    case Some(q) =>
      LastSegmentAfterSeparator(q, path[|q|], l, FileNameSeparators);
  }

  // ---------------------------------------------------------------------------
  // The shape of the memo table, stated on values

  /** The node cached under `k` has that full name, the baseline timestamps and the right parent. */
  ghost predicate NodeFits<F>(cache: map<string, InMemoryDirectoryInfo<F>>, k: string, seps: set<char>, baseline: DateTime)
    requires k in cache
  {
    var n := cache[k];
    && WellFormedPath(k, seps)
    && n.fullName == k
    && n.creationTimeUtc == baseline
    && n.lastAccessTimeUtc == baseline
    && n.lastWriteTimeUtc == baseline
    && match DirectoryPart(k, seps)
       case None => n.parent == null
       case Some(q) => q in cache && n.parent == cache[q]
  }

  ghost predicate KeysFit<F>(cache: map<string, InMemoryDirectoryInfo<F>>, seps: set<char>, baseline: DateTime) {
    forall k {:trigger NodeFits(cache, k, seps, baseline)} | k in cache :: NodeFits(cache, k, seps, baseline)
  }

  /** Distinct paths are cached with distinct nodes. */
  lemma DistinctNodes<F>(cache: map<string, InMemoryDirectoryInfo<F>>, k: string, q: string,
                         seps: set<char>, baseline: DateTime)
    requires KeysFit(cache, seps, baseline) && k in cache && q in cache && k != q
    ensures cache[k] != cache[q]
  {
    assert NodeFits(cache, k, seps, baseline);
    assert NodeFits(cache, q, seps, baseline);
  }

  /**
   * `dirs[k]` lists, once each, exactly the cached nodes whose parent path is `k`
   * (a node is found again in the cache under its full name).
   */
  ghost predicate ListsFit<F>(cache: map<string, InMemoryDirectoryInfo<F>>,
                              dirs: map<string, seq<InMemoryDirectoryInfo<F>>>, seps: set<char>)
  {
    && dirs.Keys == cache.Keys
    && (forall k | k in dirs :: NoDuplicates(dirs[k]))
    && (forall k, i | k in dirs && 0 <= i < |dirs[k]| ::
          && dirs[k][i].fullName in cache
          && cache[dirs[k][i].fullName] == dirs[k][i]
          && DirectoryPart(dirs[k][i].fullName, seps) == Some(k))
    && (forall c {:trigger ChildListed(cache, dirs, c, seps)} | c in cache :: ChildListed(cache, dirs, c, seps))
  }

  /** The node cached under `c` appears in its parent's list. */
  ghost predicate ChildListed<F>(cache: map<string, InMemoryDirectoryInfo<F>>,
                                 dirs: map<string, seq<InMemoryDirectoryInfo<F>>>, c: string, seps: set<char>)
    requires c in cache
  {
    match DirectoryPart(c, seps)
    case None => true
    case Some(q) => q in dirs && cache[c] in dirs[q]
  }

  /** `roots` lists, once each, exactly the cached nodes whose path has no parent. */
  ghost predicate RootsFit<F>(cache: map<string, InMemoryDirectoryInfo<F>>, roots: seq<InMemoryDirectoryInfo<F>>,
                              seps: set<char>)
  {
    && NoDuplicates(roots)
    && (forall i | 0 <= i < |roots| ::
          && roots[i].fullName in cache
          && cache[roots[i].fullName] == roots[i]
          && DirectoryPart(roots[i].fullName, seps).None?)
    && (forall k {:trigger RootListed(cache, roots, k, seps)} | k in cache :: RootListed(cache, roots, k, seps))
  }

  /** The node cached under `k` appears in the root list when its path has no parent. */
  ghost predicate RootListed<F>(cache: map<string, InMemoryDirectoryInfo<F>>, roots: seq<InMemoryDirectoryInfo<F>>,
                                k: string, seps: set<char>)
    requires k in cache
  {
    DirectoryPart(k, seps).None? ==> cache[k] in roots
  }

  /** Caching a new node keeps the root list exact once a parentless node is appended to it. */
  lemma RootsFitAdd<F>(c0: map<string, InMemoryDirectoryInfo<F>>, r0: seq<InMemoryDirectoryInfo<F>>,
                       path: string, node: InMemoryDirectoryInfo<F>, seps: set<char>)
    requires RootsFit(c0, r0, seps) && path !in c0 && node.fullName == path
    requires forall k | k in c0 :: c0[k] != node
    ensures RootsFit(c0[path := node], if DirectoryPart(path, seps).None? then r0 + [node] else r0, seps)
  {
    var c1 := c0[path := node];
    var r1 := if DirectoryPart(path, seps).None? then r0 + [node] else r0;
    forall i | 0 <= i < |r0| ensures r0[i] != node {
      assert c0[r0[i].fullName] == r0[i];
    }
    forall i | 0 <= i < |r1| ensures r1[i].fullName in c1 && c1[r1[i].fullName] == r1[i] {
      if i < |r0| {
        assert r1[i] == r0[i];
      }
    }
    forall k | k in c1 ensures RootListed(c1, r1, k, seps) {
      if k != path {
        assert RootListed(c0, r0, k, seps);
      }
    }
  }

  /** The directory lists after `node` is created for `path`: empty for it, one longer for its parent. */
  function AddChild<F>(dirs: map<string, seq<InMemoryDirectoryInfo<F>>>, path: string,
                       node: InMemoryDirectoryInfo<F>, seps: set<char>): map<string, seq<InMemoryDirectoryInfo<F>>>
  {
    var parent := DirectoryPart(path, seps);
    if parent.Some? && parent.value in dirs then dirs[path := []][parent.value := dirs[parent.value] + [node]]
    else dirs[path := []]
  }

  /** Caching a fitting new node keeps every node fitting. */
  lemma KeysFitAdd<F>(c0: map<string, InMemoryDirectoryInfo<F>>, path: string, node: InMemoryDirectoryInfo<F>,
                      seps: set<char>, baseline: DateTime)
    requires KeysFit(c0, seps, baseline) && path !in c0
    requires NodeFits(c0[path := node], path, seps, baseline)
    ensures KeysFit(c0[path := node], seps, baseline)
  {
    var c1 := c0[path := node];
    forall k | k in c1 ensures NodeFits(c1, k, seps, baseline) {
      if k != path {
        assert NodeFits(c0, k, seps, baseline);
      }
    }
  }

  /** Caching a new node under its parent keeps the directory lists exact. */
  lemma ListsFitAdd<F>(c0: map<string, InMemoryDirectoryInfo<F>>, d0: map<string, seq<InMemoryDirectoryInfo<F>>>,
                       path: string, node: InMemoryDirectoryInfo<F>, seps: set<char>)
    requires ListsFit(c0, d0, seps) && path !in c0 && node.fullName == path
    requires forall k | k in c0 :: c0[k] != node
    requires forall c | c in c0 && DirectoryPart(c, seps).Some? :: DirectoryPart(c, seps).value in c0
    requires DirectoryPart(path, seps).Some? ==> DirectoryPart(path, seps).value in c0
    ensures ListsFit(c0[path := node], AddChild(d0, path, node, seps), seps)
  {
    var c1: map<string, InMemoryDirectoryInfo<F>> := c0[path := node];
    var d1: map<string, seq<InMemoryDirectoryInfo<F>>> := AddChild(d0, path, node, seps);
    forall k | k in d1 ensures NoDuplicates(d1[k]) {
      if k != path && Some(k) == DirectoryPart(path, seps) {
        assert forall i | 0 <= i < |d0[k]| :: d0[k][i] != node by {
          forall i | 0 <= i < |d0[k]| ensures d0[k][i] != node {
            assert c0[d0[k][i].fullName] == d0[k][i];
          }
        }
      }
    }
    forall k: string, i: int | k in d1 && 0 <= i < |d1[k]|
      ensures d1[k][i].fullName in c1 && c1[d1[k][i].fullName] == d1[k][i]
      ensures DirectoryPart(d1[k][i].fullName, seps) == Some(k)
    {
      if k != path && !(Some(k) == DirectoryPart(path, seps) && i == |d0[k]|) {
        assert d1[k][i] == d0[k][i];
      }
    }
    forall c | c in c1 ensures ChildListed(c1, d1, c, seps) {
      if c != path {
        assert ChildListed(c0, d0, c, seps);
      }
    }
  }

  /**
   * Caching a fitting new node for `path` keeps the memo table, the root list
   * and the directory lists exact, and the node of the parent path is the only
   * one whose list changes.
   */
  lemma AddStep<F>(c0: map<string, InMemoryDirectoryInfo<F>>, r0: seq<InMemoryDirectoryInfo<F>>,
                   d0: map<string, seq<InMemoryDirectoryInfo<F>>>,
                   path: string, node: InMemoryDirectoryInfo<F>, seps: set<char>, baseline: DateTime)
    requires KeysFit(c0, seps, baseline) && RootsFit(c0, r0, seps) && ListsFit(c0, d0, seps)
    requires path !in c0 && NodeFits(c0[path := node], path, seps, baseline)
    requires forall k | k in c0 :: c0[k] != node
    ensures KeysFit(c0[path := node], seps, baseline)
    ensures RootsFit(c0[path := node], if DirectoryPart(path, seps).None? then r0 + [node] else r0, seps)
    ensures ListsFit(c0[path := node], AddChild(d0, path, node, seps), seps)
    ensures forall k | k in c0 && Some(k) != DirectoryPart(path, seps) ::
      k in d0 && AddChild(d0, path, node, seps)[k] == d0[k] && node.parent != c0[k]
  {
    KeysFitAdd(c0, path, node, seps, baseline);
    RootsFitAdd(c0, r0, path, node, seps);
    forall c | c in c0 && DirectoryPart(c, seps).Some? ensures DirectoryPart(c, seps).value in c0 {
      assert NodeFits(c0, c, seps, baseline);
    }
    ListsFitAdd(c0, d0, path, node, seps);
    assert NodeFits(c0[path := node], path, seps, baseline);
    forall k | k in c0 && Some(k) != DirectoryPart(path, seps) ensures node.parent != c0[k] {
      assert NodeFits(c0, k, seps, baseline);
      if DirectoryPart(path, seps).Some? {
        assert NodeFits(c0, DirectoryPart(path, seps).value, seps, baseline);
      }
    }
  }

  // ---------------------------------------------------------------------------
  // The resolver

  class DirectoryTreeResolver<F> {
    const separators: set<char>
    const baseline: DateTime
    /** Memoized nodes, keyed by full path. */
    var cache: map<string, InMemoryDirectoryInfo<F>>
    /** Nodes without a parent, in creation order. */
    var roots: seq<InMemoryDirectoryInfo<F>>
    /** Every node the resolver has created: the objects its methods may change. */
    ghost var nodes: set<InMemoryDirectoryInfo<F>>
    /** The directory list of the node cached under each path. */
    ghost var children: map<string, seq<InMemoryDirectoryInfo<F>>>

    /** Keys: exactly the ancestors of the resolved paths, each with a fitting node. */
    ghost predicate KeysValid()
      reads this`cache
    {
      && DirectorySeparatorChar in separators
      && KeysFit(cache, separators, baseline)
    }

    /** Each directory list holds, once each, exactly the nodes whose parent it is. */
    ghost predicate ListsValid()
      reads this`cache, this`children, this`nodes, nodes`directories
      requires NodesValid()
    {
      && ListsFit(cache, children, separators)
      && (forall k {:trigger Mirrored(k)} | k in cache :: Mirrored(k))
    }

    /** The live directory list of the node cached under `k` is the one the invariant describes. */
    ghost predicate Mirrored(k: string)
      reads this`cache, this`children, this`nodes, nodes`directories
      requires NodesValid() && k in cache
    {
      k in children && cache[k].directories == children[k]
    }

    /** The root list holds, once each, exactly the nodes without a parent. */
    ghost predicate RootsValid()
      reads this`cache, this`roots
    {
      RootsFit(cache, roots, separators)
    }

    /** Every cached node is one the resolver created. */
    ghost predicate NodesValid()
      reads this`cache, this`nodes
    {
      forall k | k in cache :: cache[k] in nodes
    }

    ghost predicate Valid()
      reads this`cache, this`children, this`nodes, this`roots, nodes`directories
    {
      NodesValid() && KeysValid() && ListsValid() && RootsValid()
    }

    /** `new DirectoryTreeResolver(baseline)`: nothing resolved yet. */
    constructor (baseline: DateTime, separators: set<char>)
      requires DirectorySeparatorChar in separators
      ensures Valid()
      ensures this.baseline == baseline && this.separators == separators
      ensures cache == map[] && roots == [] && nodes == {}
    {
      this.baseline := baseline;
      this.separators := separators;
      cache := map[];
      roots := [];
      nodes := {};
      children := map[];
    }

    /** Every ancestor of a cached path is cached. */
    lemma {:induction false} AncestorsCached(p: string)
      requires KeysValid() && p in cache
      ensures Ancestors(p, separators) <= cache.Keys
      decreases |p|
    {
      assert NodeFits(cache, p, separators, baseline);
      match DirectoryPart(p, separators)
      case None =>
      case Some(q) => AncestorsCached(q);
    }

    /**
     * Creates the node for the uncached `path` under `parentNode`, links it into
     * the parent's directory list or the root list, and caches it.
     */
    method AddNode(path: string, parentNode: InMemoryDirectoryInfo?<F>)
      returns (node: InMemoryDirectoryInfo<F>)
      requires Valid() && WellFormedPath(path, separators) && path !in cache
      requires match DirectoryPart(path, separators)
               case None => parentNode == null
               case Some(q) => q in cache && parentNode == cache[q]
      modifies this, nodes`directories
      ensures Valid()
      ensures fresh(node) && cache == old(cache)[path := node] && nodes == old(nodes) + {node}
      ensures node.files == []
    {
      ghost var c0 := cache;
      ghost var r0 := roots;
      ghost var d0 := children;
      node := new InMemoryDirectoryInfo(path, parentNode, baseline, baseline, baseline);
      AddStep(c0, r0, d0, path, node, separators, baseline);
      if parentNode == null {
        roots := roots + [node];
      } else {
        parentNode.AddDirectory(node);
      }
      cache, nodes, children := cache[path := node], nodes + {node}, AddChild(children, path, node, separators);
      forall k | k in cache ensures Mirrored(k) {
        if k == path {
          assert cache[k] == node && children[k] == [];
        } else if Some(k) == DirectoryPart(path, separators) {
          assert old(Mirrored(k));
          assert cache[k] == parentNode && children[k] == d0[k] + [node];
        } else {
          assert old(Mirrored(k));
        }
      }
    }

    /** The node for `path`, creating it and its missing ancestors first. */
    method Resolve(path: string) returns (node: InMemoryDirectoryInfo<F>)
      requires Valid() && WellFormedPath(path, separators)
      modifies this, nodes`directories
      ensures Valid()
      ensures path in cache && node == cache[path]
      ensures cache.Keys == old(cache.Keys) + Ancestors(path, separators)
      ensures forall k | k in old(cache) :: k in cache && cache[k] == old(cache[k])
      ensures fresh(nodes - old(nodes))
      ensures path !in old(cache) ==> node.files == []
      ensures path in old(cache) ==>
        && cache == old(cache) && roots == old(roots) && nodes == old(nodes)
        && forall n | n in old(nodes) :: n.directories == old(n.directories)
      decreases |path|, 1
    {
      if path in cache {
        node := cache[path];
        AncestorsCached(path);
      } else {
        node := ResolveMissing(path);
      }
    }

    /** Resolve for a path not cached yet: its parent first, then a new node for it. */
    method ResolveMissing(path: string) returns (node: InMemoryDirectoryInfo<F>)
      requires Valid() && WellFormedPath(path, separators) && path !in cache
      modifies this, nodes`directories
      ensures Valid()
      ensures path in cache && node == cache[path]
      ensures cache.Keys == old(cache.Keys) + Ancestors(path, separators)
      ensures forall k | k in old(cache) :: k in cache && cache[k] == old(cache[k])
      ensures fresh(nodes - old(nodes))
      ensures node.files == []
      decreases |path|, 0
    {
      var parentNode: InMemoryDirectoryInfo?<F> := null;
      var dir := DirectoryPart(path, separators);
      if dir.Some? {
        parentNode := Resolve(dir.value);
        forall x | x in Ancestors(dir.value, separators) ensures x != path {
          AncestorFacts(dir.value, x, separators);
        }
      }
      node := AddNode(path, parentNode);
    }

    /**
     * GetLeafDirectoryInfo(path): the memoized node for `path`, with all its
     * ancestors; an empty path or an empty segment is refused.
     */
    method GetLeafDirectoryInfo(path: string) returns (r: Result<InMemoryDirectoryInfo<F>, ArgumentError>)
      requires Valid()
      modifies this, nodes`directories
      ensures Valid()
      ensures r.Failure? <==> !WellFormedPath(path, separators)
      ensures r.Failure? ==>
        && r.error == (if path == [] then ArgumentEmpty("path") else ArgumentInvalid("path"))
        && cache == old(cache) && roots == old(roots)
      ensures r.Success? ==>
        var d := r.value;
        && cache.Keys == old(cache.Keys) + Ancestors(path, separators)
        && path in cache && d == cache[path]
        && d.fullName == path
        && d.creationTimeUtc == baseline && d.lastAccessTimeUtc == baseline && d.lastWriteTimeUtc == baseline
        && (match DirectoryPart(path, separators)
            case None => d.parent == null
            case Some(q) => q in cache && d.parent == cache[q])
      ensures forall k | k in old(cache) :: k in cache && cache[k] == old(cache[k])
      ensures forall k | k in old(cache) :: cache[k].files == old(cache[k].files)
      ensures fresh(nodes - old(nodes))
    {
      if !WellFormedPath(path, separators) {
        return Failure(if path == [] then ArgumentEmpty("path") else ArgumentInvalid("path"));
      }
      var d := Resolve(path);
      assert NodeFits(cache, path, separators, baseline);
      return Success(d);
    }

    /** GetRootDirectories(): a fresh array of the parentless nodes. */
    method GetRootDirectories() returns (a: array<InMemoryDirectoryInfo<F>>)
      ensures fresh(a) && a[..] == roots
    {
      var snapshot := roots;
      a := new InMemoryDirectoryInfo<F>[|snapshot|](i requires 0 <= i < |snapshot| => snapshot[i]);
    }

    /** Appends `file` to the file list of a node of the tree; the tree itself is unchanged. */
    method AttachFile(node: InMemoryDirectoryInfo<F>, file: F)
      requires Valid() && node in nodes
      modifies node`files
      ensures Valid()
      ensures node.files == old(node.files) + [file]
    {
      node.AddFile(file);
    }

    /**
     * GetFileInfoWithPath(path, factory): the factory applied to the last segment
     * and the resolved parent directory (null when the path has no separator);
     * the new file is appended to that directory's file list.
     */
    method GetFileInfoWithPath(path: string, factory: (string, InMemoryDirectoryInfo?<F>) -> F)
      returns (r: Result<F, ArgumentError>)
      requires Valid()
      modifies this, nodes`directories, nodes`files
      ensures Valid()
      ensures r.Failure? <==> !WellFormedPath(path, separators)
      ensures r.Failure? ==>
        && r.error == (if path == [] then ArgumentEmpty("path") else ArgumentInvalid("path"))
        && cache == old(cache) && roots == old(roots)
      ensures r.Success? ==>
        match DirectoryPart(path, separators)
        case None =>
          && r.value == factory(path, null)
          && cache == old(cache) && roots == old(roots)
        case Some(q) =>
          && cache.Keys == old(cache.Keys) + Ancestors(q, separators)
          && q in cache
          && r.value == factory(LastSegment(path, separators), cache[q])
          && cache[q].files == (if q in old(cache) then old(cache[q].files) else []) + [r.value]
      ensures forall k | k in old(cache) :: k in cache && cache[k] == old(cache[k])
      ensures forall k | k in old(cache) && Some(k) != DirectoryPart(path, separators) ::
        cache[k].files == old(cache[k].files)
      ensures fresh(nodes - old(nodes))
    {
      if !WellFormedPath(path, separators) {
        return Failure(if path == [] then ArgumentEmpty("path") else ArgumentInvalid("path"));
      }
      var dir := DirectoryPart(path, separators);
      if dir.None? {
        var file := factory(path, null);
        return Success(file);
      }
      var file := CreateFileIn(dir.value, LastSegment(path, separators), factory);
      return Success(file);
    }

    /** The Some branch of GetFileInfoWithPath: resolve the directory `q`, then create and attach the file. */
    method CreateFileIn(q: string, name: string, factory: (string, InMemoryDirectoryInfo?<F>) -> F)
      returns (file: F)
      requires Valid() && WellFormedPath(q, separators)
      modifies this, nodes`directories, nodes`files
      ensures Valid()
      ensures cache.Keys == old(cache.Keys) + Ancestors(q, separators)
      ensures q in cache && file == factory(name, cache[q])
      ensures cache[q].files == (if q in old(cache) then old(cache[q].files) else []) + [file]
      ensures forall k | k in old(cache) :: k in cache && cache[k] == old(cache[k])
      ensures forall k | k in old(cache) && k != q :: cache[k].files == old(cache[k].files)
      ensures fresh(nodes - old(nodes))
    {
      var parentNode := Resolve(q);
      assert q in old(cache) ==> old(cache[q]) in old(nodes);
      forall k | k in cache && k != q ensures cache[k] != parentNode {
        DistinctNodes(cache, k, q, separators, baseline);
      }
      file := factory(name, parentNode);
      AttachFile(parentNode, file);
    }
  }

  // ---------------------------------------------------------------------------
  // What the resolved tree looks like

  /** The root list names each distinct first segment of the cached paths exactly once. */
  lemma RootsAreFirstSegments<F>(resolver: DirectoryTreeResolver<F>)
    requires resolver.Valid()
    ensures (set i | 0 <= i < |resolver.roots| :: resolver.roots[i].fullName)
         == (set k | k in resolver.cache :: FirstSegment(k, resolver.separators))
    ensures forall i, j | 0 <= i < j < |resolver.roots| :: resolver.roots[i].fullName != resolver.roots[j].fullName
  {
    var seps := resolver.separators;
    var cache := resolver.cache;
    var names := set i | 0 <= i < |resolver.roots| :: resolver.roots[i].fullName;
    var firsts := set k | k in cache :: FirstSegment(k, seps);
    forall x | x in names ensures x in firsts {
      var i :| 0 <= i < |resolver.roots| && resolver.roots[i].fullName == x;
      assert x in cache && DirectoryPart(x, seps).None?;
      assert FirstSegment(x, seps) == x;
    }
    forall x | x in firsts ensures x in names {
      var k :| k in cache && x == FirstSegment(k, seps);
      FirstSegmentIsRootAncestor(k, seps);
      resolver.AncestorsCached(k);
      assert NodeFits(cache, x, seps, resolver.baseline);
      assert RootListed(cache, resolver.roots, x, seps);
      var i :| 0 <= i < |resolver.roots| && resolver.roots[i] == cache[x];
    }
    forall i, j | 0 <= i < j < |resolver.roots|
      ensures resolver.roots[i].fullName != resolver.roots[j].fullName
    {
      assert resolver.roots[i] != resolver.roots[j];
    }
  }

  /**
   * When the cached paths are the ancestors of one path `p` (a fresh resolver
   * after resolving `p`), every directory on it lists exactly its one child on
   * that path, and the leaf lists none.
   */
  lemma SinglePathChain<F>(resolver: DirectoryTreeResolver<F>, p: string)
    requires resolver.Valid() && resolver.cache.Keys == Ancestors(p, resolver.separators)
    ensures p in resolver.cache && resolver.cache[p].directories == []
    ensures forall c | c in resolver.cache && DirectoryPart(c, resolver.separators).Some? ::
      DirectoryPart(c, resolver.separators).value in resolver.cache &&
      resolver.cache[DirectoryPart(c, resolver.separators).value].directories == [resolver.cache[c]]
  {
    var seps := resolver.separators;
    var cache := resolver.cache;
    var children := resolver.children;
    forall c | c in cache && DirectoryPart(c, seps).Some?
      ensures DirectoryPart(c, seps).value in cache
      ensures cache[DirectoryPart(c, seps).value].directories == [cache[c]]
    {
      var a := DirectoryPart(c, seps).value;
      assert NodeFits(cache, c, seps, resolver.baseline);
      assert resolver.Mirrored(a);
      assert ChildListed(cache, children, c, seps);
      var ds := children[a];
      forall i | 0 <= i < |ds| ensures ds[i] == cache[c] {
        var k := ds[i].fullName;
        assert k in cache && cache[k] == ds[i] && DirectoryPart(k, seps) == Some(a);
        AncestorChildUnique(p, c, k, seps);
      }
      RepeatedValue(ds, cache[c]);
      assert ds == [ds[0]];
    }
    assert resolver.Mirrored(p);
    var ds := children[p];
    if ds != [] {
      var k := ds[0].fullName;
      assert k in cache && DirectoryPart(k, seps) == Some(p);
      AncestorNotBelow(p, k, seps);
    }
  }

  // ---------------------------------------------------------------------------
  // Successive requests on one resolver

  /** The same path requested twice from a new resolver yields the same node both times. */
  method SamePathTwice<F>(baseline: DateTime, separators: set<char>, path: string)
    returns (r1: Result<InMemoryDirectoryInfo<F>, ArgumentError>, r2: Result<InMemoryDirectoryInfo<F>, ArgumentError>)
    requires DirectorySeparatorChar in separators
    ensures r1.Success? <==> WellFormedPath(path, separators)
    ensures r2.Success? <==> r1.Success?
    ensures r1.Success? ==> r2.value == r1.value
  {
    var resolver := new DirectoryTreeResolver<F>(baseline, separators);
    r1 := resolver.GetLeafDirectoryInfo(path);
    r2 := resolver.GetLeafDirectoryInfo(path);
  }

  /**
   * Two paths below the same directory, requested one after the other, get the
   * same parent node, whose full name is that directory.
   */
  method SiblingsShareParent<F>(baseline: DateTime, separators: set<char>, path1: string, path2: string)
    returns (r1: Result<InMemoryDirectoryInfo<F>, ArgumentError>, r2: Result<InMemoryDirectoryInfo<F>, ArgumentError>)
    requires DirectorySeparatorChar in separators
    requires WellFormedPath(path1, separators) && WellFormedPath(path2, separators)
    requires DirectoryPart(path1, separators).Some? && DirectoryPart(path1, separators) == DirectoryPart(path2, separators)
    ensures r1.Success? && r2.Success?
    ensures r1.value.parent != null && r1.value.parent == r2.value.parent
    ensures r1.value.parent.fullName == DirectoryPart(path1, separators).value
  {
    var resolver := new DirectoryTreeResolver<F>(baseline, separators);
    r1 := resolver.GetLeafDirectoryInfo(path1);
    r2 := resolver.GetLeafDirectoryInfo(path2);
    var q := DirectoryPart(path1, separators).value;
    assert KeysFit(resolver.cache, separators, baseline);
    assert NodeFits(resolver.cache, q, separators, baseline);
  }

  /**
   * A file requested with a directory path on a new resolver is the only file
   * of that directory.
   */
  method FileInNewDirectory<F>(baseline: DateTime, separators: set<char>, path: string,
                               factory: (string, InMemoryDirectoryInfo?<F>) -> F)
    returns (r: Result<F, ArgumentError>, directory: InMemoryDirectoryInfo?<F>)
    requires DirectorySeparatorChar in separators
    requires WellFormedPath(path, separators) && DirectoryPart(path, separators).Some?
    ensures r.Success? && directory != null
    ensures directory.fullName == DirectoryPart(path, separators).value
    ensures r.value == factory(LastSegment(path, separators), directory)
    ensures directory.files == [r.value]
  {
    var resolver := new DirectoryTreeResolver<F>(baseline, separators);
    r := resolver.GetFileInfoWithPath(path, factory);
    var q := DirectoryPart(path, separators).value;
    directory := resolver.cache[q];
    assert NodeFits(resolver.cache, q, separators, baseline);
  }
}
