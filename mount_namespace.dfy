/** The mount namespace (kernel/src/fs/path/mount_namespace.rs): a root mount
    and an owning user namespace; the resolver it creates; the check that a
    mount belongs to it; and the teardown that detaches every mount of its
    tree when it is dropped. */
module MountNamespaces {
  import opened Prelude
  import opened UserNamespaces

  /** A dentry at which a mount is attached, told apart by a number. */
  type Dentry = nat

  /** A mount: its child mounts, the mount it is attached to, the dentry it
      is attached at, and the namespace it belongs to. The children map of
      the source, keyed by dentry, is a set here: the teardown drains it
      whole and in no particular order. */
  class Mount {
    var children: set<Mount>
    var parent: Option<Mount>
    var mountpoint: Option<Dentry>
    var mntNs: MountNamespace?

    /** `Mount::new_root`: a detached mount with no children. */
    constructor Root(ns: MountNamespace?)
      ensures children == {} && parent == None && mountpoint == None && mntNs == ns
    {
      children := {};
      parent := None;
      mountpoint := None;
      mntNs := ns;
    }
  }

  /** `Path::new_fs_root`: the root dentry of a mount. */
  datatype Path = FsRoot(mount: Mount)

  /** A file-system resolver: the root and the working directory. */
  datatype FsResolver = FsResolver(root: Path, cwd: Path)

  /** The mounts `tree` under the child relation `kids`: closed under
      children, no mount is a child of two mounts, and `root` is nobody's
      child. */
  ghost predicate Forest(root: Mount, tree: set<Mount>, kids: map<Mount, set<Mount>>) {
    && root in tree
    && (forall m :: m in tree ==> m in kids && kids[m] <= tree)
    && (forall m1, m2, c :: m1 in tree && m2 in tree && c in kids[m1] && c in kids[m2] ==> m1 == m2)
    && (forall m :: m in tree ==> root !in kids[m])
  }

  /** The tree as the mounts record it: `kids` is each mount's children. */
  ghost function ChildrenOf(tree: set<Mount>): map<Mount, set<Mount>>
    reads tree
  {
    map m | m in tree :: m.children
  }

  ghost predicate Distinct<T>(s: seq<T>) {
    forall i, j :: 0 <= i < j < |s| ==> s[i] != s[j]
  }

  /** The state of the teardown's worklist: `seen` mounts (taken, in the order
      `visited`) and the mounts still in the worklist make up `queued`, the
      mounts discovered so far; the two parts are disjoint and never repeat
      a mount; the children of a taken mount are all discovered; and a mount
      is discovered only after its parent was taken. */
  ghost predicate Frontier(
    root: Mount, tree: set<Mount>, kids: map<Mount, set<Mount>>,
    seen: set<Mount>, queued: set<Mount>, worklist: seq<Mount>, visited: seq<Mount>)
  {
    && seen <= queued <= tree && root in queued
    && (forall m :: m in worklist ==> m in queued && m !in seen)
    && (forall m :: m in queued ==> m in seen || m in worklist)
    && (forall m :: m in seen ==> m in visited)
    && (forall i :: 0 <= i < |visited| ==> visited[i] in seen)
    && Distinct(visited) && Distinct(worklist)
    && (forall m, c :: m in seen && m in kids && c in kids[m] ==> c in queued)
    && (forall m, c :: m in tree && m in kids && c in kids[m] && c in queued ==> m in seen)
  }

  /** A mount's link to its parent: the parent and the mountpoint. */
  ghost function LinkOf(m: Mount): (Option<Mount>, Option<Dentry>)
    reads m
  {
    (m.parent, m.mountpoint)
  }

  /** The heap during the teardown: taken mounts are drained, the others keep
      their children; queued mounts other than the root are detached, the
      others keep the links they had in `links`. */
  ghost predicate Drained(
    root: Mount, tree: set<Mount>, kids: map<Mount, set<Mount>>,
    seen: set<Mount>, queued: set<Mount>, links: map<Mount, (Option<Mount>, Option<Dentry>)>)
    reads tree
  {
    && (forall m :: m in tree && m in seen ==> m.children == {})
    && (forall m :: m in tree && m !in seen && m in kids ==> m.children == kids[m])
    && (forall m :: m in tree && m != root && m in queued ==> LinkOf(m) == (None, None))
    && (forall m :: m in tree && m !in queued && m in links ==> LinkOf(m) == links[m])
    && (root in tree && root in links ==> LinkOf(root) == links[root])
  }

  /** The teardown starts with only the root queued. */
  lemma FrontierStart(root: Mount, tree: set<Mount>, kids: map<Mount, set<Mount>>)
    requires Forest(root, tree, kids)
    ensures Frontier(root, tree, kids, {}, {root}, [root], [])
  {
    assert root in [root];
  }

  /** Taking the first queued mount and queuing its children keeps the
      frontier, and those children were not discovered before. */
  lemma FrontierStep(
    root: Mount, tree: set<Mount>, kids: map<Mount, set<Mount>>,
    seen: set<Mount>, queued: set<Mount>, worklist: seq<Mount>, visited: seq<Mount>, order: seq<Mount>)
    requires Forest(root, tree, kids)
    requires Frontier(root, tree, kids, seen, queued, worklist, visited) && worklist != []
    requires Distinct(order) && forall c :: c in order <==> c in kids[worklist[0]]
    ensures forall c :: c in order ==> c !in queued && c != root
    ensures Frontier(root, tree, kids, seen + {worklist[0]}, queued + kids[worklist[0]],
                     worklist[1..] + order, visited + [worklist[0]])
  {
    var current := worklist[0];
    forall c | c in order
      ensures c !in queued
    {
      assert c in kids[current];
    }
    var w := worklist[1..] + order;
    forall i, j | 0 <= i < j < |w|
      ensures w[i] != w[j]
    {
      if j >= |worklist| - 1 && i < |worklist| - 1 {
        assert w[i] == worklist[i + 1];
        assert w[j] in order;
      }
    }
    assert forall m :: m in worklist[1..] ==> m in worklist && m != current;
    assert forall m :: m in worklist ==> m == current || m in worklist[1..];
  }

  /** Taking one more mount of the tree leaves fewer to take. */
  lemma Shrinks(tree: set<Mount>, seen: set<Mount>, x: Mount)
    requires x in tree && x !in seen
    ensures |tree - (seen + {x})| < |tree - seen|
  {
    assert tree - seen == (tree - (seen + {x})) + {x};
  }

  /** One turn of the teardown's loop: the first queued mount is taken, its
      children drained, detached and queued. */
  method TakeNext(
    ghost root: Mount, ghost tree: set<Mount>, ghost kids: map<Mount, set<Mount>>,
    ghost links: map<Mount, (Option<Mount>, Option<Dentry>)>,
    ghost seen: set<Mount>, ghost queued: set<Mount>, worklist: seq<Mount>, ghost visited: seq<Mount>)
    returns (ghost seen': set<Mount>, ghost queued': set<Mount>, worklist': seq<Mount>, ghost visited': seq<Mount>)
    requires Forest(root, tree, kids) && forall m :: m in tree ==> m in links
    requires Frontier(root, tree, kids, seen, queued, worklist, visited) && worklist != []
    requires Drained(root, tree, kids, seen, queued, links)
    modifies tree`children, tree`parent, tree`mountpoint
    ensures worklist[0] in tree && worklist[0] !in seen && seen' == seen + {worklist[0]}
    ensures Frontier(root, tree, kids, seen', queued', worklist', visited')
    ensures Drained(root, tree, kids, seen', queued', links)
  {
    var current := worklist[0];
    assert current.children == kids[current];
    var order := Visit(current);
    FrontierStep(root, tree, kids, seen, queued, worklist, visited, order);
    seen' := seen + {current};
    queued' := queued + kids[current];
    visited' := visited + [current];
    worklist' := worklist[1..] + order;
  }

  class MountNamespace {
    const root: Mount
    const owner: UserNamespace

    /** `new_init` and the namespace half of `clone_new`: a namespace with a
        new root mount that belongs to it. */
    constructor (owner: UserNamespace)
      ensures this.owner == owner
      ensures fresh(root) && root.mntNs == this
      ensures root.children == {} && root.parent == None && root.mountpoint == None
    {
      this.owner := owner;
      root := new Mount.Root(null);
      new;
      root.mntNs := this;
    }

    /** `create_fs_resolver`: root and working directory are both the root
        of the namespace's root mount. */
    function CreateFsResolver(): (r: FsResolver)
      ensures r.root.mount == root && r.cwd.mount == root
    {
      FsResolver(FsRoot(root), FsRoot(root))
    }

    /** `owns`: the mount's namespace pointer is this namespace. */
    predicate Owns(m: Mount)
      reads m
    {
      m.mntNs == this
    }

    /** `clone_new`: refused unless the caller holds SYS_ADMIN in the new
        owner; otherwise a new namespace with its own new root mount. */
    method CloneNew(owner: UserNamespace, sysAdminIn: set<UserNamespace>) returns (r: Result<MountNamespace>)
      ensures r.Err? <==> owner !in sysAdminIn
      ensures r.Err? ==> r.error == EPERM
      ensures r.Ok? ==> fresh(r.value) && fresh(r.value.root) && r.value.owner == owner
      ensures r.Ok? ==> r.value.Owns(r.value.root) && !Owns(r.value.root)
    {
      var _ :- CheckSysAdmin(owner, sysAdminIn);
      var ns := new MountNamespace(owner);
      r := Ok(ns);
    }

    /** `drop`: a worklist, starting from the root, takes each mount in turn,
        drains its children, detaches each child from its parent and its
        mountpoint, and queues it. Every mount below the root is taken exactly
        once, in the order `visited`; afterwards every one of them has no
        children, every one but the root is detached, and the root itself and
        every mount outside the tree are as before. */
    method Drop(ghost tree: set<Mount>) returns (ghost visited: seq<Mount>)
      requires Forest(root, tree, ChildrenOf(tree))
      modifies tree`children, tree`parent, tree`mountpoint
      ensures Distinct(visited) && root in visited
      ensures forall m :: m in visited ==> m in tree
      ensures forall m, c :: m in visited && c in old(m.children) ==> c in visited
      ensures forall m :: m in visited ==> m.children == {}
      ensures forall m :: m in visited && m != root ==> m.parent == None && m.mountpoint == None
      ensures forall m :: m in tree && m !in visited ==> m.children == old(m.children)
      ensures forall m :: m in tree && m !in visited ==> m.parent == old(m.parent) && m.mountpoint == old(m.mountpoint)
      ensures root.parent == old(root.parent) && root.mountpoint == old(root.mountpoint)
    {
      ghost var kids := ChildrenOf(tree);
      ghost var links := map m | m in tree :: LinkOf(m);
      ghost var seen;
      seen, visited := DrainFrom(root, tree, kids, links);
      assert forall m :: m in tree ==> kids[m] == old(m.children) && links[m] == old(LinkOf(m));
      assert forall m :: m in visited <==> m in seen;
      forall m | m in tree && m !in visited
        ensures m.parent == old(m.parent) && m.mountpoint == old(m.mountpoint)
      {
        assert LinkOf(m) == links[m] == old(LinkOf(m));
      }
      assert LinkOf(root) == links[root] == old(LinkOf(root));
      forall m | m in visited && m != root
        ensures m.parent == None && m.mountpoint == None
      {
        assert m in tree && m in seen && LinkOf(m) == (None, None);
      }
    }
  }

  /** The teardown's loop, from a worklist holding only the root until the
      worklist is empty. */
  method DrainFrom(
    root: Mount, ghost tree: set<Mount>, ghost kids: map<Mount, set<Mount>>,
    ghost links: map<Mount, (Option<Mount>, Option<Dentry>)>)
    returns (ghost seen: set<Mount>, ghost visited: seq<Mount>)
    requires Forest(root, tree, kids) && forall m :: m in tree ==> m in links
    requires Drained(root, tree, kids, {}, {root}, links)
    modifies tree`children, tree`parent, tree`mountpoint
    ensures Frontier(root, tree, kids, seen, seen, [], visited)
    ensures Drained(root, tree, kids, seen, seen, links)
  {
    seen := {};
    visited := [];
    var worklist := [root];
    ghost var queued := {root};
    FrontierStart(root, tree, kids);
    while worklist != []
      invariant Frontier(root, tree, kids, seen, queued, worklist, visited)
      invariant Drained(root, tree, kids, seen, queued, links)
      decreases |tree - seen|
    {
      ghost var taken, first := seen, worklist[0];
      seen, queued, worklist, visited := TakeNext(root, tree, kids, links, seen, queued, worklist, visited);
      Shrinks(tree, taken, first);
    }
    assert queued == seen;
  }

  /** One step of the teardown: the mount's children are drained and each of
      them is detached. */
  method Visit(current: Mount) returns (order: seq<Mount>)
    modifies current`children, current.children`parent, current.children`mountpoint
    ensures current.children == {}
    ensures Distinct(order)
    ensures forall c :: c in order <==> c in old(current.children)
    ensures forall c :: c in old(current.children) ==> c.parent == None && c.mountpoint == None
  {
    var children := current.children;
    current.children := {};
    order := DetachAll(children);
  }

  /** The inner loop of the teardown: the drained children of `current` are
      detached one by one and listed in the order they were taken. */
  method DetachAll(children: set<Mount>) returns (order: seq<Mount>)
    modifies children`parent, children`mountpoint
    ensures Distinct(order)
    ensures forall c :: c in order <==> c in children
    ensures forall c :: c in children ==> c.parent == None && c.mountpoint == None
  {
    order := [];
    var rest := children;
    while rest != {}
      invariant rest <= children
      invariant forall c :: c in order <==> c in children - rest
      invariant forall i, j :: 0 <= i < j < |order| ==> order[i] != order[j]
      invariant forall c :: c in children - rest ==> c.parent == None && c.mountpoint == None
      decreases rest
    {
      var c :| c in rest;
      c.parent := None;
      c.mountpoint := None;
      order := order + [c];
      rest := rest - {c};
    }
  }
}
