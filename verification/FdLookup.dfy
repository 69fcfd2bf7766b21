/**
 The tree by which the /dev/poll method finds the descriptor of an event (src/iv_fd_dev_poll.c):
 it holds exactly the registered descriptors, so an event is never for an unknown one.
 */
module FdLookup {
  import opened AvlShape
  import opened AvlTree
  import T = FdTable

  /** `iv_fd_avl_find`; in the tree a descriptor has its number as key. */
  method Find(tree: AvlTree, fd: int) returns (n: Node?)
    requires tree.Valid()
    ensures n == null <==> !HasKey(tree.Elements(), fd)
    ensures n != null ==> n in tree.nodes && n.key == fd
  {
    n := tree.root;
    ghost var c, t := Top, tree.shape;
    while n != null
      invariant tree.At(c, t) && Plug(c, t) == tree.shape && Between(c, fd) && n == Root(t)
      decreases t
    {
      CompareStep(c, t, fd);
      if fd == n.key {
        PlugNodes(c, t);
        return;
      }
      if fd < n.key {
        c, t := InLeft(n, t.h, t.right, c), t.left;
        n := n.left;
      } else {
        c, t := InRight(t.left, n, t.h, c), t.right;
        n := n.right;
      }
      tree.AtFill(c, t);
    }
    NoPlace(c, fd);
  }

  lemma KeysWith(s: seq<Node>, an: Node, s': seq<Node>)
    requires Inserted(s, an, s')
    ensures forall key :: HasKey(s', key) <==> HasKey(s, key) || key == an.key
  {
    var i :| 0 <= i <= |s| && s' == s[..i] + [an] + s[i..];
    assert s == s[..i] + s[i..];
    assert forall n :: n in s' <==> n in s || n == an;
  }

  lemma KeysWithout(s: seq<Node>, an: Node, s': seq<Node>)
    requires Sorted(s) && Removed(s, an, s')
    ensures forall key :: HasKey(s', key) <==> HasKey(s, key) && key != an.key
  {
    var i :| 0 <= i < |s| && s[i] == an && s' == s[..i] + s[i + 1..];
    forall n | n in s'
      ensures n.key != an.key
    {
      var j :| 0 <= j < |s'| && s'[j] == n;
      assert n == s[if j < i then j else j + 1];
    }
    hide Sorted, Removed;
    var a, z := s[..i], s[i + 1..];
    assert s == a + [an] + z;
    assert forall n :: n in s <==> n in a + z || n == an;
  }

  lemma OneNodePerKey(s: seq<Node>, a: Node, b: Node)
    requires Sorted(s) && a in s && b in s && a.key == b.key
    ensures a == b
  {
    var i :| 0 <= i < |s| && s[i] == a;
    var j :| 0 <= j < |s| && s[j] == b;
    if i < j {
      assert s[i].key < s[j].key;
    } else if j < i {
      assert s[j].key < s[i].key;
    }
  }

  lemma NodesHaveKeys(tree: AvlTree)
    requires tree.Valid()
    ensures forall n :: n in tree.nodes ==> HasKey(tree.Elements(), n.key)
  {
    ElementsAreNodes(tree.shape);
  }

  class DevPollTable {
    const fds: T.FdTable
    const tree: AvlTree
    /** The node inside each registered descriptor. */
    var nodes: map<int, Node>

    /** The tree holds the nodes, and only these. */
    ghost predicate Indexed()
      reads this`nodes, tree, tree.nodes
    {
      && tree.Valid()
      && (forall n :: n in nodes ==> nodes[n] in tree.nodes && nodes[n].key == n)
      && (forall n :: HasKey(tree.Elements(), n) <==> n in nodes)
    }

    ghost predicate Valid()
      reads this, fds, fds.fds, tree, tree.nodes
    {
      fds.Valid() && !fds.epoll && Indexed() && nodes.Keys == fds.table.Keys
    }

    constructor ()
      ensures Valid() && nodes == map[]
    {
      fds := new T.FdTable(false);
      tree := new AvlTree();
      nodes := map[];
    }

    /** `iv_fd_dev_poll_register_fd`: fatal exactly for a number that is taken. */
    method Index(an: Node) returns (fatal: bool)
      requires Indexed() && Size(tree.shape) + 1 < ADDRESS_SPACE
      modifies this`nodes, tree, tree.nodes, an
      ensures Indexed() && fatal == (an.key in old(nodes))
      ensures nodes == if fatal then old(nodes) else old(nodes)[an.key := an]
      ensures tree.nodes == if fatal then old(tree.nodes) else old(tree.nodes) + {an}
      ensures !fatal ==> an !in old(tree.nodes)
    {
      hide AvlTree.Valid;
      ghost var s := tree.Elements();
      NodesHaveKeys(tree);
      var ret := tree.Insert(an);
      if ret != 0 {
        return true;
      }
      KeysWith(s, an, tree.Elements());
      hide HasKey;
      nodes := nodes[an.key := an];
      return false;
    }

    method Unindex(fd: int)
      requires Indexed() && fd in nodes
      modifies this`nodes, tree, tree.nodes
      ensures Indexed() && nodes == old(nodes) - {fd} && tree.nodes == old(tree.nodes) - {old(nodes[fd])}
    {
      ghost var s := tree.Elements();
      var an := nodes[fd];
      assert Sorted(s);
      hide AvlTree.Valid;
      tree.Delete(an);
      KeysWithout(s, an, tree.Elements());
      hide HasKey;
      nodes := nodes - {fd};
    }

    /** `iv_fd_register`; the insertion in the tree cannot fail. */
    method Register(f: T.Fd, an: Node) returns (fatal: bool)
      requires Valid() && !f.registered && f.fd >= 0 && f.fd !in fds.table && an.key == f.fd
      requires Size(tree.shape) + 1 < ADDRESS_SPACE
      modifies this, fds, f, tree, tree.nodes, an
      ensures Valid() && !fatal && nodes == old(nodes)[f.fd := an] && tree.nodes == old(tree.nodes) + {an}
      ensures fds.fds == old(fds.fds) + {f} && fds.table == old(fds.table)[f.fd := f] && fds.kernel == old(fds.kernel)
    {
      hide Indexed, T.FdTable.Valid;
      fatal := Index(an);
      fds.Register(f);
    }

    /** `iv_fd_register_try`: after a refusal the tree is as it was, too. */
    method RegisterTry(f: T.Fd, an: Node, accept: bool) returns (ret: int)
      requires Valid() && !f.registered && f.fd >= 0 && f.fd !in fds.table && an.key == f.fd
      requires Size(tree.shape) + 1 < ADDRESS_SPACE
      modifies this, fds, f, tree, tree.nodes, an
      ensures Valid() && ret == (if accept then 0 else -1)
      ensures nodes == if accept then old(nodes)[f.fd := an] else old(nodes)
      ensures fds.fds == if accept then old(fds.fds) + {f} else old(fds.fds)
      ensures fds.table == if accept then old(fds.table)[f.fd := f] else old(fds.table)
      ensures tree.nodes == if accept then old(tree.nodes) + {an} else old(tree.nodes)
    {
      hide Indexed, T.FdTable.Valid;
      var fatal := Index(an);
      ret := fds.RegisterTry(f, accept);
      if ret != 0 {
        Unindex(f.fd);
        assert nodes == old(nodes);
      }
    }

    /** `iv_fd_unregister`. */
    method Unregister(f: T.Fd)
      requires Valid() && f in fds.fds
      modifies this, fds, f, fds.fds`known, tree, tree.nodes
      ensures Valid() && nodes == old(nodes) - {f.fd} && f.fd !in fds.kernel
      ensures fds.fds == old(fds.fds) - {f} && fds.table == old(fds.table) - {f.fd}
      ensures tree.nodes == old(tree.nodes) - {old(nodes[f.fd])}
    {
      assert f.fd in fds.table;
      hide Indexed, T.FdTable.Valid;
      Unindex(f.fd);
      fds.Unregister(f);
    }

    /** An event in `iv_fd_dev_poll_poll`: the kernel only knows registered descriptors, so one is found. */
    method EventFor(fd: int) returns (n: Node?, fatal: bool)
      requires Valid() && fd in fds.kernel
      ensures !fatal && n == nodes[fd]
    {
      n := Find(tree, fd);
      fatal := n == null;
      ElementsAreNodes(tree.shape);
      OneNodePerKey(tree.Elements(), n, nodes[fd]);
    }
  }
}
