/**
 The intrusive AVL tree of `iv_avl.c`: nodes that hold their own child, parent
 and height fields, changed in place.  The ghost `shape` of a tree mirrors every
 field of every node; the methods are proved to turn one shape into another, and
 what the shapes mean is proved in `AvlShape`.
 */
module AvlTree {
  import opened AvlShape

  class Node {
    const key: int
    var left: Node?
    var right: Node?
    var parent: Node?
    var height: nat

    constructor (key: int)
      ensures this.key == key
    {
      this.key := key;
      left, right, parent, height := null, null, null, 0;
    }
  }

  type Shape = Tree<Node>
  type Path = Ctx<Node>

  /** The address of a child pointer, as `find_reference` returns it. */
  datatype Ref = RootRef | LeftRef(p: Node) | RightRef(p: Node)

  // ---------- Shapes and the heap ----------

  ghost function Root(t: Shape): Node? { if t.Leaf? then null else t.node }

  ghost function Parent(c: Path, top: Node?): Node? { if c.Top? then top else c.node }

  ghost function RefOf(c: Path): Ref {
    match c
    case Top => RootRef
    case InLeft(n, _, _, _) => LeftRef(n)
    case InRight(_, n, _, _) => RightRef(n)
  }

  ghost function Nodes(t: Shape): set<Node> {
    match t
    case Leaf => {}
    case Branch(l, n, _, r) => Nodes(l) + {n} + Nodes(r)
  }

  ghost function PathNodes(c: Path): set<Node> {
    match c
    case Top => {}
    case InLeft(n, _, r, up) => {n} + Nodes(r) + PathNodes(up)
    case InRight(l, n, _, up) => Nodes(l) + {n} + PathNodes(up)
  }

  /** No node occurs twice in a shape. */
  ghost predicate Sep(t: Shape) {
    match t
    case Leaf => true
    case Branch(l, n, _, r) =>
      && Sep(l) && Sep(r)
      && n !in Nodes(l) && n !in Nodes(r) && Nodes(l) !! Nodes(r)
  }

  ghost predicate SepPath(c: Path) {
    match c
    case Top => true
    case InLeft(n, _, r, up) =>
      && Sep(r) && SepPath(up)
      && n !in Nodes(r) && n !in PathNodes(up) && Nodes(r) !! PathNodes(up)
    case InRight(l, n, _, up) =>
      && Sep(l) && SepPath(up)
      && n !in Nodes(l) && n !in PathNodes(up) && Nodes(l) !! PathNodes(up)
  }

  /** The fields of the nodes of `t` are what `t` says, and parent links mirror child links. */
  ghost predicate Linked(t: Shape, p: Node?)
    reads Nodes(t)
  {
    match t
    case Leaf => true
    case Branch(l, n, h, r) =>
      && n.left == Root(l) && n.right == Root(r) && n.parent == p && n.height == h
      && Linked(l, n) && Linked(r, n)
  }

  /** The same for a path whose hole is taken by the node `hole`. */
  ghost predicate LinkedPath(c: Path, hole: Node?, top: Node?)
    reads PathNodes(c)
  {
    match c
    case Top => true
    case InLeft(n, h, r, up) =>
      && n.left == hole && n.right == Root(r) && n.parent == Parent(up, top) && n.height == h
      && Linked(r, n) && LinkedPath(up, n, top)
    case InRight(l, n, h, up) =>
      && n.left == Root(l) && n.right == hole && n.parent == Parent(up, top) && n.height == h
      && Linked(l, n) && LinkedPath(up, n, top)
  }

  lemma {:induction false} PlugNodes(c: Path, t: Shape)
    ensures Nodes(Plug(c, t)) == Nodes(t) + PathNodes(c)
    decreases c
  {
    match c
    case Top =>
    case InLeft(n, h, r, up) => PlugNodes(up, Branch(t, n, h, r));
    case InRight(l, n, h, up) => PlugNodes(up, Branch(l, n, h, t));
  }

  /** A shape only mentions nodes that exist; needed wherever a call leaves them alone. */
  lemma {:induction false} ShapeAllocated(t: Shape)
    ensures forall n :: n in Nodes(t) ==> allocated(n)
  {
    if t.Branch? {
      ShapeAllocated(t.left);
      ShapeAllocated(t.right);
    }
  }

  lemma {:induction false} PathAllocated(c: Path)
    ensures forall n :: n in PathNodes(c) ==> allocated(n)
    decreases c
  {
    if !c.Top? {
      PathAllocated(c.up);
      ShapeAllocated(if c.InLeft? then c.right else c.left);
    }
  }

  lemma {:induction false} RenameNodes(inner: Path, outer: Path, n: Node)
    requires !outer.Top? && SepPath(Compose(inner, outer))
    ensures PathNodes(Compose(inner, Rename(outer, n))) == PathNodes(Compose(inner, outer)) - {outer.node} + {n}
    ensures outer.node in PathNodes(Compose(inner, outer))
    decreases inner
  {
    if !inner.Top? {
      RenameNodes(inner.up, outer, n);
    }
  }

  // ---------- Key order ----------

  ghost predicate Sorted(s: seq<Node>) {
    forall i, j :: 0 <= i < j < |s| ==> s[i].key < s[j].key
  }

  ghost predicate AllBelow(s: seq<Node>, key: int) {
    forall i :: 0 <= i < |s| ==> s[i].key < key
  }

  ghost predicate AllAbove(s: seq<Node>, key: int) {
    forall i :: 0 <= i < |s| ==> key < s[i].key
  }

  ghost predicate HasKey(s: seq<Node>, key: int) {
    exists n :: n in s && n.key == key
  }

  /** A node with this key belongs in the hole of `c`. */
  ghost predicate Between(c: Path, key: int) {
    AllBelow(Before(c), key) && AllAbove(After(c), key)
  }

  lemma SplitSorted(a: seq<Node>, l: seq<Node>, n: Node, r: seq<Node>, z: seq<Node>)
    requires Sorted(a + (l + [n] + r) + z)
    ensures AllBelow(a + l, n.key) && AllAbove(r + z, n.key)
    ensures n in a + (l + [n] + r) + z
  {
    var s := a + (l + [n] + r) + z;
    var k := |a| + |l|;
    assert s[k] == n;
    assert s[..k] == a + l;
    assert s[k + 1..] == r + z;
  }

  lemma BoundStep(s: seq<Node>, n: Node, key: int)
    ensures AllAbove(s, n.key) && key < n.key ==> AllAbove([n] + s, key)
    ensures AllBelow(s, n.key) && key > n.key ==> AllBelow(s + [n], key)
  {
  }

  /** One comparison with the node at the top of `t` settles where the key belongs. */
  lemma {:induction false} CompareStep(c: Path, t: Shape, key: int)
    requires t.Branch? && Sorted(Inorder(Plug(c, t))) && Between(c, key)
    ensures key < t.node.key ==> Between(InLeft(t.node, t.h, t.right, c), key)
    ensures key > t.node.key ==> Between(InRight(t.left, t.node, t.h, c), key)
    ensures key == t.node.key ==> HasKey(Inorder(Plug(c, t)), key)
  {
    PlugInorder(c, t);
    var a, l, n, r, z := Before(c), Inorder(t.left), t.node, Inorder(t.right), After(c);
    assert Inorder(Plug(c, t)) == a + (l + [n] + r) + z;
    SplitSorted(a, l, n, r, z);
    hide Sorted;
    if key < n.key {
      assert [n] + r + z == [n] + (r + z);
      BoundStep(r + z, n, key);
    } else if key > n.key {
      assert a + l + [n] == (a + l) + [n];
      BoundStep(a + l, n, key);
    }
  }

  lemma {:induction false} NoPlace(c: Path, key: int)
    requires Between(c, key)
    ensures !HasKey(Inorder(Plug(c, Leaf)), key)
  {
    PlugInorder(c, Leaf);
  }

  /** `s` with `n` added somewhere. */
  ghost predicate Inserted(s: seq<Node>, n: Node, s': seq<Node>) {
    exists i :: 0 <= i <= |s| && s' == s[..i] + [n] + s[i..]
  }

  lemma InsertSorted(a: seq<Node>, n: Node, z: seq<Node>)
    requires Sorted(a + z) && AllBelow(a, n.key) && AllAbove(z, n.key)
    ensures Sorted(a + [n] + z) && Inserted(a + z, n, a + [n] + z)
  {
    var s := a + z;
    assert s[..|a|] == a && s[|a|..] == z;
    forall i, j | 0 <= i < j < |a + [n] + z|
      ensures (a + [n] + z)[i].key < (a + [n] + z)[j].key
    {
      var i', j' := if i < |a| then i else i - 1, if j < |a| then j else j - 1;
      assert i != |a| && j != |a| ==> s[i'].key < s[j'].key;
    }
  }

  lemma {:induction false} InsertedShape(c: Path, an: Node)
    requires Avl(Plug(c, Leaf)) && Sorted(Inorder(Plug(c, Leaf))) && Between(c, an.key)
    requires Size(Plug(c, Leaf)) + 1 < ADDRESS_SPACE
    ensures var t := AvlShape.RebalancePath(c, Branch(Leaf, an, 1, Leaf));
      && Avl(t) && Sorted(Inorder(t)) && Size(t) < ADDRESS_SPACE
      && Inserted(Inorder(Plug(c, Leaf)), an, Inorder(t))
  {
    hide Sorted, Inserted, AllBelow, AllAbove;
    PlugInorder(c, Leaf);
    PlugAvl(c, Leaf);
    RebalancePathAvl(c, Branch(Leaf, an, 1, Leaf), 0);
    assert Inorder(Branch(Leaf, an, 1, Leaf)) == [an];
    assert Before(c) + Inorder(Leaf) + After(c) == Before(c) + After(c);
    InsertSorted(Before(c), an, After(c));
  }

  /** `s` with `n` taken out. */
  ghost predicate Removed(s: seq<Node>, n: Node, s': seq<Node>) {
    exists i :: 0 <= i < |s| && s[i] == n && s' == s[..i] + s[i + 1..]
  }

  lemma RemoveSorted(a: seq<Node>, n: Node, z: seq<Node>)
    requires Sorted(a + [n] + z)
    ensures Sorted(a + z) && Removed(a + [n] + z, n, a + z)
  {
    var s := a + [n] + z;
    assert s[|a|] == n && s[..|a|] == a && s[|a| + 1..] == z;
    forall i, j | 0 <= i < j < |a + z|
      ensures (a + z)[i].key < (a + z)[j].key
    {
      var i', j' := if i < |a| then i else i + 1, if j < |a| then j else j + 1;
      assert s[i'].key < s[j'].key;
    }
  }

  /** What comes before and after the top node of a subtree, in the whole tree. */
  lemma {:induction false} SplitAt(c: Path, t: Shape)
    requires t.Branch?
    ensures Inorder(Plug(c, t)) == (Before(c) + Inorder(t.left)) + [t.node] + (Inorder(t.right) + After(c))
    ensures Size(Plug(c, t)) == Size(t.left) + 1 + Size(t.right) + CtxSize(c)
  {
    PlugInorder(c, t);
    Regroup(Before(c), Inorder(t.left), t.node, Inorder(t.right), After(c));
  }

  ghost function FirstOf(s: seq<Node>): Node? { if s == [] then null else s[0] }

  ghost function SecondOf(s: seq<Node>): Node? { if |s| < 2 then null else s[1] }

  ghost function LastOf(s: seq<Node>): Node? { if s == [] then null else s[|s| - 1] }

  /** `n` is the node after `an` in `s`, or null if `an` is the last. */
  ghost predicate Follows(s: seq<Node>, an: Node, n: Node?) {
    exists i :: 0 <= i < |s| && s[i] == an && n == FirstOf(s[i + 1..])
  }

  /** `n` is the node before `an` in `s`, or null if `an` is the first. */
  ghost predicate Precedes(s: seq<Node>, n: Node?, an: Node) {
    exists i :: 0 <= i < |s| && s[i] == an && n == LastOf(s[..i])
  }

  lemma Neighbours(a: seq<Node>, n: Node, z: seq<Node>)
    ensures Follows(a + [n] + z, n, FirstOf(z))
    ensures Precedes(a + [n] + z, LastOf(a), n)
  {
    var s := a + [n] + z;
    assert s[|a|] == n && s[|a| + 1..] == z && s[..|a|] == a;
  }

  /** On interior nodes, successor and predecessor undo each other. */
  lemma NextPrevInverse(s: seq<Node>, a: Node, b: Node)
    requires Sorted(s)
    ensures Follows(s, a, b) <==> Precedes(s, a, b)
  {
    if Follows(s, a, b) {
      var i :| 0 <= i < |s| && s[i] == a && b == FirstOf(s[i + 1..]);
      assert s[i + 1] == b && LastOf(s[..i + 1]) == a;
    }
    if Precedes(s, a, b) {
      var i :| 0 <= i < |s| && s[i] == b && a == LastOf(s[..i]);
      assert s[i - 1] == a && FirstOf(s[i - 1 + 1..]) == b;
    }
  }

  lemma {:induction false} ElementsAreNodes(t: Shape)
    ensures forall n :: n in Inorder(t) <==> n in Nodes(t)
  {
    if t.Branch? {
      ElementsAreNodes(t.left);
      ElementsAreNodes(t.right);
    }
  }

  lemma {:induction false} InWalk(t: Shape, before: seq<Node>, an: Node, after: seq<Node>)
    requires Inorder(t) == before + [an] + after
    ensures an in Nodes(t)
  {
    ElementsAreNodes(t);
    assert Inorder(t)[|before|] == an;
  }

  /** In a sorted sequence a node has one neighbour, whichever way its position is found. */
  lemma NextIsUnique(s: seq<Node>, k: nat, n: Node?)
    requires Sorted(s) && k < |s| && Follows(s, s[k], n)
    ensures n == FirstOf(s[k + 1..])
  {
    var i :| 0 <= i < |s| && s[i] == s[k] && n == FirstOf(s[i + 1..]);
    assert i == k;
  }

  /** The nodes of `s` that are not in `doomed`. */
  ghost function Keep(s: seq<Node>, doomed: set<Node>): seq<Node> {
    if s == [] then []
    else if s[|s| - 1] in doomed then Keep(s[..|s| - 1], doomed)
    else Keep(s[..|s| - 1], doomed) + [s[|s| - 1]]
  }

  /** The sequences of one round of a walk that deletes as it goes. */
  lemma WalkStep(visited: seq<Node>, rest: seq<Node>, doomed: set<Node>)
    requires rest != []
    ensures var kept, n, after := Keep(visited, doomed), rest[0], rest[1..];
      && visited + rest == (visited + [n]) + after
      && kept + rest == kept + [n] + after
      && Keep(visited + [n], doomed) + after == if n in doomed then kept + after else kept + [n] + after
  {
    assert rest == [rest[0]] + rest[1..];
    assert (visited + [rest[0]])[..|visited|] == visited;
  }

  lemma RemovedIsUnique(a: seq<Node>, n: Node, z: seq<Node>, s': seq<Node>)
    requires Sorted(a + [n] + z) && Removed(a + [n] + z, n, s')
    ensures s' == a + z
  {
    var s := a + [n] + z;
    var i :| 0 <= i < |s| && s[i] == n && s' == s[..i] + s[i + 1..];
    assert s[|a|] == n;
    assert i == |a|;
    assert s[..i] == a && s[i + 1..] == z;
  }

  // ---------- Taking a node out ----------

  /**
   The top node of `t`, seen from `c`, has been taken out, and what changed is the
   subtree `t'` seen from `c'`: it is one level lower than the heights on the path say.
   */
  ghost predicate Spliced(c: Path, t: Shape, c': Path, t': Shape) {
    && t.Branch? && Avl(t') && AvlCtx(c', H(t') + 1)
    && Before(c') + Inorder(t') + After(c') == (Before(c) + Inorder(t.left)) + (Inorder(t.right) + After(c))
    && Size(t') + CtxSize(c') == Size(t.left) + Size(t.right) + CtxSize(c)
  }

  lemma Reassemble<T>(a: seq<T>, b: seq<T>, c: seq<T>, d: T, e: seq<T>, f: seq<T>)
    ensures (a + b) + c + ([d] + e + f) == (a + (b + (c + [d]))) + (e + f)
    ensures (a + b + [d]) + c + (e + f) == (a + b) + ((([d] + c) + e) + f)
  {
  }

  lemma {:induction false} SplicedHeights(c: Path, t: Shape, outer: Path, inner: Path, v: Shape, n: Node)
    requires !outer.Top? && outer.up == c && Avl(Plug(c, t)) && t == Fill(outer, Plug(inner, v))
    requires v.Branch?
    ensures Avl(v) && AvlCtx(Compose(inner, Rename(outer, n)), H(v))
  {
    PlugCompose(inner, outer, v);
    PlugAvl(Compose(inner, outer), v);
    RenameAvl(inner, outer, n, H(v));
  }

  lemma {:induction false} SplicedLeftOrder(c: Path, t: Shape, inner: Path, v: Shape)
    requires t.Branch? && Plug(inner, v) == t.left && v.Branch? && v.right.Leaf? && After(inner) == []
    ensures var c' := Compose(inner, InLeft(v.node, t.h, t.right, c));
      && Before(c') + Inorder(v.left) + After(c') == (Before(c) + Inorder(t.left)) + (Inorder(t.right) + After(c))
      && Size(v.left) + CtxSize(c') == Size(t.left) + Size(t.right) + CtxSize(c)
  {
    ComposeOrder(inner, InLeft(v.node, t.h, t.right, c));
    PlugInorder(inner, v);
    assert Inorder(v) == Inorder(v.left) + [v.node];
    assert Inorder(t.left) == Before(inner) + (Inorder(v.left) + [v.node]);
    Reassemble(Before(c), Before(inner), Inorder(v.left), v.node, Inorder(t.right), After(c));
  }

  lemma {:induction false} SplicedRightOrder(c: Path, t: Shape, inner: Path, v: Shape)
    requires t.Branch? && Plug(inner, v) == t.right && v.Branch? && v.left.Leaf? && Before(inner) == []
    ensures var c' := Compose(inner, InRight(t.left, v.node, t.h, c));
      && Before(c') + Inorder(v.right) + After(c') == (Before(c) + Inorder(t.left)) + (Inorder(t.right) + After(c))
      && Size(v.right) + CtxSize(c') == Size(t.left) + Size(t.right) + CtxSize(c)
  {
    ComposeOrder(inner, InRight(t.left, v.node, t.h, c));
    PlugInorder(inner, v);
    assert Inorder(v) == [v.node] + Inorder(v.right);
    assert Inorder(t.right) == ([v.node] + Inorder(v.right)) + After(inner);
    Reassemble(Before(c), Inorder(t.left), Inorder(v.right), v.node, After(inner), After(c));
  }

  /** The last node of the left subtree takes the place of the top node. */
  lemma {:induction false} SplicedLeft(c: Path, t: Shape, inner: Path, v: Shape)
    requires t.Branch? && Avl(Plug(c, t)) && Plug(inner, v) == t.left
    requires v.Branch? && v.right.Leaf? && After(inner) == []
    ensures Spliced(c, t, Compose(inner, InLeft(v.node, t.h, t.right, c)), v.left)
  {
    SplicedHeights(c, t, InLeft(t.node, t.h, t.right, c), inner, v, v.node);
    SplicedLeftOrder(c, t, inner, v);
  }

  /** The first node of the right subtree takes the place of the top node. */
  lemma {:induction false} SplicedRight(c: Path, t: Shape, inner: Path, v: Shape)
    requires t.Branch? && Avl(Plug(c, t)) && Plug(inner, v) == t.right
    requires v.Branch? && v.left.Leaf? && Before(inner) == []
    ensures Spliced(c, t, Compose(inner, InRight(t.left, v.node, t.h, c)), v.right)
  {
    SplicedHeights(c, t, InRight(t.left, t.node, t.h, c), inner, v, v.node);
    SplicedRightOrder(c, t, inner, v);
  }

  lemma {:induction false} SplicedLeaf(c: Path, t: Shape)
    requires t.Branch? && t.left.Leaf? && t.right.Leaf? && Avl(Plug(c, t))
    ensures Spliced(c, t, c, Leaf)
  {
    PlugAvl(c, t);
  }

  lemma {:induction false} DeletedShape(c: Path, t: Shape, c': Path, t': Shape)
    requires Spliced(c, t, c', t')
    requires Sorted(Inorder(Plug(c, t))) && Size(Plug(c, t)) < ADDRESS_SPACE
    ensures var s := AvlShape.RebalancePath(c', t');
      && Avl(s) && Sorted(Inorder(s)) && Size(s) < ADDRESS_SPACE
      && Removed(Inorder(Plug(c, t)), t.node, Inorder(s))
  {
    SplitAt(c, t);
    RebalancePathAvl(c', t', H(t') + 1);
    RemoveSorted(Before(c) + Inorder(t.left), t.node, Inorder(t.right) + After(c));
  }

  /** Every node of a shape is the top of some subtree of it. */
  lemma {:induction false} Locate(outer: Path, s: Shape, an: Node) returns (c: Path, t: Shape)
    requires an in Nodes(s)
    ensures Plug(c, t) == Plug(outer, s) && t.Branch? && t.node == an
    decreases s
  {
    if s.node == an {
      return outer, s;
    } else if an in Nodes(s.left) {
      c, t := Locate(InLeft(s.node, s.h, s.right, outer), s.left, an);
    } else {
      c, t := Locate(InRight(s.left, s.node, s.h, outer), s.right, an);
    }
  }

  // ---------- The tree ----------

  function HeightOf(an: Node?): nat
    reads an
  {
    if an != null then an.height else 0
  }

  function BalanceOf(an: Node): int
    reads an, an.left, an.right
  {
    HeightOf(an.right) - HeightOf(an.left)
  }

  lemma {:induction false} BalanceIsStored(t: Shape, p: Node?)
    requires t.Branch? && Linked(t, p)
    ensures BalanceOf(t.node) == Balance(t)
  {
    assert Linked(t.left, t.node) && Linked(t.right, t.node);
  }

  method RecalcHeight(an: Node, ghost l: Shape, ghost r: Shape, ghost h: nat, ghost p: Node?)
    requires Sep(Branch(l, an, h, r)) && Linked(Branch(l, an, h, r), p)
    modifies an`height
    ensures Linked(Recalc(Branch(l, an, h, r)), p)
  {
    var hl := HeightOf(an.left);
    var hr := HeightOf(an.right);
    an.height := (1 + (if hl > hr then hl else hr)) % UINT8;
  }

  /** Hang the subtree at `an`, if there is one, under another parent. */
  method SetParent(an: Node?, p: Node?, ghost t: Shape, ghost was: Node?)
    requires an == Root(t) && Sep(t) && Linked(t, was)
    modifies (if an == null then {} else {an})`parent
    ensures Linked(t, p)
  {
    if an != null {
      an.parent := p;
    }
  }

  /** Give `an` a new left subtree, taken from under the node `was`. */
  method AdoptLeft(an: Node, child: Node?, ghost l: Shape, ghost r: Shape, ghost was: Node?)
    requires child == Root(l) && an.right == Root(r) && Linked(l, was) && Linked(r, an)
    requires Sep(Branch(l, an, 0, r))
    modifies an`left, an`height, (if child == null then {} else {child})`parent
    ensures Linked(Recalc(Branch(l, an, 0, r)), an.parent)
  {
    an.left := child;
    if child != null {
      child.parent := an;
    }
    RecalcHeight(an, l, r, an.height, an.parent);
  }

  /** Give `an` a new right subtree, taken from under the node `was`. */
  method AdoptRight(an: Node, child: Node?, ghost l: Shape, ghost r: Shape, ghost was: Node?)
    requires an.left == Root(l) && child == Root(r) && Linked(l, an) && Linked(r, was)
    requires Sep(Branch(l, an, 0, r))
    modifies an`right, an`height, (if child == null then {} else {child})`parent
    ensures Linked(Recalc(Branch(l, an, 0, r)), an.parent)
  {
    an.right := child;
    if child != null {
      child.parent := an;
    }
    RecalcHeight(an, l, r, an.height, an.parent);
  }

  /** Move the children, the parent and the height of `an` to `victim`. */
  method TakeOver(an: Node, victim: Node, ghost t: Shape, ghost p: Node?)
    requires t.Branch? && t.node == an && Sep(t) && Linked(t, p) && victim !in Nodes(t)
    modifies victim, Nodes(t)
    ensures Linked(t.(node := victim), p)
  {
    ShapeAllocated(t.left);
    ShapeAllocated(t.right);
    victim.left := an.left;
    victim.right := an.right;
    victim.parent := an.parent;
    victim.height := an.height;
    assert Linked(t.left, an) && Linked(t.right, an);
    SetParent(victim.left, victim, t.left, an);
    SetParent(victim.right, victim, t.right, an);
  }

  /** The leftmost node below `top`. */
  method First(top: Node, ghost t0: Shape, ghost p0: Node?) returns (an: Node)
    requires Linked(t0, p0) && Root(t0) == top
    ensures an == FirstOf(Inorder(t0))
  {
    ghost var t, p := t0, p0;
    an := top;
    while an.left != null
      invariant Linked(t, p) && Root(t) == an
      invariant FirstOf(Inorder(t0)) == FirstOf(Inorder(t))
      decreases t
    {
      an := an.left;
      t, p := t.left, t.node;
    }
  }

  /** The rightmost node below `top`. */
  method Last(top: Node, ghost t0: Shape, ghost p0: Node?) returns (an: Node)
    requires Linked(t0, p0) && Root(t0) == top
    ensures an == LastOf(Inorder(t0))
  {
    ghost var t, p := t0, p0;
    an := top;
    while an.right != null
      invariant Linked(t, p) && Root(t) == an
      invariant LastOf(Inorder(t0)) == LastOf(Inorder(t))
      decreases t
    {
      an := an.right;
      t, p := t.right, t.node;
    }
  }

  // ---------- Rotations ----------

  lemma {:induction false} RotateLeftSep(t: Shape)
    requires t.Branch? && t.right.Branch? && Sep(t)
    ensures Sep(AvlShape.RotateLeft(t)) && Nodes(AvlShape.RotateLeft(t)) == Nodes(t)
  {
    assert Sep(t.right);
  }

  lemma {:induction false} RotateRightSep(t: Shape)
    requires t.Branch? && t.left.Branch? && Sep(t)
    ensures Sep(AvlShape.RotateRight(t)) && Nodes(AvlShape.RotateRight(t)) == Nodes(t)
  {
    assert Sep(t.left);
  }

  lemma {:induction false} RotateLeftRightSep(t: Shape)
    requires t.Branch? && t.left.Branch? && t.left.right.Branch? && Sep(t)
    ensures Sep(AvlShape.RotateLeftRight(t)) && Nodes(AvlShape.RotateLeftRight(t)) == Nodes(t)
  {
    var s := t.(left := AvlShape.RotateLeft(t.left));
    RotateLeftSep(t.left);
    RotateRightSep(s);
    assert AvlShape.RotateRight(s) == AvlShape.RotateLeftRight(t);
  }

  lemma {:induction false} RotateRightLeftSep(t: Shape)
    requires t.Branch? && t.right.Branch? && t.right.left.Branch? && Sep(t)
    ensures Sep(AvlShape.RotateRightLeft(t)) && Nodes(AvlShape.RotateRightLeft(t)) == Nodes(t)
  {
    var s := t.(right := AvlShape.RotateRight(t.right));
    RotateRightSep(t.right);
    RotateLeftSep(s);
    assert AvlShape.RotateLeft(s) == AvlShape.RotateRightLeft(t);
  }

  /** The rewiring of a left rotation; the reference to the subtree is the caller's to update. */
  method PivotLeft(b: Node, ghost t: Shape, ghost p: Node?) returns (d: Node)
    requires t.Branch? && t.right.Branch? && t.node == b
    requires Sep(t) && Linked(t, p)
    modifies Nodes(t)
    ensures var t' := AvlShape.RotateLeft(t);
      Sep(t') && Linked(t', p) && Root(t') == d && Nodes(t') == Nodes(t)
  {
    ghost var A, C, E := t.left, t.right.left, t.right.right;
    assert Sep(t.right) && Linked(t.right, b);
    RotateLeftSep(t);
    ShapeAllocated(t);
    d := b.right;

    AdoptRight(b, d.left, A, C, d);
    ghost var B := Recalc(t.(right := C));

    d.left := b;
    d.parent := b.parent;
    b.parent := d;
    assert Linked(B, d);
    RecalcHeight(d, B, E, d.height, d.parent);
  }

  method PivotRight(d: Node, ghost t: Shape, ghost p: Node?) returns (b: Node)
    requires t.Branch? && t.left.Branch? && t.node == d
    requires Sep(t) && Linked(t, p)
    modifies Nodes(t)
    ensures var t' := AvlShape.RotateRight(t);
      Sep(t') && Linked(t', p) && Root(t') == b && Nodes(t') == Nodes(t)
  {
    ghost var A, C, E := t.left.left, t.left.right, t.right;
    assert Sep(t.left) && Linked(t.left, d);
    RotateRightSep(t);
    ShapeAllocated(t);
    b := d.left;

    AdoptLeft(d, b.right, C, E, b);
    ghost var D := Recalc(t.(left := C));

    b.right := d;
    b.parent := d.parent;
    d.parent := b;
    assert Linked(D, b);
    RecalcHeight(b, A, D, b.height, b.parent);
  }

  /** Make `b` and `f` the children of `d`, and `p` its parent. */
  method Crown(d: Node, b: Node, f: Node, p: Node?, ghost B: Shape, ghost F: Shape, ghost pb: Node?, ghost pf: Node?)
    requires Root(B) == b && Root(F) == f && Linked(B, pb) && Linked(F, pf)
    requires Sep(Branch(B, d, 0, F))
    modifies d, b`parent, f`parent
    ensures Linked(Recalc(Branch(B, d, 0, F)), p)
  {
    ShapeAllocated(B);
    ShapeAllocated(F);
    d.left := b;
    d.right := f;
    d.parent := p;
    SetParent(b, d, B, pb);
    SetParent(f, d, F, pf);
    RecalcHeight(d, B, F, d.height, p);
  }

  /**
   The rewiring shared by the two double rotations: `d` gives its left subtree to
   `b` and its right one to `f`, and becomes the parent of both.
   */
  method Lift(b: Node, d: Node, f: Node, p: Node?, ghost A: Shape, ghost C: Shape, ghost E: Shape, ghost G: Shape)
    requires b.left == Root(A) && Linked(A, b) && f.right == Root(G) && Linked(G, f)
    requires d.left == Root(C) && Linked(C, d) && d.right == Root(E) && Linked(E, d)
    requires Sep(Branch(Branch(A, b, 0, C), d, 0, Branch(E, f, 0, G)))
    modifies b, d, f, Nodes(C), Nodes(E)
    ensures Linked(Recalc(Branch(Recalc(Branch(A, b, 0, C)), d, 0, Recalc(Branch(E, f, 0, G)))), p)
  {
    ghost var B, F := Recalc(Branch(A, b, 0, C)), Recalc(Branch(E, f, 0, G));
    assert Sep(B) && Sep(F);
    ShapeAllocated(B);
    ShapeAllocated(E);
    ShapeAllocated(G);
    AdoptRight(b, d.left, A, C, d);
    AdoptLeft(f, d.right, E, G, d);
    assert Linked(B, b.parent);
    Crown(d, b, f, p, B, F, b.parent, f.parent);
  }

  method PivotLeftRight(f: Node, ghost t: Shape, ghost p: Node?) returns (d: Node)
    requires t.Branch? && t.left.Branch? && t.left.right.Branch? && t.node == f
    requires Sep(t) && Linked(t, p)
    modifies Nodes(t)
    ensures var t' := AvlShape.RotateLeftRight(t);
      Sep(t') && Linked(t', p) && Root(t') == d && Nodes(t') == Nodes(t)
  {
    assert Sep(t.left) && Linked(t.left, f);
    assert Sep(t.left.right) && Linked(t.left.right, t.left.node);
    RotateLeftRightSep(t);
    var b := f.left;
    d := b.right;
    Lift(b, d, f, f.parent, t.left.left, t.left.right.left, t.left.right.right, t.right);
  }

  method PivotRightLeft(b: Node, ghost t: Shape, ghost p: Node?) returns (d: Node)
    requires t.Branch? && t.right.Branch? && t.right.left.Branch? && t.node == b
    requires Sep(t) && Linked(t, p)
    modifies Nodes(t)
    ensures var t' := AvlShape.RotateRightLeft(t);
      Sep(t') && Linked(t', p) && Root(t') == d && Nodes(t') == Nodes(t)
  {
    assert Sep(t.right) && Linked(t.right, b);
    assert Sep(t.right.left) && Linked(t.right.left, t.right.node);
    RotateRightLeftSep(t);
    var f := b.right;
    d := f.left;
    Lift(b, d, f, b.parent, t.left, t.right.left.left, t.right.left.right, t.right.right);
  }

  class AvlTree {
    var root: Node?
    ghost var shape: Shape
    ghost var nodes: set<Node>

    /** The root pointer of a tree whose hole, in context `c`, is taken by `hole`. */
    static ghost function RootOf(c: Path, hole: Node?): Node? {
      match c
      case Top => hole
      case InLeft(n, _, _, up) => RootOf(up, n)
      case InRight(_, n, _, up) => RootOf(up, n)
    }

    /** The heap holds the tree `Plug(c, t)`, seen from the subtree `t`. */
    ghost predicate At(c: Path, t: Shape)
      reads this, PathNodes(c), Nodes(t)
    {
      && root == RootOf(c, Root(t))
      && Sep(t) && SepPath(c) && Nodes(t) !! PathNodes(c)
      && Linked(t, Parent(c, null)) && LinkedPath(c, Root(t), null)
    }

    function Load(ref: Ref): Node?
      reads this, if ref.RootRef? then {} else {ref.p}
    {
      match ref
      case RootRef => root
      case LeftRef(p) => p.left
      case RightRef(p) => p.right
    }

    /** Overwrite the child pointer at the hole of `c`, which held a subtree with root `was`. */
    method Store(ref: Ref, an: Node?, ghost c: Path, ghost was: Node?)
      requires ref == RefOf(c) && SepPath(c)
      requires LinkedPath(c, was, null) && root == RootOf(c, was)
      modifies this`root, if c.Top? then {} else {c.node}
      ensures LinkedPath(c, an, null) && root == RootOf(c, an)
    {
      match ref
      case RootRef => root := an;
      case LeftRef(p) => p.left := an;
      case RightRef(p) => p.right := an;
    }

    method RotateLeft(ref: Ref, ghost c: Path, ghost t: Shape)
      requires ref == RefOf(c) && At(c, t)
      requires t.Branch? && t.right.Branch?
      modifies this`root, Nodes(t), PathNodes(c)
      ensures At(c, AvlShape.RotateLeft(t)) && Nodes(AvlShape.RotateLeft(t)) == Nodes(t)
    {
      PathAllocated(c);
      ShapeAllocated(t);
      var an := Load(ref);
      var top := PivotLeft(an, t, Parent(c, null));
      Store(ref, top, c, an);
    }

    method RotateRight(ref: Ref, ghost c: Path, ghost t: Shape)
      requires ref == RefOf(c) && At(c, t)
      requires t.Branch? && t.left.Branch?
      modifies this`root, Nodes(t), PathNodes(c)
      ensures At(c, AvlShape.RotateRight(t)) && Nodes(AvlShape.RotateRight(t)) == Nodes(t)
    {
      PathAllocated(c);
      ShapeAllocated(t);
      var an := Load(ref);
      var top := PivotRight(an, t, Parent(c, null));
      Store(ref, top, c, an);
    }

    method RotateLeftRight(ref: Ref, ghost c: Path, ghost t: Shape)
      requires ref == RefOf(c) && At(c, t)
      requires t.Branch? && t.left.Branch? && t.left.right.Branch?
      modifies this`root, Nodes(t), PathNodes(c)
      ensures At(c, AvlShape.RotateLeftRight(t)) && Nodes(AvlShape.RotateLeftRight(t)) == Nodes(t)
    {
      PathAllocated(c);
      ShapeAllocated(t);
      var an := Load(ref);
      var top := PivotLeftRight(an, t, Parent(c, null));
      Store(ref, top, c, an);
    }

    method RotateRightLeft(ref: Ref, ghost c: Path, ghost t: Shape)
      requires ref == RefOf(c) && At(c, t)
      requires t.Branch? && t.right.Branch? && t.right.left.Branch?
      modifies this`root, Nodes(t), PathNodes(c)
      ensures At(c, AvlShape.RotateRightLeft(t)) && Nodes(AvlShape.RotateRightLeft(t)) == Nodes(t)
    {
      PathAllocated(c);
      ShapeAllocated(t);
      var an := Load(ref);
      var top := PivotRightLeft(an, t, Parent(c, null));
      Store(ref, top, c, an);
    }

    method RebalanceNode(ref: Ref, ghost c: Path, ghost t: Shape)
      requires ref == RefOf(c) && At(c, t) && t.Branch?
      modifies this`root, Nodes(t), PathNodes(c)
      ensures At(c, AvlShape.RebalanceNode(t)) && Nodes(AvlShape.RebalanceNode(t)) == Nodes(t)
    {
      var an := Load(ref);
      BalanceIsStored(t, an.parent);
      var bal := BalanceOf(an);
      if bal == -2 {
        BalanceIsStored(t.left, an);
        if BalanceOf(an.left) <= 0 {
          RotateRight(ref, c, t);
        } else {
          RotateLeftRight(ref, c, t);
        }
      } else if bal == 2 {
        BalanceIsStored(t.right, an);
        if BalanceOf(an.right) < 0 {
          RotateRightLeft(ref, c, t);
        } else {
          RotateLeft(ref, c, t);
        }
      }
    }

    /** The child pointer that points to `an`. */
    function FindReference(an: Node, ghost c: Path, ghost t: Shape): (ref: Ref)
      requires At(c, t) && Root(t) == an
      reads this, PathNodes(c), Nodes(t), an.parent
      ensures ref == RefOf(c) && Load(ref) == an
    {
      if an.parent != null then
        if an.parent.left == an then LeftRef(an.parent) else RightRef(an.parent)
      else
        RootRef
    }

    /** Moving the view between a subtree and its parent. */
    lemma {:induction false} AtFill(c: Path, t: Shape)
      requires !c.Top?
      ensures At(c, t) <==> At(c.up, Fill(c, t))
      ensures Nodes(Fill(c, t)) + PathNodes(c.up) == Nodes(t) + PathNodes(c)
    {
    }

    /** Moving the view between a subtree and any tree around it. */
    lemma {:induction false} AtCompose(inner: Path, outer: Path, t: Shape)
      ensures At(Compose(inner, outer), t) <==> At(outer, Plug(inner, t))
      ensures Nodes(Plug(inner, t)) + PathNodes(outer) == Nodes(t) + PathNodes(Compose(inner, outer))
      decreases inner
    {
      if !inner.Top? {
        AtFill(Compose(inner, outer), t);
        AtCompose(inner.up, outer, Fill(inner, t));
      }
    }

    /** Moving the view between a subtree and the whole tree. */
    lemma {:induction false} AtPlug(c: Path, t: Shape)
      ensures At(c, t) <==> At(Top, Plug(c, t))
      ensures Nodes(Plug(c, t)) == Nodes(t) + PathNodes(c)
      decreases c
    {
      if !c.Top? {
        AtFill(c, t);
        AtPlug(c.up, Fill(c, t));
      }
    }

    /** One round of the loop below: repair `an` and report whether its subtree kept its height. */
    method RebalanceOnce(an: Node, ghost c: Path, ghost t: Shape) returns (top: Node, same: bool)
      requires At(c, t) && !c.Top? && c.node == an
      modifies this`root, Nodes(t), PathNodes(c)
      ensures At(c.up, RebalanceStep(c, t)) && top == Root(RebalanceStep(c, t))
      ensures Nodes(RebalanceStep(c, t)) + PathNodes(c.up) == Nodes(t) + PathNodes(c)
      ensures same <==> H(RebalanceStep(c, t)) == c.h
    {
      AtFill(c, t);
      ghost var b := Fill(c, t);
      PathAllocated(c.up);
      var oldHeight := an.height;
      RecalcHeight(an, b.left, b.right, b.h, Parent(c.up, null));
      assert At(c.up, Recalc(b));

      var ref := FindReference(an, c.up, Recalc(b));
      RebalanceNode(ref, c.up, Recalc(b));
      top := Load(ref);
      same := oldHeight == top.height;
    }

    /** Rebalance from `start` back to the root, or until a height comes out unchanged. */
    method RebalancePath(start: Node?, ghost c0: Path, ghost t0: Shape)
      requires At(c0, t0) && start == Parent(c0, null)
      modifies this`root, Nodes(t0), PathNodes(c0)
      ensures At(Top, AvlShape.RebalancePath(c0, t0))
      ensures Nodes(AvlShape.RebalancePath(c0, t0)) == Nodes(t0) + PathNodes(c0)
    {
      ghost var c, t := c0, t0;
      var an := start;
      while an != null
        invariant At(c, t) && an == Parent(c, null)
        invariant Nodes(t) + PathNodes(c) == Nodes(t0) + PathNodes(c0)
        invariant AvlShape.RebalancePath(c, t) == AvlShape.RebalancePath(c0, t0)
        decreases c
      {
        var top, same := RebalanceOnce(an, c, t);
        if same {
          AtPlug(c.up, RebalanceStep(c, t));
          return;
        }
        an := top.parent;
        c, t := c.up, RebalanceStep(c, t);
      }
    }

    // ---------- Public operations ----------

    ghost predicate Valid()
      reads this, nodes
    {
      && nodes == Nodes(shape)
      && At(Top, shape)
      && Avl(shape)
      && Sorted(Inorder(shape))
      && Size(shape) < ADDRESS_SPACE
    }

    /** The nodes of the tree, in order. */
    ghost function Elements(): seq<Node>
      reads this
    {
      Inorder(shape)
    }

    constructor ()
      ensures Valid() && Elements() == []
    {
      root, shape, nodes := null, Leaf, {};
    }

    /**
     Find the empty child pointer where a node with this key belongs, and the node
     holding it; or report that the key is taken.
     */
    method FindPlace(key: int) returns (found: bool, p: Node?, pp: Ref, ghost c: Path)
      requires Valid()
      ensures found <==> HasKey(Elements(), key)
      ensures !found ==> At(c, Leaf) && Plug(c, Leaf) == shape && Between(c, key)
      ensures !found ==> p == Parent(c, null) && pp == RefOf(c)
    {
      p, pp := null, RootRef;
      c := Top;
      ghost var t := shape;
      while Load(pp) != null
        invariant At(c, t) && Plug(c, t) == shape && Between(c, key)
        invariant p == Parent(c, null) && pp == RefOf(c)
        decreases t
      {
        p := Load(pp);
        CompareStep(c, t, key);
        if key < p.key {
          pp := LeftRef(p);
          c, t := InLeft(p, t.h, t.right, c), t.left;
          AtFill(c, t);
        } else if key > p.key {
          pp := RightRef(p);
          c, t := InRight(t.left, p, t.h, c), t.right;
          AtFill(c, t);
        } else {
          found := true;
          return;
        }
      }
      NoPlace(c, key);
      found := false;
    }

    /** Put `an` in the empty place described by `c`, and repair the path above it. */
    method Attach(an: Node, p: Node?, pp: Ref, ghost c: Path)
      requires At(c, Leaf) && p == Parent(c, null) && pp == RefOf(c) && an !in PathNodes(c)
      modifies this`root, an, PathNodes(c)
      ensures At(Top, AvlShape.RebalancePath(c, Branch(Leaf, an, 1, Leaf)))
      ensures Nodes(AvlShape.RebalancePath(c, Branch(Leaf, an, 1, Leaf))) == PathNodes(c) + {an}
    {
      an.left, an.right, an.parent, an.height := null, null, p, 1;
      assert LinkedPath(c, null, null);
      Store(pp, an, c, null);
      RebalancePath(p, c, Branch(Leaf, an, 1, Leaf));
    }

    /** A node whose key is not in the tree is not in it itself. */
    lemma NewKeyNewNode(an: Node)
      requires nodes == Nodes(shape) && !HasKey(Elements(), an.key)
      ensures an !in nodes
    {
      ElementsAreNodes(shape);
    }

    /**
     Insert `an` in key order, unless a node with an equal key is in the tree:
     then nothing changes at all.
     */
    method Insert(an: Node) returns (ret: int)
      requires Valid() && Size(shape) + 1 < ADDRESS_SPACE
      modifies this, an, nodes
      ensures Valid()
      ensures ret == (if HasKey(old(Elements()), an.key) then -1 else 0)
      ensures ret == -1 ==> unchanged(this) && unchanged(an)
      ensures ret == 0 ==> Inserted(old(Elements()), an, Elements())
      ensures ret == 0 ==> nodes == old(nodes) + {an}
    {
      var found, p, pp, c := FindPlace(an.key);
      if found {
        return -1;
      }
      NewKeyNewNode(an);
      InsertedShape(c, an);
      PlugNodes(c, Leaf);
      Attach(an, p, pp, c);
      shape := AvlShape.RebalancePath(c, Branch(Leaf, an, 1, Leaf));
      nodes := Nodes(shape);
      return 0;
    }

    /** Put a child of `an`, whose other child is missing, in the place of `an`. */
    method Bypass(an: Node, child: Node?, ghost c: Path, ghost t: Shape, ghost sub: Shape)
      requires At(c, t) && t.Branch? && t.node == an && child == Root(sub)
      requires (t.right.Leaf? && sub == t.left) || (t.left.Leaf? && sub == t.right)
      modifies this`root, Nodes(t), PathNodes(c)
      ensures At(c, sub) && an.parent == Parent(c, null)
    {
      PathAllocated(c);
      ShapeAllocated(t);
      assert Linked(sub, an) && Sep(sub);
      var ref := FindReference(an, c, t);
      Store(ref, child, c, an);
      if child != null {
        child.parent := an.parent;
      }
    }

    /**
     Unlink the last node of the subtree `l`, whose root is `top`: its left child,
     if any, takes its place.  The heights above it are not touched.
     */
    method UnlinkMax(top: Node, ghost outer: Path, ghost l: Shape)
      returns (victim: Node, ghost inner: Path, ghost v: Shape)
      requires At(outer, l) && Root(l) == top
      modifies this`root, Nodes(l), PathNodes(outer)
      ensures v.Branch? && v.node == victim && v.right.Leaf? && Plug(inner, v) == l && After(inner) == []
      ensures At(Compose(inner, outer), v.left)
      ensures victim.parent == Parent(Compose(inner, outer), null)
      ensures victim !in Nodes(v.left) + PathNodes(Compose(inner, outer))
      ensures Nodes(v.left) + PathNodes(Compose(inner, outer)) + {victim} == Nodes(l) + PathNodes(outer)
    {
      victim, inner, v := top, Top, l;
      while victim.right != null
        invariant v.Branch? && v.node == victim && Plug(inner, v) == l && After(inner) == []
        invariant At(Compose(inner, outer), v)
        decreases v
      {
        victim := victim.right;
        inner, v := InRight(v.left, v.node, v.h, inner), v.right;
        AtFill(Compose(inner, outer), v);
      }
      AtCompose(inner, outer, v);
      Bypass(victim, victim.left, Compose(inner, outer), v, v.left);
    }

    /** The mirror image: unlink the first node of the subtree `r`. */
    method UnlinkMin(top: Node, ghost outer: Path, ghost r: Shape)
      returns (victim: Node, ghost inner: Path, ghost v: Shape)
      requires At(outer, r) && Root(r) == top
      modifies this`root, Nodes(r), PathNodes(outer)
      ensures v.Branch? && v.node == victim && v.left.Leaf? && Plug(inner, v) == r && Before(inner) == []
      ensures At(Compose(inner, outer), v.right)
      ensures victim.parent == Parent(Compose(inner, outer), null)
      ensures victim !in Nodes(v.right) + PathNodes(Compose(inner, outer))
      ensures Nodes(v.right) + PathNodes(Compose(inner, outer)) + {victim} == Nodes(r) + PathNodes(outer)
    {
      victim, inner, v := top, Top, r;
      while victim.left != null
        invariant v.Branch? && v.node == victim && Plug(inner, v) == r && Before(inner) == []
        invariant At(Compose(inner, outer), v)
        decreases v
      {
        victim := victim.left;
        inner, v := InLeft(v.node, v.h, v.right, inner), v.left;
        AtFill(Compose(inner, outer), v);
      }
      AtCompose(inner, outer, v);
      Bypass(victim, victim.right, Compose(inner, outer), v, v.right);
    }

    /** Put `victim` in the place of `an`, with the height and the children of `an`. */
    method Supplant(an: Node, victim: Node, ghost c: Path, ghost t: Shape)
      requires At(c, t) && t.Branch? && t.node == an && victim !in Nodes(t) + PathNodes(c)
      modifies this`root, victim, Nodes(t), PathNodes(c)
      ensures At(c, t.(node := victim))
    {
      PathAllocated(c);
      ShapeAllocated(t);
      var ref := FindReference(an, c, t);
      Store(ref, victim, c, an);
      TakeOver(an, victim, t, Parent(c, null));
    }

    /** Replace `an`, which has a child, by the last node on its left or the first on its right. */
    method DeleteNonleaf(an: Node, ghost c: Path, ghost t: Shape)
      returns (p: Node?, ghost c': Path, ghost t': Shape)
      requires At(c, t) && t.Branch? && t.node == an && Avl(Plug(c, t))
      requires t.left.Branch? || t.right.Branch?
      modifies this`root, Nodes(t), PathNodes(c)
      ensures At(c', t') && p == Parent(c', null) && Spliced(c, t, c', t')
      ensures Nodes(t') + PathNodes(c') == Nodes(t) + PathNodes(c) - {an}
    {
      PlugAvl(c, t);
      assert Linked(t.left, an) && Linked(t.right, an);
      if HeightOf(an.left) > HeightOf(an.right) {
        p, c', t' := DeleteByMax(an, c, t);
      } else {
        p, c', t' := DeleteByMin(an, c, t);
      }
    }

    /** The two view changes that a relocated node goes through, in one. */
    lemma {:induction false} AtInner(inner: Path, outer: Path, t: Shape)
      requires !outer.Top?
      ensures At(Compose(inner, outer), t) <==> At(outer.up, Fill(outer, Plug(inner, t)))
      ensures Nodes(Fill(outer, Plug(inner, t))) + PathNodes(outer.up) == Nodes(t) + PathNodes(Compose(inner, outer))
    {
      AtCompose(inner, outer, t);
      AtFill(outer, Plug(inner, t));
    }

    /** Put `victim` in the place of `an`, and find where the rebalancing has to start. */
    method Relocate(an: Node, victim: Node, ghost inner: Path, ghost outer: Path, ghost t: Shape)
      returns (p: Node)
      requires !outer.Top? && outer.node == an && At(Compose(inner, outer), t)
      requires victim.parent == Parent(Compose(inner, outer), null)
      requires victim !in Nodes(t) + PathNodes(Compose(inner, outer))
      requires !inner.Top? ==> inner.node != an
      modifies this`root, victim, Nodes(t), PathNodes(Compose(inner, outer))
      ensures At(Compose(inner, Rename(outer, victim)), t)
      ensures p == Parent(Compose(inner, Rename(outer, victim)), null)
      ensures PathNodes(Compose(inner, Rename(outer, victim))) == PathNodes(Compose(inner, outer)) - {an} + {victim}
    {
      p := victim.parent;
      if p == an {
        p := victim;
      }
      RenameNodes(inner, outer, victim);
      AtInner(inner, outer, t);
      Supplant(an, victim, outer.up, Fill(outer, Plug(inner, t)));
      AtInner(inner, Rename(outer, victim), t);
    }

    method DeleteByMax(an: Node, ghost c: Path, ghost t: Shape)
      returns (p: Node, ghost c': Path, ghost t': Shape)
      requires At(c, t) && t.Branch? && t.node == an && Avl(Plug(c, t)) && t.left.Branch?
      modifies this`root, Nodes(t), PathNodes(c)
      ensures At(c', t') && p == Parent(c', null) && Spliced(c, t, c', t')
      ensures Nodes(t') + PathNodes(c') == Nodes(t) + PathNodes(c) - {an}
    {
      ghost var outer := InLeft(an, t.h, t.right, c);
      AtFill(outer, t.left);
      var victim, inner, v := UnlinkMax(an.left, outer, t.left);
      SplicedLeft(c, t, inner, v);
      PlugNodes(inner, v);
      p := Relocate(an, victim, inner, outer, v.left);
      c', t' := Compose(inner, Rename(outer, victim)), v.left;
    }

    method DeleteByMin(an: Node, ghost c: Path, ghost t: Shape)
      returns (p: Node, ghost c': Path, ghost t': Shape)
      requires At(c, t) && t.Branch? && t.node == an && Avl(Plug(c, t)) && t.right.Branch?
      modifies this`root, Nodes(t), PathNodes(c)
      ensures At(c', t') && p == Parent(c', null) && Spliced(c, t, c', t')
      ensures Nodes(t') + PathNodes(c') == Nodes(t) + PathNodes(c) - {an}
    {
      ghost var outer := InRight(t.left, an, t.h, c);
      AtFill(outer, t.right);
      var victim, inner, v := UnlinkMin(an.right, outer, t.right);
      SplicedRight(c, t, inner, v);
      PlugNodes(inner, v);
      p := Relocate(an, victim, inner, outer, v.right);
      c', t' := Compose(inner, Rename(outer, victim)), v.right;
    }

    /** Take `an` out of the tree, leaving the heights above it to be repaired from `p` on. */
    method Detach(an: Node, ghost c: Path, ghost t: Shape)
      returns (p: Node?, ghost c': Path, ghost t': Shape)
      requires At(c, t) && t.Branch? && t.node == an && Avl(Plug(c, t))
      modifies this`root, Nodes(t), PathNodes(c)
      ensures At(c', t') && p == Parent(c', null) && Spliced(c, t, c', t')
      ensures Nodes(t') + PathNodes(c') == Nodes(t) + PathNodes(c) - {an}
    {
      if an.left == null && an.right == null {
        SplicedLeaf(c, t);
        Bypass(an, null, c, t, Leaf);
        p, c', t' := an.parent, c, Leaf;
      } else {
        p, c', t' := DeleteNonleaf(an, c, t);
      }
    }

    method DeleteAt(an: Node, ghost c: Path, ghost t: Shape) returns (ghost s: Shape)
      requires At(c, t) && t.Branch? && t.node == an && Avl(Plug(c, t))
      modifies this`root, Nodes(t), PathNodes(c)
      ensures At(Top, s) && Nodes(s) == Nodes(t) + PathNodes(c) - {an}
      ensures Sorted(Inorder(Plug(c, t))) && Size(Plug(c, t)) < ADDRESS_SPACE ==>
        && Avl(s) && Sorted(Inorder(s)) && Size(s) < ADDRESS_SPACE
        && Removed(Inorder(Plug(c, t)), an, Inorder(s))
    {
      var p, c', t' := Detach(an, c, t);
      RebalancePath(p, c', t');
      s := AvlShape.RebalancePath(c', t');
      if Sorted(Inorder(Plug(c, t))) && Size(Plug(c, t)) < ADDRESS_SPACE {
        DeletedShape(c, t, c', t');
      }
    }

    /** Delete `an`, and only `an`, from the tree. */
    method Delete(an: Node)
      requires Valid() && an in nodes
      modifies this, nodes
      ensures Valid()
      ensures Removed(old(Elements()), an, Elements())
      ensures nodes == old(nodes) - {an}
    {
      ghost var c, t := Locate(Top, shape, an);
      AtPlug(c, t);
      shape := DeleteAt(an, c, t);
      nodes := Nodes(shape);
    }

    // ---------- Iteration ----------

    method Min() returns (n: Node?)
      requires Valid()
      ensures n == FirstOf(Elements())
    {
      if root != null {
        n := First(root, shape, null);
      } else {
        n := null;
      }
    }

    method Max() returns (n: Node?)
      requires Valid()
      ensures n == LastOf(Elements())
    {
      if root != null {
        n := Last(root, shape, null);
      } else {
        n := null;
      }
    }

    /** The node after `an`, or null at the end. */
    method Next(an: Node) returns (n: Node?)
      requires Valid() && an in nodes
      ensures Follows(Elements(), an, n)
    {
      ghost var c, t := Locate(Top, shape, an);
      AtPlug(c, t);
      SplitAt(c, t);
      if an.right != null {
        n := First(an.right, t.right, an);
      } else {
        n := ClimbFromRight(an, c, t);
      }
      Neighbours(Before(c) + Inorder(t.left), an, Inorder(t.right) + After(c));
    }

    /** The node before `an`, or null at the beginning. */
    method Prev(an: Node) returns (n: Node?)
      requires Valid() && an in nodes
      ensures Precedes(Elements(), n, an)
    {
      ghost var c, t := Locate(Top, shape, an);
      AtPlug(c, t);
      SplitAt(c, t);
      if an.left != null {
        n := Last(an.left, t.left, an);
      } else {
        n := ClimbFromLeft(an, c, t);
      }
      Neighbours(Before(c) + Inorder(t.left), an, Inorder(t.right) + After(c));
    }

    lemma {:induction false} WhichChild(c: Path, t: Shape)
      requires At(c, t) && t.Branch? && !c.Top?
      ensures c.InLeft? <==> c.node.left == t.node
      ensures c.InRight? <==> c.node.right == t.node
    {
      match c
      case InLeft(_, _, r, _) => assert r.Branch? ==> r.node in Nodes(r);
      case InRight(l, _, _, _) => assert l.Branch? ==> l.node in Nodes(l);
    }

    /** Climb until a step leads up from a left child: that parent comes next. */
    method ClimbFromRight(start: Node, ghost c0: Path, ghost t0: Shape) returns (p: Node?)
      requires At(c0, t0) && Root(t0) == start
      ensures p == FirstOf(After(c0))
    {
      var an: Node := start;
      ghost var c, t := c0, t0;
      p := an.parent;
      while p != null && an == p.right
        invariant At(c, t) && Root(t) == an && p == Parent(c, null)
        invariant After(c) == After(c0)
        decreases c
      {
        WhichChild(c, t);
        AtFill(c, t);
        an := p;
        p := an.parent;
        c, t := c.up, Fill(c, t);
      }
    }

    method ClimbFromLeft(start: Node, ghost c0: Path, ghost t0: Shape) returns (p: Node?)
      requires At(c0, t0) && Root(t0) == start
      ensures p == LastOf(Before(c0))
    {
      var an: Node := start;
      ghost var c, t := c0, t0;
      p := an.parent;
      while p != null && an == p.left
        invariant At(c, t) && Root(t) == an && p == Parent(c, null)
        invariant Before(c) == Before(c0)
        decreases c
      {
        WhichChild(c, t);
        AtFill(c, t);
        an := p;
        p := an.parent;
        c, t := c.up, Fill(c, t);
      }
    }

    /** `iv_avl_tree_next_safe`: null stays null. */
    method NextSafe(an: Node?) returns (n: Node?)
      requires Valid() && (an != null ==> an in nodes)
      ensures if an == null then n == null else Follows(Elements(), an, n)
    {
      if an != null {
        n := Next(an);
      } else {
        n := null;
      }
    }

    /** `iv_avl_tree_for_each`: every node, in order. */
    method ForEach() returns (visited: seq<Node>)
      requires Valid()
      ensures visited == Elements()
    {
      visited := [];
      var an := Min();
      while an != null
        invariant visited <= Elements()
        invariant an == FirstOf(Elements()[|visited|..])
        decreases |Elements()| - |visited|
      {
        ElementsAreNodes(shape);
        var n := Next(an);
        NextIsUnique(Elements(), |visited|, n);
        visited := visited + [an];
        an := n;
      }
    }

    /** What comes after a node of the tree is also what comes after it further down a walk. */
    method NextInWalk(an: Node?, ghost before: seq<Node>, ghost after: seq<Node>) returns (n: Node?)
      requires Valid() && Elements() == before + after && an == FirstOf(after)
      ensures n == SecondOf(after)
    {
      if an != null {
        ElementsAreNodes(shape);
        assert Elements()[|before|] == an;
        assert Elements()[|before| + 1..] == after[1..];
      }
      n := NextSafe(an);
      if an != null {
        NextIsUnique(Elements(), |before|, n);
      }
    }

    /** The body of the loop below may delete `an`, whose successor is already known. */
    method VisitSafe(an: Node, delete: bool, ghost before: seq<Node>, ghost after: seq<Node>)
      requires Valid() && Elements() == before + [an] + after
      modifies this, nodes
      ensures Valid() && nodes <= old(nodes)
      ensures Elements() == if delete then before + after else before + [an] + after
    {
      if delete {
        InWalk(shape, before, an, after);
        Delete(an);
        RemovedIsUnique(before, an, after, Elements());
      }
    }

    /** One round of the loop below. */
    method WalkOnce(an: Node, an2: Node?, doomed: set<Node>, ghost visited: seq<Node>, ghost rest: seq<Node>)
      returns (an2': Node?)
      requires Valid() && Elements() == Keep(visited, doomed) + rest
      requires an == FirstOf(rest) && an2 == SecondOf(rest)
      modifies this, nodes
      ensures Valid() && nodes <= old(nodes)
      ensures Elements() == Keep(visited + [an], doomed) + rest[1..]
      ensures visited + rest == (visited + [an]) + rest[1..]
      ensures an2 == FirstOf(rest[1..]) && an2' == SecondOf(rest[1..])
    {
      WalkStep(visited, rest, doomed);
      VisitSafe(an, an in doomed, Keep(visited, doomed), rest[1..]);
      an2' := NextInWalk(an2, Keep(visited + [an], doomed), rest[1..]);
    }

    /**
     `iv_avl_tree_for_each_safe`, with a body that deletes each visited node in
     `doomed`: every node is still visited exactly once and in order, although
     each deletion rebalances the tree under the walk.
     */
    method ForEachSafe(doomed: set<Node>) returns (visited: seq<Node>)
      requires Valid()
      modifies this, nodes
      ensures Valid() && nodes <= old(nodes)
      ensures visited == old(Elements())
      ensures Elements() == Keep(old(Elements()), doomed)
    {
      ghost var all, rest := Elements(), Elements();
      visited := [];
      var an := Min();
      var an2 := NextInWalk(an, [], rest);
      assert [] + rest == rest && Keep([], doomed) == [];
      while an != null
        invariant Valid() && nodes <= old(nodes)
        invariant all == visited + rest && Elements() == Keep(visited, doomed) + rest
        invariant an == FirstOf(rest) && an2 == SecondOf(rest)
        decreases rest
      {
        var an3 := WalkOnce(an, an2, doomed, visited, rest);
        visited, rest := visited + [an], rest[1..];
        an, an2 := an2, an3;
      }
      assert rest == [] && visited + [] == visited;
    }
  }
}
