/**
 The height-balancing logic of `iv_avl.c`, on immutable trees.

 A `Tree` is a snapshot of the linked nodes together with the height each node
 stores, so a tree in the middle of a rebalance, whose stored heights are stale,
 is a value too.  A `Ctx` is the path from a subtree back up to the root, which
 is what following `parent` pointers visits.
 */
module AvlShape {

  datatype Tree<N> =
    | Leaf
    | Branch(left: Tree<N>, node: N, h: nat, right: Tree<N>)

  datatype Ctx<N> =
    | Top
    | InLeft(node: N, h: nat, right: Tree<N>, up: Ctx<N>)
    | InRight(left: Tree<N>, node: N, h: nat, up: Ctx<N>)

  /** Heights are kept in a `uint8_t`. */
  const UINT8: nat := 256

  /** No address space holds this many nodes. */
  const ADDRESS_SPACE: nat := 0x1_0000_0000_0000_0000

  // ---------- Reading a tree ----------

  function Max(a: int, b: int): int { if a > b then a else b }

  /** The height a node stores; 0 for a null pointer. */
  function H<N>(t: Tree<N>): nat { if t.Leaf? then 0 else t.h }

  /** The number of nodes on a longest path, computed from the shape alone. */
  ghost function Height<N>(t: Tree<N>): nat {
    match t
    case Leaf => 0
    case Branch(l, _, _, r) => 1 + Max(Height(l), Height(r))
  }

  function Size<N>(t: Tree<N>): nat {
    match t
    case Leaf => 0
    case Branch(l, _, _, r) => Size(l) + 1 + Size(r)
  }

  function Inorder<N>(t: Tree<N>): seq<N> {
    match t
    case Leaf => []
    case Branch(l, n, _, r) => Inorder(l) + [n] + Inorder(r)
  }

  /** Everything that comes before the hole of a context, in order. */
  function Before<N>(c: Ctx<N>): seq<N> {
    match c
    case Top => []
    case InLeft(_, _, _, up) => Before(up)
    case InRight(l, n, _, up) => Before(up) + Inorder(l) + [n]
  }

  /** Everything that comes after the hole of a context, in order. */
  function After<N>(c: Ctx<N>): seq<N> {
    match c
    case Top => []
    case InLeft(n, _, r, up) => [n] + Inorder(r) + After(up)
    case InRight(_, _, _, up) => After(up)
  }

  function CtxSize<N>(c: Ctx<N>): nat {
    match c
    case Top => 0
    case InLeft(_, _, r, up) => 1 + Size(r) + CtxSize(up)
    case InRight(l, _, _, up) => Size(l) + 1 + CtxSize(up)
  }

  /** The whole tree, with `t` in the hole of `c`. */
  function Plug<N>(c: Ctx<N>, t: Tree<N>): Tree<N> {
    match c
    case Top => t
    case InLeft(n, h, r, up) => Plug(up, Branch(t, n, h, r))
    case InRight(l, n, h, up) => Plug(up, Branch(l, n, h, t))
  }

  /** The path `inner`, continued by `outer` where it ends. */
  function Compose<N>(inner: Ctx<N>, outer: Ctx<N>): Ctx<N> {
    match inner
    case Top => outer
    case InLeft(n, h, r, up) => InLeft(n, h, r, Compose(up, outer))
    case InRight(l, n, h, up) => InRight(l, n, h, Compose(up, outer))
  }

  /** The path with another node in the place of its innermost one. */
  function Rename<N>(c: Ctx<N>, n: N): Ctx<N> {
    match c
    case Top => Top
    case InLeft(_, h, r, up) => InLeft(n, h, r, up)
    case InRight(l, _, h, up) => InRight(l, n, h, up)
  }

  // ---------- The AVL property ----------

  /** Every stored height is exact, and every balance factor is -1, 0 or 1. */
  predicate Avl<N>(t: Tree<N>) {
    t.Branch? ==>
      && Avl(t.left) && Avl(t.right)
      && t.h == 1 + Max(H(t.left), H(t.right))
      && -1 <= H(t.right) - H(t.left) <= 1
  }

  /** `c` has exact heights and balanced nodes, for a subtree of height `hh` in its hole. */
  predicate AvlCtx<N>(c: Ctx<N>, hh: nat) {
    match c
    case Top => true
    case InLeft(_, h, r, up) =>
      && Avl(r) && h == 1 + Max(hh, H(r)) && -1 <= H(r) - hh <= 1 && AvlCtx(up, h)
    case InRight(l, _, h, up) =>
      && Avl(l) && h == 1 + Max(H(l), hh) && -1 <= hh - H(l) <= 1 && AvlCtx(up, h)
  }

  lemma {:induction false} StoredHeightsAreExact<N>(t: Tree<N>)
    requires Avl(t)
    ensures H(t) == Height(t)
  {
    if t.Branch? {
      StoredHeightsAreExact(t.left);
      StoredHeightsAreExact(t.right);
    }
  }

  // ---------- How tall a tree can be ----------

  ghost function Fib(n: nat): nat {
    if n < 2 then n else Fib(n - 1) + Fib(n - 2)
  }

  lemma {:induction false} FibMonotone(m: nat, n: nat)
    requires m <= n
    ensures Fib(m) <= Fib(n)
    decreases n
  {
    if m < n {
      FibMonotone(m, n - 1);
      if n >= 2 {
        assert Fib(n) == Fib(n - 1) + Fib(n - 2);
      }
    }
  }

  /** Ten steps of the recurrence at once. */
  lemma FibTen(n: nat, a: nat, b: nat)
    requires Fib(n) == a && Fib(n + 1) == b
    ensures Fib(n + 10) == 34 * a + 55 * b
    ensures Fib(n + 11) == 55 * a + 89 * b
  {
    assert Fib(n + 2) == Fib(n + 1) + Fib(n);
    assert Fib(n + 3) == Fib(n + 2) + Fib(n + 1);
    assert Fib(n + 4) == Fib(n + 3) + Fib(n + 2);
    assert Fib(n + 5) == Fib(n + 4) + Fib(n + 3);
    assert Fib(n + 6) == Fib(n + 5) + Fib(n + 4);
    assert Fib(n + 7) == Fib(n + 6) + Fib(n + 5);
    assert Fib(n + 8) == Fib(n + 7) + Fib(n + 6);
    assert Fib(n + 9) == Fib(n + 8) + Fib(n + 7);
    assert Fib(n + 10) == Fib(n + 9) + Fib(n + 8);
    assert Fib(n + 11) == Fib(n + 10) + Fib(n + 9);
  }

  lemma FibThirty(n: nat, a: nat, b: nat)
    requires Fib(n) == a && Fib(n + 1) == b
    ensures Fib(n + 30) == 514229 * a + 832040 * b
    ensures Fib(n + 31) == 832040 * a + 1346269 * b
  {
    FibTen(n, a, b);
    FibTen(n + 10, Fib(n + 10), Fib(n + 11));
    FibTen(n + 20, Fib(n + 20), Fib(n + 21));
  }

  lemma FibNinety(n: nat)
    ensures Fib(n + 90) == 1779979416004714189 * Fib(n) + 2880067194370816120 * Fib(n + 1)
  {
    var a, b := Fib(n), Fib(n + 1);
    FibThirty(n, a, b);
    FibThirty(n + 30, 514229 * a + 832040 * b, 832040 * a + 1346269 * b);
    FibThirty(n + 60, 956722026041 * a + 1548008755920 * b, 1548008755920 * a + 2504730781961 * b);
  }

  /** From the 94th on, Fibonacci numbers exceed the address space. */
  lemma FibBeyond(n: nat)
    requires n >= 94
    ensures Fib(n) > ADDRESS_SPACE
  {
    FibNinety(n - 90);
    FibMonotone(4, n - 90);
    FibMonotone(5, n - 89);
    assert Fib(4) == 3 && Fib(5) == 5;
  }

  lemma {:induction false} AvlHasFibonacciNodes<N>(t: Tree<N>)
    requires Avl(t)
    ensures Size(t) + 1 >= Fib(H(t) + 2)
  {
    if t.Branch? {
      AvlHasFibonacciNodes(t.left);
      AvlHasFibonacciNodes(t.right);
      var tall := if H(t.left) > H(t.right) then t.left else t.right;
      var other := if H(t.left) > H(t.right) then t.right else t.left;
      assert H(tall) + 1 == t.h && H(other) + 2 >= t.h;
      FibMonotone(t.h, H(other) + 2);
      assert Fib(t.h + 2) == Fib(t.h + 1) + Fib(t.h);
    }
  }

  /** No tree that fits in memory is taller than 91, so `uint8_t` is wide enough. */
  lemma {:induction false} HeightFitsInByte<N>(t: Tree<N>)
    requires Avl(t) && Size(t) < ADDRESS_SPACE
    ensures H(t) <= 91
  {
    AvlHasFibonacciNodes(t);
    if H(t) >= 92 {
      FibBeyond(H(t) + 2);
    }
  }

  // ---------- Contexts ----------

  lemma Regroup<N>(a: seq<N>, b: seq<N>, n: N, c: seq<N>, d: seq<N>)
    ensures a + (b + [n] + c) + d == a + b + ([n] + c + d)
    ensures a + (b + [n] + c) + d == (a + b + [n]) + c + d
    ensures a + (b + [n] + c) + d == (a + b) + [n] + (c + d)
  {
  }

  lemma {:induction false} PlugInorder<N>(c: Ctx<N>, t: Tree<N>)
    ensures Inorder(Plug(c, t)) == Before(c) + Inorder(t) + After(c)
    ensures Size(Plug(c, t)) == Size(t) + CtxSize(c)
    decreases c
  {
    match c
    case Top =>
    case InLeft(n, h, r, up) =>
      PlugInorder(up, Branch(t, n, h, r));
      Regroup(Before(up), Inorder(t), n, Inorder(r), After(up));
    case InRight(l, n, h, up) =>
      PlugInorder(up, Branch(l, n, h, t));
      Regroup(Before(up), Inorder(l), n, Inorder(t), After(up));
  }

  lemma {:induction false} PlugCompose<N>(inner: Ctx<N>, outer: Ctx<N>, t: Tree<N>)
    ensures Plug(Compose(inner, outer), t) == Plug(outer, Plug(inner, t))
    decreases inner
  {
    match inner
    case Top =>
    case InLeft(n, h, r, up) => PlugCompose(up, outer, Branch(t, n, h, r));
    case InRight(l, n, h, up) => PlugCompose(up, outer, Branch(l, n, h, t));
  }

  /** A subtree of an AVL tree and its context are both well-formed, and the other way round. */
  lemma {:induction false} PlugAvl<N>(c: Ctx<N>, t: Tree<N>)
    ensures Avl(Plug(c, t)) <==> Avl(t) && AvlCtx(c, H(t))
    decreases c
  {
    match c
    case Top =>
    case InLeft(n, h, r, up) => PlugAvl(up, Branch(t, n, h, r));
    case InRight(l, n, h, up) => PlugAvl(up, Branch(l, n, h, t));
  }

  lemma {:induction false} ComposeOrder<N>(inner: Ctx<N>, outer: Ctx<N>)
    ensures Before(Compose(inner, outer)) == Before(outer) + Before(inner)
    ensures After(Compose(inner, outer)) == After(inner) + After(outer)
    ensures CtxSize(Compose(inner, outer)) == CtxSize(inner) + CtxSize(outer)
  {
    if !inner.Top? {
      var up := inner.up;
      ComposeOrder(up, outer);
      if inner.InRight? {
        var l, n := Inorder(inner.left), [inner.node];
        assert Before(outer) + Before(up) + l + n == Before(outer) + (Before(up) + l + n);
      } else {
        var n, r := [inner.node], Inorder(inner.right);
        assert n + r + (After(up) + After(outer)) == n + r + After(up) + After(outer);
      }
    }
  }

  /** Putting another node in the place of one on the path does not affect heights. */
  lemma {:induction false} RenameAvl<N>(inner: Ctx<N>, outer: Ctx<N>, n: N, hh: nat)
    requires AvlCtx(Compose(inner, outer), hh)
    ensures AvlCtx(Compose(inner, Rename(outer, n)), hh)
    decreases inner
  {
    if !inner.Top? {
      RenameAvl(inner.up, outer, n, inner.h);
    }
  }

  // ---------- Rebalancing ----------

  /** `recalc_height`: the stored byte becomes one more than the taller child. */
  function Recalc<N>(t: Tree<N>): (r: Tree<N>)
    requires t.Branch?
  {
    t.(h := (1 + Max(H(t.left), H(t.right))) % UINT8)
  }

  function Balance<N>(t: Tree<N>): int
    requires t.Branch?
  {
    H(t.right) - H(t.left)
  }

  function RotateLeft<N>(t: Tree<N>): Tree<N>
    requires t.Branch? && t.right.Branch?
  {
    var b := Recalc(t.(right := t.right.left));
    Recalc(t.right.(left := b))
  }

  function RotateRight<N>(t: Tree<N>): Tree<N>
    requires t.Branch? && t.left.Branch?
  {
    var d := Recalc(t.(left := t.left.right));
    Recalc(t.left.(right := d))
  }

  function RotateLeftRight<N>(t: Tree<N>): Tree<N>
    requires t.Branch? && t.left.Branch? && t.left.right.Branch?
  {
    var d := t.left.right;
    var b := Recalc(t.left.(right := d.left));
    var f := Recalc(t.(left := d.right));
    Recalc(d.(left := b, right := f))
  }

  function RotateRightLeft<N>(t: Tree<N>): Tree<N>
    requires t.Branch? && t.right.Branch? && t.right.left.Branch?
  {
    var d := t.right.left;
    var b := Recalc(t.(right := d.left));
    var f := Recalc(t.right.(left := d.right));
    Recalc(d.(left := b, right := f))
  }

  function RebalanceNode<N>(t: Tree<N>): Tree<N>
    requires t.Branch?
  {
    if Balance(t) == -2 then
      if Balance(t.left) <= 0 then RotateRight(t) else RotateLeftRight(t)
    else if Balance(t) == 2 then
      if Balance(t.right) < 0 then RotateRightLeft(t) else RotateLeft(t)
    else
      t
  }

  /** The innermost node of a context, with its hole filled. */
  function Fill<N>(c: Ctx<N>, t: Tree<N>): (b: Tree<N>)
    requires !c.Top?
    ensures b.Branch?
  {
    if c.InLeft? then Branch(t, c.node, c.h, c.right) else Branch(c.left, c.node, c.h, t)
  }

  /** What one round of the rebalancing loop makes of the innermost node of a context. */
  function RebalanceStep<N>(c: Ctx<N>, t: Tree<N>): Tree<N>
    requires !c.Top?
  {
    RebalanceNode(Recalc(Fill(c, t)))
  }

  /** The whole loop: up from the hole of `c`, until a height comes out unchanged. */
  function RebalancePath<N>(c: Ctx<N>, t: Tree<N>): Tree<N>
    decreases c
  {
    if c.Top? then t
    else
      var t' := RebalanceStep(c, t);
      if H(t') == c.h then Plug(c.up, t') else RebalancePath(c.up, t')
  }

  lemma {:induction false} RotateLeftOrder<N>(t: Tree<N>)
    requires t.Branch? && t.right.Branch?
    ensures Inorder(RotateLeft(t)) == Inorder(t)
    ensures Size(RotateLeft(t)) == Size(t)
  {
    var b := Recalc(t.(right := t.right.left));
    assert Inorder(b) == Inorder(t.left) + [t.node] + Inorder(t.right.left);
  }

  lemma {:induction false} RotateRightOrder<N>(t: Tree<N>)
    requires t.Branch? && t.left.Branch?
    ensures Inorder(RotateRight(t)) == Inorder(t)
    ensures Size(RotateRight(t)) == Size(t)
  {
    var d := Recalc(t.(left := t.left.right));
    assert Inorder(d) == Inorder(t.left.right) + [t.node] + Inorder(t.right);
  }

  /** A double rotation is two single ones, as far as the order of the nodes is concerned. */
  lemma {:induction false} RotateLeftRightOrder<N>(t: Tree<N>)
    requires t.Branch? && t.left.Branch? && t.left.right.Branch?
    ensures Inorder(RotateLeftRight(t)) == Inorder(t)
    ensures Size(RotateLeftRight(t)) == Size(t)
  {
    var s := t.(left := RotateLeft(t.left));
    RotateLeftOrder(t.left);
    RotateRightOrder(s);
    assert RotateRight(s) == RotateLeftRight(t);
  }

  lemma {:induction false} RotateRightLeftOrder<N>(t: Tree<N>)
    requires t.Branch? && t.right.Branch? && t.right.left.Branch?
    ensures Inorder(RotateRightLeft(t)) == Inorder(t)
    ensures Size(RotateRightLeft(t)) == Size(t)
  {
    var s := t.(right := RotateRight(t.right));
    RotateRightOrder(t.right);
    RotateLeftOrder(s);
    assert RotateLeft(s) == RotateRightLeft(t);
  }

  lemma {:induction false} RebalanceNodeOrder<N>(t: Tree<N>)
    requires t.Branch?
    ensures Inorder(RebalanceNode(t)) == Inorder(t)
    ensures Size(RebalanceNode(t)) == Size(t)
  {
    if Balance(t) == -2 {
      if Balance(t.left) <= 0 {
        RotateRightOrder(t);
      } else {
        RotateLeftRightOrder(t);
      }
    } else if Balance(t) == 2 {
      if Balance(t.right) < 0 {
        RotateRightLeftOrder(t);
      } else {
        RotateLeftOrder(t);
      }
    }
  }

  lemma {:induction false} RecalcExact<N>(t: Tree<N>)
    requires t.Branch? && H(t.left) < 255 && H(t.right) < 255
    ensures Recalc(t).h == 1 + Max(H(t.left), H(t.right))
    ensures Avl(t.left) && Avl(t.right) && -1 <= Balance(t) <= 1 ==> Avl(Recalc(t))
  {
  }

  lemma {:induction false} RotateLeftAvl<N>(t: Tree<N>)
    requires t.Branch? && Avl(t.left) && Avl(t.right) && Balance(t) == 2 && H(t.right) <= 200
    requires Balance(t.right) >= 0
    ensures Avl(RotateLeft(t))
    ensures H(t.right) <= RotateLeft(t).h <= H(t.right) + 1
  {
    var b := t.(right := t.right.left);
    RecalcExact(b);
    RecalcExact(t.right.(left := Recalc(b)));
  }

  lemma {:induction false} RotateRightAvl<N>(t: Tree<N>)
    requires t.Branch? && Avl(t.left) && Avl(t.right) && Balance(t) == -2 && H(t.left) <= 200
    requires Balance(t.left) <= 0
    ensures Avl(RotateRight(t))
    ensures H(t.left) <= RotateRight(t).h <= H(t.left) + 1
  {
    var d := t.(left := t.left.right);
    RecalcExact(d);
    RecalcExact(t.left.(right := Recalc(d)));
  }

  lemma {:induction false} RotateLeftRightAvl<N>(t: Tree<N>)
    requires t.Branch? && Avl(t.left) && Avl(t.right) && Balance(t) == -2 && H(t.left) <= 200
    requires Balance(t.left) > 0
    ensures Avl(RotateLeftRight(t)) && RotateLeftRight(t).h == H(t.left)
  {
    var d := t.left.right;
    var b := t.left.(right := d.left);
    var f := t.(left := d.right);
    RecalcExact(b);
    RecalcExact(f);
    RecalcExact(d.(left := Recalc(b), right := Recalc(f)));
  }

  lemma {:induction false} RotateRightLeftAvl<N>(t: Tree<N>)
    requires t.Branch? && Avl(t.left) && Avl(t.right) && Balance(t) == 2 && H(t.right) <= 200
    requires Balance(t.right) < 0
    ensures Avl(RotateRightLeft(t)) && RotateRightLeft(t).h == H(t.right)
  {
    var d := t.right.left;
    var b := t.(right := d.left);
    var f := t.right.(left := d.right);
    RecalcExact(b);
    RecalcExact(f);
    RecalcExact(d.(left := Recalc(b), right := Recalc(f)));
  }

  /** A node whose subtrees differ by at most 2 is repaired, and loses at most one level. */
  lemma {:induction false} RebalanceNodeAvl<N>(t: Tree<N>)
    requires t.Branch? && Avl(t.left) && Avl(t.right) && -2 <= Balance(t) <= 2
    requires t.h == 1 + Max(H(t.left), H(t.right)) <= 200
    ensures RebalanceNode(t).Branch? && Avl(RebalanceNode(t))
    ensures t.h - 1 <= RebalanceNode(t).h <= t.h
    ensures -1 <= Balance(t) <= 1 ==> RebalanceNode(t) == t
  {
    if Balance(t) == -2 {
      if Balance(t.left) <= 0 {
        RotateRightAvl(t);
      } else {
        RotateLeftRightAvl(t);
      }
    } else if Balance(t) == 2 {
      if Balance(t.right) < 0 {
        RotateRightLeftAvl(t);
      } else {
        RotateLeftAvl(t);
      }
    }
  }

  lemma {:induction false} FillOrder<N>(c: Ctx<N>, t: Tree<N>)
    requires !c.Top?
    ensures Before(c.up) + Inorder(Recalc(Fill(c, t))) + After(c.up) == Before(c) + Inorder(t) + After(c)
    ensures Size(Recalc(Fill(c, t))) + CtxSize(c.up) == Size(t) + CtxSize(c)
  {
  }

  /** One round repairs a node whose child changed height by at most one. */
  lemma {:induction false} RebalanceStepAvl<N>(c: Ctx<N>, t: Tree<N>, hh: nat)
    requires !c.Top? && AvlCtx(c, hh) && Avl(t) && -1 <= H(t) - hh <= 1
    requires Size(t) + CtxSize(c) < ADDRESS_SPACE
    ensures RebalanceStep(c, t).Branch? && Avl(RebalanceStep(c, t))
    ensures -1 <= H(RebalanceStep(c, t)) - c.h <= 1
  {
    var b := Fill(c, t);
    HeightFitsInByte(b.left);
    HeightFitsInByte(b.right);
    RecalcExact(b);
    RebalanceNodeAvl(Recalc(b));
  }

  /**
   Stopping at the first unchanged height leaves no ancestor with a wrong height
   or a wrong balance, and rebalancing never changes the order of the nodes.
   */
  lemma {:induction false} RebalancePathAvl<N>(c: Ctx<N>, t: Tree<N>, hh: nat)
    requires AvlCtx(c, hh) && Avl(t) && -1 <= H(t) - hh <= 1
    requires Size(t) + CtxSize(c) < ADDRESS_SPACE
    ensures Avl(RebalancePath(c, t))
    ensures Inorder(RebalancePath(c, t)) == Before(c) + Inorder(t) + After(c)
    ensures Size(RebalancePath(c, t)) == Size(t) + CtxSize(c)
    decreases c
  {
    if !c.Top? {
      RebalanceStepAvl(c, t, hh);
      FillOrder(c, t);
      RebalanceNodeOrder(Recalc(Fill(c, t)));
      var t' := RebalanceStep(c, t);
      if H(t') == c.h {
        PlugAvl(c.up, t');
        PlugInorder(c.up, t');
      } else {
        RebalancePathAvl(c.up, t', c.h);
      }
    }
  }
}
