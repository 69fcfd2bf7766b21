/**
 The 128-way radix tree in which `iv_timer.c` keeps its timers.

 The tree is described level by level: `lv[0]` is the sequence of leaves from left
 to right, `lv[1]` the nodes above them, up to `lv[depth]`, which is the root alone.
 A tree in this form is a flat array: index `i` lives in leaf `i / 128`, slot `i % 128`.
 */
module RadixTree {

  const SPLIT_NODES: nat := 128

  /** Indices stay below 128^4, so that every shift stays within an `int`. */
  const MAX_INDEX: nat := 0x1000_0000

  datatype Timespec = Timespec(sec: int, nsec: int)

  class Timer {
    var expires: Timespec
    var index: int

    constructor (expires: Timespec)
      ensures this.expires == expires && index == -1
    {
      this.expires, index := expires, -1;
    }
  }

  /** A `void *` slot: a node of the tree holds nodes, a leaf holds timers. */
  datatype Entry = Null | Child(node: Node) | Slot(timer: Timer)

  type Node = array<Entry>

  // ---------- Base-128 digits ----------

  /** `index >> (level * 7)`. */
  function Shr(index: nat, level: nat): nat {
    if level == 0 then index else Shr(index, level - 1) / SPLIT_NODES
  }

  /** `1 << (level * 7)`. */
  function Pow128(level: nat): (p: nat)
    ensures p >= 1
  {
    if level == 0 then 1 else SPLIT_NODES * Pow128(level - 1)
  }

  lemma {:induction false} ShrBelow(index: nat, level: nat, k: nat)
    ensures Shr(index, level) < k <==> index < k * Pow128(level)
    decreases level
  {
    if level > 0 {
      ShrBelow(index, level - 1, SPLIT_NODES * k);
      assert SPLIT_NODES * k * Pow128(level - 1) == k * Pow128(level);
    }
  }

  /** Dividing by 128 `level` times is one division by the power. */
  lemma {:induction false} ShrIsDivision(index: nat, level: nat)
    ensures Shr(index, level) == index / Pow128(level)
  {
    var q, p := Shr(index, level), Pow128(level);
    ShrBelow(index, level, q + 1);
    ShrBelow(index, level, q);
    assert q * p <= index < (q + 1) * p;
    DivUnique(index, p, q);
  }

  lemma MulMonotone(a: nat, b: nat, p: nat)
    requires a <= b
    ensures a * p <= b * p
  {
  }

  lemma DivUnique(x: nat, p: nat, q: nat)
    requires p > 0 && q * p <= x < (q + 1) * p
    ensures x / p == q
  {
    var d := x / p;
    assert d * p <= x < (d + 1) * p;
    if d < q {
      MulMonotone(d + 1, q, p);
    } else if d > q {
      MulMonotone(q + 1, d, p);
    }
  }

  lemma DepthBound(index: nat, depth: nat)
    requires index < MAX_INDEX && depth <= 3 && Shr(index, depth + 1) != 0
    ensures depth <= 2
  {
    ShrBelow(index, depth + 1, 1);
    assert Pow128(4) == MAX_INDEX;
  }

  /** The number of nodes that `n` nodes one level down need above them. */
  function Above(n: nat): nat { (n + SPLIT_NODES - 1) / SPLIT_NODES }

  // ---------- The tree ----------

  type Levels = seq<seq<Node>>

  /** Sizes fit together: full parents, except the last of each level, and one root. */
  ghost predicate Sized(lv: Levels) {
    && lv != [] && lv[0] != [] && |lv[|lv| - 1]| == 1
    && forall l :: 0 < l < |lv| ==> |lv[l]| == Above(|lv[l - 1]|)
  }

  /** Every node has one place. */
  ghost predicate Placed(lv: Levels, at: map<Node, (nat, nat)>) {
    forall l, j :: 0 <= l < |lv| && 0 <= j < |lv[l]| ==>
      lv[l][j] in at && at[lv[l][j]] == (l, j) && lv[l][j].Length == SPLIT_NODES
  }

  ghost function AllNodes(lv: Levels): set<Node> {
    set l, j | 0 <= l < |lv| && 0 <= j < |lv[l]| :: lv[l][j]
  }

  /** The entry that slot `k` of node `j` on level `l` must hold. */
  ghost function ChildOf(lv: Levels, l: nat, j: nat, k: nat): Entry
    requires 0 < l < |lv|
  {
    var c := SPLIT_NODES * j + k;
    if c < |lv[l - 1]| then Child(lv[l - 1][c]) else Null
  }

  ghost predicate Linked(lv: Levels, at: map<Node, (nat, nat)>)
    requires Placed(lv, at)
    reads at.Keys
  {
    forall l, j, k :: 0 < l < |lv| && 0 <= j < |lv[l]| && 0 <= k < SPLIT_NODES ==>
      lv[l][j][k] == ChildOf(lv, l, j, k)
  }

  /** Appending a node to level `m`. */
  ghost function Append(lv: Levels, m: nat, n: Node): Levels
    requires m < |lv|
  {
    lv[m := lv[m] + [n]]
  }

  lemma PlaceMore(lv: Levels, at: map<Node, (nat, nat)>, m: nat, n: Node)
    requires Placed(lv, at) && m < |lv| && n !in at && n.Length == SPLIT_NODES
    ensures Placed(Append(lv, m, n), at[n := (m, |lv[m]|)])
    ensures AllNodes(Append(lv, m, n)) == AllNodes(lv) + {n}
  {
    var lv', at' := Append(lv, m, n), at[n := (m, |lv[m]|)];
    forall l, j | 0 <= l < |lv'| && 0 <= j < |lv'[l]|
      ensures lv'[l][j] in at' && at'[lv'[l][j]] == (l, j)
    {
      if l != m || j < |lv[m]| {
        assert lv'[l][j] == lv[l][j];
      }
    }
    forall x
      ensures x in AllNodes(lv') <==> x in AllNodes(lv) + {n}
    {
      if x in AllNodes(lv) {
        var l, j :| 0 <= l < |lv| && 0 <= j < |lv[l]| && x == lv[l][j];
        assert lv'[l][j] == x;
      }
      assert lv'[m][|lv[m]|] == n;
    }
  }

  lemma ChildOfMore(lv: Levels, m: nat, n: Node, l: nat, j: nat, k: nat)
    requires 0 < l < |lv| && m < |lv|
    ensures ChildOf(Append(lv, m, n), l, j, k)
         == if l - 1 == m && SPLIT_NODES * j + k == |lv[m]| then Child(n) else ChildOf(lv, l, j, k)
  {
  }

  /** The new node is where its parent says, and it has no children to link. */
  lemma LinkMore(lv: Levels, at: map<Node, (nat, nat)>, i: nat, j: nat, bits: nat, n: Node)
    requires Placed(lv, at) && 0 < i < |lv| && j < |lv[i]| && bits < SPLIT_NODES
    requires n !in at && n.Length == SPLIT_NODES
    requires forall k :: 0 <= k < SPLIT_NODES ==> n[k] == Null
    requires SPLIT_NODES * j + bits == |lv[i - 1]|
    requires i > 1 ==> |lv[i - 2]| <= SPLIT_NODES * |lv[i - 1]|
    requires forall l, j', k :: 0 < l < |lv| && 0 <= j' < |lv[l]| && 0 <= k < SPLIT_NODES && !(l == i && j' == j && k == bits) ==>
      lv[l][j'][k] == ChildOf(lv, l, j', k)
    requires lv[i][j][bits] == Child(n)
    ensures Placed(Append(lv, i - 1, n), at[n := (i - 1, |lv[i - 1]|)])
    ensures Linked(Append(lv, i - 1, n), at[n := (i - 1, |lv[i - 1]|)])
  {
    PlaceMore(lv, at, i - 1, n);
    var lv' := Append(lv, i - 1, n);
    forall l, j', k | 0 < l < |lv'| && 0 <= j' < |lv'[l]| && 0 <= k < SPLIT_NODES
      ensures lv'[l][j'][k] == ChildOf(lv', l, j', k)
    {
      ChildOfMore(lv, i - 1, n, l, j', k);
      if l == i - 1 && j' == |lv[i - 1]| {
        assert lv'[l][j'] == n;
      } else {
        assert lv'[l][j'] == lv[l][j'];
      }
    }
  }

  /** If the leaf of `index` exists or is the next to be made, so is every node on the way to it. */
  lemma {:induction false} PathBound(lv: Levels, index: nat, l: nat)
    requires Sized(lv) && l < |lv| && Shr(index, 1) <= |lv[0]|
    ensures Shr(index, l + 1) <= |lv[l]|
    ensures Shr(index, 1) < |lv[0]| ==> Shr(index, l + 1) < |lv[l]|
    decreases l
  {
    if l > 0 {
      PathBound(lv, index, l - 1);
      assert |lv[l]| == Above(|lv[l - 1]|);
    }
  }

  /**
   Sizes during a walk towards `index`: levels down to `i` have made room for it,
   those below are as they were.
   */
  ghost predicate SizedDownTo(lv: Levels, i: nat, index: nat) {
    && i < |lv|
    && (forall l :: 0 < l < |lv| && l != i ==> |lv[l]| == Above(|lv[l - 1]|))
    && (forall l :: 0 <= l < i ==> Shr(index, l + 1) <= |lv[l]|)
    && Shr(index, i + 1) < |lv[i]|
    && (i > 0 ==> |lv[i]| == Above(|lv[i - 1]|) || |lv[i]| == Above(|lv[i - 1]|) + 1 == Shr(index, i + 1) + 1)
  }

  lemma SizedAtRoot(lv: Levels, index: nat)
    requires Sized(lv) && Shr(index, 1) <= |lv[0]| && Shr(index, |lv|) == 0
    ensures SizedDownTo(lv, |lv| - 1, index)
  {
    forall l | 0 <= l < |lv|
      ensures Shr(index, l + 1) <= |lv[l]|
    {
      PathBound(lv, index, l);
    }
  }

  lemma SizedStep(lv: Levels, i: nat, index: nat)
    requires i > 0 && SizedDownTo(lv, i, index)
    ensures Shr(index, i) == SPLIT_NODES * Shr(index, i + 1) + Shr(index, i) % SPLIT_NODES
    ensures i > 1 ==> |lv[i - 2]| <= SPLIT_NODES * |lv[i - 1]|
    ensures Shr(index, i) <= |lv[i - 1]|
    ensures Shr(index, i) < |lv[i - 1]| ==> SizedDownTo(lv, i - 1, index)
  {
    assert Shr(index, i - 1 + 1) <= |lv[i - 1]|;
  }

  /** If the leaf of `index` exists, so does every node on the way to it. */
  lemma {:induction false} ExistsBelow(lv: Levels, i: nat, index: nat, l: nat)
    requires SizedDownTo(lv, i, index) && Shr(index, 1) < |lv[0]| && l < i
    ensures Shr(index, l + 1) < |lv[l]|
    decreases l
  {
    if l > 0 {
      ExistsBelow(lv, i, index, l - 1);
      assert |lv[l]| == Above(|lv[l - 1]|);
    }
  }

  lemma SizedMore(lv: Levels, i: nat, index: nat, n: Node)
    requires i > 0 && SizedDownTo(lv, i, index) && Shr(index, i) == |lv[i - 1]|
    ensures SizedDownTo(Append(lv, i - 1, n), i - 1, index)
  {
    var lv' := Append(lv, i - 1, n);
    assert forall l :: 0 <= l < |lv| && l != i - 1 ==> lv'[l] == lv[l];
  }

  /** A new root above a single node. */
  lemma RootLinked(lv: Levels, at: map<Node, (nat, nat)>, r: Node)
    requires Sized(lv) && Placed(lv, at) && Linked(lv, at)
    requires r !in at && r.Length == SPLIT_NODES && r[0] == Child(lv[|lv| - 1][0])
    requires forall k :: 0 < k < SPLIT_NODES ==> r[k] == Null
    ensures Sized(lv + [[r]]) && AllNodes(lv + [[r]]) == AllNodes(lv) + {r}
    ensures Placed(lv + [[r]], at[r := (|lv|, 0)]) && Linked(lv + [[r]], at[r := (|lv|, 0)])
  {
    var lv' := lv + [[r]];
    assert forall l :: 0 <= l < |lv| ==> lv'[l] == lv[l];
    assert lv'[|lv|][0] == r;
    assert AllNodes(lv') == AllNodes(lv) + {r} by {
      assert forall l, j :: 0 <= l < |lv| && 0 <= j < |lv[l]| ==> lv'[l][j] == lv[l][j];
    }
    forall l, j, k | 0 < l < |lv'| && 0 <= j < |lv'[l]| && 0 <= k < SPLIT_NODES
      ensures lv'[l][j][k] == ChildOf(lv', l, j, k)
    {
      if l < |lv| {
        assert lv'[l][j] == lv[l][j];
        assert ChildOf(lv', l, j, k) == ChildOf(lv, l, j, k);
      }
    }
  }

  // ---------- Subtrees ----------

  /** The nodes below, or equal to, those numbered `lo` to `hi - 1` on level `l`. */
  ghost function Below(lv: Levels, l: nat, lo: nat, hi: nat): set<Node>
    requires l < |lv|
  {
    set m, x | 0 <= m <= l && 0 <= x < |lv[m]| && lo <= Shr(x, l - m) < hi :: lv[m][x]
  }

  lemma InBelow(lv: Levels, at: map<Node, (nat, nat)>, l: nat, lo: nat, hi: nat, n: Node)
    requires Placed(lv, at) && l < |lv| && n in AllNodes(lv)
    ensures n in Below(lv, l, lo, hi) <==> at[n].0 <= l && lo <= Shr(at[n].1, l - at[n].0) < hi
  {
    var m, x :| 0 <= m < |lv| && 0 <= x < |lv[m]| && lv[m][x] == n;
  }

  /** Subtrees of different nodes of a level have no node in common. */
  lemma BelowSplit(lv: Levels, at: map<Node, (nat, nat)>, l: nat, lo: nat, mid: nat, hi: nat)
    requires Placed(lv, at) && l < |lv| && lo <= mid <= hi
    ensures Below(lv, l, lo, hi) == Below(lv, l, lo, mid) + Below(lv, l, mid, hi)
    ensures Below(lv, l, lo, mid) !! Below(lv, l, mid, hi)
  {
    forall n | n in Below(lv, l, lo, mid)
      ensures n !in Below(lv, l, mid, hi)
    {
      InBelow(lv, at, l, lo, mid, n);
      InBelow(lv, at, l, mid, hi, n);
    }
  }

  /** A subtree is its top node and the subtrees of its children. */
  lemma BelowOne(lv: Levels, at: map<Node, (nat, nat)>, l: nat, j: nat)
    requires Placed(lv, at) && 0 < l < |lv| && j < |lv[l]|
    ensures Below(lv, l, j, j + 1) == {lv[l][j]} + Below(lv, l - 1, SPLIT_NODES * j, SPLIT_NODES * j + SPLIT_NODES)
    ensures lv[l][j] !in Below(lv, l - 1, SPLIT_NODES * j, SPLIT_NODES * j + SPLIT_NODES)
  {
    forall n | n in AllNodes(lv)
      ensures n in Below(lv, l, j, j + 1) <==>
        n == lv[l][j] || n in Below(lv, l - 1, SPLIT_NODES * j, SPLIT_NODES * j + SPLIT_NODES)
    {
      InBelow(lv, at, l, j, j + 1, n);
      InBelow(lv, at, l - 1, SPLIT_NODES * j, SPLIT_NODES * j + SPLIT_NODES, n);
      var m, x := at[n].0, at[n].1;
      if m == l {
        assert Shr(x, l - m) == x;
      } else if m < l {
        assert Shr(x, l - m) == Shr(x, l - 1 - m) / SPLIT_NODES;
      }
    }
    BelowAreNodes(lv, l, j, j + 1);
    BelowAreNodes(lv, l - 1, SPLIT_NODES * j, SPLIT_NODES * j + SPLIT_NODES);
    InBelow(lv, at, l - 1, SPLIT_NODES * j, SPLIT_NODES * j + SPLIT_NODES, lv[l][j]);
  }

  lemma BelowAreNodes(lv: Levels, l: nat, lo: nat, hi: nat)
    requires l < |lv|
    ensures Below(lv, l, lo, hi) <= AllNodes(lv)
  {
  }

  /** The ancestor of a node on a higher level is a node of that level. */
  lemma {:induction false} AncestorExists(lv: Levels, m: nat, x: nat, l: nat)
    requires Sized(lv) && m <= l < |lv| && x < |lv[m]|
    ensures Shr(x, l - m) < |lv[l]|
    decreases l
  {
    if m < l {
      AncestorExists(lv, m, x, l - 1);
      assert |lv[l]| == Above(|lv[l - 1]|);
    }
  }

  /** Beyond the last node of a level there is nothing. */
  lemma BelowNothing(lv: Levels, l: nat, lo: nat, hi: nat)
    requires Sized(lv) && l < |lv| && |lv[l]| <= lo
    ensures Below(lv, l, lo, hi) == {}
  {
    if n :| n in Below(lv, l, lo, hi) {
      var m, x :| 0 <= m <= l && 0 <= x < |lv[m]| && lo <= Shr(x, l - m) < hi && lv[m][x] == n;
      AncestorExists(lv, m, x, l);
    }
  }

  /** What is left of a tree of this shape when its root and all but its first subtree go. */
  ghost function Trim(lv: Levels): Levels
    requires |lv| > 1
  {
    seq(|lv| - 1, m requires 0 <= m < |lv| - 1 =>
      if |lv[m]| <= Pow128(|lv| - 2 - m) then lv[m] else lv[m][..Pow128(|lv| - 2 - m)])
  }

  lemma TrimSized(lv: Levels)
    requires Sized(lv) && |lv| > 1
    ensures Sized(Trim(lv))
  {
    var t := Trim(lv);
    assert |lv[|lv| - 1]| == Above(|lv[|lv| - 2]|);
    forall l | 0 < l < |t|
      ensures |t[l]| == Above(|t[l - 1]|)
    {
      assert |lv[l]| == Above(|lv[l - 1]|);
      assert Pow128(|lv| - 2 - (l - 1)) == SPLIT_NODES * Pow128(|lv| - 2 - l);
    }
  }

  lemma TrimEnds(lv: Levels)
    requires Sized(lv) && |lv| > 1
    ensures |Trim(lv)| == |lv| - 1 && Trim(lv)[0] != [] && Trim(lv)[0][0] == lv[0][0]
    ensures Trim(lv)[|lv| - 2] != [] && Trim(lv)[|lv| - 2][0] == lv[|lv| - 2][0]
  {
    TrimSized(lv);
  }

  lemma TrimChild(lv: Levels, l: nat, j: nat, k: nat)
    requires Sized(lv) && 0 < l < |lv| - 1 && j < |Trim(lv)[l]| && k < SPLIT_NODES
    ensures Trim(lv)[l][j] == lv[l][j] && ChildOf(Trim(lv), l, j, k) == ChildOf(lv, l, j, k)
  {
    var p := Pow128(|lv| - 2 - l);
    assert j < p && Pow128(|lv| - 2 - (l - 1)) == SPLIT_NODES * p;
  }

  lemma TrimLinked(lv: Levels, at: map<Node, (nat, nat)>)
    requires Sized(lv) && |lv| > 1 && Placed(lv, at) && Linked(lv, at)
    ensures Placed(Trim(lv), at) && Linked(Trim(lv), at)
  {
    var t := Trim(lv);
    assert forall l, j :: 0 <= l < |t| && 0 <= j < |t[l]| ==> t[l][j] == lv[l][j];
    forall l, j, k | 0 < l < |t| && 0 <= j < |t[l]| && 0 <= k < SPLIT_NODES
      ensures t[l][j][k] == ChildOf(t, l, j, k)
    {
      TrimChild(lv, l, j, k);
    }
  }

  lemma TrimSize(lv: Levels, m: nat, x: nat)
    requires |lv| > 1 && m < |lv| - 1 && x < |lv[m]|
    ensures x < |Trim(lv)[m]| <==> Shr(x, |lv| - 2 - m) < 1
    ensures x < |Trim(lv)[m]| ==> Trim(lv)[m][x] == lv[m][x]
  {
    ShrBelow(x, |lv| - 2 - m, 1);
  }

  /** The nodes left are those below the first child of the root. */
  lemma TrimNodes(lv: Levels)
    requires Sized(lv) && |lv| > 1
    ensures AllNodes(Trim(lv)) == Below(lv, |lv| - 2, 0, 1)
  {
    var t, d := Trim(lv), |lv| - 2;
    forall n | n in AllNodes(t)
      ensures n in Below(lv, d, 0, 1)
    {
      var m, x :| 0 <= m < |t| && 0 <= x < |t[m]| && t[m][x] == n;
      TrimSize(lv, m, x);
    }
    forall n | n in Below(lv, d, 0, 1)
      ensures n in AllNodes(t)
    {
      var m, x :| 0 <= m <= d && 0 <= x < |lv[m]| && 0 <= Shr(x, d - m) < 1 && lv[m][x] == n;
      TrimSize(lv, m, x);
    }
  }

  /** The root, its first subtree and its other subtrees are all there is. */
  lemma RootBelow(lv: Levels, at: map<Node, (nat, nat)>)
    requires Sized(lv) && |lv| > 1 && Placed(lv, at)
    ensures var d, root := |lv| - 2, lv[|lv| - 1][0];
      && AllNodes(lv) == {root} + Below(lv, d, 0, 1) + Below(lv, d, 1, SPLIT_NODES)
      && root !in Below(lv, d, 0, 1) && root !in Below(lv, d, 1, SPLIT_NODES)
      && Below(lv, d, 0, 1) !! Below(lv, d, 1, SPLIT_NODES)
      && lv[0][0] in Below(lv, d, 0, 1)
  {
    var d := |lv| - 1;
    BelowOne(lv, at, d, 0);
    BelowSplit(lv, at, d - 1, 0, 1, SPLIT_NODES);
    forall n | n in AllNodes(lv)
      ensures n in Below(lv, d, 0, 1)
    {
      var m, x :| 0 <= m < |lv| && 0 <= x < |lv[m]| && lv[m][x] == n;
      AncestorExists(lv, m, x, d);
    }
    BelowAreNodes(lv, d, 0, 1);
    ShrBelow(0, d - 1, 1);
    InBelow(lv, at, d - 1, 0, 1, lv[0][0]);
  }

  class RadixTree {
    /** The leaf embedded in the thread state.  Its slot 0 is also the root pointer. */
    const firstLeaf: Node
    var depth: nat
    ghost var lv: Levels
    ghost var at: map<Node, (nat, nat)>
    /** Nodes obtained from `calloc` and not yet passed to `free`. */
    ghost var allocs: set<Node>

    ghost predicate Valid()
      reads this, at.Keys
    {
      && |lv| == depth + 1
      && Sized(lv) && Placed(lv, at) && Linked(lv, at)
      && lv[0][0] == firstLeaf
      && firstLeaf[0] == Child(lv[depth][0])
      && allocs == AllNodes(lv) - {firstLeaf}
    }

    /** What the slot of index `i` holds. */
    ghost function Read(i: nat): Entry
      requires Valid() && i / SPLIT_NODES < |lv[0]|
      reads this, at.Keys
    {
      lv[0][i / SPLIT_NODES][i % SPLIT_NODES]
    }

    constructor ()
      ensures Valid() && depth == 0 && |lv[0]| == 1
      ensures forall i :: 0 < i < SPLIT_NODES ==> Read(i) == Null
      ensures fresh(at.Keys)
    {
      var leaf := new Entry[SPLIT_NODES](_ => Null);
      firstLeaf := leaf;
      depth := 0;
      lv := [[leaf]];
      at := map[leaf := (0, 0)];
      allocs := {};
      new;
      leaf[0] := Child(leaf);
    }

    /** Hang a new, empty node under slot `bits` of `r`, the next free place on its level. */
    method AllocateChild(r: Node, i: nat, ghost j: nat, bits: nat) returns (n: Node)
      requires Placed(lv, at) && Linked(lv, at)
      requires 0 < i < |lv| && j < |lv[i]| && lv[i][j] == r && bits < SPLIT_NODES
      requires SPLIT_NODES * j + bits == |lv[i - 1]|
      requires i > 1 ==> |lv[i - 2]| <= SPLIT_NODES * |lv[i - 1]|
      modifies this`lv, this`at, this`allocs, r
      ensures fresh(n) && n.Length == SPLIT_NODES && forall k :: 0 <= k < SPLIT_NODES ==> n[k] == Null
      ensures lv == old(lv)[i - 1 := old(lv[i - 1]) + [n]]
      ensures at == old(at)[n := (i - 1, old(|lv[i - 1]|))] && allocs == old(allocs) + {n}
      ensures AllNodes(lv) == old(AllNodes(lv)) + {n}
      ensures Placed(lv, at) && Linked(lv, at)
      ensures r[bits] == Child(n) && forall k :: 0 <= k < SPLIT_NODES && k != bits ==> r[k] == old(r[k])
    {
      assert forall l, j' :: 0 <= l < |lv| && 0 <= j' < |lv[l]| && lv[l][j'] == r ==> at[r] == (l, j');
      n := new Entry[SPLIT_NODES](_ => Null);
      r[bits] := Child(n);
      PlaceMore(lv, at, i - 1, n);
      LinkMore(lv, at, i, j, bits, n);
      at := at[n := (i - 1, |lv[i - 1]|)];
      lv := lv[i - 1 := lv[i - 1] + [n]];
      allocs := allocs + {n};
    }

    /** A node whose child 0 is the present root, stored over the root pointer. */
    method NewRoot() returns (n: Node)
      requires Valid()
      modifies firstLeaf
      ensures fresh(n) && n.Length == SPLIT_NODES && n[0] == Child(lv[depth][0])
      ensures forall k :: 0 < k < SPLIT_NODES ==> n[k] == Null
      ensures Linked(lv, at) && firstLeaf[0] == Child(n)
      ensures forall k :: 0 < k < SPLIT_NODES ==> firstLeaf[k] == old(firstLeaf[k])
    {
      assert forall l, j :: 0 < l < |lv| && 0 <= j < |lv[l]| ==> lv[l][j] != firstLeaf;
      n := new Entry[SPLIT_NODES](_ => Null);
      n[0] := firstLeaf[0];
      firstLeaf[0] := Child(n);
    }

    /** Put a new root above the present one, which becomes its child 0. */
    method AddLevel() returns (ghost r: Node)
      requires Valid()
      modifies this, firstLeaf
      ensures Valid() && depth == old(depth) + 1 && lv == old(lv) + [[r]]
      ensures fresh(r) && at == old(at)[r := at[r]]
      ensures forall k :: 0 < k < SPLIT_NODES ==> firstLeaf[k] == old(firstLeaf[k])
    {
      r := NewRoot();
      RootLinked(lv, at, r);
      depth := depth + 1;
      at := at[r := (|lv|, 0)];
      lv := lv + [[r]];
      allocs := allocs + {r};
    }

    /** The state of a walk towards `index` that has reached level `i`. */
    ghost predicate Walking(i: nat, index: nat)
      reads this, at.Keys
    {
      && |lv| == depth + 1 && i <= depth && |lv[depth]| == 1
      && Placed(lv, at) && Linked(lv, at)
      && SizedDownTo(lv, i, index)
      && lv[0] != [] && lv[0][0] == firstLeaf
      && firstLeaf[0] == Child(lv[depth][0])
      && allocs == AllNodes(lv) - {firstLeaf}
    }

    lemma WalkStarts(index: nat)
      requires Valid() && Shr(index, 1) <= |lv[0]| && Shr(index, depth + 1) == 0
      ensures Walking(depth, index) && firstLeaf.Length == SPLIT_NODES && firstLeaf[0] == Child(lv[depth][Shr(index, depth + 1)])
    {
      SizedAtRoot(lv, index);
    }

    /** The node on level `i` on the way to `index`. */
    lemma WalkAt(i: nat, index: nat)
      requires Walking(i, index)
      ensures Shr(index, i + 1) < |lv[i]|
      ensures var r := lv[i][Shr(index, i + 1)]; r in at && at[r].0 == i && r.Length == SPLIT_NODES
    {
    }

    lemma WalkEnds(index: nat)
      requires Walking(0, index)
      ensures Valid() && Shr(index, 1) < |lv[0]|
    {
    }

    /** Make the next node on level `i - 1`, the child of `r` on the way to `index`. */
    method Extend(r: Node, i: nat, index: nat) returns (n: Node)
      requires i > 0 && Walking(i, index) && r == lv[i][Shr(index, i + 1)]
      requires Shr(index, i) == |lv[i - 1]|
      modifies this`lv, this`at, this`allocs, r
      ensures Walking(i - 1, index) && r[Shr(index, i) % SPLIT_NODES] == Child(n)
      ensures lv == Append(old(lv), i - 1, n) && at == old(at)[n := at[n]]
      ensures fresh(n) && forall k :: 0 <= k < SPLIT_NODES ==> n[k] == Null
    {
      SizedStep(lv, i, index);
      ghost var lv0 := lv;
      n := AllocateChild(r, i, Shr(index, i + 1), Shr(index, i) % SPLIT_NODES);
      SizedMore(lv0, i, index, n);
    }

    /** One step down, making the child if it is missing. */
    method Descend(r: Node, i: nat, index: nat) returns (r': Node)
      requires i > 0 && Walking(i, index) && r == lv[i][Shr(index, i + 1)]
      modifies this`lv, this`at, this`allocs, r
      ensures Walking(i - 1, index) && r' == lv[i - 1][Shr(index, i)]
      ensures at == old(at)[r' := at[r']] && (r' in old(at) ==> at == old(at)) && (r' !in old(at) ==> fresh(r'))
      ensures i > 1 ==> lv[0] == old(lv[0])
      ensures i == 1 && r' !in old(at) ==> lv[0] == old(lv[0]) + [r'] && forall k :: 0 <= k < SPLIT_NODES ==> r'[k] == Null
      ensures old(Shr(index, 1) < |lv[0]|) ==> lv == old(lv) && at == old(at)
      ensures i == 1 && old(Shr(index, 1) == |lv[0]|) ==> r' !in old(at)
    {
      var bits := Shr(index, i) % SPLIT_NODES;
      SizedStep(lv, i, index);
      if Shr(index, 1) < |lv[0]| {
        ExistsBelow(lv, i, index, i - 1);
      }
      assert r[bits] == ChildOf(lv, i, Shr(index, i + 1), bits);
      if r[bits] == Null {
        r' := Extend(r, i, index);
      } else {
        r' := r[bits].node;
      }
    }

    ghost function InnerNodes(): set<Node>
      reads this
    {
      set n | n in at && at[n].0 > 0
    }

    /** Down from the root to the leaf of `index`, which exists or is the next to be made. */
    method Walk(index: nat) returns (leaf: Node)
      requires Valid() && Shr(index, 1) <= |lv[0]| && Shr(index, depth + 1) == 0
      modifies this`lv, this`at, this`allocs, InnerNodes()
      ensures Valid() && Shr(index, 1) < |lv[0]| && leaf == lv[0][Shr(index, 1)]
      ensures old(Shr(index, 1) < |lv[0]|) ==> lv == old(lv) && at == old(at)
      ensures old(Shr(index, 1) == |lv[0]|) ==> lv[0] == old(lv[0]) + [leaf] && forall k :: 0 <= k < SPLIT_NODES ==> leaf[k] == Null
      ensures fresh(at.Keys - old(at.Keys))
    {
      hide Valid, Placed, Linked, SizedDownTo, AllNodes;
      WalkStarts(index);
      WalkAt(depth, index);
      ghost var leaves, present := lv[0], Shr(index, 1) < |lv[0]|;
      var r := firstLeaf[0].node;
      var i: nat := depth;
      while i > 0
        invariant Walking(i, index) && Shr(index, i + 1) < |lv[i]| && r == lv[i][Shr(index, i + 1)]
        invariant r in at && at[r].0 == i && r.Length == SPLIT_NODES
        invariant forall n :: n in at ==> if n in old(at) then at[n] == old(at)[n] else fresh(n)
        invariant i > 0 || present ==> lv[0] == leaves
        invariant present ==> lv == old(lv) && at == old(at)
        invariant i == 0 && !present ==> lv[0] == leaves + [r] && forall k :: 0 <= k < SPLIT_NODES ==> r[k] == Null
      {
        r := Descend(r, i, index);
        i := i - 1;
        WalkAt(i, index);
      }
      WalkEnds(index);
      leaf := r;
    }

    /** The indices that have a slot. */
    ghost function Capacity(): nat
      reads this
    {
      if lv == [] then 0 else SPLIT_NODES * |lv[0]|
    }

    /** Add a level if `index` needs one more digit than the depth allows; it never needs two. */
    method EnsureDepth(index: nat)
      requires Valid() && depth <= 3 && index < MAX_INDEX && Shr(index, 1) <= |lv[0]|
      modifies this, firstLeaf
      ensures Valid() && depth <= 3 && Shr(index, depth + 1) == 0
      ensures lv[0] == old(lv[0]) && forall k :: 0 < k < SPLIT_NODES ==> firstLeaf[k] == old(firstLeaf[k])
      ensures forall n :: n in at ==> if n in old(at) then at[n] == old(at)[n] else fresh(n)
      ensures old(Shr(index, 1) < |lv[0]|) ==> lv == old(lv) && at == old(at) && depth == old(depth)
      ensures depth == old(depth) || Pow128(depth) <= index
    {
      PathBound(lv, index, depth);
      if Shr(index, depth + 1) != 0 {
        ShrBelow(index, depth + 1, 1);
        DepthBound(index, depth);
        ghost var r := AddLevel();
      }
    }

    /**
     The slot of `index`.  One level is added if the tree is too shallow, and one is
     always enough; missing nodes on the way are made.  No other slot changes.
     */
    method GetNode(index: nat) returns (leaf: Node, off: nat)
      requires Valid() && depth <= 3 && 0 < index < MAX_INDEX && index < Capacity() + SPLIT_NODES
      modifies this, at.Keys
      ensures Valid() && depth <= 3 && index < Capacity() && fresh(at.Keys - old(at.Keys))
      ensures leaf in at && leaf == lv[0][index / SPLIT_NODES] && off == index % SPLIT_NODES
      ensures old(index < Capacity()) ==> lv == old(lv) && at == old(at) && depth == old(depth)
      ensures old(index >= Capacity()) ==> Capacity() == old(Capacity()) + SPLIT_NODES
      ensures depth == old(depth) || Pow128(depth) <= index
      ensures forall i :: 0 < i < old(Capacity()) ==> Read(i) == old(Read(i))
      ensures forall i :: old(Capacity()) <= i < Capacity() ==> Read(i) == Null
    {
      assert Shr(index, 1) == index / SPLIT_NODES;
      EnsureDepth(index);
      leaf := Walk(index);
      off := index % SPLIT_NODES;
    }

    /** `free`: the node must not have been freed before. */
    ghost method Free(n: Node)
      requires n in allocs
      modifies this`allocs
      ensures allocs == old(allocs) - {n}
    {
      allocs := allocs - {n};
    }

    /** Free a subtree; the children of a node are a prefix of its slots, so none is missed. */
    method FreeRatnode(node: Node, level: nat, ghost j: nat)
      requires Sized(lv) && Placed(lv, at) && Linked(lv, at)
      requires level < |lv| && j < |lv[level]| && lv[level][j] == node
      requires Below(lv, level, j, j + 1) <= allocs
      modifies this`allocs
      ensures allocs == old(allocs) - Below(lv, level, j, j + 1)
      decreases level
    {
      if level > 0 {
        BelowOne(lv, at, level, j);
        ghost var first := SPLIT_NODES * j;
        var i := 0;
        while i < SPLIT_NODES
          invariant i <= SPLIT_NODES
          invariant allocs == old(allocs) - Below(lv, level - 1, first, first + i)
        {
          assert node[i] == ChildOf(lv, level, j, i);
          BelowSplit(lv, at, level - 1, first, first + i, first + SPLIT_NODES);
          if node[i] == Null {
            BelowNothing(lv, level - 1, first + i, first + SPLIT_NODES);
            break;
          }
          BelowSplit(lv, at, level - 1, first + i, first + i + 1, first + SPLIT_NODES);
          BelowSplit(lv, at, level - 1, first, first + i, first + i + 1);
          FreeRatnode(node[i].node, level - 1, first + i);
          i := i + 1;
        }
      }
      Free(node);
    }

    /** Free all subtrees of the root but the first. */
    method FreeOthers(root: Node)
      requires Valid() && depth > 0 && root == lv[depth][0]
      modifies this`allocs
      ensures allocs == old(allocs) - Below(lv, depth - 1, 1, SPLIT_NODES)
    {
      RootBelow(lv, at);
      ghost var d := depth - 1;
      var i := 1;
      while i < SPLIT_NODES
        invariant 1 <= i <= SPLIT_NODES
        invariant allocs == old(allocs) - Below(lv, d, 1, i)
      {
        assert root[i] == ChildOf(lv, depth, 0, i);
        BelowSplit(lv, at, d, 1, i, SPLIT_NODES);
        if root[i] == Null {
          BelowNothing(lv, d, i, SPLIT_NODES);
          break;
        }
        BelowSplit(lv, at, d, i, i + 1, SPLIT_NODES);
        BelowSplit(lv, at, d, 1, i, i + 1);
        FreeRatnode(root[i].node, depth - 1, i);
        i := i + 1;
      }
    }

    /** Drop the root and everything but its first subtree. */
    method RemoveLevel()
      requires Valid() && depth > 0
      modifies this, firstLeaf
      ensures Valid() && depth == old(depth) - 1 && lv == old(Trim(lv)) && at == old(at)
      ensures forall k :: 0 < k < SPLIT_NODES ==> firstLeaf[k] == old(firstLeaf[k])
    {
      TrimEnds(lv);
      RootBelow(lv, at);
      TrimSized(lv);
      TrimNodes(lv);
      hide Below, AllNodes, Trim, Sized;
      var root := firstLeaf[0].node;
      FreeOthers(root);
      assert root[0] == ChildOf(lv, depth, 0, 0);
      firstLeaf[0] := root[0];
      Free(root);
      TrimLinked(lv, at);
      lv := Trim(lv);
      depth := depth - 1;
    }

    /** The same, in terms of slots: the indices that still fit one digit less keep theirs. */
    method Shrink()
      requires Valid() && depth > 0 && Capacity() > Pow128(depth)
      modifies this, at.Keys
      ensures Valid() && depth == old(depth) - 1 && at == old(at) && lv[0] <= old(lv[0]) && Capacity() == old(Pow128(depth))
      ensures forall i :: 0 < i < Capacity() ==> Read(i) == old(Read(i))
    {
      assert Pow128(depth) == SPLIT_NODES * Pow128(depth - 1);
      RemoveLevel();
    }

    /** `iv_timer_deinit`: every node that was allocated has been freed. */
    method Deinit()
      requires Valid()
      modifies this, firstLeaf
      ensures allocs == {} && depth == 0 && firstLeaf.Length == SPLIT_NODES && firstLeaf[0] == Null
    {
      while depth > 0
        invariant Valid()
        decreases depth
      {
        RemoveLevel();
      }
      assert lv[0] == [firstLeaf];
      firstLeaf[0] := Null;
    }

    /** Distinct indices have distinct slots, and none of them is the root pointer. */
    lemma SlotsDiffer(i: nat, i': nat)
      requires Valid() && 0 < i < Capacity() && 0 < i' < Capacity()
      ensures (lv[0][i / SPLIT_NODES] == lv[0][i' / SPLIT_NODES] && i % SPLIT_NODES == i' % SPLIT_NODES) <==> i == i'
      ensures lv[0][i / SPLIT_NODES] != firstLeaf || i % SPLIT_NODES != 0
    {
      assert at[lv[0][i / SPLIT_NODES]] == (0, i / SPLIT_NODES);
      assert at[lv[0][i' / SPLIT_NODES]] == (0, i' / SPLIT_NODES);
    }

    /** Write the slot of index `i`, found with `GetNode`. */
    method Put(leaf: Node, off: nat, e: Entry, ghost i: nat)
      requires Valid() && 0 < i < Capacity() && leaf == lv[0][i / SPLIT_NODES] && off == i % SPLIT_NODES
      modifies leaf
      ensures Valid() && Read(i) == e
      ensures forall k :: 0 < k < Capacity() && k != i ==> Read(k) == old(Read(k))
    {
      assert at[leaf] == (0, i / SPLIT_NODES);
      leaf[off] := e;
    }

    /** Exchange the contents of two slots. */
    method Swap(leafI: Node, offI: nat, leafJ: Node, offJ: nat, ghost i: nat, ghost j: nat)
      requires Valid() && 0 < i < Capacity() && leafI == lv[0][i / SPLIT_NODES] && offI == i % SPLIT_NODES
      requires Valid() && 0 < j < Capacity() && leafJ == lv[0][j / SPLIT_NODES] && offJ == j % SPLIT_NODES
      modifies leafI, leafJ
      ensures Valid() && Read(i) == old(Read(j)) && Read(j) == old(Read(i))
      ensures offI < leafI.Length && leafI[offI] == Read(i) && offJ < leafJ.Length && leafJ[offJ] == Read(j)
      ensures forall k :: 0 < k < Capacity() && k != i && k != j ==> Read(k) == old(Read(k))
    {
      var et := leafI[offI];
      Put(leafI, offI, leafJ[offJ], i);
      Put(leafJ, offJ, et, j);
    }
  }
}
