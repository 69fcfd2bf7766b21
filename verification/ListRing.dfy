/**
 The circular doubly linked lists of src/include/iv_list.h, and the stealing of a whole
 list (src/iv_private.h).  A list is a ring of links that begins and ends at its head; it
 stands for the sequence of links between.
 */
module ListRing {
  import opened Lists

  class Link {
    var next: Link?
    var prev: Link?

    constructor ()
      ensures IsList(this, [])
    {
      next, prev := this, this;
    }
  }

  /** Each link points to the one after it and back. */
  ghost predicate Joined(p: seq<Link>)
    reads p
  {
    forall i :: 0 <= i < |p| - 1 ==> p[i].next == p[i + 1] && p[i + 1].prev == p[i]
  }

  /** The list with this head has the elements `e`. */
  ghost predicate IsList(head: Link, e: seq<Link>)
    reads head, e
  {
    Distinct(e) && head !in e && Joined([head] + e + [head])
  }

  method Init(l: Link)
    modifies l
    ensures IsList(l, [])
  {
    l.next := l;
    l.prev := l;
  }

  method Empty(head: Link, ghost e: seq<Link>) returns (empty: bool)
    requires IsList(head, e)
    ensures empty <==> e == []
  {
    ghost var p := [head] + e + [head];
    assert p[0].next == p[1];
    assert e != [] ==> p[1] == e[0];
    return head.next == head;
  }

  /** The neighbours of the head. */
  lemma Ends(head: Link, e: seq<Link>)
    requires IsList(head, e)
    ensures head.next == (if e == [] then head else e[0])
    ensures head.prev == (if e == [] then head else e[|e| - 1])
  {
    var p := [head] + e + [head];
    assert p[0].next == p[1] && p[|e| + 1].prev == p[|e|];
  }

  /** `iv_list_add`. */
  method Add(l: Link, head: Link, ghost e: seq<Link>)
    requires IsList(head, e) && l != head && l !in e
    modifies l, head, head.next
    ensures IsList(head, [l] + e)
  {
    Ends(head, e);
    ghost var p, q := [head] + e + [head], [head] + ([l] + e) + [head];
    PrependDistinct(l, e);
    l.next := head.next;
    l.prev := head;
    head.next.prev := l;
    head.next := l;
    forall i | 0 <= i < |q| - 1
      ensures q[i].next == q[i + 1] && q[i + 1].prev == q[i]
    {
      if i >= 2 {
        assert q[i] == p[i - 1] && q[i + 1] == p[i];
        assert old(p[i - 1].next) == p[i] && old(p[i].prev) == p[i - 1];
      }
    }
  }

  /** `iv_list_add_tail`. */
  method AddTail(l: Link, head: Link, ghost e: seq<Link>)
    requires IsList(head, e) && l != head && l !in e
    modifies l, head, head.prev
    ensures IsList(head, e + [l])
  {
    Ends(head, e);
    ghost var p, q := [head] + e + [head], [head] + (e + [l]) + [head];
    assert forall i :: 0 <= i <= |e| ==> p[i] == q[i];
    AppendDistinct(e, l);
    l.next := head;
    l.prev := head.prev;
    head.prev.next := l;
    head.prev := l;
  }

  /** The element at `k` and its neighbours. */
  lemma Neighbours(head: Link, e: seq<Link>, k: nat)
    requires IsList(head, e) && k < |e|
    ensures e[k].prev == (if k == 0 then head else e[k - 1])
    ensures e[k].next == (if k == |e| - 1 then head else e[k + 1])
  {
    var p := [head] + e + [head];
    assert p[k].next == p[k + 1] && p[k + 1].prev == p[k];
    assert p[k + 1].next == p[k + 2] && p[k + 2].prev == p[k + 1];
  }

  /** Where a link may be when it is taken out: in a list, at place `k`, or alone, as the head of an empty one. */
  ghost predicate IsOn(l: Link, head: Link, e: seq<Link>, k: nat)
    reads head, e
  {
    IsList(head, e) && if l == head then e == [] else k < |e| && e[k] == l
  }

  /** `iv_list_del`. */
  method Del(l: Link, ghost head: Link, ghost e: seq<Link>, ghost k: nat)
    requires IsOn(l, head, e, k)
    modifies l, l.prev, l.next
    ensures l.next == null && l.prev == null
    ensures l != head ==> IsList(head, e[..k] + e[k + 1..])
  {
    Detach(l, head, e, k);
    l.prev := null;
    l.next := null;
  }

  /** `iv_list_del_init`: the link becomes, or stays, an empty list of its own. */
  method DelInit(l: Link, ghost head: Link, ghost e: seq<Link>, ghost k: nat)
    requires IsOn(l, head, e, k)
    modifies l, l.prev, l.next
    ensures IsList(l, [])
    ensures l != head ==> IsList(head, e[..k] + e[k + 1..])
  {
    Detach(l, head, e, k);
    Init(l);
  }

  /** The two writes, also for a link that is alone. */
  method Detach(l: Link, ghost head: Link, ghost e: seq<Link>, ghost k: nat)
    requires IsOn(l, head, e, k)
    modifies l.prev, l.next
    ensures l != head ==> IsList(head, e[..k] + e[k + 1..]) && l !in e[..k] + e[k + 1..]
    ensures l == head ==> unchanged(l)
  {
    if l == head {
      Ends(head, e);
    } else {
      Neighbours(head, e, k);
    }
    ghost var e' := if l == head then [] else e[..k] + e[k + 1..];
    ghost var p, q := [head] + e + [head], [head] + e' + [head];
    assert l != head ==> forall i :: 0 <= i < |e'| ==> e'[i] == e[if i < k then i else i + 1];
    assert l != head ==> forall i :: 0 <= i < |q| ==> q[i] == p[if i <= k then i else i + 1];
    l.prev.next := l.next;
    l.next.prev := l.prev;
    forall i | 0 <= i < |q| - 1 && l != head
      ensures q[i].next == q[i + 1] && q[i + 1].prev == q[i]
    {
      var j := if i <= k then i else i + 1;
      assert old(p[j].next) == p[j + 1] && old(p[j + 1].prev) == p[j];
      if i == k {
        assert old(p[k + 1].next) == p[k + 2] && old(p[k + 2].prev) == p[k + 1];
      }
    }
  }

  ghost function Spliced(e: seq<Link>, k: nat, f: seq<Link>): seq<Link>
    requires k <= |e|
  {
    e[..k] + f + e[k..]
  }

  lemma SplicedDistinct(e: seq<Link>, k: nat, f: seq<Link>)
    requires k <= |e| && Distinct(e) && Distinct(f) && forall x :: x in f ==> x !in e
    ensures Distinct(Spliced(e, k, f))
  {
    var s := Spliced(e, k, f);
    forall i, j | 0 <= i < j < |s|
      ensures s[i] != s[j]
    {
      assert s[i] == if i < k then e[i] else if i < k + |f| then f[i - k] else e[i - |f|];
      assert s[j] == if j < k then e[j] else if j < k + |f| then f[j - k] else e[j - |f|];
      assert (k <= i < k + |f| ==> s[i] in f) && (k <= j < k + |f| ==> s[j] in f);
      assert (i < k || k + |f| <= i ==> s[i] in e) && (j < k || k + |f| <= j ==> s[j] in e);
    }
  }

  lemma JoinedConcat(p: seq<Link>, q: seq<Link>)
    requires p != [] && q != [] && Joined(p) && Joined(q) && p[|p| - 1].next == q[0] && q[0].prev == p[|p| - 1]
    ensures Joined(p + q)
  {
    var s := p + q;
    forall i | 0 <= i < |s| - 1
      ensures s[i].next == s[i + 1] && s[i + 1].prev == s[i]
    {
      if i >= |p| {
        assert s[i] == q[i - |p|] && s[i + 1] == q[i - |p| + 1];
      }
    }
  }

  lemma JoinedPart(p: seq<Link>, i: nat, j: nat)
    requires Joined(p) && i <= j <= |p|
    ensures Joined(p[i..j])
  {
    var q := p[i..j];
    assert forall k :: 0 <= k < |q| ==> q[k] == p[i + k];
  }

  /** A piece stays joined when the only links that change their `next` are at its end, and `prev` at its beginning. */
  twostate lemma StaysJoined(p: seq<Link>)
    requires old(Joined(p))
    requires forall i :: 0 <= i < |p| - 1 ==> p[i].next == old(p[i].next)
    requires forall i :: 1 <= i < |p| ==> p[i].prev == old(p[i].prev)
    ensures Joined(p)
  {
    forall i | 0 <= i < |p| - 1
      ensures p[i].next == p[i + 1] && p[i + 1].prev == p[i]
    {
      assert old(p[i].next) == p[i + 1] && old(p[i + 1].prev) == p[i];
    }
  }

  /** Writing the `next` of `x` and `y` and the `prev` of `z` and `w` leaves the inside of a piece alone. */
  ghost predicate Clear(p: seq<Link>, x: Link, y: Link, z: Link, w: Link)
  {
    && (forall i :: 0 <= i < |p| - 1 ==> p[i] != x && p[i] != y)
    && (forall i :: 1 <= i < |p| ==> p[i] != z && p[i] != w)
  }

  /** The four writes of `__iv_list_splice` put one piece between two others. */
  method Hook(prev: Link, first: Link, last: Link, next: Link, ghost a: seq<Link>, ghost f: seq<Link>, ghost c: seq<Link>)
    requires a != [] && f != [] && c != [] && Joined(a) && Joined(f) && Joined(c)
    requires prev == a[|a| - 1] && first == f[0] && last == f[|f| - 1] && next == c[0]
    requires prev != last && first != next
    requires Clear(a, prev, last, first, next) && Clear(f, prev, last, first, next) && Clear(c, prev, last, first, next)
    modifies prev`next, first`prev, last`next, next`prev
    ensures Joined(a + f + c)
  {
    first.prev := prev;
    prev.next := first;
    last.next := next;
    next.prev := last;
    StaysJoined(a);
    StaysJoined(f);
    StaysJoined(c);
    hide Joined;
    JoinedConcat(a, f);
    JoinedConcat(a + f, c);
  }

  /** A list cut in two after `k` elements, and the elements of another list. */
  lemma CutJoined(head: Link, e: seq<Link>, k: nat, l: Link, f: seq<Link>)
    requires IsList(l, f) && IsList(head, e) && k <= |e|
    ensures Joined([head] + e[..k]) && Joined(f) && Joined(e[k..] + [head])
  {
    hide Distinct;
    var a, c := [head] + e[..k], e[k..] + [head];
    assert [head] + e + [head] == a + c;
    JoinedPart(a + c, 0, |a|);
    JoinedPart(a + c, |a|, |a + c|);
    assert (a + c)[..|a|] == a && (a + c)[|a|..] == c;
    JoinedPart([l] + f + [l], 1, |f| + 1);
    assert ([l] + f + [l])[1..|f| + 1] == f;
  }

  lemma CutClear(head: Link, e: seq<Link>, k: nat, f: seq<Link>)
    requires Distinct(e) && head !in e && Distinct(f) && f != [] && k <= |e| && head !in f
    requires forall x :: x in f ==> x !in e
    ensures var a, c := [head] + e[..k], e[k..] + [head];
      var prev, next, first, last := a[|a| - 1], c[0], f[0], f[|f| - 1];
      && prev != last && first != next
      && Clear(a, prev, last, first, next) && Clear(f, prev, last, first, next) && Clear(c, prev, last, first, next)
  {
    var a, c := [head] + e[..k], e[k..] + [head];
    forall i | 0 <= i < |a|
      ensures a[i] !in f && (i < |a| - 1 ==> a[i] != a[|a| - 1]) && (i > 0 ==> a[i] != c[0])
    {
      assert i > 0 ==> a[i] == e[i - 1];
    }
    forall i | 0 <= i < |c|
      ensures c[i] !in f && (i > 0 ==> c[i] != c[0]) && (i < |c| - 1 ==> c[i] != a[|a| - 1])
    {
      assert i < |c| - 1 ==> c[i] == e[k + i];
    }
    assert f[0] in f && f[|f| - 1] in f && a[|a| - 1] !in f && c[0] !in f;
    forall i | 0 <= i < |f|
      ensures f[i] in f
    {
    }
  }

  /** `__iv_list_splice`: put the elements of one list in another, after its first `k` elements. */
  method Splice(l: Link, prev: Link, next: Link, ghost f: seq<Link>, ghost head: Link, ghost e: seq<Link>, ghost k: nat)
    requires IsList(l, f) && f != [] && IsList(head, e) && k <= |e| && head !in f
    requires forall x :: x in f ==> x !in e
    requires prev == ([head] + e)[k] && next == (e + [head])[k]
    modifies prev, next, l.next, l.prev
    ensures IsList(head, Spliced(e, k, f))
  {
    Ends(l, f);
    SplicedDistinct(e, k, f);
    CutJoined(head, e, k, l, f);
    CutClear(head, e, k, f);
    ghost var a, c := [head] + e[..k], e[k..] + [head];
    hide Distinct, Joined, Clear;
    Hook(prev, l.next, l.prev, next, a, f, c);
    assert [head] + Spliced(e, k, f) + [head] == a + f + c;
  }

  /** `iv_list_splice` and, with `init`, `iv_list_splice_init`. */
  method SpliceFront(l: Link, head: Link, init: bool, ghost f: seq<Link>, ghost e: seq<Link>)
    requires IsList(l, f) && IsList(head, e) && head !in f && l != head && l !in e && forall x :: x in f ==> x !in e
    modifies head, head.next, l, l.next, l.prev
    ensures IsList(head, f + e) && (init ==> IsList(l, []))
  {
    var empty := Empty(l, f);
    if empty {
      assert f + e == e;
    } else {
      Ends(head, e);
      Ends(l, f);
      hide Distinct, Joined, IsList;
      Splice(l, head, head.next, f, head, e, 0);
      assert Spliced(e, 0, f) == f + e;
      if init {
        Init(l);
      }
    }
  }

  /** `iv_list_splice_tail` and, with `init`, `iv_list_splice_tail_init`. */
  method SpliceBack(l: Link, head: Link, init: bool, ghost f: seq<Link>, ghost e: seq<Link>)
    requires IsList(l, f) && IsList(head, e) && head !in f && l != head && l !in e && forall x :: x in f ==> x !in e
    modifies head, head.prev, l, l.next, l.prev
    ensures IsList(head, e + f) && (init ==> IsList(l, []))
  {
    var empty := Empty(l, f);
    if empty {
      assert e + f == e;
    } else {
      Ends(head, e);
      Ends(l, f);
      hide Distinct, Joined, IsList;
      Splice(l, head.prev, head, f, head, e, |e|);
      assert Spliced(e, |e|, f) == e + f;
      if init {
        Init(l);
      }
    }
  }

  /** `__iv_list_steal_elements`, for any list, the empty one included. */
  method Steal(oldHead: Link, newHead: Link, ghost e: seq<Link>)
    requires IsList(oldHead, e) && newHead != oldHead && newHead !in e
    modifies oldHead, newHead, oldHead.next, oldHead.prev
    ensures IsList(newHead, e) && IsList(oldHead, [])
  {
    Ends(oldHead, e);
    ghost var p, q := [oldHead] + e + [oldHead], [newHead] + e + [newHead];
    var first, last := oldHead.next, oldHead.prev;
    last.next := newHead;
    first.prev := newHead;
    newHead.next := oldHead.next;
    newHead.prev := oldHead.prev;
    oldHead.next := oldHead;
    oldHead.prev := oldHead;
    forall i | 0 <= i < |q| - 1
      ensures q[i].next == q[i + 1] && q[i + 1].prev == q[i]
    {
      assert old(p[i].next) == p[i + 1] && old(p[i + 1].prev) == p[i];
    }
  }
}
