/**
 Signal fan-out (src/iv_signal.c): which interests a signal wakes, how the
 search tree is used to find them, and why a wakeup that an exclusive
 interest can no longer use is not lost.
 */
module Signals {
  import opened AvlShape
  import opened AvlTree

  // ---------- Interests and their order ----------

  const ADDRESSES := 0x1_0000_0000_0000_0000

  /** An interest in a signal number; `addr` is where its structure lives. */
  datatype Interest = Interest(signum: nat, exclusive: bool, addr: nat)

  /** `iv_signal_compare`. */
  function Compare(a: Interest, b: Interest): int
  {
    if a.signum < b.signum then -1
    else if a.signum > b.signum then 1
    else if a.exclusive && !b.exclusive then -1
    else if !a.exclusive && b.exclusive then 1
    else if a.addr < b.addr then -1
    else if a.addr > b.addr then 1
    else 0
  }

  /** The same order as a number, by which nodes are kept in the tree. */
  function Key(i: Interest): nat
  {
    (2 * i.signum + (if i.exclusive then 0 else 1)) * ADDRESSES + i.addr
  }

  function FromKey(key: int): Interest
    requires key >= 0
  {
    Interest(key / ADDRESSES / 2, key / ADDRESSES % 2 == 0, key % ADDRESSES)
  }

  lemma KeyRoundTrip(i: Interest)
    requires i.addr < ADDRESSES
    ensures FromKey(Key(i)) == i
  {
    var q := 2 * i.signum + if i.exclusive then 0 else 1;
    assert Key(i) == q * ADDRESSES + i.addr;
    assert Key(i) / ADDRESSES == q && Key(i) % ADDRESSES == i.addr;
  }

  lemma CompareIsKeyOrder(a: Interest, b: Interest)
    requires a.addr < ADDRESSES && b.addr < ADDRESSES
    ensures Compare(a, b) < 0 <==> Key(a) < Key(b)
    ensures Compare(a, b) == 0 <==> a == b
    ensures Compare(a, b) > 0 <==> Key(a) > Key(b)
  {
    KeyRoundTrip(a);
    KeyRoundTrip(b);
  }

  // ---------- Whom a signal wakes ----------

  ghost function Interested(live: set<Interest>, signum: nat): set<Interest>
  {
    set i | i in live && i.signum == signum
  }

  ghost function Exclusives(live: set<Interest>, signum: nat): set<Interest>
  {
    set i | i in live && i.signum == signum && i.exclusive
  }

  /** The exclusive interest with the lowest address if there is any, and otherwise everybody. */
  ghost function Woken(live: set<Interest>, signum: nat): set<Interest>
  {
    var ex := Exclusives(live, signum);
    if ex == {} then Interested(live, signum)
    else set i | i in ex && forall j :: j in ex ==> i.addr <= j.addr
  }

  lemma {:induction false} Lowest(ex: set<Interest>) returns (i: Interest)
    requires ex != {}
    ensures i in ex && forall j :: j in ex ==> i.addr <= j.addr
  {
    i :| i in ex;
    if ex != {i} {
      var j := Lowest(ex - {i});
      if j.addr < i.addr {
        i := j;
      }
    }
  }

  /** An exclusive interest keeps a signal to itself. */
  lemma OneExclusive(live: set<Interest>, signum: nat) returns (i: Interest)
    requires Exclusives(live, signum) != {}
    ensures i in live && i.exclusive && Woken(live, signum) == {i}
  {
    i := Lowest(Exclusives(live, signum));
  }

  // ---------- The search in the tree ----------

  function SignumOf(n: Node): int
  {
    n.key / ADDRESSES / 2
  }

  predicate IsExclusive(n: Node)
  {
    n.key / ADDRESSES % 2 == 0
  }

  ghost function FirstWith(s: seq<Node>, signum: int): Node?
  {
    if s == [] then null else if SignumOf(s[0]) == signum then s[0] else FirstWith(s[1..], signum)
  }

  lemma {:induction false} FirstConcat(s: seq<Node>, t: seq<Node>, signum: int)
    ensures FirstWith(s + t, signum) == if FirstWith(s, signum) != null then FirstWith(s, signum) else FirstWith(t, signum)
  {
    if s == [] {
      assert s + t == t;
    } else {
      assert (s + t)[1..] == s[1..] + t;
      FirstConcat(s[1..], t, signum);
    }
  }

  lemma {:induction false} FirstNone(s: seq<Node>, signum: int)
    requires forall n :: n in s ==> SignumOf(n) != signum
    ensures FirstWith(s, signum) == null
  {
    if s != [] {
      FirstNone(s[1..], signum);
    }
  }

  lemma SignumMonotone(a: int, b: int)
    requires a <= b
    ensures a / ADDRESSES / 2 <= b / ADDRESSES / 2
    ensures a / ADDRESSES / 2 == b / ADDRESSES / 2 && b / ADDRESSES % 2 == 0 ==> a / ADDRESSES % 2 == 0
  {
  }

  lemma SortedParts(l: seq<Node>, n: Node, r: seq<Node>)
    requires Sorted(l + [n] + r)
    ensures Sorted(l) && Sorted(r)
    ensures forall m :: m in l ==> m.key <= n.key
    ensures forall m :: m in r ==> n.key <= m.key
  {
    var s := l + [n] + r;
    assert s[|l|] == n;
    assert forall i :: 0 <= i < |l| ==> l[i] == s[i];
    assert forall i :: 0 <= i < |r| ==> r[i] == s[|l| + 1 + i];
  }

  /** Looking at one node decides which of its subtrees can hold the first match. */
  lemma SearchStep(l: seq<Node>, n: Node, r: seq<Node>, signum: int)
    requires Sorted(l + [n] + r)
    ensures Sorted(l) && Sorted(r)
    ensures var first := FirstWith(l + [n] + r, signum);
      if SignumOf(n) < signum then first == FirstWith(r, signum)
      else first == if FirstWith(l, signum) != null then FirstWith(l, signum)
                    else if SignumOf(n) == signum then n else null
  {
    SortedParts(l, n, r);
    FirstConcat(l + [n], r, signum);
    FirstConcat(l, [n], signum);
    forall m | m in l
      ensures SignumOf(m) <= SignumOf(n)
    {
      SignumMonotone(m.key, n.key);
    }
    forall m | m in r
      ensures SignumOf(n) <= SignumOf(m)
    {
      SignumMonotone(n.key, m.key);
    }
    if SignumOf(n) < signum {
      FirstNone(l, signum);
    } else if SignumOf(n) > signum {
      FirstNone(r, signum);
    }
  }

  /** `__iv_signal_find_first`. */
  method FindFirst(tree: AvlTree, signum: int) returns (best: Node?)
    requires tree.Valid()
    ensures best == FirstWith(tree.Elements(), signum)
  {
    var iter := tree.root;
    best := null;
    ghost var t, p := tree.shape, null;
    while iter != null
      invariant Linked(t, p) && Root(t) == iter && Sorted(Inorder(t))
      invariant FirstWith(tree.Elements(), signum)
             == if FirstWith(Inorder(t), signum) != null then FirstWith(Inorder(t), signum) else best
      decreases t
    {
      SearchStep(Inorder(t.left), iter, Inorder(t.right), signum);
      if signum == SignumOf(iter) {
        best := iter;
      }
      p := iter;
      if signum <= SignumOf(iter) {
        iter := iter.left;
        t := t.left;
      } else {
        iter := iter.right;
        t := t.right;
      }
    }
  }

  // ---------- The walk that wakes ----------

  ghost predicate Keyed(s: seq<Node>)
  {
    Sorted(s) && forall n :: n in s ==> n.key >= 0
  }

  ghost function InterestOf(n: Node): Interest
  {
    if n.key >= 0 then FromKey(n.key) else Interest(0, false, 0)
  }

  lemma InterestsDiffer(s: seq<Node>, i: nat, j: nat)
    requires Keyed(s) && i < j < |s|
    ensures InterestOf(s[i]) != InterestOf(s[j])
  {
    var a, b := s[i].key, s[j].key;
    assert a == a / ADDRESSES * ADDRESSES + a % ADDRESSES;
    assert b == b / ADDRESSES * ADDRESSES + b % ADDRESSES;
  }

  /** `s[i..j]` is what a walk from the first match visits. */
  ghost predicate IsVisit(s: seq<Node>, signum: int, i: nat, j: nat)
  {
    && i <= j <= |s| && (i == j ==> j == |s|)
    && (forall k :: 0 <= k < i ==> SignumOf(s[k]) != signum)
    && (forall k :: i <= k < j ==> SignumOf(s[k]) == signum)
    && (if i < j && IsExclusive(s[i]) then j == i + 1
        else (forall k :: i <= k < j ==> !IsExclusive(s[k])) && (j < |s| ==> SignumOf(s[j]) != signum))
  }

  lemma SignumsSorted(s: seq<Node>, i: nat, j: nat)
    requires Keyed(s) && i < j < |s|
    ensures SignumOf(s[i]) <= SignumOf(s[j])
    ensures SignumOf(s[i]) == SignumOf(s[j]) && IsExclusive(s[j]) ==> IsExclusive(s[i])
    ensures SignumOf(s[i]) == SignumOf(s[j]) && IsExclusive(s[i]) && IsExclusive(s[j]) ==>
            InterestOf(s[i]).addr < InterestOf(s[j]).addr
  {
    SignumMonotone(s[i].key, s[j].key);
  }

  /** Where the matching nodes are, and which of them are exclusive. */
  lemma Matches(s: seq<Node>, signum: nat, i: nat, j: nat, k: nat)
    requires Keyed(s) && IsVisit(s, signum, i, j) && k < |s| && InterestOf(s[k]).signum == signum
    ensures i < |s| && i < j && SignumOf(s[i]) == signum
    ensures if IsExclusive(s[i]) then k == i || !IsExclusive(s[k]) || InterestOf(s[i]).addr < InterestOf(s[k]).addr
            else i <= k < j && !IsExclusive(s[k])
  {
    assert SignumOf(s[k]) == signum;
    if i < k {
      SignumsSorted(s, i, k);
    }
    if j < k {
      SignumsSorted(s, j, k);
    }
    if i < j < |s| {
      SignumsSorted(s, i, j);
    }
  }

  /** The visited nodes are those the signal is to wake. */
  lemma VisitIsWoken(s: seq<Node>, signum: nat, i: nat, j: nat)
    requires Keyed(s) && IsVisit(s, signum, i, j)
    ensures (set n | n in s[i..j] :: InterestOf(n)) == Woken(set n | n in s :: InterestOf(n), signum)
  {
    var live, visited := set n | n in s :: InterestOf(n), set n | n in s[i..j] :: InterestOf(n);
    assert forall n :: n in s ==> InterestOf(n).signum == SignumOf(n) && (InterestOf(n).exclusive <==> IsExclusive(n));
    forall k | 0 <= k < |s| && InterestOf(s[k]).signum == signum
      ensures i < |s| && i < j && SignumOf(s[i]) == signum
      ensures if IsExclusive(s[i]) then k == i || !IsExclusive(s[k]) || InterestOf(s[i]).addr < InterestOf(s[k]).addr
              else i <= k < j && !IsExclusive(s[k])
    {
      Matches(s, signum, i, j, k);
    }
    hide Keyed, SignumOf, InterestOf, IsExclusive;
    if i < j && IsExclusive(s[i]) {
      FirstKept(s, signum, i, live);
      assert s[i..j] == [s[i]];
    } else {
      AllKept(s, signum, i, j, live);
    }
  }

  lemma FirstKept(s: seq<Node>, signum: nat, i: nat, live: set<Interest>)
    requires live == (set n | n in s :: InterestOf(n)) && i < |s|
    requires InterestOf(s[i]).signum == signum && InterestOf(s[i]).exclusive
    requires forall k :: 0 <= k < |s| && InterestOf(s[k]).signum == signum && InterestOf(s[k]).exclusive ==>
               k == i || InterestOf(s[i]).addr < InterestOf(s[k]).addr
    ensures Woken(live, signum) == {InterestOf(s[i])}
  {
    hide InterestOf;
    var x := InterestOf(s[i]);
    forall y | y in Exclusives(live, signum)
      ensures y == x || x.addr < y.addr
    {
      var n :| n in s && InterestOf(n) == y;
      var k :| 0 <= k < |s| && s[k] == n;
    }
    assert x in Exclusives(live, signum);
  }

  lemma AllKept(s: seq<Node>, signum: nat, i: nat, j: nat, live: set<Interest>)
    requires live == (set n | n in s :: InterestOf(n)) && i <= j <= |s|
    requires forall k :: i <= k < j ==> InterestOf(s[k]).signum == signum
    requires forall k :: 0 <= k < |s| && InterestOf(s[k]).signum == signum ==> i <= k < j && !InterestOf(s[k]).exclusive
    ensures (set n | n in s[i..j] :: InterestOf(n)) == Woken(live, signum)
  {
    hide InterestOf;
    forall y | y in live && y.signum == signum
      ensures !y.exclusive && y in (set n | n in s[i..j] :: InterestOf(n))
    {
      var n :| n in s && InterestOf(n) == y;
      var k :| 0 <= k < |s| && s[k] == n;
      assert n == s[i..j][k - i];
    }
    forall n | n in s[i..j]
      ensures InterestOf(n) in live && InterestOf(n).signum == signum
    {
      var k :| 0 <= k < |s[i..j]| && s[i..j][k] == n;
      assert n == s[i + k];
    }
  }

  lemma {:induction false} FirstIndex(s: seq<Node>, signum: int) returns (i: nat)
    ensures i <= |s| && FirstWith(s, signum) == FirstOf(s[i..])
    ensures (forall k :: 0 <= k < i ==> SignumOf(s[k]) != signum) && (i < |s| ==> SignumOf(s[i]) == signum)
  {
    if s == [] || SignumOf(s[0]) == signum {
      i := 0;
      assert s[0..] == s;
    } else {
      var k := FirstIndex(s[1..], signum);
      i := k + 1;
      assert s[1..][k..] == s[i..];
      assert forall k :: 0 < k < |s| ==> s[k] == s[1..][k - 1];
    }
  }

  ghost function Names(s: seq<Node>): set<Interest>
  {
    set n | n in s :: InterestOf(n)
  }

  /** The walk has visited `s[i..]` up to `an`, and found no exclusive interest. */
  ghost predicate Visiting(s: seq<Node>, signum: nat, i: nat, visited: seq<Node>, an: Node?)
  {
    && Keyed(s) && i + |visited| <= |s| && visited == s[i..i + |visited|] && an == FirstOf(s[i + |visited|..])
    && (i < |s| ==> SignumOf(s[i]) == signum)
    && (forall k :: 0 <= k < i ==> SignumOf(s[k]) != signum)
    && (forall k :: i <= k < i + |visited| ==> SignumOf(s[k]) == signum && !IsExclusive(s[k]))
  }

  lemma VisitMore(s: seq<Node>, signum: nat, i: nat, visited: seq<Node>, an: Node, next: Node?)
    requires Visiting(s, signum, i, visited, an) && SignumOf(an) == signum && !IsExclusive(an)
    requires next == FirstOf(s[i + |visited| + 1..])
    ensures Visiting(s, signum, i, visited + [an], next)
  {
    hide SignumOf, IsExclusive, Keyed;
    var j := i + |visited|;
    assert s[j] == an && s[i..j + 1] == s[i..j] + [an];
  }

  lemma VisitEnds(s: seq<Node>, signum: nat, i: nat, visited: seq<Node>, an: Node?)
    requires Visiting(s, signum, i, visited, an) && (an == null || SignumOf(an) != signum)
    ensures Names(visited) == Woken(Names(s), signum)
  {
    hide SignumOf, IsExclusive, Keyed, InterestOf;
    VisitIsWoken(s, signum, i, i + |visited|);
  }

  /** Exclusive interests come first, so the walk can only stop at the first node it visits. */
  lemma VisitStops(s: seq<Node>, signum: nat, i: nat, visited: seq<Node>, an: Node)
    requires Visiting(s, signum, i, visited, an) && SignumOf(an) == signum && IsExclusive(an)
    ensures Names(visited + [an]) == Woken(Names(s), signum)
  {
    hide SignumOf, IsExclusive, Keyed, InterestOf;
    var j := i + |visited|;
    assert s[j] == an && s[i..j + 1] == s[i..j] + [an];
    if i < j {
      SignumsSorted(s, i, j);
    }
    VisitIsWoken(s, signum, i, j + 1);
  }

  // ---------- The table of interests ----------

  const SIGNALS := 64

  lemma NamesApart(a: seq<Node>, an: Node, z: seq<Node>)
    requires Keyed(a + [an] + z)
    ensures InterestOf(an) !in Names(a + z)
  {
    var s := a + [an] + z;
    assert s[|a|] == an;
    forall n | n in a + z
      ensures InterestOf(n) != InterestOf(an)
    {
      var l :| 0 <= l < |a + z| && (a + z)[l] == n;
      if l < |a| {
        assert s[l] == n;
        InterestsDiffer(s, l, |a|);
      } else {
        assert s[l + 1] == n;
        InterestsDiffer(s, |a|, l + 1);
      }
    }
  }

  lemma NamesJoined(a: seq<Node>, an: Node, z: seq<Node>)
    requires Keyed(a + [an] + z)
    ensures Names(a + [an] + z) == Names(a + z) + {InterestOf(an)} && InterestOf(an) !in Names(a + z)
    ensures forall n :: n in a + [an] + z <==> n in a + z || n == an
  {
    NamesApart(a, an, z);
    hide InterestOf, Keyed;
  }

  lemma NamesRemoved(s: seq<Node>, an: Node, s': seq<Node>)
    requires Keyed(s) && Removed(s, an, s')
    ensures InterestOf(an) in Names(s) && Names(s') == Names(s) - {InterestOf(an)}
    ensures an.key >= 0 && forall n :: n in s' ==> n in s
  {
    var k :| 0 <= k < |s| && s[k] == an && s' == s[..k] + s[k + 1..];
    assert an in s && an.key >= 0;
    hide InterestOf, Keyed, Names, Removed;
    var a, z := s[..k], s[k + 1..];
    assert s == a + [an] + z;
    NamesJoined(a, an, z);
  }

  lemma NamesInserted(s: seq<Node>, an: Node, s': seq<Node>)
    requires Inserted(s, an, s') && Keyed(s')
    ensures Names(s') == Names(s) + {InterestOf(an)} && InterestOf(an) !in Names(s)
    ensures forall n :: n in s' <==> n in s || n == an
  {
    var k :| 0 <= k <= |s| && s' == s[..k] + [an] + s[k..];
    assert s == s[..k] + s[k..];
    NamesJoined(s[..k], an, s[k..]);
    hide InterestOf, Keyed, Names;
  }

  lemma KeyedInserted(s: seq<Node>, an: Node, s': seq<Node>)
    requires Keyed(s) && an.key >= 0 && Inserted(s, an, s') && Sorted(s')
    ensures Keyed(s')
  {
    hide Sorted;
    var k :| 0 <= k <= |s| && s' == s[..k] + [an] + s[k..];
  }

  /** Taking one interest out changes the number of interests for its own signal only. */
  lemma InterestedWithout(live: set<Interest>, i: Interest, signum: nat)
    requires i in live
    ensures |Interested(live - {i}, signum)| == |Interested(live, signum)| - if signum == i.signum then 1 else 0
  {
    if signum == i.signum {
      assert Interested(live - {i}, signum) == Interested(live, signum) - {i};
    } else {
      assert Interested(live - {i}, signum) == Interested(live, signum);
    }
  }

  /** The counters agree with the interests, and a signal has our handler when somebody is interested. */
  ghost predicate CountsOk(live: set<Interest>, total: seq<nat>, elsewhere: seq<nat>, installed: set<int>)
  {
    && |total| == |elsewhere| == SIGNALS
    && (forall i :: i in live ==> i.signum < SIGNALS)
    && (forall k :: 0 <= k < SIGNALS ==>
          total[k] == |Interested(live, k)| + elsewhere[k] && (k in installed <==> total[k] > 0))
  }

  lemma CountsWithout(live: set<Interest>, i: Interest, total: seq<nat>, elsewhere: seq<nat>, installed: set<int>)
    requires CountsOk(live, total, elsewhere, installed) && i in live
    ensures total[i.signum] > 0
    ensures var left := total[i.signum] - 1;
      CountsOk(live - {i}, total[i.signum := left], elsewhere,
               if left == 0 then installed - {i.signum} else installed)
    ensures total[i.signum] == 1 ==> Woken(live - {i}, i.signum) == {}
  {
    forall k | 0 <= k < SIGNALS
      ensures |Interested(live - {i}, k)| == |Interested(live, k)| - if k == i.signum then 1 else 0
    {
      InterestedWithout(live, i, k);
    }
    assert i in Interested(live, i.signum);
    if total[i.signum] == 1 {
      assert Interested(live - {i}, i.signum) == {};
      assert Exclusives(live - {i}, i.signum) <= Interested(live - {i}, i.signum);
    }
    hide Interested;
  }

  lemma CountsWith(live: set<Interest>, i: Interest, total: seq<nat>, elsewhere: seq<nat>, installed: set<int>)
    requires CountsOk(live, total, elsewhere, installed) && i !in live && i.signum < SIGNALS
    ensures CountsOk(live + {i}, total[i.signum := total[i.signum] + 1], elsewhere, installed + {i.signum})
  {
    forall k | 0 <= k < SIGNALS
      ensures |Interested(live + {i}, k)| == |Interested(live, k)| + if k == i.signum then 1 else 0
    {
      InterestedWithout(live + {i}, i, k);
      assert live + {i} - {i} == live;
    }
    hide Interested;
  }

  class SignalTable {
    const tree: AvlTree
    /** The interests whose `active` flag is set, and those whose raw event has been posted. */
    var active: set<Node>
    var posted: set<Node>
    /** How many interests there are for each signal, and for which signals our handler is installed. */
    var total: seq<nat>
    var installed: set<int>
    /** How many of them are in other trees. */
    ghost var elsewhere: seq<nat>

    ghost predicate Valid()
      reads this, tree, tree.nodes
    {
      tree.Valid() && Keyed(tree.Elements()) && CountsOk(Names(tree.Elements()), total, elsewhere, installed)
    }

    constructor ()
      ensures Valid() && tree.Elements() == [] && active == {} && posted == {}
    {
      tree := new AvlTree();
      active, posted, installed := {}, {}, {};
      total, elsewhere := seq(SIGNALS, _ => 0), seq(SIGNALS, _ => 0);
    }

    method Advance(an: Node, ghost signum: nat, ghost i: nat, ghost visited: seq<Node>) returns (n: Node?)
      requires tree.Valid() && Visiting(tree.Elements(), signum, i, visited, an)
      ensures i + |visited| < |tree.Elements()| && n == FirstOf(tree.Elements()[i + |visited| + 1..])
    {
      hide Keyed, SignumOf, IsExclusive;
      ElementsAreNodes(tree.shape);
      n := tree.Next(an);
      NextIsUnique(tree.Elements(), i + |visited|, n);
    }

    method Mark(an: Node, ghost visited: seq<Node>, ghost a: set<Node>, ghost p: set<Node>)
      requires active == a + (set n | n in visited) && posted == p + (set n | n in visited)
      modifies this`active, this`posted
      ensures active == a + (set n | n in visited + [an]) && posted == p + (set n | n in visited + [an])
    {
      active := active + {an};
      posted := posted + {an};
    }

    /** `__iv_signal_do_wake`: mark and post from the first match on, up to an exclusive interest. */
    method Wake(signum: nat) returns (woken: nat, ghost visited: seq<Node>)
      requires Valid()
      modifies this`active, this`posted
      ensures active == old(active) + (set n | n in visited) && posted == old(posted) + (set n | n in visited)
      ensures woken == |visited|
      ensures Names(visited) == Woken(Names(tree.Elements()), signum)
    {
      ghost var s := tree.Elements();
      ghost var i := FirstIndex(s, signum);
      woken := 0;
      visited := [];
      var an := FindFirst(tree, signum);
      assert Visiting(s, signum, i, visited, an);
      hide AvlTree.Valid, Visiting, Keyed, SignumOf, IsExclusive, Names;
      while an != null
        invariant Visiting(s, signum, i, visited, an) && woken == |visited|
        invariant active == old(active) + (set n | n in visited) && posted == old(posted) + (set n | n in visited)
        decreases |s| - i - woken
      {
        if SignumOf(an) != signum {
          break;
        }
        Mark(an, visited, old(active), old(posted));
        woken := woken + 1;
        if IsExclusive(an) {
          VisitStops(s, signum, i, visited, an);
          visited := visited + [an];
          return;
        }
        var next := Advance(an, signum, i, visited);
        VisitMore(s, signum, i, visited, an, next);
        visited := visited + [an];
        an := next;
      }
      VisitEnds(s, signum, i, visited, an);
    }

    /** `iv_signal_register`: -1 if there is no such signal. */
    method Register(an: Node) returns (ret: int)
      requires Valid() && an !in tree.nodes && !HasKey(tree.Elements(), an.key) && Size(tree.shape) + 1 < ADDRESS_SPACE
      modifies this, tree, tree.nodes, an
      ensures Valid() && elsewhere == old(elsewhere) && (ret == 0 <==> 0 <= SignumOf(an) < SIGNALS)
      ensures ret == 0 ==> Names(tree.Elements()) == old(Names(tree.Elements())) + {InterestOf(an)}
      ensures ret == 0 ==> tree.nodes == old(tree.nodes) + {an} && SignumOf(an) in installed
      ensures ret == 0 ==> active == old(active) - {an} && posted == old(posted) - {an}
      ensures ret != 0 ==> ret == -1 && unchanged(this) && unchanged(tree)
    {
      hide AvlTree.Valid, Keyed, Names, CountsOk;
      var signum := SignumOf(an);
      if signum < 0 || signum >= SIGNALS {
        return -1;
      }
      Enter(an);
      CountUp(signum, InterestOf(an), old(Names(tree.Elements())));
      return 0;
    }

    method Enter(an: Node)
      requires tree.Valid() && Keyed(tree.Elements()) && an.key >= 0
      requires an !in tree.nodes && !HasKey(tree.Elements(), an.key) && Size(tree.shape) + 1 < ADDRESS_SPACE
      modifies this`active, this`posted, tree, tree.nodes, an
      ensures tree.Valid() && Keyed(tree.Elements()) && tree.nodes == old(tree.nodes) + {an}
      ensures Names(tree.Elements()) == old(Names(tree.Elements())) + {InterestOf(an)}
      ensures InterestOf(an) !in old(Names(tree.Elements()))
      ensures active == old(active) - {an} && posted == old(posted) - {an}
    {
      ghost var s := tree.Elements();
      active, posted := active - {an}, posted - {an};
      var r := tree.Insert(an);
      assert Sorted(tree.Elements());
      hide AvlTree.Valid, Sorted;
      KeyedInserted(s, an, tree.Elements());
      NamesInserted(s, an, tree.Elements());
    }

    method CountUp(signum: nat, ghost i: Interest, ghost live: set<Interest>)
      requires CountsOk(live, total, elsewhere, installed) && i !in live && i.signum == signum < SIGNALS
      modifies this`total, this`installed
      ensures CountsOk(live + {i}, total, elsewhere, installed) && signum in installed
    {
      CountsWith(live, i, total, elsewhere, installed);
      assert total[signum] > 0 ==> signum in installed;
      total := total[signum := total[signum] + 1];
      if total[signum] == 1 {
        installed := installed + {signum};
      }
      assert installed == old(installed) + {signum};
    }

    method Drop(an: Node)
      requires tree.Valid() && Keyed(tree.Elements()) && an in tree.nodes
      modifies this`active, this`posted, tree, tree.nodes
      ensures tree.Valid() && Keyed(tree.Elements()) && tree.nodes == old(tree.nodes) - {an}
      ensures Names(tree.Elements()) == old(Names(tree.Elements())) - {InterestOf(an)}
      ensures InterestOf(an) in old(Names(tree.Elements())) && InterestOf(an).signum == SignumOf(an)
      ensures active == old(active) - {an} && posted == old(posted) - {an}
    {
      ghost var s := tree.Elements();
      tree.Delete(an);
      assert Sorted(tree.Elements());
      hide AvlTree.Valid, Sorted;
      NamesRemoved(s, an, tree.Elements());
      active, posted := active - {an}, posted - {an};
    }

    method CountDown(signum: nat, ghost i: Interest, ghost live: set<Interest>) returns (left: nat)
      requires CountsOk(live, total, elsewhere, installed) && i in live && i.signum == signum
      modifies this`total, this`installed
      ensures CountsOk(live - {i}, total, elsewhere, installed)
      ensures left == 0 ==> Woken(live - {i}, signum) == {}
    {
      CountsWithout(live, i, total, elsewhere, installed);
      total := total[signum := total[signum] - 1];
      left := total[signum];
      if left == 0 {
        installed := installed - {signum};
      }
    }

    /** Wake those the signal goes to now, if there is something to pass on and somebody left. */
    method PassOn(signum: nat, pass: bool, left: nat) returns (ghost visited: seq<Node>)
      requires Valid() && (left == 0 ==> Woken(Names(tree.Elements()), signum) == {})
      modifies this`active, this`posted
      ensures Valid()
      ensures active == old(active) + (set n | n in visited) && posted == old(posted) + (set n | n in visited)
      ensures Names(visited) == if pass then Woken(Names(tree.Elements()), signum) else {}
    {
      hide AvlTree.Valid, Keyed, CountsOk, Woken;
      visited := [];
      if left != 0 && pass {
        var woken;
        woken, visited := Wake(signum);
      }
    }

    /**
     `iv_signal_unregister`: an exclusive interest that was woken and has not run its
     handler passes the signal on to those it would have gone to without it.
     */
    method Unregister(an: Node) returns (ghost visited: seq<Node>)
      requires Valid() && an in tree.nodes
      modifies this, tree, tree.nodes
      ensures Valid() && elsewhere == old(elsewhere)
      ensures tree.nodes == old(tree.nodes) - {an}
      ensures Names(tree.Elements()) == old(Names(tree.Elements())) - {InterestOf(an)}
      ensures active == old(active) - {an} + (set n | n in visited)
      ensures posted == old(posted) - {an} + (set n | n in visited)
      ensures Names(visited) == if IsExclusive(an) && an in old(active)
                                then Woken(Names(tree.Elements()), InterestOf(an).signum) else {}
    {
      hide AvlTree.Valid, Keyed, CountsOk, Woken, Names, IsExclusive;
      var pass := IsExclusive(an) && an in active;
      ghost var live := Names(tree.Elements());
      Drop(an);
      var left := CountDown(SignumOf(an), InterestOf(an), live);
      visited := PassOn(SignumOf(an), pass, left);
    }
  }

  function Tables(own: SignalTable?): set<SignalTable> { if own == null then {} else {own} }

  /**
   `iv_signal_handler`: a signal goes to the interests of the thread it arrives in, and to
   those of the process only if the thread has none for it.
   */
  method Deliver(own: SignalTable?, process: SignalTable, signum: nat)
    returns (ghost mine: seq<Node>, ghost others: seq<Node>)
    requires process.Valid() && (own != null ==> own.Valid() && own != process)
    modifies process`active, process`posted, Tables(own)`active, Tables(own)`posted
    ensures Names(mine) == if own == null then {} else Woken(Names(own.tree.Elements()), signum)
    ensures Names(others) == if Names(mine) == {} then Woken(Names(process.tree.Elements()), signum) else {}
    ensures own != null ==> own.active == old(own.active) + (set n | n in mine)
    ensures own != null ==> own.posted == old(own.posted) + (set n | n in mine)
    ensures process.active == old(process.active) + (set n | n in others)
    ensures process.posted == old(process.posted) + (set n | n in others)
  {
    hide AvlTree.Valid, Keyed, CountsOk, Woken;
    mine, others := [], [];
    var woken := 0;
    if own != null {
      woken, mine := own.Wake(signum);
    }
    assert mine != [] ==> InterestOf(mine[0]) in Names(mine);
    if woken == 0 {
      woken, others := process.Wake(signum);
    }
  }
}
