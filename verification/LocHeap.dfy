// The rank heap (gps/utils/LocHeap.cpp): a pointer tree that swaps data between nodes, grows by
// subtree size and prunes its search for a removal by rank.
//
// Rankable objects are stored by address: a value of type T is an address, and equality of T is
// identity, so two objects of equal rank are different values.
//
// HeapTree describes the tree as a value, with what each operation does to it and what that
// means; LocHeap is the pointer code, proved to do exactly that.
module HeapTree {
  import opened Wrappers

  // ranks(a, b) > 0 when a ranks higher than b
  type Ranking<!T> = (T, T) -> int

  ghost predicate NoHigher<T>(ranks: Ranking<T>, a: T, b: T) {
    ranks(a, b) <= 0
  }

  // Stated through NoHigher, so that proofs apply it where they call Total and Transitive
  ghost predicate TotalPreorder<T(!new)>(ranks: Ranking<T>) {
    && (forall a, b :: NoHigher(ranks, a, b) || NoHigher(ranks, b, a))
    && (forall a, b, c :: NoHigher(ranks, a, b) && NoHigher(ranks, b, c) ==> NoHigher(ranks, a, c))
  }

  lemma Total<T(!new)>(ranks: Ranking<T>, a: T, b: T)
    requires TotalPreorder(ranks)
    ensures ranks(a, b) <= 0 || ranks(b, a) <= 0
  {
    assert NoHigher(ranks, a, b) || NoHigher(ranks, b, a);
  }

  lemma Transitive<T(!new)>(ranks: Ranking<T>, a: T, b: T, c: T)
    requires TotalPreorder(ranks) && ranks(a, b) <= 0 && ranks(b, c) <= 0
    ensures ranks(a, c) <= 0
  {
    assert NoHigher(ranks, a, b) && NoHigher(ranks, b, c);
  }

  // size is the stored mSize, which nothing forces to be right
  datatype Tree<T> = Leaf | Node(data: T, size: int, left: Tree<T>, right: Tree<T>)

  // ----- What the tree holds -----

  ghost function Elems<T>(t: Tree<T>): multiset<T> {
    match t
    case Leaf => multiset{}
    case Node(d, _, l, r) => multiset{d} + Elems(l) + Elems(r)
  }

  ghost function Count<T>(t: Tree<T>): nat {
    match t
    case Leaf => 0
    case Node(_, _, l, r) => 1 + Count(l) + Count(r)
  }

  ghost function StoredSize<T>(t: Tree<T>): int {
    if t.Leaf? then 0 else t.size
  }

  ghost function Height<T>(t: Tree<T>): nat {
    match t
    case Leaf => 0
    case Node(_, _, l, r) => 1 + if Height(l) > Height(r) then Height(l) else Height(r)
  }

  // The test of checkNodes: a child never outranks its parent, and sizes add up
  ghost predicate Checked<T>(ranks: Ranking<T>, t: Tree<T>) {
    t.Node? ==>
      && (t.left.Node? ==> ranks(t.left.data, t.data) <= 0)
      && (t.right.Node? ==> ranks(t.right.data, t.data) <= 0)
      && Checked(ranks, t.left) && Checked(ranks, t.right)
      && t.size == 1 + StoredSize(t.left) + StoredSize(t.right)
  }

  // The promise: every node outranks-or-ties its whole subtree and stores the subtree's true size
  ghost predicate HeapOrdered<T>(ranks: Ranking<T>, t: Tree<T>) {
    t.Node? ==>
      && (forall y :: y in Elems(t) ==> ranks(y, t.data) <= 0)
      && t.size == Count(t)
      && HeapOrdered(ranks, t.left) && HeapOrdered(ranks, t.right)
  }

  // ----- The operations -----

  // Which subtree a push goes down: an empty one first, then the smaller by stored size
  ghost predicate PushesLeft<T>(l: Tree<T>, r: Tree<T>) {
    l.Leaf? || (r.Node? && l.size <= r.size)
  }

  ghost function PushTree<T>(ranks: Ranking<T>, t: Tree<T>, x: T): (t': Tree<T>)
    ensures t'.Node? && Count(t') == Count(t) + 1
    decreases t
  {
    match t
    case Leaf => Node(x, 1, Leaf, Leaf)
    case Node(d, s, l, r) =>
      var top := if ranks(x, d) > 0 then x else d;
      var down := if ranks(x, d) > 0 then d else x;
      if PushesLeft(l, r) then Node(top, s + 1, PushTree(ranks, l, down), r)
      else Node(top, s + 1, l, PushTree(ranks, r, down))
  }

  // Which child's data replaces the popped top
  ghost predicate TakesLeft<T>(ranks: Ranking<T>, l: Tree<T>, r: Tree<T>) {
    l.Node? && (r.Leaf? || ranks(l.data, r.data) > 0)
  }

  ghost function PopTree<T>(ranks: Ranking<T>, t: Tree<T>): (t': Tree<T>)
    requires t.Node?
    ensures Count(t') == Count(t) - 1
    decreases t
  {
    var Node(d, s, l, r) := t;
    if l.Leaf? && r.Leaf? then Leaf
    else if TakesLeft(ranks, l, r) then Node(l.data, s - 1, PopTree(ranks, l), r)
    else Node(r.data, s - 1, l, PopTree(ranks, r))
  }

  // None when the pruned search does not meet x
  ghost function RemoveTree<T>(ranks: Ranking<T>, t: Tree<T>, x: T): Option<Tree<T>>
    decreases t
  {
    match t
    case Leaf => None
    case Node(d, s, l, r) =>
      if x == d then Some(PopTree(ranks, t))
      else if ranks(x, d) > 0 then None
      else
        match RemoveTree(ranks, l, x)
        case Some(l') => Some(Node(d, s - 1, l', r))
        case None =>
          match RemoveTree(ranks, r, x)
          case Some(r') => Some(Node(d, s - 1, l, r'))
          case None => None
  }

  ghost function DrainTree<T>(ranks: Ranking<T>, t: Tree<T>): seq<T>
    decreases Count(t)
  {
    if t.Leaf? then [] else [t.data] + DrainTree(ranks, PopTree(ranks, t))
  }

  // ----- The local test is the global promise -----

  lemma {:induction false} TopRanksHighest<T(!new)>(ranks: Ranking<T>, t: Tree<T>, y: T)
    requires TotalPreorder(ranks) && Checked(ranks, t) && y in Elems(t)
    ensures ranks(y, t.data) <= 0
    decreases t
  {
    if y == t.data {
      Total(ranks, y, y);
    } else if y in Elems(t.left) {
      TopRanksHighest(ranks, t.left, y);
      Transitive(ranks, y, t.left.data, t.data);
    } else {
      TopRanksHighest(ranks, t.right, y);
      Transitive(ranks, y, t.right.data, t.data);
    }
  }

  lemma {:induction false} SizeIsCount<T>(ranks: Ranking<T>, t: Tree<T>)
    requires Checked(ranks, t)
    ensures StoredSize(t) == Count(t)
  {
    if t.Node? {
      SizeIsCount(ranks, t.left);
      SizeIsCount(ranks, t.right);
    }
  }

  lemma {:induction false} CheckedIsHeapOrdered<T(!new)>(ranks: Ranking<T>, t: Tree<T>)
    requires TotalPreorder(ranks) && Checked(ranks, t)
    ensures HeapOrdered(ranks, t)
  {
    if t.Node? {
      CheckedIsHeapOrdered(ranks, t.left);
      CheckedIsHeapOrdered(ranks, t.right);
      SizeIsCount(ranks, t);
      forall y | y in Elems(t)
        ensures ranks(y, t.data) <= 0
      {
        TopRanksHighest(ranks, t, y);
      }
    }
  }

  lemma {:induction false} HeapOrderedIsChecked<T>(ranks: Ranking<T>, t: Tree<T>)
    requires HeapOrdered(ranks, t)
    ensures Checked(ranks, t)
  {
    if t.Node? {
      HeapOrderedIsChecked(ranks, t.left);
      HeapOrderedIsChecked(ranks, t.right);
      SizeIsCount(ranks, t.left);
      SizeIsCount(ranks, t.right);
      assert t.left.Node? ==> t.left.data in Elems(t.left) && t.left.data in Elems(t);
      assert t.right.Node? ==> t.right.data in Elems(t.right) && t.right.data in Elems(t);
    }
  }

  /** checkNodes, which only compares neighbours, accepts exactly the trees in which every node is
      the highest ranking of its subtree and every stored size is the true one. */
  lemma CheckedIffHeapOrdered<T(!new)>(ranks: Ranking<T>, t: Tree<T>)
    requires TotalPreorder(ranks)
    ensures Checked(ranks, t) <==> HeapOrdered(ranks, t)
  {
    if Checked(ranks, t) { CheckedIsHeapOrdered(ranks, t); }
    if HeapOrdered(ranks, t) { HeapOrderedIsChecked(ranks, t); }
  }

  // ----- Push -----

  lemma {:induction false} PushContents<T>(ranks: Ranking<T>, t: Tree<T>, x: T)
    ensures Elems(PushTree(ranks, t, x)) == Elems(t) + multiset{x}
    decreases t
  {
    if t.Node? {
      var Node(d, s, l, r) := t;
      var top := if ranks(x, d) > 0 then x else d;
      var down := if ranks(x, d) > 0 then d else x;
      Exchange(top, down, d, x, Elems(l), Elems(r));
      if PushesLeft(l, r) {
        PushContents(ranks, l, down);
      } else {
        PushContents(ranks, r, down);
      }
    }
  }

  // Trading d and x for top and down, one of them kept above and one added on either side
  lemma Exchange<T>(top: T, down: T, d: T, x: T, a: multiset<T>, b: multiset<T>)
    requires (top == d && down == x) || (top == x && down == d)
    ensures multiset{top} + (a + multiset{down}) + b == multiset{d} + a + b + multiset{x}
    ensures multiset{top} + a + (b + multiset{down}) == multiset{d} + a + b + multiset{x}
  {
  }

  lemma Restore<T>(d: T, x: T, a: multiset<T>, a': multiset<T>, b: multiset<T>)
    requires a' + multiset{x} == a
    ensures multiset{d} + a' + b + multiset{x} == multiset{d} + a + b
    ensures multiset{d} + b + a' + multiset{x} == multiset{d} + b + a
  {
    assert multiset{d} + (a' + multiset{x}) + b == multiset{d} + a' + b + multiset{x};
    assert multiset{d} + b + (a' + multiset{x}) == multiset{d} + b + a' + multiset{x};
  }

  lemma NodeElems<T>(d: T, s: int, l: Tree<T>, r: Tree<T>)
    ensures Elems(Node(d, s, l, r)) == multiset{d} + Elems(l) + Elems(r)
  {
  }

  lemma {:induction false} PushChecked<T(!new)>(ranks: Ranking<T>, t: Tree<T>, x: T)
    requires TotalPreorder(ranks) && Checked(ranks, t)
    ensures var t' := PushTree(ranks, t, x);
            && Checked(ranks, t') && t'.size == StoredSize(t) + 1
            && t'.data == (if t.Leaf? || ranks(x, t.data) > 0 then x else t.data)
    decreases t
  {
    if t.Node? {
      var Node(d, s, l, r) := t;
      var top := if ranks(x, d) > 0 then x else d;
      var down := if ranks(x, d) > 0 then d else x;
      Total(ranks, x, d);
      Total(ranks, d, d);
      if l.Node? { Transitive(ranks, l.data, d, top); }
      if r.Node? { Transitive(ranks, r.data, d, top); }
      if PushesLeft(l, r) {
        PushChecked(ranks, l, down);
        var l' := PushTree(ranks, l, down);
        assert l'.data == down || l'.data == l.data;
      } else {
        PushChecked(ranks, r, down);
        var r' := PushTree(ranks, r, down);
        assert r'.data == down || r'.data == r.data;
      }
    }
  }

  // ----- Pop -----

  lemma {:induction false} PopContents<T>(ranks: Ranking<T>, t: Tree<T>)
    requires t.Node?
    ensures Elems(PopTree(ranks, t)) + multiset{t.data} == Elems(t)
    decreases t
  {
    var Node(d, s, l, r) := t;
    if l.Node? || r.Node? {
      if TakesLeft(ranks, l, r) {
        PopContents(ranks, l);
        NodeElems(l.data, s - 1, PopTree(ranks, l), r);
      } else {
        PopContents(ranks, r);
        NodeElems(r.data, s - 1, l, PopTree(ranks, r));
      }
    }
  }

  lemma {:induction false} PopChecked<T(!new)>(ranks: Ranking<T>, t: Tree<T>)
    requires TotalPreorder(ranks) && t.Node? && Checked(ranks, t)
    ensures var t' := PopTree(ranks, t);
            && Checked(ranks, t') && StoredSize(t') == t.size - 1
            && (t'.Node? ==> ranks(t'.data, t.data) <= 0)
    decreases t
  {
    var Node(d, s, l, r) := t;
    if l.Node? || r.Node? {
      if TakesLeft(ranks, l, r) {
        PopChecked(ranks, l);
        if r.Node? { Total(ranks, r.data, l.data); }
      } else {
        PopChecked(ranks, r);
      }
    }
  }

  /** pop: it removes exactly the top, which no remaining element outranks, and keeps the checked
      shape. */
  lemma PopTakesHighest<T(!new)>(ranks: Ranking<T>, t: Tree<T>)
    requires TotalPreorder(ranks) && t.Node? && Checked(ranks, t)
    ensures var t' := PopTree(ranks, t);
            && Checked(ranks, t')
            && Elems(t') == Elems(t) - multiset{t.data}
            && t.data in Elems(t) && forall y :: y in Elems(t) ==> ranks(y, t.data) <= 0
  {
    PopChecked(ranks, t);
    PopContents(ranks, t);
    forall y | y in Elems(t)
      ensures ranks(y, t.data) <= 0
    {
      TopRanksHighest(ranks, t, y);
    }
  }

  // ----- Remove -----

  lemma {:induction false} RemoveContents<T>(ranks: Ranking<T>, t: Tree<T>, x: T)
    ensures var r := RemoveTree(ranks, t, x); r.Some? ==> Elems(r.value) + multiset{x} == Elems(t)
    decreases t
  {
    if t.Node? {
      var Node(d, s, l, r) := t;
      if x == d {
        PopContents(ranks, t);
      } else {
        RemoveContents(ranks, l, x);
        RemoveContents(ranks, r, x);
        var l', r' := RemoveTree(ranks, l, x), RemoveTree(ranks, r, x);
        if l'.Some? {
          Restore(d, x, Elems(l), Elems(l'.value), Elems(r));
        } else if r'.Some? {
          Restore(d, x, Elems(r), Elems(r'.value), Elems(l));
        }
      }
    }
  }

  lemma {:induction false} RemovePresent<T(!new)>(ranks: Ranking<T>, t: Tree<T>, x: T)
    requires TotalPreorder(ranks) && Checked(ranks, t) && x in Elems(t)
    ensures RemoveTree(ranks, t, x).Some?
    decreases t
  {
    if x != t.data {
      TopRanksHighest(ranks, t, x);
      if x in Elems(t.left) {
        RemovePresent(ranks, t.left, x);
      } else {
        RemovePresent(ranks, t.right, x);
      }
    }
  }

  lemma {:induction false} RemoveChecked<T(!new)>(ranks: Ranking<T>, t: Tree<T>, x: T)
    requires TotalPreorder(ranks) && Checked(ranks, t)
    ensures var r := RemoveTree(ranks, t, x);
            r.Some? ==>
              && Checked(ranks, r.value) && StoredSize(r.value) == t.size - 1
              && (r.value.Node? ==> ranks(r.value.data, t.data) <= 0)
    decreases t
  {
    if t.Node? {
      var Node(d, s, l, r) := t;
      if x == d {
        PopChecked(ranks, t);
      } else {
        Total(ranks, d, d);
        RemoveChecked(ranks, l, x);
        RemoveChecked(ranks, r, x);
        var l', r' := RemoveTree(ranks, l, x), RemoveTree(ranks, r, x);
        if l'.Some? {
          if l'.value.Node? { Transitive(ranks, l'.value.data, l.data, d); }
        } else if r'.Some? {
          if r'.value.Node? { Transitive(ranks, r'.value.data, r.data, d); }
        }
      }
    }
  }

  /** remove: although it skips every subtree whose top x outranks, it deletes one node holding x
      exactly when there is one, and keeps heap order and every stored size. */
  lemma RemoveIsComplete<T(!new)>(ranks: Ranking<T>, t: Tree<T>, x: T)
    requires TotalPreorder(ranks) && Checked(ranks, t)
    ensures var r := RemoveTree(ranks, t, x);
            && (r.Some? <==> x in Elems(t))
            && (r.Some? ==> Checked(ranks, r.value) && Elems(r.value) == Elems(t) - multiset{x})
  {
    if x in Elems(t) { RemovePresent(ranks, t, x); }
    RemoveContents(ranks, t, x);
    RemoveChecked(ranks, t, x);
  }

  // ----- Draining -----

  ghost predicate SortedByRank<T>(ranks: Ranking<T>, s: seq<T>) {
    forall i, j :: 0 <= i < j < |s| ==> ranks(s[j], s[i]) <= 0
  }

  lemma {:induction false} DrainContents<T>(ranks: Ranking<T>, t: Tree<T>)
    ensures multiset(DrainTree(ranks, t)) == Elems(t)
    decreases Count(t)
  {
    if t.Node? {
      PopContents(ranks, t);
      DrainContents(ranks, PopTree(ranks, t));
    }
  }

  lemma {:induction false} DrainSorted<T(!new)>(ranks: Ranking<T>, t: Tree<T>)
    requires TotalPreorder(ranks) && Checked(ranks, t)
    ensures SortedByRank(ranks, DrainTree(ranks, t))
    decreases Count(t)
  {
    if t.Node? {
      PopTakesHighest(ranks, t);
      var t' := PopTree(ranks, t);
      DrainContents(ranks, t');
      DrainSorted(ranks, t');
      SortedCons(ranks, t.data, DrainTree(ranks, t'));
    }
  }

  /** Popping until the heap is empty lists the contents, each as often as it was held, highest
      rank first. */
  lemma DrainSorts<T(!new)>(ranks: Ranking<T>, t: Tree<T>)
    requires TotalPreorder(ranks) && Checked(ranks, t)
    ensures multiset(DrainTree(ranks, t)) == Elems(t) && SortedByRank(ranks, DrainTree(ranks, t))
  {
    DrainContents(ranks, t);
    DrainSorted(ranks, t);
  }

  lemma SortedCons<T>(ranks: Ranking<T>, x: T, rest: seq<T>)
    requires SortedByRank(ranks, rest) && forall y :: y in multiset(rest) ==> ranks(y, x) <= 0
    ensures SortedByRank(ranks, [x] + rest)
  {
    var all := [x] + rest;
    forall i, j | 0 <= i < j < |all|
      ensures ranks(all[j], all[i]) <= 0
    {
      assert all[j] == rest[j - 1] && rest[j - 1] in multiset(rest);
    }
  }

  // ----- Heaps built by pushes alone are balanced -----

  ghost predicate Balanced<T>(t: Tree<T>) {
    t.Node? ==>
      && 0 <= Count(t.left) - Count(t.right) <= 1
      && Balanced(t.left) && Balanced(t.right)
  }

  ghost function PushAll<T>(ranks: Ranking<T>, xs: seq<T>): Tree<T> {
    if xs == [] then Leaf else PushTree(ranks, PushAll(ranks, xs[..|xs| - 1]), xs[|xs| - 1])
  }

  ghost function Pow2(n: nat): nat {
    if n == 0 then 1 else 2 * Pow2(n - 1)
  }

  lemma {:induction false} PushBalanced<T(!new)>(ranks: Ranking<T>, t: Tree<T>, x: T)
    requires TotalPreorder(ranks) && Checked(ranks, t) && Balanced(t)
    ensures Balanced(PushTree(ranks, t, x))
    decreases t
  {
    if t.Node? {
      var Node(d, s, l, r) := t;
      var down := if ranks(x, d) > 0 then d else x;
      SizeIsCount(ranks, l);
      SizeIsCount(ranks, r);
      if PushesLeft(l, r) {
        PushBalanced(ranks, l, down);
      } else {
        PushBalanced(ranks, r, down);
      }
    }
  }

  lemma {:induction false} BalancedHeight<T>(t: Tree<T>)
    requires Balanced(t)
    ensures Count(t) < Pow2(Height(t))
    ensures t.Node? ==> Pow2(Height(t) - 1) <= Count(t)
    decreases t
  {
    if t.Node? {
      var l, r := t.left, t.right;
      BalancedHeight(l);
      BalancedHeight(r);
      if Height(l) < Height(r) {
        Pow2Monotone(Height(l), Height(r) - 1);
      }
    }
  }

  lemma {:induction false} Pow2Monotone(a: nat, b: nat)
    requires a <= b
    ensures 1 <= Pow2(a) <= Pow2(b)
    decreases b
  {
    if a < b { Pow2Monotone(a, b - 1); } else if a > 0 { Pow2Monotone(a - 1, b - 1); }
  }

  lemma {:induction false} PushAllContents<T>(ranks: Ranking<T>, xs: seq<T>)
    ensures Elems(PushAll(ranks, xs)) == multiset(xs) && Count(PushAll(ranks, xs)) == |xs|
  {
    if xs != [] {
      var init, x := xs[..|xs| - 1], xs[|xs| - 1];
      PushAllContents(ranks, init);
      PushContents(ranks, PushAll(ranks, init), x);
      assert xs == init + [x];
    }
  }

  /** In a heap built by pushes the left subtree of every node is as large as the right one or
      larger by one. */
  lemma {:induction false} PushesKeepBalance<T(!new)>(ranks: Ranking<T>, xs: seq<T>)
    requires TotalPreorder(ranks)
    ensures Checked(ranks, PushAll(ranks, xs)) && Balanced(PushAll(ranks, xs))
  {
    if xs != [] {
      var init, x := xs[..|xs| - 1], xs[|xs| - 1];
      PushesKeepBalance(ranks, init);
      PushChecked(ranks, PushAll(ranks, init), x);
      PushBalanced(ranks, PushAll(ranks, init), x);
    }
  }

  /** The height of a heap of n >= 1 pushed elements is exactly floor(log2 n) + 1. */
  lemma PushedHeightIsLogarithm<T(!new)>(ranks: Ranking<T>, xs: seq<T>)
    requires TotalPreorder(ranks) && xs != []
    ensures var h := Height(PushAll(ranks, xs)); h >= 1 && Pow2(h - 1) <= |xs| < Pow2(h)
  {
    var t := PushAll(ranks, xs);
    assert Balanced(t) by { PushesKeepBalance(ranks, xs); }
    assert Count(t) == |xs| by { PushAllContents(ranks, xs); }
    BalancedHeight(t);
  }

  // ----- Runs -----

  datatype Op<T> = Push(x: T) | Pop | Peek | Remove(x: T)

  ghost function Step<T>(ranks: Ranking<T>, t: Tree<T>, op: Op<T>): (Tree<T>, Option<T>) {
    match op
    case Push(x) => (PushTree(ranks, t, x), None)
    case Pop => if t.Leaf? then (t, None) else (PopTree(ranks, t), Some(t.data))
    case Peek => (t, if t.Leaf? then None else Some(t.data))
    case Remove(x) =>
      match RemoveTree(ranks, t, x)
      case Some(t') => (t', Some(x))
      case None => (t, None)
  }

  // The priority multiset: what an operation may answer, and what it leaves
  ghost predicate IsHighest<T>(ranks: Ranking<T>, bag: multiset<T>, y: T) {
    y in bag && forall z :: z in bag ==> ranks(z, y) <= 0
  }

  ghost predicate BagStep<T>(ranks: Ranking<T>, bag: multiset<T>, op: Op<T>, out: Option<T>, bag': multiset<T>) {
    match op
    case Push(x) => out == None && bag' == bag + multiset{x}
    case Pop =>
      if bag == multiset{} then out == None && bag' == bag
      else out.Some? && IsHighest(ranks, bag, out.value) && bag' == bag - multiset{out.value}
    case Peek =>
      bag' == bag && if bag == multiset{} then out == None else out.Some? && IsHighest(ranks, bag, out.value)
    case Remove(x) =>
      if x in bag then out == Some(x) && bag' == bag - multiset{x} else out == None && bag' == bag
  }

  ghost function Run<T>(ranks: Ranking<T>, ops: seq<Op<T>>): (Tree<T>, seq<Option<T>>) {
    if ops == [] then (Leaf, [])
    else
      var (t, outs) := Run(ranks, ops[..|ops| - 1]);
      var (t', out) := Step(ranks, t, ops[|ops| - 1]);
      (t', outs + [out])
  }

  ghost predicate BagRun<T>(ranks: Ranking<T>, ops: seq<Op<T>>, outs: seq<Option<T>>, bags: seq<multiset<T>>) {
    && |outs| == |ops| && |bags| == |ops| + 1 && bags[0] == multiset{}
    && forall i :: 0 <= i < |ops| ==> BagStep(ranks, bags[i], ops[i], outs[i], bags[i + 1])
  }

  lemma StepRefines<T(!new)>(ranks: Ranking<T>, t: Tree<T>, op: Op<T>)
    requires TotalPreorder(ranks) && Checked(ranks, t)
    ensures var (t', out) := Step(ranks, t, op);
            Checked(ranks, t') && BagStep(ranks, Elems(t), op, out, Elems(t'))
  {
    match op
    case Push(x) =>
      PushChecked(ranks, t, x);
      PushContents(ranks, t, x);
    case Pop =>
      if t.Node? { PopTakesHighest(ranks, t); }
    case Peek =>
      if t.Node? { PopTakesHighest(ranks, t); }
    case Remove(x) =>
      RemoveIsComplete(ranks, t, x);
  }

  /** Every sequence of pushes, pops, peeks and removals answers as a priority multiset does, and
      checkNodes stays true. */
  lemma {:induction false} RunRefines<T(!new)>(ranks: Ranking<T>, ops: seq<Op<T>>) returns (bags: seq<multiset<T>>)
    requires TotalPreorder(ranks)
    ensures var (t, outs) := Run(ranks, ops);
            && Checked(ranks, t) && BagRun(ranks, ops, outs, bags) && bags[|ops|] == Elems(t)
  {
    if ops == [] {
      bags := [multiset{}];
    } else {
      var n := |ops| - 1;
      bags := RunRefines(ranks, ops[..n]);
      var (t, outs) := Run(ranks, ops[..n]);
      StepRefines(ranks, t, ops[n]);
      var (t', out) := Step(ranks, t, ops[n]);
      assert ops == ops[..n] + [ops[n]];
      BagRunExtends(ranks, ops[..n], outs, bags, ops[n], out, Elems(t'));
      bags := bags + [Elems(t')];
    }
  }

  lemma BagRunExtends<T>(ranks: Ranking<T>, ops: seq<Op<T>>, outs: seq<Option<T>>, bags: seq<multiset<T>>,
                         op: Op<T>, out: Option<T>, bag: multiset<T>)
    requires BagRun(ranks, ops, outs, bags) && BagStep(ranks, bags[|ops|], op, out, bag)
    ensures BagRun(ranks, ops + [op], outs + [out], bags + [bag])
  {
  }
}

module LocHeap {
  import opened Wrappers
  import opened HeapTree

  class LocHeapNode<T(==)> {
    var mSize: int
    var mLeft: LocHeapNode?<T>
    var mRight: LocHeapNode?<T>
    var mData: T

    ghost var Repr: set<LocHeapNode<T>>
    ghost var tree: Tree<T>

    ghost predicate Valid()
      reads this, Repr
      ensures Valid() ==> this in Repr
      decreases Repr
    {
      && this in Repr
      && (mLeft != null ==>
            mLeft in Repr && mLeft.Repr <= Repr && this !in mLeft.Repr && mLeft.Valid())
      && (mRight != null ==>
            mRight in Repr && mRight.Repr <= Repr && this !in mRight.Repr && mRight.Valid())
      && (mLeft != null && mRight != null ==> mLeft.Repr !! mRight.Repr)
      && tree == Node(mData, mSize,
                      if mLeft == null then Leaf else mLeft.tree,
                      if mRight == null then Leaf else mRight.tree)
    }

    // A node outside any tree, as the constructor and pop leave it
    ghost predicate Single()
      reads this
    {
      mLeft == null && mRight == null && Repr == {this} && tree == Node(mData, mSize, Leaf, Leaf)
    }

    constructor (data: T)
      ensures Single() && mSize == 1 && mData == data && fresh(this)
    {
      mSize, mLeft, mRight, mData := 1, null, null, data;
      Repr, tree := {this}, Node(data, 1, Leaf, Leaf);
    }

    method Swap(node: LocHeapNode<T>)
      requires Valid() && node.Single() && node !in Repr
      modifies this`mData, this`tree, node`mData, node`tree
      ensures Valid() && node.Single()
      ensures mData == old(node.mData) && node.mData == old(mData)
      ensures tree == Node(mData, old(tree).size, old(tree).left, old(tree).right)
    {
      mData, node.mData := node.mData, mData;
      node.tree := Node(node.mData, node.mSize, Leaf, Leaf);
      tree := Node(mData, mSize, tree.left, tree.right);
    }

    method Push(ranks: Ranking<T>, node: LocHeapNode<T>)
      requires Valid() && node.Single() && node.mSize == 1 && node !in Repr
      modifies Repr, node
      ensures Valid() && Repr == old(Repr) + {node}
      ensures tree == PushTree(ranks, old(tree), old(node.mData))
      decreases Repr, 1
    {
      if ranks(node.mData, mData) > 0 {
        Swap(node);
      }
      if mLeft == null {
        DropLeft(ranks, node);
      } else if mRight == null {
        DropRight(ranks, node);
      } else if mLeft.mSize <= mRight.mSize {
        DropLeft(ranks, node);
      } else {
        DropRight(ranks, node);
      }
    }

    method DropLeft(ranks: Ranking<T>, node: LocHeapNode<T>)
      requires Valid() && node.Single() && node.mSize == 1 && node !in Repr
      modifies Repr, node
      ensures Valid() && Repr == old(Repr) + {node}
      ensures tree == Node(old(mData), old(mSize) + 1,
                           PushTree(ranks, old(tree).left, old(node.mData)), old(tree).right)
      decreases Repr, 0
    {
      if mLeft == null {
        mLeft := node;
      } else {
        mLeft.Push(ranks, node);
      }
      mSize := mSize + 1;
      Repr := Repr + {node};
      tree := Node(mData, mSize, mLeft.tree, tree.right);
    }

    method DropRight(ranks: Ranking<T>, node: LocHeapNode<T>)
      requires Valid() && node.Single() && node.mSize == 1 && node !in Repr
      modifies Repr, node
      ensures Valid() && Repr == old(Repr) + {node}
      ensures tree == Node(old(mData), old(mSize) + 1,
                           old(tree).left, PushTree(ranks, old(tree).right, old(node.mData)))
      decreases Repr, 0
    {
      if mRight == null {
        mRight := node;
      } else {
        mRight.Push(ranks, node);
      }
      mSize := mSize + 1;
      Repr := Repr + {node};
      tree := Node(mData, mSize, tree.left, mRight.tree);
    }

    // What the caller's reference to a tree of nodes repr holds once one node has left it
    static ghost predicate Lost(newTop: LocHeapNode?<T>, repr: set<LocHeapNode<T>>, gone: LocHeapNode<T>, t: Tree<T>)
      reads newTop, if newTop == null then {} else newTop.Repr
    {
      && gone in repr
      && (newTop == null ==> t == Leaf)
      && (newTop != null ==> newTop.Valid() && newTop.Repr == repr - {gone} && newTop.tree == t)
    }

    /** Takes the top's data out of the tree: it travels down to a leaf node, which is detached.
        newTop is what the caller's reference to the tree becomes. */
    static method PopNode(ranks: Ranking<T>, top: LocHeapNode<T>)
      returns (newTop: LocHeapNode?<T>, popped: LocHeapNode<T>)
      requires top.Valid()
      modifies top.Repr
      ensures Lost(newTop, old(top.Repr), popped, PopTree(ranks, old(top.tree)))
      ensures newTop != null ==> newTop == top
      ensures popped.mData == old(top.mData) && popped.mLeft == null && popped.mRight == null
      decreases top.Repr, 1
    {
      top.mSize := top.mSize - 1;
      top.tree := Node(top.mData, top.mSize, top.tree.left, top.tree.right);
      if top.mLeft == null && top.mRight == null {
        return null, top;
      }
      newTop := top;
      if top.mLeft != null && (top.mRight == null || ranks(top.mLeft.mData, top.mRight.mData) > 0) {
        popped := top.PopLeft(ranks);
      } else {
        popped := top.PopRight(ranks);
      }
    }

    // Trades data with a child
    method Exchange(sub: LocHeapNode<T>)
      requires Valid() && (sub == mLeft || sub == mRight) && sub.Valid()
      modifies this`mData, sub`mData, sub`tree
      ensures mData == old(sub.mData) && sub.mData == old(mData)
      ensures sub.Valid() && sub.tree == Node(old(mData), old(sub.tree.size), old(sub.tree.left), old(sub.tree.right))
    {
      mData, sub.mData := sub.mData, mData;
      sub.tree := Node(sub.mData, sub.mSize, sub.tree.left, sub.tree.right);
    }

    method PopLeft(ranks: Ranking<T>) returns (popped: LocHeapNode<T>)
      requires Valid() && mLeft != null && tree.left.Node?
      modifies Repr
      ensures Valid() && Repr == old(Repr) - {popped} && popped in old(Repr)
      ensures tree == Node(old(mLeft.mData), old(mSize), PopTree(ranks, old(tree).left), old(tree).right)
      ensures popped.mData == old(mData) && popped.mLeft == null && popped.mRight == null
      decreases Repr, 0
    {
      var sub := mLeft;
      Exchange(sub);
      sub, popped := PopNode(ranks, sub);
      mLeft := sub;
      Repr := Repr - {popped};
      tree := Node(mData, mSize, if mLeft == null then Leaf else mLeft.tree, tree.right);
    }

    method PopRight(ranks: Ranking<T>) returns (popped: LocHeapNode<T>)
      requires Valid() && mRight != null && tree.right.Node?
      modifies Repr
      ensures Valid() && Repr == old(Repr) - {popped} && popped in old(Repr)
      ensures tree == Node(old(mRight.mData), old(mSize), old(tree).left, PopTree(ranks, old(tree).right))
      ensures popped.mData == old(mData) && popped.mLeft == null && popped.mRight == null
      decreases Repr, 0
    {
      var sub := mRight;
      Exchange(sub);
      sub, popped := PopNode(ranks, sub);
      mRight := sub;
      Repr := Repr - {popped};
      tree := Node(mData, mSize, tree.left, if mRight == null then Leaf else mRight.tree);
    }

    /** Searches for the node holding x and takes its data out; null, with nothing changed, when
        the pruned search does not meet x. */
    static method RemoveNode(ranks: Ranking<T>, top: LocHeapNode<T>, x: T)
      returns (newTop: LocHeapNode?<T>, removed: LocHeapNode?<T>)
      requires top.Valid()
      modifies top.Repr
      ensures removed == null <==> RemoveTree(ranks, old(top.tree), x) == None
      ensures removed == null ==> newTop == top && unchanged(old(top.Repr))
      ensures removed != null ==>
                && Lost(newTop, old(top.Repr), removed, RemoveTree(ranks, old(top.tree), x).value)
                && removed.mData == x && removed.mLeft == null && removed.mRight == null
      ensures newTop != null ==> newTop == top
      decreases top.Repr, 1
    {
      newTop, removed := top, null;
      if x == top.mData {
        newTop, removed := PopNode(ranks, top);
      } else if ranks(x, top.mData) <= 0 {
        if top.mLeft != null {
          removed := top.RemoveLeft(ranks, x);
        }
        if removed == null && top.mRight != null {
          removed := top.RemoveRight(ranks, x);
        }
      }
    }

    method RemoveLeft(ranks: Ranking<T>, x: T) returns (removed: LocHeapNode?<T>)
      requires Valid() && mLeft != null
      modifies Repr
      ensures removed == null <==> RemoveTree(ranks, old(tree).left, x) == None
      ensures removed == null ==> unchanged(old(Repr))
      ensures removed != null ==>
                && Valid() && Repr == old(Repr) - {removed} && removed in old(Repr)
                && tree == Node(old(mData), old(mSize) - 1, RemoveTree(ranks, old(tree).left, x).value, old(tree).right)
                && removed.mData == x && removed.mLeft == null && removed.mRight == null
      decreases Repr, 0
    {
      var sub;
      sub, removed := RemoveNode(ranks, mLeft, x);
      if removed != null {
        mLeft := sub;
        mSize := mSize - 1;
        Repr := Repr - {removed};
        tree := Node(mData, mSize, if mLeft == null then Leaf else mLeft.tree, tree.right);
      }
    }

    method RemoveRight(ranks: Ranking<T>, x: T) returns (removed: LocHeapNode?<T>)
      requires Valid() && mRight != null
      modifies Repr
      ensures removed == null <==> RemoveTree(ranks, old(tree).right, x) == None
      ensures removed == null ==> unchanged(old(Repr))
      ensures removed != null ==>
                && Valid() && Repr == old(Repr) - {removed} && removed in old(Repr)
                && tree == Node(old(mData), old(mSize) - 1, old(tree).left, RemoveTree(ranks, old(tree).right, x).value)
                && removed.mData == x && removed.mLeft == null && removed.mRight == null
      decreases Repr, 0
    {
      var sub;
      sub, removed := RemoveNode(ranks, mRight, x);
      if removed != null {
        mRight := sub;
        mSize := mSize - 1;
        Repr := Repr - {removed};
        tree := Node(mData, mSize, tree.left, if mRight == null then Leaf else mRight.tree);
      }
    }

    method CheckNodes(ranks: Ranking<T>) returns (ok: bool)
      requires Valid()
      ensures ok <==> Checked(ranks, tree)
      decreases Repr
    {
      var totalSize := mSize;
      if mLeft != null {
        if ranks(mLeft.mData, mData) > 0 {
          return false;
        }
        var leftOk := mLeft.CheckNodes(ranks);
        if !leftOk {
          return false;
        }
        totalSize := totalSize - mLeft.mSize;
      }
      if mRight != null {
        if ranks(mRight.mData, mData) > 0 {
          return false;
        }
        var rightOk := mRight.CheckNodes(ranks);
        if !rightOk {
          return false;
        }
        totalSize := totalSize - mRight.mSize;
      }
      return totalSize == 1;
    }
  }

  class LocHeap<T(==,!new)> {
    const ranks: Ranking<T>
    var mTree: LocHeapNode?<T>

    ghost function Repr(): set<object>
      reads this, mTree
    {
      {this} + if mTree == null then {} else mTree.Repr
    }

    ghost function Shape(): Tree<T>
      reads this, mTree
    {
      if mTree == null then Leaf else mTree.tree
    }

    ghost function Contents(): multiset<T>
      reads this, mTree
    {
      Elems(Shape())
    }

    ghost predicate Valid()
      reads this, mTree, Repr()
    {
      && TotalPreorder(ranks)
      && (mTree != null ==> mTree.Valid())
      && Checked(ranks, Shape())
    }

    constructor (ranks: Ranking<T>)
      requires TotalPreorder(ranks)
      ensures Valid() && fresh(Repr()) && this.ranks == ranks && Contents() == multiset{}
    {
      this.ranks := ranks;
      mTree := null;
    }

    method Push(x: T)
      requires Valid()
      modifies Repr()
      ensures Valid() && fresh(Repr() - old(Repr()))
      ensures Shape() == PushTree(ranks, old(Shape()), x) && Contents() == old(Contents()) + multiset{x}
    {
      PushChecked(ranks, Shape(), x);
      PushContents(ranks, Shape(), x);
      var heapNode := new LocHeapNode(x);
      if mTree == null {
        mTree := heapNode;
      } else {
        mTree.Push(ranks, heapNode);
      }
    }

    method Peek() returns (r: Option<T>)
      requires Valid()
      ensures if Contents() == multiset{} then r == None else r.Some? && IsHighest(ranks, Contents(), r.value)
    {
      if mTree == null {
        return None;
      }
      PopTakesHighest(ranks, mTree.tree);
      r := Some(mTree.mData);
    }

    /** The answer and the new contents are a priority multiset's; the tree changes as Step says. */
    method Pop() returns (r: Option<T>)
      requires Valid()
      modifies Repr()
      ensures Valid() && Repr() <= old(Repr())
      ensures (Shape(), r) == Step(ranks, old(Shape()), Op<T>.Pop)
      ensures BagStep(ranks, old(Contents()), Op<T>.Pop, r, Contents())
    {
      StepRefines(ranks, Shape(), Op<T>.Pop);
      r := PopTop();
    }

    method PopTop() returns (r: Option<T>)
      requires mTree != null ==> mTree.Valid()
      modifies Repr()
      ensures mTree != null ==> mTree.Valid()
      ensures Repr() <= old(Repr())
      ensures (Shape(), r) == Step(ranks, old(Shape()), Op<T>.Pop)
    {
      if mTree == null {
        return None;
      }
      var top, heapNode := LocHeapNode.PopNode(ranks, mTree);
      mTree := top;
      r := Some(heapNode.mData);
    }

    /** Deletes exactly one entry holding x if there is one; otherwise answers None with the tree
        unchanged. */
    method Remove(x: T) returns (r: Option<T>)
      requires Valid()
      modifies Repr()
      ensures Valid() && Repr() <= old(Repr())
      ensures r == None ==> unchanged(old(Repr()))
      ensures (Shape(), r) == Step(ranks, old(Shape()), Op.Remove(x))
      ensures BagStep(ranks, old(Contents()), Op.Remove(x), r, Contents())
    {
      StepRefines(ranks, Shape(), Op.Remove(x));
      r := RemoveData(x);
    }

    method RemoveData(x: T) returns (r: Option<T>)
      requires mTree != null ==> mTree.Valid()
      modifies Repr()
      ensures mTree != null ==> mTree.Valid()
      ensures Repr() <= old(Repr())
      ensures r == None ==> unchanged(old(Repr()))
      ensures (Shape(), r) == Step(ranks, old(Shape()), Op.Remove(x))
    {
      if mTree == null {
        return None;
      }
      var top, heapNode := LocHeapNode.RemoveNode(ranks, mTree, x);
      if heapNode == null {
        return None;
      }
      mTree := top;
      r := Some(heapNode.mData);
    }

    // The test is true in every reachable heap
    method CheckTree() returns (ok: bool)
      requires Valid()
      ensures ok
    {
      if mTree == null {
        return true;
      }
      ok := mTree.CheckNodes(ranks);
    }
  }
}
