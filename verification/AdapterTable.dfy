// The adapter table of the engine interface (gps/core/LocApiBase.cpp): a fixed array of adapters, kept
// free of duplicates and of holes, and the open and close messages its changes send.
module AdapterTableModel {
  import opened Wrappers

  const MAX_ADAPTERS := 10

  // Open carries the adapter just added, if any
  datatype Message = Open(added: Option<int>) | Close

  ghost predicate Distinct(l: seq<int>) {
    forall i, j :: 0 <= i < j < |l| ==> l[i] != l[j]
  }

  function IndexOf(l: seq<int>, a: int): (k: nat)
    requires a in l
    ensures k < |l| && l[k] == a
  {
    if l[0] == a then 0 else 1 + IndexOf(l[1..], a)
  }

  // ----- The table as the list of its adapters -----

  function Added(l: seq<int>, adapter: Option<int>): seq<int> {
    if adapter.None? || adapter.value in l || |l| >= MAX_ADAPTERS then l else l + [adapter.value]
  }

  function AddSends(l: seq<int>, adapter: Option<int>): seq<Message> {
    if Added(l, adapter) == l then [] else [Open(adapter)]
  }

  // The last adapter takes the removed one's place
  function Removed(l: seq<int>, adapter: Option<int>): seq<int> {
    if adapter.None? || adapter.value !in l then l
    else l[IndexOf(l, adapter.value) := l[|l| - 1]][..|l| - 1]
  }

  function RemoveSends(l: seq<int>, adapter: Option<int>): seq<Message> {
    if adapter.None? || adapter.value !in l then [] else if |l| == 1 then [Close] else [Open(None)]
  }
}

module AdapterTable {
  import opened Wrappers
  import opened AdapterTableModel

  class LocApiBase {
    const mLocAdapters: array<Option<int>>
    var mSent: seq<Message>
    ghost var Adapters: seq<int>

    ghost predicate Valid()
      reads this, mLocAdapters
    {
      && mLocAdapters.Length == MAX_ADAPTERS && |Adapters| <= MAX_ADAPTERS && Distinct(Adapters)
      && Holds(Adapters)
    }

    // The array starts with these adapters and is null from there on
    ghost predicate Holds(l: seq<int>)
      requires |l| <= MAX_ADAPTERS == mLocAdapters.Length
      reads mLocAdapters
    {
      forall i :: 0 <= i < MAX_ADAPTERS ==> mLocAdapters[i] == if i < |l| then Some(l[i]) else None
    }

    constructor ()
      ensures Valid() && fresh(mLocAdapters) && Adapters == [] && mSent == []
    {
      mLocAdapters := new Option<int>[MAX_ADAPTERS](_ => None);
      mSent, Adapters := [], [];
    }

    method AddAdapter(adapter: Option<int>)
      requires Valid()
      modifies this`mSent, this`Adapters, mLocAdapters
      ensures Valid() && Adapters == Added(old(Adapters), adapter)
      ensures mSent == old(mSent) + AddSends(old(Adapters), adapter)
    {
      var i := 0;
      while i < MAX_ADAPTERS && mLocAdapters[i] != adapter
        invariant 0 <= i <= |Adapters| && Valid()
        invariant Adapters == old(Adapters) && mSent == old(mSent)
        invariant forall k :: 0 <= k < i ==> Some(Adapters[k]) != adapter
      {
        if mLocAdapters[i] == None {
          mLocAdapters[i] := adapter;
          Adapters := Adapters + [adapter.value];
          mSent := mSent + [Open(adapter)];
          return;
        }
        i := i + 1;
      }
    }

    method RemoveAdapter(adapter: Option<int>)
      requires Valid()
      modifies this`mSent, this`Adapters, mLocAdapters
      ensures Valid() && Adapters == Removed(old(Adapters), adapter)
      ensures mSent == old(mSent) + RemoveSends(old(Adapters), adapter)
    {
      var i := 0;
      while i < MAX_ADAPTERS && mLocAdapters[i] != None
        invariant 0 <= i <= MAX_ADAPTERS && Valid()
        invariant
          || (&& i <= |Adapters| && Adapters == old(Adapters) && mSent == old(mSent)
              && forall k :: 0 <= k < i ==> Some(Adapters[k]) != adapter)
          || (&& i == |Adapters| + 1 && Adapters == Removed(old(Adapters), adapter)
              && mSent == old(mSent) + RemoveSends(old(Adapters), adapter))
      {
        if mLocAdapters[i] == adapter {
          var last := TakeOut(i);
          mSent := mSent + [if last == 0 then Close else Open(None)];
          i := last;
        }
        i := i + 1;
      }
    }

    /** Clears slot j and closes the gap with the last adapter, whose slot is returned. */
    method TakeOut(j: nat) returns (i: nat)
      requires Valid() && j < |Adapters|
      modifies this`Adapters, mLocAdapters
      ensures Valid() && Adapters == Removed(old(Adapters), Some(old(Adapters)[j]))
      ensures i == |Adapters| == |old(Adapters)| - 1
    {
      mLocAdapters[j] := None;
      i := j + 1;
      while i < MAX_ADAPTERS && mLocAdapters[i] != None
        invariant j < i <= |Adapters|
      {
        i := i + 1;
      }
      i := i - 1;
      mLocAdapters[j] := mLocAdapters[i];
      mLocAdapters[i] := None;
      assert IndexOf(Adapters, Adapters[j]) == j;
      Adapters := Adapters[j := Adapters[i]][..i];
    }

    /** An event for all adapters: the first null slot ends the walk. */
    method ToAllAdapters() returns (called: seq<int>)
      requires Valid()
      ensures called == Adapters
    {
      called := [];
      var i := 0;
      while i < MAX_ADAPTERS && mLocAdapters[i] != None
        invariant 0 <= i <= |Adapters| && called == Adapters[..i]
      {
        called := called + [mLocAdapters[i].value];
        i := i + 1;
      }
    }
  }
}

// Runs of additions and removals: the table is a set of at most ten adapters, and the messages say
// whether it is empty.
module AdapterTableRuns {
  import opened Wrappers
  import opened AdapterTableModel

  datatype Op = Add(adapter: Option<int>) | Remove(adapter: Option<int>)

  function After(l: seq<int>, op: Op): seq<int> {
    match op
    case Add(a) => Added(l, a)
    case Remove(a) => Removed(l, a)
  }

  function Sends(l: seq<int>, op: Op): seq<Message> {
    match op
    case Add(a) => AddSends(l, a)
    case Remove(a) => RemoveSends(l, a)
  }

  function Run(l: seq<int>, ops: seq<Op>): seq<int>
    decreases |ops|
  {
    if ops == [] then l else Run(After(l, ops[0]), ops[1..])
  }

  function Log(l: seq<int>, ops: seq<Op>): seq<Message>
    decreases |ops|
  {
    if ops == [] then [] else Sends(l, ops[0]) + Log(After(l, ops[0]), ops[1..])
  }

  // The same operations on a set that holds no more than ten
  function Registers(s: set<int>, op: Op): set<int> {
    if op.adapter.None? then s
    else
      match op
      case Add(a) => if |s| < 10 then s + {a.value} else s
      case Remove(a) => s - {a.value}
  }

  function Registered(s: set<int>, ops: seq<Op>): set<int>
    decreases |ops|
  {
    if ops == [] then s else Registered(Registers(s, ops[0]), ops[1..])
  }

  function Members(l: seq<int>): set<int> {
    set x | x in l
  }

  lemma {:induction false} MembersCount(l: seq<int>)
    requires Distinct(l)
    ensures |Members(l)| == |l|
  {
    if l != [] {
      MembersCount(l[1..]);
      assert l[0] !in l[1..];
      assert Members(l) == {l[0]} + Members(l[1..]);
    }
  }

  lemma RemovedBag(l: seq<int>, k: nat)
    requires k < |l|
    ensures multiset(l[k := l[|l| - 1]][..|l| - 1]) == multiset(l) - multiset{l[k]}
  {
    var n := |l| - 1;
    var moved := l[k := l[n]];
    assert moved == moved[..n] + [l[n]];
    assert multiset(moved) == multiset(moved[..n]) + multiset{l[n]};
    Cancel(multiset(moved[..n]), multiset(l) - multiset{l[k]}, l[n]);
  }

  lemma Cancel(m: multiset<int>, n: multiset<int>, x: int)
    requires m + multiset{x} == n + multiset{x}
    ensures m == n
  {
    forall y
      ensures m[y] == n[y]
    {
      assert (m + multiset{x})[y] == (n + multiset{x})[y];
    }
  }

  lemma RemovedDistinct(l: seq<int>, k: nat)
    requires k < |l| && Distinct(l)
    ensures Distinct(l[k := l[|l| - 1]][..|l| - 1])
  {
    var n := |l| - 1;
    var r := l[k := l[n]][..n];
    forall i, j | 0 <= i < j < n
      ensures r[i] != r[j]
    {
      assert r[i] == l[if i == k then n else i] && r[j] == l[if j == k then n else j];
    }
  }

  lemma {:induction false} DistinctBag(l: seq<int>, x: int)
    requires Distinct(l)
    ensures multiset(l)[x] == if x in l then 1 else 0
  {
    if l != [] {
      assert l == [l[0]] + l[1..];
      assert l[0] !in l[1..];
      DistinctBag(l[1..], x);
    }
  }

  /** Removal takes out exactly the given adapter, and the table stays free of duplicates. */
  lemma RemovesExactly(l: seq<int>, adapter: Option<int>)
    requires Distinct(l)
    ensures Distinct(Removed(l, adapter))
    ensures Members(Removed(l, adapter)) == if adapter.Some? then Members(l) - {adapter.value} else Members(l)
    ensures multiset(Removed(l, adapter)) ==
            if adapter.Some? && adapter.value in l then multiset(l) - multiset{adapter.value} else multiset(l)
  {
    if adapter.Some? && adapter.value in l {
      var r := Removed(l, adapter);
      RemovedBag(l, IndexOf(l, adapter.value));
      RemovedDistinct(l, IndexOf(l, adapter.value));
      forall x
        ensures x in r <==> x in l && x != adapter.value
      {
        DistinctBag(l, x);
        assert x in r <==> multiset(r)[x] > 0;
      }
      assert Members(r) == Members(l) - {adapter.value};
    } else if adapter.Some? {
      assert Members(l) - {adapter.value} == Members(l);
    }
  }

  /** ... and all but the last adapter keep their places, so that events reach them in the old order. */
  lemma RemovalKeepsPlaces(l: seq<int>, a: int, i: nat)
    requires Distinct(l) && a in l && i < |l| - 1
    ensures Removed(l, Some(a))[i] == if l[i] == a then l[|l| - 1] else l[i]
  {
    var k := IndexOf(l, a);
    assert l[k] == a;
  }

  lemma AddsExactly(l: seq<int>, adapter: Option<int>)
    requires Distinct(l)
    ensures Distinct(Added(l, adapter))
    ensures Members(Added(l, adapter)) ==
            if adapter.Some? && |l| < 10 then Members(l) + {adapter.value} else Members(l)
  {
  }

  lemma StepIsASet(l: seq<int>, op: Op)
    requires Distinct(l) && |l| <= 10
    ensures Distinct(After(l, op)) && |After(l, op)| <= 10
    ensures Members(After(l, op)) == Registers(Members(l), op)
  {
    MembersCount(l);
    AddsExactly(l, op.adapter);
    RemovesExactly(l, op.adapter);
  }

  /** Any run keeps the table free of duplicates, within its ten slots, and holding what the same
      operations leave in a set of at most ten. */
  lemma {:induction false} RunIsASet(l: seq<int>, ops: seq<Op>)
    requires Distinct(l) && |l| <= 10
    ensures Distinct(Run(l, ops)) && |Run(l, ops)| <= 10
    ensures Members(Run(l, ops)) == Registered(Members(l), ops)
    decreases |ops|
  {
    if ops != [] {
      StepIsASet(l, ops[0]);
      RunIsASet(After(l, ops[0]), ops[1..]);
    }
  }

  // ----- Messages -----

  // Whether the engine is open once it has acted on the messages
  function IsOpen(open: bool, log: seq<Message>): bool
    decreases |log|
  {
    if log == [] then open else IsOpen(log[0].Open?, log[1..])
  }

  // No message closes an engine that is closed already
  predicate ClosesOnlyOpen(open: bool, log: seq<Message>)
    decreases |log|
  {
    log == [] || ((log[0].Close? ==> open) && ClosesOnlyOpen(log[0].Open?, log[1..]))
  }

  /** A step that changes the table sends one message: a close exactly when the last adapter leaves, and an
      open that names the adapter exactly when one joins. */
  lemma SendsWhatHappened(l: seq<int>, op: Op)
    ensures Sends(l, op) == [] <==> After(l, op) == l
    ensures Sends(l, op) != [] ==>
              && |Sends(l, op)| == 1
              && (Sends(l, op)[0].Close? <==> After(l, op) == [])
              && (Sends(l, op)[0].Close? ==> l != [])
              && (Sends(l, op)[0].Open? ==>
                    match Sends(l, op)[0].added
                    case Some(x) => x !in l && After(l, op) == l + [x]
                    case None => |After(l, op)| < |l|)
  {
    match op
    case Add(_) =>
    case Remove(a) =>
      if a.Some? && a.value in l {
        assert |Removed(l, a)| == |l| - 1;
      }
  }

  /** Over any run the engine is open exactly while the table holds an adapter, and is never closed twice. */
  lemma {:induction false} OpenIffRegistered(l: seq<int>, ops: seq<Op>)
    ensures IsOpen(l != [], Log(l, ops)) <==> Run(l, ops) != []
    ensures ClosesOnlyOpen(l != [], Log(l, ops))
    decreases |ops|
  {
    if ops != [] {
      var sent, later := Sends(l, ops[0]), Log(After(l, ops[0]), ops[1..]);
      SendsWhatHappened(l, ops[0]);
      OpenIffRegistered(After(l, ops[0]), ops[1..]);
      if sent == [] {
        assert sent + later == later;
      } else {
        assert (sent + later)[0] == sent[0] && (sent + later)[1..] == later;
      }
    }
  }
}
