// A C++ std::map keyed by a number, as the list of its entries in key order: the order the source
// iterates in.
module SortedMaps {
  import opened Wrappers

  datatype Entry<V> = Entry(key: int, value: V)

  function Lookup<V>(m: seq<Entry<V>>, k: int): Option<V> {
    if m == [] then None else if m[0].key == k then Some(m[0].value) else Lookup(m[1..], k)
  }

  function Saved<V>(m: seq<Entry<V>>, k: int, v: V): seq<Entry<V>> {
    if m == [] || k < m[0].key then [Entry(k, v)] + m
    else if m[0].key == k then [Entry(k, v)] + m[1..]
    else [m[0]] + Saved(m[1..], k, v)
  }

  function Removed<V>(m: seq<Entry<V>>, k: int): seq<Entry<V>> {
    if m == [] then [] else if m[0].key == k then m[1..] else [m[0]] + Removed(m[1..], k)
  }

  ghost predicate Sorted<V(!new)>(m: seq<Entry<V>>) {
    m == [] || ((forall e :: e in m[1..] ==> m[0].key < e.key) && Sorted(m[1..]))
  }

  lemma {:induction false} LookupMeaning<V(!new)>(m: seq<Entry<V>>, k: int)
    requires Sorted(m)
    ensures match Lookup(m, k)
            case Some(v) => Entry(k, v) in m && forall e :: e in m && e.key == k ==> e.value == v
            case None => forall e :: e in m ==> e.key != k
  {
    if m != [] {
      assert m == [m[0]] + m[1..];
      LookupMeaning(m[1..], k);
    }
  }

  lemma {:induction false} SavedMeaning<V(!new)>(m: seq<Entry<V>>, k: int, v: V)
    requires Sorted(m)
    ensures Sorted(Saved(m, k, v))
    ensures forall e :: e in Saved(m, k, v) <==> e == Entry(k, v) || (e in m && e.key != k)
  {
    if m != [] {
      assert m == [m[0]] + m[1..];
      SavedMeaning(m[1..], k, v);
      var r := Saved(m, k, v);
      assert r == [r[0]] + r[1..];
      if k < m[0].key {
        assert r[1..] == m;
      } else if k == m[0].key {
        assert r[1..] == m[1..];
      } else {
        assert r[1..] == Saved(m[1..], k, v);
      }
    } else {
      assert Saved(m, k, v)[1..] == [];
    }
  }

  lemma {:induction false} RemovedMeaning<V(!new)>(m: seq<Entry<V>>, k: int)
    requires Sorted(m)
    ensures Sorted(Removed(m, k))
    ensures forall e :: e in Removed(m, k) <==> e in m && e.key != k
  {
    if m != [] {
      assert m == [m[0]] + m[1..];
      RemovedMeaning(m[1..], k);
      var r := Removed(m, k);
      if m[0].key != k {
        assert r[1..] == Removed(m[1..], k);
        assert r == [r[0]] + r[1..];
      }
    }
  }

  lemma {:induction false} LookupSaved<V>(m: seq<Entry<V>>, k: int, v: V, j: int)
    ensures Lookup(Saved(m, k, v), j) == if j == k then Some(v) else Lookup(m, j)
  {
    if m != [] && m[0].key < k {
      LookupSaved(m[1..], k, v, j);
    }
  }

  lemma {:induction false} LookupRemoved<V(!new)>(m: seq<Entry<V>>, k: int, j: int)
    requires Sorted(m)
    ensures Lookup(Removed(m, k), j) == if j == k then None else Lookup(m, j)
  {
    if m != [] {
      if m[0].key == k {
        LookupMeaning(m[1..], k);
      } else {
        LookupRemoved(m[1..], k, j);
      }
    }
  }
}
