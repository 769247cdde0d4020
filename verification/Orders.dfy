/** Facts about integer sequences and finite maps that every backend shares. */
module Orders {

  ghost predicate Increasing(s: seq<int>) {
    forall i, j :: 0 <= i < j < |s| ==> s[i] < s[j]
  }

  ghost function Elements(s: seq<int>): set<int> {
    set x | x in s
  }

  ghost predicate Distinct<T>(s: seq<T>) {
    forall i, j :: 0 <= i < j < |s| ==> s[i] != s[j]
  }

  lemma Snoc(s: seq<int>, x: int)
    ensures Elements(s + [x]) == Elements(s) + {x}
    ensures Distinct(s) && x !in Elements(s) ==> Distinct(s + [x])
  {
  }

  lemma ElementsConcat(a: seq<int>, b: seq<int>)
    ensures Elements(a + b) == Elements(a) + Elements(b)
  {
  }

  lemma HeadIsLeast(s: seq<int>)
    requires Increasing(s) && s != []
    ensures s[0] in Elements(s) && forall x :: x in Elements(s) ==> s[0] <= x
    ensures Increasing(s[1..])
    ensures Elements(s[1..]) == Elements(s) - {s[0]}
  {
  }

  /** An increasing sequence is determined by its elements. */
  lemma {:induction false} IncreasingUnique(a: seq<int>, b: seq<int>)
    requires Increasing(a) && Increasing(b) && Elements(a) == Elements(b)
    ensures a == b
  {
    if a == [] || b == [] {
      EmptyElements(a);
      EmptyElements(b);
    } else {
      HeadIsLeast(a);
      HeadIsLeast(b);
      IncreasingUnique(a[1..], b[1..]);
      assert a == [a[0]] + a[1..] && b == [b[0]] + b[1..];
    }
  }

  lemma EmptyElements(s: seq<int>)
    ensures Elements(s) == {} <==> s == []
  {
    assert s != [] ==> s[0] in Elements(s);
  }

  /** The place where `x` belongs in an increasing sequence: the number of smaller elements. */
  function Place(s: seq<int>, x: int): (k: nat)
    ensures k <= |s|
  {
    if s == [] || s[0] >= x then 0 else 1 + Place(s[1..], x)
  }

  lemma {:induction false} PlaceSplits(s: seq<int>, x: int)
    requires Increasing(s)
    ensures forall i :: 0 <= i < Place(s, x) ==> s[i] < x
    ensures forall i :: Place(s, x) <= i < |s| ==> s[i] >= x
  {
    if s != [] && s[0] < x {
      PlaceSplits(s[1..], x);
      assert forall i :: 1 <= i < |s| ==> s[i] == s[1..][i - 1];
    }
  }

  /** `s` with `x` put at its place. */
  function Inserted(s: seq<int>, x: int): seq<int> {
    s[..Place(s, x)] + [x] + s[Place(s, x)..]
  }

  lemma PlaceSplitsStrictly(s: seq<int>, x: int)
    requires Increasing(s) && x !in s
    ensures forall i :: 0 <= i < Place(s, x) ==> s[i] < x
    ensures forall i :: Place(s, x) <= i < |s| ==> x < s[i]
  {
  }

  lemma InsertedElements(s: seq<int>, x: int)
    ensures Elements(Inserted(s, x)) == Elements(s) + {x}
  {
  }

  lemma InsertedIncreasing(s: seq<int>, x: int)
    requires Increasing(s) && x !in s
    ensures Increasing(Inserted(s, x))
    ensures Elements(Inserted(s, x)) == Elements(s) + {x}
  {
    PlaceSplitsStrictly(s, x);
    InsertedElements(s, x);
    JoinIncreasing(s[..Place(s, x)], x, s[Place(s, x)..]);
  }

  lemma JoinIncreasing(low: seq<int>, x: int, high: seq<int>)
    requires Increasing(low) && Increasing(high)
    requires forall i :: 0 <= i < |low| ==> low[i] < x
    requires forall i :: 0 <= i < |high| ==> x < high[i]
    ensures Increasing(low + [x] + high)
  {
  }

  ghost function Pick<T>(s: set<T>): (x: T)
    requires s != {}
    ensures x in s
  {
    var x :| x in s; x
  }

  /** The elements of a finite set in increasing order. */
  ghost function SortedSet(s: set<int>): (r: seq<int>)
    ensures Increasing(r) && Elements(r) == s
  {
    if s == {} then [] else
      var x := Pick(s);
      var rest := SortedSet(s - {x});
      assert x !in Elements(rest);
      InsertedIncreasing(rest, x);
      Inserted(rest, x)
  }

  /** Go's sort.Ints. */
  function SortInts(s: seq<int>): (r: seq<int>)
    ensures |r| == |s|
  {
    if s == [] then [] else Inserted(SortInts(s[1..]), s[0])
  }

  lemma {:induction false} SortIntsSorts(s: seq<int>)
    requires Distinct(s)
    ensures SortInts(s) == SortedSet(Elements(s))
  {
    if s != [] {
      SortIntsSorts(s[1..]);
      var rest := SortedSet(Elements(s[1..]));
      assert s[0] !in Elements(s[1..]);
      assert s[0] !in Elements(rest);
      InsertedIncreasing(rest, s[0]);
      assert Elements(s) == Elements(s[1..]) + {s[0]};
    } else {
      assert Elements(s) == {};
    }
    IncreasingUnique(SortInts(s), SortedSet(Elements(s)));
  }

  /** The values that a map gives to the keys of `ks`, with multiplicity. */
  ghost function ValuesOn<K, V>(m: map<K, V>, ks: set<K>): multiset<V>
    requires ks <= m.Keys
  {
    if ks == {} then multiset{} else
      var k := Pick(ks);
      multiset{m[k]} + ValuesOn(m, ks - {k})
  }

  /** All values of a map, with multiplicity. */
  ghost function Values<K, V>(m: map<K, V>): multiset<V> {
    ValuesOn(m, m.Keys)
  }

  /** ValuesOn does not depend on which key is taken first. */
  lemma {:induction false} ValuesOnSplit<K, V>(m: map<K, V>, ks: set<K>, k: K)
    requires k in ks && ks <= m.Keys
    ensures ValuesOn(m, ks) == multiset{m[k]} + ValuesOn(m, ks - {k})
  {
    var j := Pick(ks);
    if j != k {
      ValuesOnSplit(m, ks - {j}, k);
      ValuesOnSplit(m, ks - {k}, j);
      assert ks - {j} - {k} == ks - {k} - {j};
    }
  }

  lemma {:induction false} ValuesOnAgree<K, V>(m: map<K, V>, n: map<K, V>, ks: set<K>)
    requires ks <= m.Keys && ks <= n.Keys
    requires forall k :: k in ks ==> m[k] == n[k]
    ensures ValuesOn(m, ks) == ValuesOn(n, ks)
  {
    if ks != {} {
      ValuesOnAgree(m, n, ks - {Pick(ks)});
    }
  }

  lemma ValuesInsert<K, V>(m: map<K, V>, k: K, v: V)
    requires k !in m
    ensures Values(m[k := v]) == Values(m) + multiset{v}
  {
    var n := m[k := v];
    ValuesOnSplit(n, n.Keys, k);
    assert n.Keys - {k} == m.Keys;
    ValuesOnAgree(m, n, m.Keys);
  }
}
