/**
 Go visits the entries of a map in an unspecified order. A loop over a map is modelled by an
 arbitrary order of its keys, and what must not depend on the order is proved here.
 */
module Orders {
  import opened Integers

  ghost predicate NoDuplicates(order: seq<uint32>) {
    forall i, j :: 0 <= i < j < |order| ==> order[i] != order[j]
  }

  /** order visits every key once and nothing else. */
  ghost predicate IsOrderOf(order: seq<uint32>, keys: set<uint32>) {
    && NoDuplicates(order)
    && (forall k :: k in order <==> k in keys)
  }

  function Pick<V>(m: map<uint32, V>, order: seq<uint32>): (r: seq<V>)
    requires forall k :: k in order ==> k in m
    ensures |r| == |order| && forall i :: 0 <= i < |order| ==> r[i] == m[order[i]]
  {
    seq(|order|, i requires 0 <= i < |order| => m[order[i]])
  }

  lemma {:induction false} Extend(order: seq<uint32>, k: uint32)
    requires NoDuplicates(order) && k !in order
    ensures NoDuplicates(order + [k])
    ensures forall j :: j in order + [k] <==> j in order || j == k
  {}

  lemma {:induction false} CountOne(order: seq<uint32>, k: uint32)
    requires NoDuplicates(order)
    ensures multiset(order)[k] == if k in order then 1 else 0
  {
    if order != [] {
      CountOne(order[1..], k);
      assert order == [order[0]] + order[1..];
    }
  }

  lemma {:induction false} SameMultiset(a: seq<uint32>, b: seq<uint32>, keys: set<uint32>)
    requires IsOrderOf(a, keys) && IsOrderOf(b, keys)
    ensures multiset(a) == multiset(b)
  {
    forall k: uint32 | true
      ensures multiset(a)[k] == multiset(b)[k]
    {
      CountOne(a, k);
      CountOne(b, k);
    }
  }

  lemma {:induction false} TakeOut<T>(s: seq<T>, j: nat)
    requires j < |s|
    ensures multiset(s) == multiset(s[..j] + s[j + 1..]) + multiset{s[j]}
    ensures multiset(s[..j] + s[j + 1..]) == multiset(s) - multiset{s[j]}
  {
    assert s == s[..j] + ([s[j]] + s[j + 1..]);
  }

  lemma {:induction false} PickWithout<V>(m: map<uint32, V>, b: seq<uint32>, j: nat)
    requires j < |b| && forall k :: k in b ==> k in m
    ensures var rest := b[..j] + b[j + 1..];
            && (forall k :: k in rest ==> k in m)
            && multiset(Pick(m, b)) == multiset(Pick(m, rest)) + multiset{m[b[j]]}
  {
    var p := Pick(m, b);
    TakeOut(p, j);
    assert Pick(m, b[..j] + b[j + 1..]) == p[..j] + p[j + 1..];
  }

  lemma {:induction false} DropCommon(a: seq<uint32>, b: seq<uint32>) returns (j: nat)
    requires a != [] && multiset(a) == multiset(b)
    ensures j < |b| && b[j] == a[0]
    ensures multiset(a[..0] + a[1..]) == multiset(b[..j] + b[j + 1..])
  {
    assert a[0] in multiset(a);
    j :| 0 <= j < |b| && b[j] == a[0];
    TakeOut(a, 0);
    TakeOut(b, j);
  }

  /** What is picked from a map is the same bag of values for every permutation of the keys. */
  lemma {:induction false} PickPermuted<V>(m: map<uint32, V>, a: seq<uint32>, b: seq<uint32>)
    requires forall k :: k in a ==> k in m
    requires forall k :: k in b ==> k in m
    requires multiset(a) == multiset(b)
    ensures multiset(Pick(m, a)) == multiset(Pick(m, b))
    decreases |a|
  {
    if a == [] {
      assert |b| == |multiset(b)| == |multiset(a)| == 0;
    } else {
      var j := DropCommon(a, b);
      PickWithout(m, a, 0);
      PickWithout(m, b, j);
      PickPermuted(m, a[..0] + a[1..], b[..j] + b[j + 1..]);
    }
  }
}
