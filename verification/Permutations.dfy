/** Permutations of index ranges and the contract of a stable argsort.

  `torch.argsort` is library code; what the benchmarks rely on is that its result is the one
  list of all indices in which keys never decrease and equal keys keep their index order.
 */
module Permutations {

  /** Row selection: `index_select(0, p)`, also written `s[p]`. */
  function Gather<T>(s: seq<T>, p: seq<nat>): (r: seq<T>)
    requires forall i :: 0 <= i < |p| ==> p[i] < |s|
    ensures |r| == |p|
    ensures forall i :: 0 <= i < |p| ==> r[i] == s[p[i]]
  {
    seq(|p|, i requires 0 <= i < |p| => s[p[i]])
  }

  predicate IsPermutation(p: seq<nat>) {
    && (forall i :: 0 <= i < |p| ==> p[i] < |p|)
    && (forall i, j :: 0 <= i < j < |p| ==> p[i] != p[j])
  }

  /** Index `i` comes before index `j` in a stable sort by `keys`. */
  predicate Before(keys: seq<int>, i: nat, j: nat)
    requires i < |keys| && j < |keys|
  {
    keys[i] < keys[j] || (keys[i] == keys[j] && i < j)
  }

  predicate InStableOrder(keys: seq<int>, p: seq<nat>) {
    && (forall i :: 0 <= i < |p| ==> p[i] < |keys|)
    && (forall i, j :: 0 <= i < j < |p| ==> Before(keys, p[i], p[j]))
  }

  predicate IsStableArgsort(keys: seq<int>, p: seq<nat>) {
    |p| == |keys| && InStableOrder(keys, p)
  }

  /** Insertion of index `i`, larger than all indices of `p`, behind every key not above its own. */
  function InsertIndex(keys: seq<int>, p: seq<nat>, i: nat): (r: seq<nat>)
    requires InStableOrder(keys, p) && i < |keys|
    requires forall j :: 0 <= j < |p| ==> p[j] < i
    ensures |r| == |p| + 1
    ensures InStableOrder(keys, r)
    ensures forall j :: 0 <= j < |r| ==> r[j] == i || r[j] in p
  {
    var n := |p|;
    if n == 0 || keys[p[n - 1]] <= keys[i] then p + [i]
    else InsertIndex(keys, p[..n - 1], i) + [p[n - 1]]
  }

  function ArgsortPrefix(keys: seq<int>, n: nat): (p: seq<nat>)
    requires n <= |keys|
    ensures |p| == n
    ensures InStableOrder(keys, p)
    ensures forall j :: 0 <= j < n ==> p[j] < n
  {
    if n == 0 then [] else InsertIndex(keys, ArgsortPrefix(keys, n - 1), n - 1)
  }

  /** `torch.argsort(keys, stable=True)` */
  function StableArgsort(keys: seq<int>): (p: seq<nat>)
    ensures IsStableArgsort(keys, p)
    ensures IsPermutation(p)
  {
    ArgsortPrefix(keys, |keys|)
  }

  lemma SubsetOfEqualSize<T>(a: set<T>, b: set<T>)
    requires a <= b && |a| == |b|
    ensures a == b
  {
    assert b == a + (b - a);
    assert |b - a| == 0;
  }

  lemma {:induction false} DistinctSize<T>(s: seq<T>)
    requires forall i, j :: 0 <= i < j < |s| ==> s[i] != s[j]
    ensures |set x | x in s| == |s|
  {
    if s == [] {
      assert (set x | x in s) == {};
    } else {
      var n := |s| - 1;
      DistinctSize(s[..n]);
      assert s == s[..n] + [s[n]];
      assert (set x | x in s) == (set x | x in s[..n]) + {s[n]};
    }
  }

  function IndexSet(n: nat): (r: set<nat>)
    ensures |r| == n
    ensures forall i: nat :: i in r <==> i < n
  {
    if n == 0 then {} else IndexSet(n - 1) + {n - 1}
  }

  /** Pigeonhole: a permutation hits every index. */
  lemma PermutationIsOnto(p: seq<nat>, v: nat)
    requires IsPermutation(p) && v < |p|
    ensures exists i :: 0 <= i < |p| && p[i] == v
  {
    var image := set x | x in p;
    var range := IndexSet(|p|);
    DistinctSize(p);
    assert image <= range;
    SubsetOfEqualSize(image, range);
    assert v in image;
  }

  /** Reordering by a permutation keeps every element with its multiplicity. */
  lemma {:induction false} GatherKeepsElements<T>(s: seq<T>, p: seq<nat>)
    requires IsPermutation(p) && |p| == |s|
    ensures multiset(Gather(s, p)) == multiset(s)
    decreases |s|
  {
    if s != [] {
      var n := |s| - 1;
      PermutationIsOnto(p, n);
      var k :| 0 <= k < |p| && p[k] == n;
      var q := Without(p, k);
      assert s == s[..n] + [s[n]];
      GatherKeepsElements(s[..n], q);
      var g := Gather(s, p);
      assert Gather(s[..n], q) == g[..k] + g[k + 1..];
      TakeOut(g, k);
      assert multiset(s) == multiset(s[..n]) + multiset{s[n]};
    }
  }

  lemma TakeOut<T>(s: seq<T>, k: nat)
    requires k < |s|
    ensures multiset(s) == multiset(s[..k] + s[k + 1..]) + multiset{s[k]}
  {
    assert s == s[..k] + ([s[k]] + s[k + 1..]);
  }

  /** Removing the largest entry leaves a permutation. */
  function Without(p: seq<nat>, k: nat): (q: seq<nat>)
    requires IsPermutation(p) && k < |p| && p[k] == |p| - 1
    ensures |q| == |p| - 1
    ensures forall i :: 0 <= i < |q| ==> q[i] == p[if i < k then i else i + 1]
    ensures IsPermutation(q)
  {
    p[..k] + p[k + 1..]
  }

  /** Strictly increasing indices below their number are the identity. */
  lemma {:induction false} IncreasingIsIdentity(s: seq<nat>, j: nat)
    requires forall i :: 0 <= i < |s| ==> s[i] < |s|
    requires forall a, b :: 0 <= a < b < |s| ==> s[a] < s[b]
    requires j < |s|
    ensures s[j] == j
  {
    AtLeastIndex(s, j);
    AtMostIndex(s, j);
  }

  lemma {:induction false} AtLeastIndex(s: seq<nat>, j: nat)
    requires forall a, b :: 0 <= a < b < |s| ==> s[a] < s[b]
    requires j < |s|
    ensures j <= s[j]
  {
    if j > 0 { AtLeastIndex(s, j - 1); }
  }

  lemma {:induction false} AtMostIndex(s: seq<nat>, j: nat)
    requires forall i :: 0 <= i < |s| ==> s[i] < |s|
    requires forall a, b :: 0 <= a < b < |s| ==> s[a] < s[b]
    requires j < |s|
    ensures s[j] <= j
    decreases |s| - j
  {
    if j + 1 < |s| { AtMostIndex(s, j + 1); }
  }

  /** `argsort(argsort(keys))` is the inverse permutation, on both sides. */
  lemma ArgsortOfPermutationIsInverse(p: seq<nat>, q: seq<nat>)
    requires IsPermutation(p) && IsStableArgsort(p, q)
    ensures forall i :: 0 <= i < |p| ==> p[q[i]] == i
    ensures forall i :: 0 <= i < |p| ==> q[p[i]] == i
  {
    var s := Gather(p, q);
    forall i | 0 <= i < |p| ensures p[q[i]] == i {
      forall a, b | 0 <= a < b < |s| ensures s[a] < s[b] {
        assert Before(p, q[a], q[b]);
      }
      IncreasingIsIdentity(s, i);
    }
    forall i | 0 <= i < |p| ensures q[p[i]] == i {
      assert p[q[p[i]]] == p[i];
    }
  }

  lemma OrderReflectsPosition(keys: seq<int>, p: seq<nat>, x: nat, y: nat)
    requires InStableOrder(keys, p) && x < |p| && y < |p|
    requires Before(keys, p[x], p[y])
    ensures x < y
  {}

  /** The contract of a stable argsort has exactly one solution. */
  lemma StableArgsortIsUnique(keys: seq<int>, p: seq<nat>)
    requires IsStableArgsort(keys, p)
    ensures p == StableArgsort(keys)
  {
    var q := StableArgsort(keys);
    // The position in `q` of each entry of `p` is again strictly increasing.
    assert IsPermutation(p);
    var r := StableArgsort(q);
    ArgsortOfPermutationIsInverse(q, r);
    var s := Gather(r, p);
    forall a, b | 0 <= a < b < |s| ensures s[a] < s[b] {
      assert Before(keys, p[a], p[b]);
      assert q[s[a]] == p[a] && q[s[b]] == p[b];
      OrderReflectsPosition(keys, q, s[a], s[b]);
    }
    forall j | 0 <= j < |p| ensures p[j] == q[j] {
      IncreasingIsIdentity(s, j);
      assert r[p[j]] == j;
    }
  }
}
