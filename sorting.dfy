/** `Array.prototype.sort` with a comparator of the shape
    `(a, b) => key(b) - key(a)`: a stable sort into descending key order
    (ECMAScript requires `sort` to be stable). Modelled as insertion sort;
    its contract (descending, a permutation, ties in input order) determines
    the result uniquely, so any stable sort gives the same answer. */
module Sorting {
  import opened Seqs

  predicate SortedDesc<T>(s: seq<T>, key: T -> real) {
    forall i, j :: 0 <= i < j < |s| ==> key(s[i]) >= key(s[j])
  }

  /** The elements whose key is `k`, in order. */
  function WithKey<T>(s: seq<T>, key: T -> real, k: real): seq<T> {
    Filter(s, x => key(x) == k)
  }

  /** The keyed elements of a prefix are a prefix of the keyed elements. */
  lemma WithKeyPrefix<T>(s: seq<T>, n: nat, key: T -> real, k: real)
    requires n <= |s|
    ensures WithKey(s[..n], key, k) <= WithKey(s, key, k)
  {
    FilterPrefix(s, n, x => key(x) == k);
  }

  /** Inserts `x` in front of the first element whose key is not larger. */
  function Insert<T>(x: T, ys: seq<T>, key: T -> real): (r: seq<T>)
    ensures |r| == |ys| + 1
  {
    if ys == [] || key(x) >= key(ys[0]) then [x] + ys
    else [ys[0]] + Insert(x, ys[1..], key)
  }

  function SortDesc<T>(s: seq<T>, key: T -> real): (r: seq<T>)
    ensures |r| == |s|
    ensures multiset(r) == multiset(s)
    ensures SortedDesc(r, key)
    ensures forall k :: WithKey(r, key, k) == WithKey(s, key, k)
  {
    if s == [] then []
    else
      var rest := SortDesc(s[1..], key);
      InsertPermutes(s[0], rest, key);
      InsertSorted(s[0], rest, key);
      assert s == [s[0]] + s[1..];
      forall k ensures WithKey(Insert(s[0], rest, key), key, k) == WithKey(s, key, k) {
        InsertStable(s[0], rest, key, k);
        FilterConcat([s[0]], s[1..], x => key(x) == k);
        FilterConcat([s[0]], rest, x => key(x) == k);
      }
      Insert(s[0], rest, key)
  }

  lemma {:induction false} InsertPermutes<T>(x: T, ys: seq<T>, key: T -> real)
    ensures multiset(Insert(x, ys, key)) == multiset(ys) + multiset{x}
  {
    if !(ys == [] || key(x) >= key(ys[0])) {
      InsertPermutes(x, ys[1..], key);
      assert ys == [ys[0]] + ys[1..];
    }
  }

  lemma {:induction false} InsertSorted<T>(x: T, ys: seq<T>, key: T -> real)
    requires SortedDesc(ys, key)
    ensures SortedDesc(Insert(x, ys, key), key)
    ensures Insert(x, ys, key)[0] == x || (ys != [] && Insert(x, ys, key)[0] == ys[0])
  {
    if !(ys == [] || key(x) >= key(ys[0])) {
      InsertSorted(x, ys[1..], key);
      var tail := Insert(x, ys[1..], key);
      var r := [ys[0]] + tail;
      forall i, j | 0 <= i < j < |r| ensures key(r[i]) >= key(r[j]) {
        if i == 0 {
          if tail[j - 1] == x {
          } else {
            InsertMember(x, ys[1..], key, j - 1);
          }
        }
      }
    }
  }

  /** Every element of an insertion is `x` or an element of `ys`. */
  lemma {:induction false} InsertMember<T>(x: T, ys: seq<T>, key: T -> real, i: nat)
    requires i < |ys| + 1
    ensures Insert(x, ys, key)[i] == x || Insert(x, ys, key)[i] in ys
  {
    if !(ys == [] || key(x) >= key(ys[0])) && i > 0 {
      InsertMember(x, ys[1..], key, i - 1);
    }
  }

  /** Insertion puts `x` in front of every element with the same key. */
  lemma {:induction false} InsertStable<T>(x: T, ys: seq<T>, key: T -> real, k: real)
    requires SortedDesc(ys, key)
    ensures WithKey(Insert(x, ys, key), key, k) == WithKey([x], key, k) + WithKey(ys, key, k)
  {
    var p := y => key(y) == k;
    if ys == [] || key(x) >= key(ys[0]) {
      FilterConcat([x], ys, p);
    } else {
      InsertStable(x, ys[1..], key, k);
      FilterConcat([ys[0]], Insert(x, ys[1..], key), p);
      FilterConcat([ys[0]], ys[1..], p);
      assert ys == [ys[0]] + ys[1..];
      assert key(ys[0]) > key(x);
    }
  }
}
