/** Sequence vocabulary shared by the components: optional values, index
    ranges, the order-preserving filter of JavaScript arrays, subsequences
    and permutations of an index range. */
module Common {

  datatype Option<T> = None | Some(value: T) {
    /** The `??` operator: the value when present, the default otherwise. */
    function GetOr(default: T): T {
      match this
      case Some(v) => v
      case None => default
    }
  }

  /** The indices 0, 1, ..., n-1 in order: `Array.from({ length: n }, (_, i) => i)`. */
  function Iota(n: nat): (r: seq<int>)
    ensures |r| == n
    ensures forall i | 0 <= i < n :: r[i] == i
  {
    if n == 0 then [] else Iota(n - 1) + [n - 1]
  }

  /** `Array.prototype.filter`: the elements satisfying `keep`, in their original order. */
  function Select<T>(s: seq<T>, keep: T -> bool): (r: seq<T>)
    ensures |r| <= |s|
    ensures forall i | 0 <= i < |r| :: r[i] in s && keep(r[i])
    ensures forall i | 0 <= i < |s| && keep(s[i]) :: s[i] in r
  {
    if s == [] then []
    else (if keep(s[0]) then [s[0]] else []) + Select(s[1..], keep)
  }

  /** `a` is obtained from `b` by deleting elements, without reordering the rest. */
  ghost predicate IsSubsequence<T>(a: seq<T>, b: seq<T>)
    decreases |b|
  {
    if b == [] then a == []
    else IsSubsequence(a, b[1..]) || (a != [] && a[0] == b[0] && IsSubsequence(a[1..], b[1..]))
  }

  /** Filtering keeps the surviving elements unchanged and in their original order. */
  lemma {:induction false} SelectIsSubsequence<T>(s: seq<T>, keep: T -> bool)
    ensures IsSubsequence(Select(s, keep), s)
  {
    if s != [] {
      SelectIsSubsequence(s[1..], keep);
      if keep(s[0]) {
        assert Select(s, keep) == [s[0]] + Select(s[1..], keep);
        assert Select(s, keep)[1..] == Select(s[1..], keep);
      } else {
        assert Select(s, keep) == Select(s[1..], keep);
      }
    }
  }

  /** Filtering keeps every occurrence of a kept value and no occurrence of
      any other: the count of each value is its count in `s` or 0. */
  lemma {:induction false} SelectCount<T>(s: seq<T>, keep: T -> bool)
    ensures forall x :: multiset(Select(s, keep))[x] == if keep(x) then multiset(s)[x] else 0
  {
    if s != [] {
      SelectCount(s[1..], keep);
      assert s == [s[0]] + s[1..];
    }
  }

  /** Filtering by a predicate and by its negation splits the input: every
      occurrence lands in exactly one of the two outputs. */
  lemma {:induction false} SelectPartition<T>(s: seq<T>, keep: T -> bool, drop: T -> bool)
    requires forall x :: drop(x) == !keep(x)
    ensures multiset(Select(s, keep)) + multiset(Select(s, drop)) == multiset(s)
    ensures |Select(s, keep)| + |Select(s, drop)| == |s|
  {
    if s != [] {
      SelectPartition(s[1..], keep, drop);
      assert s == [s[0]] + s[1..];
    }
  }

  /** `s` lists each of 0, 1, ..., n-1 exactly once. */
  ghost predicate IsPermutation(s: seq<int>, n: int) {
    && |s| == n
    && (forall i | 0 <= i < |s| :: 0 <= s[i] < n)
    && (forall i, j | 0 <= i < j < |s| :: s[i] != s[j])
    && (forall k | 0 <= k < n :: k in s)
  }

  /** The identity ordering is a permutation of the index range. */
  lemma IotaIsPermutation(n: nat)
    ensures IsPermutation(Iota(n), n)
  {
    forall k | 0 <= k < n ensures k in Iota(n) {
      assert Iota(n)[k] == k;
    }
  }
}
