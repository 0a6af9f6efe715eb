/**
 * Sequence helpers shared by the services and components: Array.prototype.filter,
 * Array.prototype.findIndex/find, first-wins de-duplication (a Map or Set filled in
 * insertion order) and the subsequence relation they all respect.
 */
module Seqs {
  import opened Wrappers

  /** The elements of `s` that satisfy `p`, in their original order. */
  function Filter<T>(s: seq<T>, p: T -> bool): (r: seq<T>)
    ensures |r| <= |s|
  {
    if s == [] then [] else Filter(s[..|s| - 1], p) + (if p(s[|s| - 1]) then [s[|s| - 1]] else [])
  }

  /** The identity function, the key that compares elements themselves. */
  function Identity<T>(x: T): T {
    x
  }

  /** `f` applied to every element, in order (Array.prototype.map). */
  function MapSeq<T, U>(s: seq<T>, f: T -> U): (r: seq<U>)
    ensures |r| == |s| && forall i | 0 <= i < |s| :: r[i] == f(s[i])
  {
    seq(|s|, i requires 0 <= i < |s| => f(s[i]))
  }

  lemma MapSeqConcat<T, U>(a: seq<T>, b: seq<T>, f: T -> U)
    ensures MapSeq(a + b, f) == MapSeq(a, f) + MapSeq(b, f)
  {
    var l, r := MapSeq(a + b, f), MapSeq(a, f) + MapSeq(b, f);
    forall i | 0 <= i < |l| ensures l[i] == r[i] {
      if i < |a| { assert (a + b)[i] == a[i]; } else { assert (a + b)[i] == b[i - |a|]; }
    }
  }

  /** `a` can be obtained from `b` by deleting elements: it keeps `b`'s order. */
  predicate IsSubsequence<T(==)>(a: seq<T>, b: seq<T>)
    decreases |b|
  {
    a == [] ||
    (b != [] &&
     ((a[|a| - 1] == b[|b| - 1] && IsSubsequence(a[..|a| - 1], b[..|b| - 1])) ||
      IsSubsequence(a, b[..|b| - 1])))
  }

  lemma {:induction false} SubsequenceRefl<T>(s: seq<T>)
    ensures IsSubsequence(s, s)
    decreases |s|
  {
    if s != [] {
      SubsequenceRefl(s[..|s| - 1]);
    }
  }

  /** A common suffix keeps the subsequence relation. */
  lemma {:induction false} SubsequenceAppend<T>(a: seq<T>, b: seq<T>, t: seq<T>)
    requires IsSubsequence(a, b)
    ensures IsSubsequence(a + t, b + t)
    decreases |t|
  {
    if t != [] {
      var t' := t[..|t| - 1];
      SubsequenceAppend(a, b, t');
      assert (a + t)[..|a + t| - 1] == a + t';
      assert (b + t)[..|b + t| - 1] == b + t';
      assert (a + t)[|a + t| - 1] == t[|t| - 1] == (b + t)[|b + t| - 1];
    } else {
      assert a + t == a && b + t == b;
    }
  }

  /** Deleting the element at `i` (Array.prototype.splice(i, 1)) keeps the others' order. */
  lemma SpliceIsSubsequence<T>(s: seq<T>, i: nat)
    requires i < |s|
    ensures IsSubsequence(s[..i] + s[i + 1..], s)
  {
    var p, q := s[..i], s[i + 1..];
    DropLastIsSubsequence(p, s[i]);
    TakeSnoc(s, i);
    SubsequenceAppend(p, s[..i + 1], q);
    assert s[..i + 1] + q == s;
  }

  /** Dropping a last element. */
  lemma DropLastIsSubsequence<T>(p: seq<T>, x: T)
    ensures IsSubsequence(p, p + [x])
  {
    SubsequenceRefl(p);
    assert (p + [x])[..|p|] == p;
  }

  /** Taking one more element of `s`. */
  lemma TakeSnoc<T>(s: seq<T>, j: int)
    requires 0 <= j < |s|
    ensures s[..j + 1] == s[..j] + [s[j]]
  {
  }

  /** Taking one more element of `s` after a fixed prefix `p`. */
  lemma PrefixTakeSnoc<T>(p: seq<T>, s: seq<T>, j: int)
    requires 0 <= j < |s|
    ensures p + s[..j + 1] == (p + s[..j]) + [s[j]]
  {
    TakeSnoc(s, j);
  }

  /** A subsequence is no longer than the sequence it comes from. */
  lemma {:induction false} SubsequenceLength<T>(a: seq<T>, b: seq<T>)
    requires IsSubsequence(a, b)
    ensures |a| <= |b|
    decreases |b|
  {
    if a != [] {
      if a[|a| - 1] == b[|b| - 1] && IsSubsequence(a[..|a| - 1], b[..|b| - 1]) {
        SubsequenceLength(a[..|a| - 1], b[..|b| - 1]);
      } else {
        SubsequenceLength(a, b[..|b| - 1]);
      }
    }
  }

  lemma FilterSnoc<T>(s: seq<T>, x: T, p: T -> bool)
    ensures Filter(s + [x], p) == Filter(s, p) + (if p(x) then [x] else [])
  {
    assert (s + [x])[..|s|] == s;
  }

  lemma {:induction false} FilterConcat<T>(a: seq<T>, b: seq<T>, p: T -> bool)
    ensures Filter(a + b, p) == Filter(a, p) + Filter(b, p)
  {
    if b == [] {
      assert a + b == a;
    } else {
      var b', x := b[..|b| - 1], b[|b| - 1];
      assert b == b' + [x];
      assert a + b == (a + b') + [x];
      FilterConcat(a, b', p);
      FilterSnoc(a + b', x, p);
      FilterSnoc(b', x, p);
    }
  }

  /** An element is kept exactly when it occurs in the input and satisfies the predicate. */
  lemma {:induction false} FilterMember<T>(s: seq<T>, p: T -> bool, x: T)
    ensures x in Filter(s, p) <==> x in s && p(x)
  {
    if s != [] {
      var s' := s[..|s| - 1];
      assert s == s' + [s[|s| - 1]];
      FilterMember(s', p, x);
    }
  }

  /** Every occurrence of an element that satisfies the predicate is kept, and no other. */
  lemma {:induction false} FilterMultiset<T>(s: seq<T>, p: T -> bool, x: T)
    ensures multiset(Filter(s, p))[x] == if p(x) then multiset(s)[x] else 0
  {
    if s != [] {
      var s', y := s[..|s| - 1], s[|s| - 1];
      assert s == s' + [y];
      FilterMultiset(s', p, x);
    }
  }

  /** Every kept element satisfies the predicate. */
  lemma FilterAllSatisfy<T>(s: seq<T>, p: T -> bool)
    ensures forall y | y in Filter(s, p) :: p(y)
  {
    forall y | y in Filter(s, p) ensures p(y) {
      FilterMember(s, p, y);
    }
  }

  /** When every element satisfies the predicate, nothing is dropped. */
  lemma {:induction false} FilterKeepsAll<T>(s: seq<T>, p: T -> bool)
    requires forall i | 0 <= i < |s| :: p(s[i])
    ensures Filter(s, p) == s
  {
    if s != [] {
      var s' := s[..|s| - 1];
      assert s == s' + [s[|s| - 1]];
      FilterKeepsAll(s', p);
    }
  }

  /** Two predicates that agree on the elements of `s` filter it alike. */
  lemma {:induction false} FilterSameOn<T>(s: seq<T>, p: T -> bool, q: T -> bool)
    requires forall i | 0 <= i < |s| :: p(s[i]) == q(s[i])
    ensures Filter(s, p) == Filter(s, q)
  {
    if s != [] {
      FilterSameOn(s[..|s| - 1], p, q);
    }
  }

  /** Filtering keeps the input's order. */
  lemma {:induction false} FilterIsSubsequence<T>(s: seq<T>, p: T -> bool)
    ensures IsSubsequence(Filter(s, p), s)
  {
    if s != [] {
      var s', x := s[..|s| - 1], s[|s| - 1];
      FilterIsSubsequence(s', p);
      var r := Filter(s, p);
      assert s[..|s| - 1] == s';
      if p(x) {
        assert r == Filter(s', p) + [x];
        assert r[|r| - 1] == s[|s| - 1];
        assert r[..|r| - 1] == Filter(s', p);
      } else {
        assert r == Filter(s', p);
      }
    }
  }

  /** An element is kept by `p` or by its negation, never by both. */
  lemma {:induction false} FilterComplementCount<T>(s: seq<T>, p: T -> bool, q: T -> bool)
    requires forall i | 0 <= i < |s| :: q(s[i]) == !p(s[i])
    ensures |Filter(s, p)| + |Filter(s, q)| == |s|
  {
    if s != [] {
      FilterComplementCount(s[..|s| - 1], p, q);
    }
  }

  /** A predicate no element satisfies keeps nothing. */
  lemma {:induction false} FilterNone<T>(s: seq<T>, p: T -> bool)
    requires forall i | 0 <= i < |s| :: !p(s[i])
    ensures Filter(s, p) == []
  {
    if s != [] {
      FilterNone(s[..|s| - 1], p);
    }
  }

  /** Three mutually exclusive predicates select at most |s| elements together. */
  lemma {:induction false} FilterDisjointCounts<T>(s: seq<T>, p: T -> bool, q: T -> bool, r: T -> bool)
    requires forall i | 0 <= i < |s| :: !(p(s[i]) && q(s[i])) && !(p(s[i]) && r(s[i])) && !(q(s[i]) && r(s[i]))
    ensures |Filter(s, p)| + |Filter(s, q)| + |Filter(s, r)| <= |s|
  {
    if s != [] {
      FilterDisjointCounts(s[..|s| - 1], p, q, r);
    }
  }

  /** The index of the first element satisfying `p` (Array.prototype.findIndex, with -1 as None). */
  function FirstIndex<T>(s: seq<T>, p: T -> bool): (r: Option<nat>)
    ensures r.Some? ==> r.value < |s| && p(s[r.value]) && forall j | 0 <= j < r.value :: !p(s[j])
    ensures r.None? ==> forall j | 0 <= j < |s| :: !p(s[j])
  {
    if s == [] then None
    else if p(s[0]) then Some(0)
    else match FirstIndex(s[1..], p)
      case None => None
      case Some(k) => Some(k + 1)
  }

  /** The first element satisfying `p` (Array.prototype.find). */
  function Find<T>(s: seq<T>, p: T -> bool): (r: Option<T>)
    ensures r.Some? <==> exists i | 0 <= i < |s| :: p(s[i])
    ensures r.Some? ==> exists i | 0 <= i < |s| :: s[i] == r.value && p(s[i]) && forall j | 0 <= j < i :: !p(s[j])
  {
    match FirstIndex(s, p)
    case None => None
    case Some(i) => Some(s[i])
  }

  /** The keys of the elements of `s`. */
  function KeysOf<T, K(==)>(s: seq<T>, key: T -> K): set<K>
  {
    set i | 0 <= i < |s| :: key(s[i])
  }

  lemma KeysOfSnoc<T, K>(s: seq<T>, x: T, key: T -> K)
    ensures KeysOf(s + [x], key) == KeysOf(s, key) + {key(x)}
  {
    var t := s + [x];
    forall k | k in KeysOf(t, key) ensures k in KeysOf(s, key) + {key(x)} {
      var i :| 0 <= i < |t| && key(t[i]) == k;
      if i < |s| { assert t[i] == s[i]; }
    }
    forall k | k in KeysOf(s, key) + {key(x)} ensures k in KeysOf(t, key) {
      if k == key(x) {
        assert t[|s|] == x;
      } else {
        var i :| 0 <= i < |s| && key(s[i]) == k;
        assert t[i] == s[i];
      }
    }
  }

  /**
   * The first element for each key, in first-occurrence order: what a Map that is only
   * written when the key is new yields from values() (and, with the identity key, what
   * Array.from(new Set(s)) yields).
   */
  function DedupBy<T, K(==)>(s: seq<T>, key: T -> K): seq<T>
  {
    if s == [] then []
    else
      var init := s[..|s| - 1];
      var x := s[|s| - 1];
      DedupBy(init, key) + (if key(x) in KeysOf(init, key) then [] else [x])
  }

  /** The element at `i` is the first in `s` with its key. */
  ghost predicate FirstOfKey<T, K>(s: seq<T>, key: T -> K, i: int)
    requires 0 <= i < |s|
  {
    forall j | 0 <= j < i :: key(s[j]) != key(s[i])
  }

  /** Keys are pairwise distinct. */
  ghost predicate DistinctKeys<T, K>(s: seq<T>, key: T -> K)
  {
    forall i, j | 0 <= i < j < |s| :: key(s[i]) != key(s[j])
  }

  /** De-duplication loses no key. */
  lemma {:induction false} DedupKeys<T, K>(s: seq<T>, key: T -> K)
    ensures KeysOf(DedupBy(s, key), key) == KeysOf(s, key)
  {
    if s != [] {
      var init, x := s[..|s| - 1], s[|s| - 1];
      assert s == init + [x];
      DedupKeys(init, key);
      KeysOfSnoc(init, x, key);
      if key(x) !in KeysOf(init, key) {
        KeysOfSnoc(DedupBy(init, key), x, key);
      } else {
        assert DedupBy(s, key) == DedupBy(init, key);
      }
    }
  }

  /** De-duplication leaves pairwise-distinct keys. */
  lemma {:induction false} DedupDistinct<T, K>(s: seq<T>, key: T -> K)
    ensures DistinctKeys(DedupBy(s, key), key)
  {
    if s != [] {
      var init, x := s[..|s| - 1], s[|s| - 1];
      DedupDistinct(init, key);
      DedupKeys(init, key);
      var d := DedupBy(init, key);
      if key(x) !in KeysOf(init, key) {
        var r := d + [x];
        forall i, j | 0 <= i < j < |r| ensures key(r[i]) != key(r[j]) {
          if j == |d| {
            assert key(r[i]) in KeysOf(d, key);
          }
        }
      }
    }
  }

  /** De-duplication keeps the input's order. */
  lemma {:induction false} DedupIsSubsequence<T, K>(s: seq<T>, key: T -> K)
    ensures IsSubsequence(DedupBy(s, key), s)
  {
    if s != [] {
      var init, x := s[..|s| - 1], s[|s| - 1];
      DedupIsSubsequence(init, key);
      var r := DedupBy(s, key);
      assert s[..|s| - 1] == init;
      if key(x) !in KeysOf(init, key) {
        assert r == DedupBy(init, key) + [x];
        assert r[|r| - 1] == s[|s| - 1];
        assert r[..|r| - 1] == DedupBy(init, key);
      } else {
        assert r == DedupBy(init, key);
      }
    }
  }

  /** The first element with each key is the one kept. */
  lemma {:induction false} DedupKeepsFirst<T, K>(s: seq<T>, key: T -> K, i: int)
    requires 0 <= i < |s| && FirstOfKey(s, key, i)
    ensures s[i] in DedupBy(s, key)
  {
    var init, x := s[..|s| - 1], s[|s| - 1];
    if i < |s| - 1 {
      assert init[i] == s[i];
      assert FirstOfKey(init, key, i);
      DedupKeepsFirst(init, key, i);
    }
  }

  /** Every element kept comes from the input. */
  lemma {:induction false} DedupMembers<T, K>(s: seq<T>, key: T -> K)
    ensures forall y | y in DedupBy(s, key) :: y in s
  {
    if s != [] {
      var init := s[..|s| - 1];
      DedupMembers(init, key);
      assert s == init + [s[|s| - 1]];
    }
  }

  /** A sequence whose keys are already distinct is left as it is. */
  lemma {:induction false} DedupOfDistinct<T, K>(s: seq<T>, key: T -> K)
    requires DistinctKeys(s, key)
    ensures DedupBy(s, key) == s
  {
    if s != [] {
      var init, x := s[..|s| - 1], s[|s| - 1];
      assert DistinctKeys(init, key);
      DedupOfDistinct(init, key);
      assert s == init + [x];
    }
  }

  /** De-duplicating twice is de-duplicating once. */
  lemma DedupIdempotent<T, K>(s: seq<T>, key: T -> K)
    ensures DedupBy(DedupBy(s, key), key) == DedupBy(s, key)
  {
    DedupDistinct(s, key);
    DedupOfDistinct(DedupBy(s, key), key);
  }
}
