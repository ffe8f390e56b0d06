/**
 * The array operations the application applies: `filter` by predicate and by
 * position, a stable `sort` by a string key, and `[...new Set(xs)]`.
 */
module Seqs {
  import opened Strings

  /** `s.filter(p)`. */
  function Filter<T(==)>(s: seq<T>, p: T -> bool): (r: seq<T>)
    ensures |r| <= |s|
    ensures forall i :: 0 <= i < |r| ==> p(r[i])
    ensures multiset(r) <= multiset(s)
  {
    if s == [] then []
    else
      assert s == [s[0]] + s[1..];
      (if p(s[0]) then [s[0]] else []) + Filter(s[1..], p)
  }

  /** `Filter` keeps only elements of `s`. */
  lemma FilterSubset<T>(s: seq<T>, p: T -> bool)
    ensures forall i :: 0 <= i < |Filter(s, p)| ==> Filter(s, p)[i] in s
  {
    var r := Filter(s, p);
    forall i | 0 <= i < |r| ensures r[i] in s {
      assert r[i] in multiset(r);
    }
  }

  /** `Filter` keeps every element that satisfies `p`. */
  lemma {:induction false} FilterComplete<T>(s: seq<T>, p: T -> bool)
    ensures forall i :: 0 <= i < |s| && p(s[i]) ==> s[i] in Filter(s, p)
  {
    if s != [] {
      FilterComplete(s[1..], p);
      assert s == [s[0]] + s[1..];
      forall i | 1 <= i < |s| && p(s[i]) ensures s[i] in Filter(s, p) {
        assert s[1..][i - 1] == s[i];
      }
    }
  }

  /** Filtering keeps the order: it distributes over concatenation. */
  lemma {:induction false} FilterConcat<T>(a: seq<T>, b: seq<T>, p: T -> bool)
    ensures Filter(a + b, p) == Filter(a, p) + Filter(b, p)
  {
    if a == [] {
      assert a + b == b;
    } else {
      assert (a + b)[1..] == a[1..] + b;
      FilterConcat(a[1..], b, p);
    }
  }

  /** A predicate that holds of every element keeps the whole sequence. */
  lemma {:induction false} FilterAll<T>(s: seq<T>, p: T -> bool)
    requires forall i :: 0 <= i < |s| ==> p(s[i])
    ensures Filter(s, p) == s
  {
    if s != [] {
      FilterAll(s[1..], p);
    }
  }

  /** `s.filter((_, j) => j !== i)`. */
  function RemoveAt<T>(s: seq<T>, i: int): (r: seq<T>)
    ensures 0 <= i < |s| ==> r == s[..i] + s[i + 1..]
    ensures !(0 <= i < |s|) ==> r == s
  {
    if s == [] then []
    else
      var rest := RemoveAt(s[1..], i - 1);
      assert 0 < i < |s| ==> s[..i] == [s[0]] + s[1..][..i - 1] && s[i + 1..] == s[1..][i..];
      (if i == 0 then [] else [s[0]]) + rest
  }

  /** After removing position `i`, position `k` holds what was at `k`, or at `k + 1` from `i` on. */
  lemma RemoveAtIndex<T>(s: seq<T>, i: int, k: int)
    requires 0 <= i < |s| && 0 <= k < |s| - 1
    ensures RemoveAt(s, i)[k] == if k < i then s[k] else s[k + 1]
  {
    if k < i {
      assert s[..i][k] == s[k];
    } else {
      assert s[i + 1..][k - i] == s[k + 1];
    }
  }

  /** `s.filter((_, j) => j % 2 === 0)`. */
  function EveryOther<T>(s: seq<T>): (r: seq<T>)
    ensures |r| == (|s| + 1) / 2
    ensures forall k :: 0 <= k < |r| ==> r[k] == s[2 * k]
  {
    if |s| <= 1 then s else [s[0]] + EveryOther(s[2..])
  }

  /** Ascending by `key`, in JavaScript's string order. */
  predicate SortedBy<T>(s: seq<T>, key: T -> string)
  {
    forall i, j :: 0 <= i < j < |s| ==> !Less(key(s[j]), key(s[i]))
  }

  /** Puts `x` after every leading element whose key is not above `x`'s. */
  function Insert<T>(s: seq<T>, x: T, key: T -> string): (r: seq<T>)
    ensures |r| == |s| + 1
    ensures multiset(r) == multiset(s) + multiset{x}
  {
    if s == [] then [x]
    else if Less(key(x), key(s[0])) then [x] + s
    else
      assert s == [s[0]] + s[1..];
      [s[0]] + Insert(s[1..], x, key)
  }

  /** Where `Insert` places `x`. */
  function InsertionPoint<T>(s: seq<T>, x: T, key: T -> string): (p: nat)
    ensures p <= |s|
  {
    if s == [] || Less(key(x), key(s[0])) then 0
    else 1 + InsertionPoint(s[1..], x, key)
  }

  /**
   * Into a sorted sequence, `x` goes after all elements whose key is at most its
   * own and before all elements whose key is above it.
   */
  lemma {:induction false} InsertAt<T>(s: seq<T>, x: T, key: T -> string)
    requires SortedBy(s, key)
    ensures var p := InsertionPoint(s, x, key);
      && Insert(s, x, key) == s[..p] + [x] + s[p..]
      && (forall i :: 0 <= i < p ==> !Less(key(x), key(s[i])))
      && (forall i :: p <= i < |s| ==> Less(key(x), key(s[i])))
  {
    if s == [] {
    } else if Less(key(x), key(s[0])) {
      forall i | 0 < i < |s| ensures Less(key(x), key(s[i])) {
        LessTotal(key(s[0]), key(s[i]));
        if Less(key(s[0]), key(s[i])) {
          LessTransitive(key(x), key(s[0]), key(s[i]));
        }
      }
    } else {
      var t := s[1..];
      var q := InsertionPoint(t, x, key);
      InsertAt(t, x, key);
      InsertCons(s, x, key, q);
      forall i | 0 < i <= q ensures !Less(key(x), key(s[i])) {
        assert s[i] == t[i - 1];
      }
      forall i | q + 1 <= i < |s| ensures Less(key(x), key(s[i])) {
        assert s[i] == t[i - 1];
      }
    }
  }

  /** The inductive step of `InsertAt`: a leading element that stays in front. */
  lemma {:induction false} InsertCons<T>(s: seq<T>, x: T, key: T -> string, q: nat)
    requires s != [] && !Less(key(x), key(s[0]))
    requires q <= |s| - 1
    requires Insert(s[1..], x, key) == s[1..][..q] + [x] + s[1..][q..]
    ensures Insert(s, x, key) == s[..q + 1] + [x] + s[q + 1..]
  {
    SpliceCons(s, x, q);
  }

  /** Putting `x` at position `q` of the tail, then the head in front, puts `x` at `q + 1`. */
  lemma SpliceCons<T>(s: seq<T>, x: T, q: nat)
    requires s != [] && q <= |s| - 1
    ensures [s[0]] + (s[1..][..q] + [x] + s[1..][q..]) == s[..q + 1] + [x] + s[q + 1..]
  {
    var t := s[1..];
    assert [s[0]] + t[..q] == s[..q + 1];
    assert t[q..] == s[q + 1..];
  }

  lemma {:induction false} InsertSorted<T>(s: seq<T>, x: T, key: T -> string)
    requires SortedBy(s, key)
    ensures SortedBy(Insert(s, x, key), key)
  {
    InsertAt(s, x, key);
    var p := InsertionPoint(s, x, key);
    var r := Insert(s, x, key);
    forall i, j | 0 <= i < j < |r| ensures !Less(key(r[j]), key(r[i])) {
      if i < p && j == p {
      } else if i == p && j > p {
        LessAsymmetric(key(x), key(s[j - 1]));
      } else if i < p && j > p {
        assert r[i] == s[i] && r[j] == s[j - 1];
      } else if j < p {
        assert r[i] == s[i] && r[j] == s[j];
      } else {
        assert r[i] == s[i - 1] && r[j] == s[j - 1];
      }
    }
  }

  /** A stable sort by `key`: `[...s].sort((a, b) => compare(key(a), key(b)))`. */
  function SortBy<T>(s: seq<T>, key: T -> string): (r: seq<T>)
    ensures |r| == |s|
    ensures SortedBy(r, key)
    ensures multiset(r) == multiset(s)
  {
    if s == [] then []
    else
      var init, x := s[..|s| - 1], s[|s| - 1];
      var rest := SortBy(init, key);
      InsertSorted(rest, x, key);
      assert multiset(s) == multiset(init) + multiset{x} by { assert s == init + [x]; }
      Insert(rest, x, key)
  }

  /** An element whose key is not below any other's goes last. */
  lemma {:induction false} InsertLast<T>(s: seq<T>, x: T, key: T -> string)
    requires forall i :: 0 <= i < |s| ==> !Less(key(x), key(s[i]))
    ensures Insert(s, x, key) == s + [x]
  {
    if s != [] {
      InsertLast(s[1..], x, key);
    }
  }

  /** Sorting an already sorted sequence leaves it as it is. */
  lemma {:induction false} SortBySorted<T>(s: seq<T>, key: T -> string)
    requires SortedBy(s, key)
    ensures SortBy(s, key) == s
  {
    if s != [] {
      var init, x := s[..|s| - 1], s[|s| - 1];
      SortedInit(s, key);
      SortBySorted(init, key);
      InsertLast(init, x, key);
      SortBySnoc(init, x, key);
      assert s == init + [x];
    }
  }

  /** Sorting `s + [x]` sorts `s`, then inserts `x`. */
  lemma SortBySnoc<T>(s: seq<T>, x: T, key: T -> string)
    ensures SortBy(s + [x], key) == Insert(SortBy(s, key), x, key)
  {
    assert (s + [x])[..|s|] == s;
  }

  /** A sorted sequence without its last element is sorted, and no element's key exceeds the last one's. */
  lemma SortedInit<T>(s: seq<T>, key: T -> string)
    requires SortedBy(s, key) && s != []
    ensures SortedBy(s[..|s| - 1], key)
    ensures forall i :: 0 <= i < |s| - 1 ==> !Less(key(s[|s| - 1]), key(s[i]))
  {
    var init := s[..|s| - 1];
    forall i, j | 0 <= i < j < |init| ensures !Less(key(init[j]), key(init[i])) {
      assert init[i] == s[i] && init[j] == s[j];
    }
    forall i | 0 <= i < |init| ensures !Less(key(s[|s| - 1]), key(init[i])) {
      assert init[i] == s[i];
    }
  }

  /** Sorting a sorted sequence with one element appended inserts that element. */
  lemma SortByAppend<T>(s: seq<T>, x: T, key: T -> string)
    requires SortedBy(s, key)
    ensures SortBy(s + [x], key) == Insert(s, x, key)
  {
    assert (s + [x])[..|s|] == s;
    SortBySorted(s, key);
  }

  predicate NoDuplicates<T(==)>(s: seq<T>)
  {
    forall i, j :: 0 <= i < j < |s| ==> s[i] != s[j]
  }

  /** `[...new Set(s)]`: the values of `s` once each, in order of first occurrence. */
  function Distinct<T(==)>(s: seq<T>): (r: seq<T>)
    ensures NoDuplicates(r)
    ensures |r| <= |s|
  {
    if s == [] then []
    else
      var d := Distinct(s[..|s| - 1]);
      if s[|s| - 1] in d then d else d + [s[|s| - 1]]
  }

  /** `Distinct` introduces no value that is not in `s`. */
  lemma {:induction false} DistinctSubset<T>(s: seq<T>)
    ensures forall i :: 0 <= i < |Distinct(s)| ==> Distinct(s)[i] in s
  {
    if s != [] {
      DistinctSubset(s[..|s| - 1]);
      assert s == s[..|s| - 1] + [s[|s| - 1]];
    }
  }

  /** `Distinct` keeps every value of `s`. */
  lemma {:induction false} DistinctComplete<T>(s: seq<T>)
    ensures forall i :: 0 <= i < |s| ==> s[i] in Distinct(s)
  {
    if s != [] {
      DistinctComplete(s[..|s| - 1]);
      assert s == s[..|s| - 1] + [s[|s| - 1]];
    }
  }

  /** A sequence without duplicates passes through `Distinct` unchanged. */
  lemma {:induction false} DistinctNoDuplicates<T>(s: seq<T>)
    requires NoDuplicates(s)
    ensures Distinct(s) == s
  {
    if s != [] {
      DistinctNoDuplicates(s[..|s| - 1]);
      assert s == s[..|s| - 1] + [s[|s| - 1]];
    }
  }
}
