/** Generic list operations behind the application's `Array.prototype.filter`,
    `filter(...).length` and `some(x => x.id === id)`: order-preserving
    filtering, counting, removal by key and key uniqueness. */
module Seqs {

  /** `s.filter(p).length`. */
  function Count<T>(s: seq<T>, p: T -> bool): (n: nat)
    ensures n <= |s|
  {
    if s == [] then 0 else (if p(s[0]) then 1 else 0) + Count(s[1..], p)
  }

  /** `a` is `b` with some elements deleted and the rest kept in order. */
  predicate IsSubseq<T(==)>(a: seq<T>, b: seq<T>)
    decreases |b|
  {
    a == [] || (b != [] && ((a[0] == b[0] && IsSubseq(a[1..], b[1..])) || IsSubseq(a, b[1..])))
  }

  /** `s.filter(p)`. */
  function Filter<T(==)>(s: seq<T>, p: T -> bool): (r: seq<T>)
    ensures |r| == Count(s, p)
    ensures forall i :: 0 <= i < |r| ==> p(r[i])
    ensures forall x :: x in s && p(x) ==> x in r
    ensures forall x :: x in r ==> x in s
    ensures IsSubseq(r, s)
  {
    if s == [] then []
    else
      var rest := Filter(s[1..], p);
      if p(s[0]) then
        var r := [s[0]] + rest;
        assert r[1..] == rest;
        r
      else rest
  }

  /** Filtering keeps everything when every element passes. */
  lemma {:induction false} FilterKeepsAll<T>(s: seq<T>, p: T -> bool)
    requires forall i :: 0 <= i < |s| ==> p(s[i])
    ensures Filter(s, p) == s
  {
    if s != [] {
      FilterKeepsAll(s[1..], p);
    }
  }

  /** The elements that pass `p` and those that do not add up to the whole list. */
  lemma {:induction false} CountComplement<T>(s: seq<T>, p: T -> bool, q: T -> bool)
    requires forall x :: q(x) == !p(x)
    ensures Count(s, p) + Count(s, q) == |s|
  {
    if s != [] {
      CountComplement(s[1..], p, q);
    }
  }

  /** No element occurs twice. */
  predicate Distinct<T(==)>(s: seq<T>) {
    forall i, j :: 0 <= i < j < |s| ==> s[i] != s[j]
  }

  /** No two elements share a key. */
  predicate UniqueBy<T, K(==)>(s: seq<T>, key: T -> K) {
    forall i, j :: 0 <= i < j < |s| ==> key(s[i]) != key(s[j])
  }

  /** Some element has key `k` (`s.some(x => key(x) === k)`). */
  predicate HasKey<T, K(==)>(s: seq<T>, key: T -> K, k: K) {
    exists i :: 0 <= i < |s| && key(s[i]) == k
  }

  /** `s.filter(x => key(x) !== k)`. */
  function RemoveKey<T(==), K(==)>(s: seq<T>, key: T -> K, k: K): (r: seq<T>)
    ensures !HasKey(r, key, k)
    ensures forall x :: x in r ==> x in s && key(x) != k
    ensures forall x :: x in s && key(x) != k ==> x in r
    ensures IsSubseq(r, s)
    ensures |r| <= |s|
    ensures !HasKey(s, key, k) ==> r == s
  {
    if s == [] then []
    else
      var rest := RemoveKey(s[1..], key, k);
      if key(s[0]) == k then rest
      else
        var r := [s[0]] + rest;
        assert r[1..] == rest;
        assert !HasKey(s, key, k) ==> !HasKey(s[1..], key, k) by {
          if HasKey(s[1..], key, k) {
            var i :| 0 <= i < |s[1..]| && key(s[1..][i]) == k;
            assert key(s[i + 1]) == k;
          }
        }
        assert !HasKey(r, key, k) by {
          forall i | 0 <= i < |r| ensures key(r[i]) != k {
            if i > 0 {
              assert r[i] == rest[i - 1];
            }
          }
        }
        r
  }

  /** Removing by key keeps keys unique. */
  lemma RemoveKeyKeepsUnique<T, K>(s: seq<T>, key: T -> K, k: K)
    requires UniqueBy(s, key)
    ensures UniqueBy(RemoveKey(s, key, k), key)
  {
    SubsetKeepsUnique(RemoveKey(s, key, k), s, key);
  }

  /** Removing rows from a list keeps the keys unique. */
  lemma {:induction false} SubsetKeepsUnique<T, K>(a: seq<T>, b: seq<T>, key: T -> K)
    requires UniqueBy(b, key) && IsSubseq(a, b)
    ensures UniqueBy(a, key)
    decreases |b|
  {
    if a != [] && b != [] {
      if a[0] == b[0] && IsSubseq(a[1..], b[1..]) {
        TailUnique(b, key);
        SubsetKeepsUnique(a[1..], b[1..], key);
        SubseqMembers(a[1..], b[1..]);
        forall i, j | 0 <= i < j < |a| ensures key(a[i]) != key(a[j]) {
          if i == 0 {
            assert a[j] == a[1..][j - 1];
            var m :| 0 <= m < |b[1..]| && b[1..][m] == a[j];
            assert b[m + 1] == a[j];
          } else {
            assert a[i] == a[1..][i - 1] && a[j] == a[1..][j - 1];
          }
        }
      } else {
        TailUnique(b, key);
        SubsetKeepsUnique(a, b[1..], key);
      }
    }
  }

  lemma TailUnique<T, K>(b: seq<T>, key: T -> K)
    requires UniqueBy(b, key) && b != []
    ensures UniqueBy(b[1..], key)
  {
    forall i, j | 0 <= i < j < |b[1..]| ensures key(b[1..][i]) != key(b[1..][j]) {
      assert b[1..][i] == b[i + 1] && b[1..][j] == b[j + 1];
    }
  }

  /** The tail of a list without repeats has none either, and lacks the head. */
  lemma DistinctTail<T>(s: seq<T>)
    requires Distinct(s) && s != []
    ensures Distinct(s[1..]) && s[0] !in s[1..]
    ensures forall x :: x in s <==> x == s[0] || x in s[1..]
  {
    forall i, j | 0 <= i < j < |s[1..]| ensures s[1..][i] != s[1..][j] {
      assert s[1..][i] == s[i + 1] && s[1..][j] == s[j + 1];
    }
    forall k | 0 <= k < |s[1..]| ensures s[1..][k] != s[0] {
      assert s[1..][k] == s[k + 1];
    }
    assert s == [s[0]] + s[1..];
  }

  /** Every element of a subsequence is at some position of the list. */
  lemma {:induction false} SubseqMembers<T>(a: seq<T>, b: seq<T>)
    requires IsSubseq(a, b)
    ensures forall i :: 0 <= i < |a| ==> exists m :: 0 <= m < |b| && b[m] == a[i]
    ensures forall x :: x in a ==> x in b
    decreases |b|
  {
    if a != [] {
      if a[0] == b[0] && IsSubseq(a[1..], b[1..]) {
        SubseqMembers(a[1..], b[1..]);
        forall i | 0 <= i < |a| ensures exists m :: 0 <= m < |b| && b[m] == a[i] {
          if i == 0 {
            assert b[0] == a[0];
          } else {
            assert a[i] == a[1..][i - 1];
            var m :| 0 <= m < |b[1..]| && b[1..][m] == a[1..][i - 1];
            assert b[m + 1] == a[i];
          }
        }
      } else {
        SubseqMembers(a, b[1..]);
        forall i | 0 <= i < |a| ensures exists m :: 0 <= m < |b| && b[m] == a[i] {
          var m :| 0 <= m < |b[1..]| && b[1..][m] == a[i];
          assert b[m + 1] == a[i];
        }
      }
    }
  }

  /** Removing the same key twice is the same as removing it once. */
  lemma RemoveKeyIdempotent<T, K>(s: seq<T>, key: T -> K, k: K)
    ensures RemoveKey(RemoveKey(s, key, k), key, k) == RemoveKey(s, key, k)
  {
  }

  /** Counting over a concatenation adds the counts. */
  lemma {:induction false} CountAppend<T>(a: seq<T>, b: seq<T>, p: T -> bool)
    ensures Count(a + b, p) == Count(a, p) + Count(b, p)
  {
    if a == [] {
      assert a + b == b;
    } else {
      assert (a + b)[1..] == a[1..] + b;
      CountAppend(a[1..], b, p);
    }
  }

  /** Replacing one element changes the count by exactly what the old and
      the new element contribute. */
  lemma {:induction false} CountChangeAt<T>(s: seq<T>, s2: seq<T>, k: nat, p: T -> bool)
    requires |s| == |s2| && k < |s|
    requires forall i :: 0 <= i < |s| && i != k ==> s2[i] == s[i]
    ensures Count(s2, p) + (if p(s[k]) then 1 else 0) == Count(s, p) + (if p(s2[k]) then 1 else 0)
  {
    if k == 0 {
      assert s2[1..] == s[1..];
    } else {
      assert s2[0] == s[0];
      forall i | 0 <= i < |s[1..]| && i != k - 1 ensures s2[1..][i] == s[1..][i] {
        assert s2[1..][i] == s2[i + 1];
      }
      CountChangeAt(s[1..], s2[1..], k - 1, p);
    }
  }

  /** Filtering keeps keys unique. */
  lemma {:induction false} FilterKeepsUnique<T, K>(s: seq<T>, p: T -> bool, key: T -> K)
    requires UniqueBy(s, key)
    ensures UniqueBy(Filter(s, p), key)
  {
    if s != [] {
      var rest := Filter(s[1..], p);
      assert UniqueBy(s[1..], key) by {
        forall i, j | 0 <= i < j < |s[1..]| ensures key(s[1..][i]) != key(s[1..][j]) {
          assert s[1..][i] == s[i + 1] && s[1..][j] == s[j + 1];
        }
      }
      FilterKeepsUnique(s[1..], p, key);
      if p(s[0]) {
        var r := [s[0]] + rest;
        forall i, j | 0 <= i < j < |r| ensures key(r[i]) != key(r[j]) {
          if i == 0 {
            assert r[j] in s[1..];
            var m :| 0 <= m < |s[1..]| && s[1..][m] == r[j];
            assert s[m + 1] == r[j];
          } else {
            assert r[i] == rest[i - 1] && r[j] == rest[j - 1];
          }
        }
      }
    }
  }

  /** Two conditions that agree on every element select the same
      elements. */
  lemma {:induction false} FilterSame<T>(s: seq<T>, p: T -> bool, q: T -> bool)
    requires forall i :: 0 <= i < |s| ==> p(s[i]) == q(s[i])
    ensures Filter(s, p) == Filter(s, q)
    ensures Count(s, p) == Count(s, q)
  {
    if s != [] {
      FilterSame(s[1..], p, q);
    }
  }

  /** `s.map(x => hit(x) ? f(x) : x)`: an update of the rows a condition
      selects. */
  function Patch<T>(s: seq<T>, hit: T -> bool, f: T -> T): (r: seq<T>)
    ensures |r| == |s|
    ensures forall i :: 0 <= i < |s| ==> r[i] == if hit(s[i]) then f(s[i]) else s[i]
  {
    seq(|s|, i requires 0 <= i < |s| => if hit(s[i]) then f(s[i]) else s[i])
  }

  /** `s.slice().reverse()`. */
  function Reverse<T>(s: seq<T>): (r: seq<T>)
    ensures |r| == |s|
    ensures forall i :: 0 <= i < |s| ==> r[i] == s[|s| - 1 - i]
  {
    seq(|s|, i requires 0 <= i < |s| => s[|s| - 1 - i])
  }

  /** Reversing keeps the elements. */
  lemma ReverseMembers<T>(s: seq<T>)
    ensures forall x :: x in Reverse(s) <==> x in s
  {
    var r := Reverse(s);
    forall x ensures x in r <==> x in s {
      if x in r {
        var i :| 0 <= i < |r| && r[i] == x;
        assert s[|s| - 1 - i] == x;
      }
      if x in s {
        var i :| 0 <= i < |s| && s[i] == x;
        assert r[|s| - 1 - i] == x;
      }
    }
  }

  /** A list mapped element by element from exactly the members of `src`
      that pass `p` holds the image of each of them, and each of its
      entries is the image of such a member. */
  lemma MappedExactly<T, R>(src: seq<T>, ts: seq<T>, rs: seq<R>, f: T -> R, p: T -> bool)
    requires forall t :: t in ts <==> t in src && p(t)
    requires |rs| == |ts| && forall i :: 0 <= i < |rs| ==> rs[i] == f(ts[i])
    ensures forall t :: t in src && p(t) ==> exists i :: 0 <= i < |rs| && rs[i] == f(t)
    ensures forall i :: 0 <= i < |rs| ==> ts[i] in src && p(ts[i]) && rs[i] == f(ts[i])
  {
    forall t | t in src && p(t) ensures exists i :: 0 <= i < |rs| && rs[i] == f(t) {
      var k :| 0 <= k < |ts| && ts[k] == t;
      assert rs[k] == f(t);
    }
    forall i | 0 <= i < |rs| ensures ts[i] in src && p(ts[i]) {
      assert ts[i] in ts;
    }
  }

  /** Reversing keeps keys unique. */
  lemma ReverseKeepsUnique<T, K>(s: seq<T>, key: T -> K)
    requires UniqueBy(s, key)
    ensures UniqueBy(Reverse(s), key)
  {
    var r := Reverse(s);
    forall i, j | 0 <= i < j < |r| ensures key(r[i]) != key(r[j]) {
      assert r[i] == s[|s| - 1 - i] && r[j] == s[|s| - 1 - j];
    }
  }

  /** The keys never decrease along the list. */
  predicate Ascending<T>(s: seq<T>, key: T -> int) {
    forall i, j :: 0 <= i < j < |s| ==> key(s[i]) <= key(s[j])
  }

  /** The keys never increase along the list. */
  predicate Descending<T>(s: seq<T>, key: T -> int) {
    forall i, j :: 0 <= i < j < |s| ==> key(s[i]) >= key(s[j])
  }

  /** A list in ascending order, reversed, runs in descending order. */
  lemma ReverseAscending<T>(s: seq<T>, key: T -> int)
    requires Ascending(s, key)
    ensures Descending(Reverse(s), key)
  {
    var r := Reverse(s);
    forall i, j | 0 <= i < j < |r| ensures key(r[i]) >= key(r[j]) {
      assert r[i] == s[|s| - 1 - i] && r[j] == s[|s| - 1 - j];
    }
  }

  /** Filtering keeps the order. */
  lemma {:induction false} FilterAscending<T>(s: seq<T>, p: T -> bool, key: T -> int)
    requires Ascending(s, key)
    ensures Ascending(Filter(s, p), key)
  {
    if s != [] {
      TailAscending(s, key);
      FilterAscending(s[1..], p, key);
      if p(s[0]) {
        ConsAscending(s[0], s[1..], Filter(s[1..], p), key);
      }
    }
  }

  lemma TailAscending<T>(s: seq<T>, key: T -> int)
    requires Ascending(s, key) && s != []
    ensures Ascending(s[1..], key)
    ensures forall x :: x in s[1..] ==> key(s[0]) <= key(x)
  {
    forall i, j | 0 <= i < j < |s[1..]| ensures key(s[1..][i]) <= key(s[1..][j]) {
      assert s[1..][i] == s[i + 1] && s[1..][j] == s[j + 1];
    }
    forall x | x in s[1..] ensures key(s[0]) <= key(x) {
      var m :| 0 <= m < |s[1..]| && s[1..][m] == x;
      assert s[m + 1] == x;
    }
  }

  lemma ConsAscending<T>(x: T, tail: seq<T>, rest: seq<T>, key: T -> int)
    requires forall y :: y in tail ==> key(x) <= key(y)
    requires forall y :: y in rest ==> y in tail
    requires Ascending(rest, key)
    ensures Ascending([x] + rest, key)
  {
    var r := [x] + rest;
    forall i, j | 0 <= i < j < |r| ensures key(r[i]) <= key(r[j]) {
      if i == 0 {
        assert r[j] == rest[j - 1];
        assert r[j] in tail;
      } else {
        assert r[i] == rest[i - 1] && r[j] == rest[j - 1];
      }
    }
  }

  /** Every list is a subsequence of itself. */
  lemma {:induction false} SubseqRefl<T>(s: seq<T>)
    ensures IsSubseq(s, s)
    decreases |s|
  {
    if s != [] {
      SubseqRefl(s[1..]);
    }
  }
}
