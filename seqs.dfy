/** Generic list operations that the array methods of JavaScript provide:
    `filter`, `slice(0, n)`, a `Set` filled in insertion order, and the stable `sort`. */
module Seqs {

  /** `a` is what remains of `b` after deleting some elements, so it keeps `b`'s order. */
  predicate IsSubseq<T(==)>(a: seq<T>, b: seq<T>)
    decreases |b|
  {
    if a == [] then true
    else if b == [] then false
    else if a[0] == b[0] then IsSubseq(a[1..], b[1..])
    else IsSubseq(a, b[1..])
  }

  lemma {:induction false} SubseqSkip<T>(a: seq<T>, b: seq<T>)
    requires b != [] && IsSubseq(a, b[1..])
    ensures IsSubseq(a, b)
    decreases |b|, 0
  {
    if a != [] && a[0] == b[0] {
      SubseqTail(a, b[1..]);
    }
  }

  lemma {:induction false} SubseqTail<T>(a: seq<T>, c: seq<T>)
    requires a != [] && IsSubseq(a, c)
    ensures IsSubseq(a[1..], c)
    decreases |c|, 1
  {
    if a[0] == c[0] {
      SubseqSkip(a[1..], c);
    } else {
      SubseqTail(a, c[1..]);
      SubseqSkip(a[1..], c);
    }
  }

  /** A prefix of a subsequence is still a subsequence. */
  lemma {:induction false} PrefixOfSubseq<T>(a: seq<T>, b: seq<T>, n: nat)
    requires n <= |a| && IsSubseq(a, b)
    ensures IsSubseq(a[..n], b)
    decreases |b|
  {
    if n > 0 {
      assert a[..n][1..] == a[1..][..n - 1];
      if a[0] == b[0] {
        PrefixOfSubseq(a[1..], b[1..], n - 1);
      } else {
        PrefixOfSubseq(a, b[1..], n);
      }
    }
  }

  /** `Array.prototype.filter`: the elements satisfying `p`, in their order,
      with their multiplicities. */
  function Filter<T(==,!new)>(s: seq<T>, p: T -> bool): (r: seq<T>)
    ensures |r| <= |s|
    ensures forall x :: x in r <==> x in s && p(x)
    ensures IsSubseq(r, s)
  {
    if s == [] then []
    else
      var rest := Filter(s[1..], p);
      assert s == [s[0]] + s[1..];
      if p(s[0]) then [s[0]] + rest
      else SubseqSkip(rest, s); rest
  }

  lemma {:induction false} FilterAppend<T(!new)>(a: seq<T>, b: seq<T>, p: T -> bool)
    ensures Filter(a + b, p) == Filter(a, p) + Filter(b, p)
  {
    if a == [] {
      assert a + b == b;
    } else {
      assert (a + b)[1..] == a[1..] + b;
      FilterAppend(a[1..], b, p);
    }
  }

  /** A filter keeps every copy of a value it accepts and none of a value it rejects. */
  lemma {:induction false} FilterCounts<T(!new)>(s: seq<T>, p: T -> bool)
    ensures forall x :: multiset(Filter(s, p))[x] == if p(x) then multiset(s)[x] else 0
  {
    if s != [] {
      FilterCounts(s[1..], p);
      assert s == [s[0]] + s[1..];
      assert multiset(s) == multiset{s[0]} + multiset(s[1..]);
    }
  }

  /** Filtering a list without duplicates leaves none. */
  lemma {:induction false} FilterNoDups<T(!new)>(s: seq<T>, p: T -> bool)
    requires NoDups(s)
    ensures NoDups(Filter(s, p))
  {
    if s != [] {
      assert NoDups(s[1..]) by {
        forall i, j | 0 <= i < j < |s| - 1 ensures s[1..][i] != s[1..][j] {
          assert s[1..][i] == s[i + 1] && s[1..][j] == s[j + 1];
        }
      }
      FilterNoDups(s[1..], p);
      var rest := Filter(s[1..], p);
      if p(s[0]) {
        assert s[0] !in s[1..] by {
          forall k | 0 <= k < |s| - 1 ensures s[1..][k] != s[0] {
            assert s[1..][k] == s[k + 1];
          }
        }
        assert Filter(s, p) == [s[0]] + rest;
        forall i, j | 0 <= i < j < |rest| + 1 ensures ([s[0]] + rest)[i] != ([s[0]] + rest)[j] {
          if i > 0 {
            assert ([s[0]] + rest)[i] == rest[i - 1];
          }
          assert ([s[0]] + rest)[j] == rest[j - 1];
        }
      }
    }
  }

  /** Filtering with a predicate every element satisfies keeps the list. */
  lemma {:induction false} FilterAll<T(!new)>(s: seq<T>, p: T -> bool)
    requires forall k :: 0 <= k < |s| ==> p(s[k])
    ensures Filter(s, p) == s
  {
    if s != [] {
      FilterAll(s[1..], p);
      assert s == [s[0]] + s[1..];
    }
  }

  /** Filtering with two predicates that agree on the elements gives the same list. */
  lemma {:induction false} FilterExt<T(!new)>(s: seq<T>, p: T -> bool, q: T -> bool)
    requires forall k :: 0 <= k < |s| ==> p(s[k]) == q(s[k])
    ensures Filter(s, p) == Filter(s, q)
  {
    if s != [] {
      FilterExt(s[1..], p, q);
      assert s == [s[0]] + s[1..];
    }
  }

  /** `slice(0, n)`: the first `n` elements, or all of them when there are fewer. */
  function Take<T>(s: seq<T>, n: nat): (r: seq<T>)
  {
    if |s| <= n then s else s[..n]
  }

  predicate NoDups<T(==)>(s: seq<T>) {
    forall i, j :: 0 <= i < j < |s| ==> s[i] != s[j]
  }

  /** Adds the elements of `s`, one at a time, to the insertion-ordered set `acc`:
      a `Set` filled with `add` and read back with `Array.from`. */
  function AddAll<T(==,!new)>(acc: seq<T>, s: seq<T>): (r: seq<T>)
    ensures acc <= r
    ensures forall x :: x in r <==> x in acc || x in s
    ensures NoDups(acc) ==> NoDups(r)
    decreases |s|
  {
    if s == [] then acc
    else AddAll(if s[0] in acc then acc else acc + [s[0]], s[1..])
  }

  lemma {:induction false} AddAllAppend<T(!new)>(acc: seq<T>, a: seq<T>, b: seq<T>)
    ensures AddAll(acc, a + b) == AddAll(AddAll(acc, a), b)
    decreases |a|
  {
    if a == [] {
      assert a + b == b;
    } else {
      assert (a + b)[1..] == a[1..] + b;
      AddAllAppend(if a[0] in acc then acc else acc + [a[0]], a[1..], b);
    }
  }

  /** Index of the first occurrence of `x` in `s`. */
  function FirstIndex<T(==)>(s: seq<T>, x: T): (i: nat)
    requires x in s
    ensures i < |s| && s[i] == x
    ensures forall k :: 0 <= k < i ==> s[k] != x
  {
    if s[0] == x then 0
    else
      var i := FirstIndex(s[1..], x);
      assert forall k :: 1 <= k <= i ==> s[k] == s[1..][k - 1];
      1 + i
  }

  /** The insertion-ordered set lists its elements by first occurrence. */
  lemma {:induction false} AddAllFirstOccurrence<T(!new)>(acc: seq<T>, s: seq<T>, i: nat, j: nat)
    requires NoDups(acc)
    requires i < j < |AddAll(acc, s)|
    ensures AddAll(acc, s)[i] in acc + s && AddAll(acc, s)[j] in acc + s
    ensures FirstIndex(acc + s, AddAll(acc, s)[i]) < FirstIndex(acc + s, AddAll(acc, s)[j])
    decreases |s|
  {
    var r := AddAll(acc, s);
    if s == [] {
      assert acc + s == acc;
      FirstIndexNoDups(acc, i);
      FirstIndexNoDups(acc, j);
    } else {
      var acc' := if s[0] in acc then acc else acc + [s[0]];
      AddAllFirstOccurrence(acc', s[1..], i, j);
      FirstIndexStep(acc, s, r[i]);
      FirstIndexStep(acc, s, r[j]);
    }
  }

  lemma FirstIndexNoDups<T>(s: seq<T>, i: nat)
    requires NoDups(s) && i < |s|
    ensures FirstIndex(s, s[i]) == i
  {
    var k := FirstIndex(s, s[i]);
    assert s[k] == s[i];
  }

  /** The first index is the one before which `x` does not occur. */
  lemma FirstIndexIs<T>(s: seq<T>, x: T, i: nat)
    requires i < |s| && s[i] == x
    requires forall k :: 0 <= k < i ==> s[k] != x
    ensures FirstIndex(s, x) == i
  {
  }

  /** An element of a prefix is first found where the prefix has it. */
  lemma FirstIndexPrefix<T>(p: seq<T>, u: seq<T>, x: T)
    requires x in p && p <= u
    ensures x in u && FirstIndex(u, x) == FirstIndex(p, x)
  {
    var i := FirstIndex(p, x);
    assert u[i] == p[i];
    assert forall k :: 0 <= k < i ==> u[k] == p[k];
    FirstIndexIs(u, x, i);
  }

  /** Dropping from `u` an element at index `n`, where `x` is not yet found,
      moves the first occurrence of `x` one place left. */
  lemma FirstIndexShift<T>(u: seq<T>, v: seq<T>, n: nat, x: T)
    requires n < |u| && |v| + 1 == |u| && x in u && u[n] != x
    requires forall k :: 0 <= k <= n ==> u[k] != x
    requires forall k :: 0 <= k < n ==> v[k] == u[k]
    requires forall k :: n <= k < |v| ==> v[k] == u[k + 1]
    ensures x in v && FirstIndex(u, x) > n && FirstIndex(v, x) == FirstIndex(u, x) - 1
  {
    var a := FirstIndex(u, x);
    assert a > n;
    assert v[a - 1] == u[a];
    FirstIndexIs(v, x, a - 1);
  }

  /** Dropping a repeated element at index |acc| moves the first occurrence of
      any value not in `acc` one place left. */
  lemma FirstIndexDrop<T>(acc: seq<T>, s: seq<T>, x: T)
    requires s != [] && s[0] in acc && x !in acc && x in acc + s
    ensures x in acc + s[1..]
    ensures FirstIndex(acc + s, x) > |acc|
    ensures FirstIndex(acc + s[1..], x) == FirstIndex(acc + s, x) - 1
  {
    var u, v := acc + s, acc + s[1..];
    assert forall k :: 0 <= k < |acc| ==> u[k] == acc[k];
    assert u[|acc|] == s[0];
    assert forall k :: 0 <= k < |acc| ==> v[k] == u[k];
    assert forall k :: |acc| <= k < |v| ==> v[k] == u[k + 1];
    FirstIndexShift(u, v, |acc|, x);
  }

  lemma FirstIndexStep<T>(acc: seq<T>, s: seq<T>, x: T)
    requires s != [] && x in acc + s
    ensures var acc' := if s[0] in acc then acc else acc + [s[0]];
      x in acc' + s[1..] &&
      var a, b := FirstIndex(acc + s, x), FirstIndex(acc' + s[1..], x);
      if s[0] in acc then a != |acc| && b == (if a > |acc| then a - 1 else a) else b == a
  {
    assert s == [s[0]] + s[1..];
    if s[0] !in acc {
      assert acc + s == (acc + [s[0]]) + s[1..];
    } else if x in acc {
      FirstIndexPrefix(acc, acc + s, x);
      FirstIndexPrefix(acc, acc + s[1..], x);
    } else {
      FirstIndexDrop(acc, s, x);
    }
  }

  predicate SortedDesc<T>(s: seq<T>, key: T -> int) {
    forall i, j :: 0 <= i < j < |s| ==> key(s[i]) >= key(s[j])
  }

  /** Every element is bounded by a key at or above all of them. */
  predicate AllAtMost<T>(s: seq<T>, key: T -> int, bound: int) {
    forall k :: 0 <= k < |s| ==> key(s[k]) <= bound
  }

  lemma SortedCons<T>(h: T, t: seq<T>, key: T -> int)
    requires SortedDesc(t, key) && AllAtMost(t, key, key(h))
    ensures SortedDesc([h] + t, key)
  {
    var r := [h] + t;
    forall i, j | 0 <= i < j < |r| ensures key(r[i]) >= key(r[j]) {
      assert r[j] == t[j - 1];
      if i > 0 {
        assert r[i] == t[i - 1];
      }
    }
  }

  lemma TailAtMost<T>(s: seq<T>, key: T -> int)
    requires s != [] && SortedDesc(s, key)
    ensures forall y :: y in s[1..] ==> key(y) <= key(s[0])
  {
    forall y | y in s[1..] ensures key(y) <= key(s[0]) {
      var m :| 0 <= m < |s[1..]| && s[1..][m] == y;
      assert s[m + 1] == y;
    }
  }

  /** The head of `s` stays in front when `x` goes into its tail. */
  lemma InsertBelowHead<T>(x: T, s: seq<T>, t: seq<T>, key: T -> int)
    requires s != [] && SortedDesc(s, key) && key(x) < key(s[0])
    requires SortedDesc(t, key) && forall y :: y in t ==> y == x || y in s[1..]
    ensures SortedDesc([s[0]] + t, key)
  {
    TailAtMost(s, key);
    forall k | 0 <= k < |t| ensures key(t[k]) <= key(s[0]) {
      assert t[k] in t;
    }
    SortedCons(s[0], t, key);
  }

  /** Inserts `x` before the first element whose key is not above its own. */
  function InsertDesc<T(==,!new)>(x: T, s: seq<T>, key: T -> int): (r: seq<T>)
    requires SortedDesc(s, key)
    ensures SortedDesc(r, key)
    ensures |r| == |s| + 1
    ensures multiset(r) == multiset(s) + multiset{x}
    ensures forall y :: y in r <==> y == x || y in s
  {
    if s == [] || key(x) >= key(s[0]) then
      SortedCons(x, s, key);
      [x] + s
    else
      var t := InsertDesc(x, s[1..], key);
      InsertBelowHead(x, s, t, key);
      assert s == [s[0]] + s[1..];
      [s[0]] + t
  }

  /** A stable sort by descending key: `sort((a, b) => key(b) - key(a))`. */
  function SortDesc<T(==,!new)>(s: seq<T>, key: T -> int): (r: seq<T>)
    ensures SortedDesc(r, key)
    ensures multiset(r) == multiset(s)
    ensures |r| == |s|
  {
    if s == [] then []
    else
      assert s == [s[0]] + s[1..];
      InsertDesc(s[0], SortDesc(s[1..], key), key)
  }
}
