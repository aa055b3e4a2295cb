/** The list steps applied to a prediction service's response: a threshold
    filter (a list comprehension), a stable sort by descending key (Python's
    `sorted(..., reverse=True)`), and the slice `[:n]`. Records are generic;
    `key` reads the field the step compares (a score or a confidence). */
module PostProcess {

  /** r is an order-preserving subsequence of s. */
  ghost predicate Subsequence<T>(r: seq<T>, s: seq<T>)
    decreases |s|
  {
    if r == [] then true
    else if s == [] then false
    else (r[0] == s[0] && Subsequence(r[1..], s[1..])) || Subsequence(r, s[1..])
  }

  /** `[x for x in s if key(x) >= t]` */
  function KeepAtLeast<T>(s: seq<T>, key: T -> real, t: real): (r: seq<T>)
    ensures |r| <= |s|
    ensures forall i :: 0 <= i < |r| ==> key(r[i]) >= t
  {
    if s == [] then []
    else if key(s[0]) >= t then [s[0]] + KeepAtLeast(s[1..], key, t)
    else KeepAtLeast(s[1..], key, t)
  }

  /** The filter keeps exactly the qualifying occurrences: each record appears
      in the result as often as in the input if it qualifies, and never otherwise. */
  lemma {:induction false} KeepAtLeastCount<T>(s: seq<T>, key: T -> real, t: real, x: T)
    ensures multiset(KeepAtLeast(s, key, t))[x] == if key(x) >= t then multiset(s)[x] else 0
  {
    if s != [] {
      KeepAtLeastCount(s[1..], key, t, x);
      assert s == [s[0]] + s[1..];
      if key(s[0]) >= t {
        assert KeepAtLeast(s, key, t) == [s[0]] + KeepAtLeast(s[1..], key, t);
      }
    }
  }

  /** The filter works record by record: it distributes over concatenation. */
  lemma {:induction false} KeepAtLeastAppend<T>(a: seq<T>, b: seq<T>, key: T -> real, t: real)
    ensures KeepAtLeast(a + b, key, t) == KeepAtLeast(a, key, t) + KeepAtLeast(b, key, t)
  {
    if a == [] {
      assert a + b == b;
    } else {
      assert (a + b)[0] == a[0];
      assert (a + b)[1..] == a[1..] + b;
      KeepAtLeastAppend(a[1..], b, key, t);
    }
  }

  /** The filter keeps the response order: its result is a subsequence of its input. */
  lemma {:induction false} KeepAtLeastSubsequence<T>(s: seq<T>, key: T -> real, t: real)
    ensures Subsequence(KeepAtLeast(s, key, t), s)
  {
    if s != [] {
      KeepAtLeastSubsequence(s[1..], key, t);
    }
  }

  /** Filtering twice with the same threshold changes nothing more. */
  lemma {:induction false} KeepAtLeastIdempotent<T>(s: seq<T>, key: T -> real, t: real)
    ensures KeepAtLeast(KeepAtLeast(s, key, t), key, t) == KeepAtLeast(s, key, t)
  {
    if s != [] {
      KeepAtLeastIdempotent(s[1..], key, t);
    }
  }

  // ---------------------------------------------------------------------------
  // Stable sort by descending key

  ghost predicate SortedDesc<T>(s: seq<T>, key: T -> real) {
    forall i, j :: 0 <= i < j < |s| ==> key(s[i]) >= key(s[j])
  }

  /** The records of s whose key is exactly v, in the order of s. A sort is
      stable when it leaves each of these subsequences as it was. */
  ghost function Tied<T>(s: seq<T>, key: T -> real, v: real): seq<T> {
    if s == [] then []
    else if key(s[0]) == v then [s[0]] + Tied(s[1..], key, v)
    else Tied(s[1..], key, v)
  }

  /** a and b list the records of each key value in the same order. */
  ghost predicate KeepsTies<T>(a: seq<T>, b: seq<T>, key: T -> real) {
    forall v :: Tied(a, key, v) == Tied(b, key, v)
  }

  /** Inserts x into s before the first record whose key is not greater than
      x's key, so that x precedes the records it ties with. */
  function Insert<T>(x: T, s: seq<T>, key: T -> real): (r: seq<T>)
    ensures multiset(r) == multiset(s) + multiset{x}
    ensures |r| == |s| + 1
  {
    if s == [] || key(x) >= key(s[0]) then [x] + s
    else
      assert s == [s[0]] + s[1..];
      [s[0]] + Insert(x, s[1..], key)
  }

  lemma {:induction false} InsertSorted<T>(x: T, s: seq<T>, key: T -> real)
    requires SortedDesc(s, key)
    ensures SortedDesc(Insert(x, s, key), key)
  {
    if s != [] && key(x) < key(s[0]) {
      var tail := Insert(x, s[1..], key);
      InsertSorted(x, s[1..], key);
      forall y | y in tail ensures key(s[0]) >= key(y) {
        assert y in multiset(tail);
        assert y == x || y in multiset(s[1..]);
      }
      assert Insert(x, s, key) == [s[0]] + tail;
    }
  }

  /** `sorted(s, key=key, reverse=True)`: insertion sort from the back, so that
      records with equal keys keep their order in s. */
  function StableSortDesc<T>(s: seq<T>, key: T -> real): (r: seq<T>)
    ensures SortedDesc(r, key)
    ensures multiset(r) == multiset(s)
    ensures |r| == |s|
  {
    if s == [] then []
    else
      var sorted := StableSortDesc(s[1..], key);
      InsertSorted(s[0], sorted, key);
      assert s == [s[0]] + s[1..];
      Insert(s[0], sorted, key)
  }

  /** Sorting only reorders: a lower bound on every key survives it. */
  lemma SortKeepsBound<T>(s: seq<T>, key: T -> real, t: real)
    requires forall i :: 0 <= i < |s| ==> key(s[i]) >= t
    ensures forall i :: 0 <= i < |StableSortDesc(s, key)| ==> key(StableSortDesc(s, key)[i]) >= t
  {
    var r := StableSortDesc(s, key);
    forall i | 0 <= i < |r| ensures key(r[i]) >= t {
      assert r[i] in multiset(s);
    }
  }

  lemma {:induction false} TiedInsert<T>(x: T, s: seq<T>, key: T -> real, v: real)
    ensures Tied(Insert(x, s, key), key, v) ==
            if key(x) == v then [x] + Tied(s, key, v) else Tied(s, key, v)
  {
    if s == [] || key(x) >= key(s[0]) {
      assert ([x] + s)[1..] == s;
    } else {
      TiedInsert(x, s[1..], key, v);
      assert ([s[0]] + Insert(x, s[1..], key))[1..] == Insert(x, s[1..], key);
    }
  }

  /** The sort is stable: records with equal keys come out in their input order. */
  lemma {:induction false} StableSortKeepsTies<T>(s: seq<T>, key: T -> real, v: real)
    ensures Tied(StableSortDesc(s, key), key, v) == Tied(s, key, v)
  {
    if s != [] {
      StableSortKeepsTies(s[1..], key, v);
      TiedInsert(s[0], StableSortDesc(s[1..], key), key, v);
    }
  }

  lemma {:induction false} TiedMembers<T>(s: seq<T>, key: T -> real, v: real, x: T)
    ensures x in Tied(s, key, v) <==> x in s && key(x) == v
  {
    if s != [] {
      TiedMembers(s[1..], key, v, x);
      assert s == [s[0]] + s[1..];
    }
  }

  lemma TiedHead<T>(s: seq<T>, key: T -> real)
    requires s != []
    ensures Tied(s, key, key(s[0])) != []
  {
  }

  lemma {:induction false} TiedOtherKey<T>(s: seq<T>, key: T -> real, v: real)
    requires s != [] && key(s[0]) != v
    ensures Tied(s[1..], key, v) == Tied(s, key, v)
  {
  }

  /** Cutting a sequence short cuts each group of ties short. */
  lemma {:induction false} TiedOfPrefix<T>(s: seq<T>, n: nat, key: T -> real, v: real)
    requires n <= |s|
    ensures Tied(s[..n], key, v) <= Tied(s, key, v)
  {
    if n > 0 {
      TiedOfPrefix(s[1..], n - 1, key, v);
      assert s[..n][1..] == s[1..][..n - 1];
    }
  }

  /** A descending order that keeps every group of ties in its input order is
      unique: two such orders of the same records are equal. */
  lemma {:induction false} SortedTiesUnique<T>(a: seq<T>, b: seq<T>, key: T -> real)
    requires SortedDesc(a, key) && SortedDesc(b, key)
    requires KeepsTies(a, b, key)
    ensures a == b
    decreases |a| + |b|
  {
    if a == [] && b == [] {
    } else if a == [] {
      TiedHead(b, key);
      assert false;
    } else if b == [] {
      TiedHead(a, key);
      assert false;
    } else {
      var va, vb := key(a[0]), key(b[0]);
      TiedMembers(a, key, va, a[0]);
      assert a[0] in Tied(b, key, va);
      TiedMembers(b, key, va, a[0]);
      TiedMembers(b, key, vb, b[0]);
      assert b[0] in Tied(a, key, vb);
      TiedMembers(a, key, vb, b[0]);
      assert va == vb;
      assert a[0] == Tied(a, key, va)[0] == Tied(b, key, va)[0] == b[0];
      forall v
        ensures Tied(a[1..], key, v) == Tied(b[1..], key, v)
      {
        if v == va {
          assert Tied(a, key, v) == [a[0]] + Tied(a[1..], key, v);
          assert Tied(b, key, v) == [b[0]] + Tied(b[1..], key, v);
          assert Tied(a[1..], key, v) == Tied(a, key, v)[1..];
          assert Tied(b[1..], key, v) == Tied(b, key, v)[1..];
        } else {
          TiedOtherKey(a, key, v);
          TiedOtherKey(b, key, v);
        }
      }
      SortedTiesUnique(a[1..], b[1..], key);
      assert a == [a[0]] + a[1..] && b == [b[0]] + b[1..];
    }
  }

  /** StableSortDesc is exactly Python's stable descending sort: r is its result
      if and only if r is in descending key order and keeps every group of
      ties in the input order. */
  lemma StableSortCharacterized<T>(s: seq<T>, r: seq<T>, key: T -> real)
    ensures r == StableSortDesc(s, key) <==> SortedDesc(r, key) && KeepsTies(r, s, key)
  {
    var q := StableSortDesc(s, key);
    forall v ensures Tied(q, key, v) == Tied(s, key, v) {
      StableSortKeepsTies(s, key, v);
    }
    assert KeepsTies(q, s, key);
    if SortedDesc(r, key) && KeepsTies(r, s, key) {
      assert KeepsTies(r, q, key);
      SortedTiesUnique(r, q, key);
    }
  }

  // ---------------------------------------------------------------------------
  // Python's slice `s[:n]`

  /** Where `s[:n]` ends for a sequence of length len: a negative n counts from
      the end, and the result is clamped to [0, len]. */
  function SliceEnd(len: nat, n: int): (e: nat)
    ensures e <= len
  {
    if n >= 0 then (if n < len then n else len)
    else if len + n > 0 then len + n else 0
  }

  /** `s[:n]` */
  function Take<T>(s: seq<T>, n: int): (r: seq<T>)
    ensures r <= s
    ensures n >= 0 ==> |r| == if n < |s| then n else |s|
    ensures n < 0 ==> |r| == if |s| + n > 0 then |s| + n else 0
  {
    s[..SliceEnd(|s|, n)]
  }

  /** `s[:-k]` drops the last k records; it is `s[:len(s) - k]`, or empty when k exceeds len(s). */
  lemma TakeNegative<T>(s: seq<T>, n: int)
    requires n < 0
    ensures |s| + n >= 0 ==> Take(s, n) == Take(s, |s| + n)
    ensures |s| + n < 0 ==> Take(s, n) == []
  {
  }
}
