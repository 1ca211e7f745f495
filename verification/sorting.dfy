/** Python's `list.sort(key=...)` / `sorted(..., key=...)` for string keys: a stable sort
    under code-point order of strings. */
module Sorting {

  /** Python's `a < b` on `str`: lexicographic by code point, a proper prefix is smaller. */
  predicate StrLt(a: string, b: string) {
    if a == [] then b != []
    else if b == [] then false
    else a[0] < b[0] || (a[0] == b[0] && StrLt(a[1..], b[1..]))
  }

  /** Python's `a <= b` on `str`. */
  predicate StrLe(a: string, b: string) {
    !StrLt(b, a)
  }

  lemma {:induction false} StrLtIrreflexive(a: string)
    ensures !StrLt(a, a)
    decreases |a|
  {
    if a != [] {
      StrLtIrreflexive(a[1..]);
    }
  }

  lemma {:induction false} StrLtTransitive(a: string, b: string, c: string)
    requires StrLt(a, b) && StrLt(b, c)
    ensures StrLt(a, c)
    decreases |a|
  {
    if a != [] && b != [] && c != [] && a[0] == b[0] == c[0] {
      StrLtTransitive(a[1..], b[1..], c[1..]);
    }
  }

  /** Any two strings are equal or ordered one way or the other. */
  lemma {:induction false} StrLtTotal(a: string, b: string)
    ensures a == b || StrLt(a, b) || StrLt(b, a)
    decreases |a|
  {
    if a != [] && b != [] && a[0] == b[0] {
      StrLtTotal(a[1..], b[1..]);
      if a[1..] == b[1..] {
        assert a == [a[0]] + a[1..] && b == [b[0]] + b[1..];
      }
    }
  }

  lemma StrLeTransitive(a: string, b: string, c: string)
    requires StrLe(a, b) && StrLe(b, c)
    ensures StrLe(a, c)
  {
    if StrLt(c, a) {
      StrLtTotal(a, b);
      if StrLt(a, b) {
        StrLtTransitive(c, a, b);
      } else if a != b {
        StrLtTransitive(b, a, c);
      }
    }
  }

  /** Keys along `s` never decrease. */
  predicate SortedBy<T>(s: seq<T>, key: T -> string) {
    forall i, j | 0 <= i < j < |s| :: StrLe(key(s[i]), key(s[j]))
  }

  /** The elements of `s` whose key is `k`, in their order in `s`. */
  function WithKey<T>(s: seq<T>, key: T -> string, k: string): (r: seq<T>)
    ensures |r| <= |s|
  {
    if s == [] then [] else (if key(s[0]) == k then [s[0]] else []) + WithKey(s[1..], key, k)
  }

  /** Places `x` in front of the first element of `t` whose key is not smaller than its own. */
  function Insert<T>(x: T, t: seq<T>, key: T -> string): seq<T> {
    if t == [] then [x]
    else if StrLt(key(t[0]), key(x)) then [t[0]] + Insert(x, t[1..], key)
    else [x] + t
  }

  /** `sorted(s, key=key)`: insertion sort, each element placed before the equal keys after it. */
  function StableSortBy<T>(s: seq<T>, key: T -> string): seq<T> {
    if s == [] then [] else Insert(s[0], StableSortBy(s[1..], key), key)
  }

  lemma {:induction false} InsertElements<T>(x: T, t: seq<T>, key: T -> string)
    ensures multiset(Insert(x, t, key)) == multiset(t) + multiset{x}
    ensures |Insert(x, t, key)| == |t| + 1
    decreases |t|
  {
    if t != [] && StrLt(key(t[0]), key(x)) {
      InsertElements(x, t[1..], key);
      assert t == [t[0]] + t[1..];
    }
  }

  lemma {:induction false} InsertSorted<T>(x: T, t: seq<T>, key: T -> string)
    requires SortedBy(t, key)
    ensures SortedBy(Insert(x, t, key), key)
    decreases |t|
  {
    InsertElements(x, t, key);
    if t == [] {
    } else if StrLt(key(t[0]), key(x)) {
      var rest := Insert(x, t[1..], key);
      InsertSorted(x, t[1..], key);
      InsertElements(x, t[1..], key);
      forall j | 0 <= j < |rest| ensures StrLe(key(t[0]), key(rest[j])) {
        assert rest[j] in multiset(rest);
        if rest[j] == x {
          StrLtIrreflexive(key(t[0]));
          if StrLt(key(x), key(t[0])) {
            StrLtTransitive(key(x), key(t[0]), key(x));
            StrLtIrreflexive(key(x));
          }
        } else {
          assert rest[j] in multiset(t[1..]);
          var m :| 0 <= m < |t[1..]| && t[1..][m] == rest[j];
          assert t[m + 1] == rest[j];
        }
      }
    } else {
      var r := [x] + t;
      forall i, j | 0 <= i < j < |r| ensures StrLe(key(r[i]), key(r[j])) {
        if i == 0 {
          assert r[j] == t[j - 1];
          if j - 1 > 0 {
            StrLeTransitive(key(x), key(t[0]), key(t[j - 1]));
          }
        } else {
          assert r[i] == t[i - 1] && r[j] == t[j - 1];
        }
      }
    }
  }

  /** Inserting `x` puts it in front of every element with the same key and leaves the
      relative order of the others alone. */
  lemma {:induction false} InsertWithKey<T>(x: T, t: seq<T>, key: T -> string, k: string)
    ensures WithKey(Insert(x, t, key), key, k)
         == (if key(x) == k then [x] else []) + WithKey(t, key, k)
    decreases |t|
  {
    if t == [] {
    } else if StrLt(key(t[0]), key(x)) {
      var rest := Insert(x, t[1..], key);
      var r := [t[0]] + rest;
      assert r[0] == t[0] && r[1..] == rest;
      InsertWithKey(x, t[1..], key, k);
      var head := if key(t[0]) == k then [t[0]] else [];
      assert WithKey(r, key, k) == head + WithKey(rest, key, k);
      assert WithKey(t, key, k) == head + WithKey(t[1..], key, k);
      if key(x) == k {
        assert head == [] by { StrLtIrreflexive(k); }
      }
    } else {
      var r := [x] + t;
      assert r[0] == x && r[1..] == t;
    }
  }

  /** The result is ordered by key. */
  lemma {:induction false} SortSorted<T>(s: seq<T>, key: T -> string)
    ensures SortedBy(StableSortBy(s, key), key)
    decreases |s|
  {
    if s != [] {
      SortSorted(s[1..], key);
      InsertSorted(s[0], StableSortBy(s[1..], key), key);
    }
  }

  /** The result is a permutation of the input. */
  lemma {:induction false} SortPermutation<T>(s: seq<T>, key: T -> string)
    ensures multiset(StableSortBy(s, key)) == multiset(s)
    ensures |StableSortBy(s, key)| == |s|
    decreases |s|
  {
    if s != [] {
      SortPermutation(s[1..], key);
      InsertElements(s[0], StableSortBy(s[1..], key), key);
      assert s == [s[0]] + s[1..];
    }
  }

  /** Elements with equal keys keep their input order. */
  lemma {:induction false} SortStable<T>(s: seq<T>, key: T -> string, k: string)
    ensures WithKey(StableSortBy(s, key), key, k) == WithKey(s, key, k)
    decreases |s|
  {
    if s != [] {
      SortStable(s[1..], key, k);
      InsertWithKey(s[0], StableSortBy(s[1..], key), key, k);
    }
  }
}
