/** Exact-arithmetic stand-ins for the JavaScript number operations the
    scripts use: `Number.prototype.toFixed`, `reduce` sums over the tracked
    symbols, and the "last write wins" behaviour of a `forEach` that fills an
    object keyed by symbol. */
module Numeric {
  import opened Wrappers

  /** The integer nearest to y, halves going up. */
  function RoundHalfUp(y: real): (n: int)
    ensures y - 0.5 < n as real <= y + 0.5
  {
    (y + 0.5).Floor
  }

  lemma RoundHalfUpMonotone(y: real, z: real)
    requires y <= z
    ensures RoundHalfUp(y) <= RoundHalfUp(z)
  {
  }

  /** `x.toFixed(2)` read back as a number, for non-negative x: the nearest
      whole number of cents, halves going up. */
  function ToFixed2(x: real): (r: real)
    requires x >= 0.0
    ensures r >= 0.0
    ensures x - 0.005 < r <= x + 0.005
    ensures r * 100.0 == (r * 100.0).Floor as real
  {
    RoundHalfUp(x * 100.0) as real / 100.0
  }

  /** `x.toFixed(8)` read back as a number, for non-negative x: the nearest
      multiple of 10^-8, halves going up. */
  function ToFixed8(x: real): (r: real)
    requires x >= 0.0
    ensures r >= 0.0
    ensures x - 0.000000005 < r <= x + 0.000000005
    ensures r * 100000000.0 == (r * 100000000.0).Floor as real
  {
    RoundHalfUp(x * 100000000.0) as real / 100000000.0
  }

  lemma ToFixed2Monotone(x: real, y: real)
    requires 0.0 <= x <= y
    ensures ToFixed2(x) <= ToFixed2(y)
  {
    RoundHalfUpMonotone(x * 100.0, y * 100.0);
  }

  lemma ToFixed8Monotone(x: real, y: real)
    requires 0.0 <= x <= y
    ensures ToFixed8(x) <= ToFixed8(y)
  {
    RoundHalfUpMonotone(x * 100000000.0, y * 100000000.0);
  }

  /** A whole number of cents is its own `toFixed(2)`. */
  lemma ToFixed2Exact(x: real)
    requires x >= 0.0 && x * 100.0 == (x * 100.0).Floor as real
    ensures ToFixed2(x) == x
  {
    assert RoundHalfUp(x * 100.0) == (x * 100.0).Floor;
  }

  /** Rounding twice is rounding once. */
  lemma ToFixed2Idempotent(x: real)
    requires x >= 0.0
    ensures ToFixed2(ToFixed2(x)) == ToFixed2(x)
  {
    var n := RoundHalfUp(x * 100.0);
    assert ToFixed2(x) * 100.0 == n as real;
    assert RoundHalfUp(n as real) == n;
  }

  lemma ToFixed8Idempotent(x: real)
    requires x >= 0.0
    ensures ToFixed8(ToFixed8(x)) == ToFixed8(x)
  {
    var n := RoundHalfUp(x * 100000000.0);
    assert ToFixed8(x) * 100000000.0 == n as real;
    assert RoundHalfUp(n as real) == n;
  }

  lemma DivAdd(a: real, b: real, t: real)
    requires t != 0.0
    ensures a / t + b / t == (a + b) / t
  {
  }

  lemma DivSelf(t: real)
    requires t != 0.0
    ensures t / t == 1.0
  {
  }

  /** A factor common to numerator and denominator cancels. */
  lemma DivCommonFactor(x: real, a: real, b: real)
    requires a != 0.0 && b != 0.0
    ensures x * b / (a * b) == x / a
  {
    assert (x / a) * (a * b) == x * b;
  }

  lemma DivMonotone(a: real, b: real, t: real)
    requires a <= b && t > 0.0
    ensures a / t <= b / t
  {
  }

  lemma MulMonotone(a: real, b: real, c: real)
    requires a <= b && c >= 0.0
    ensures a * c <= b * c
  {
  }

  lemma MulStrictMonotone(a: real, b: real, c: real)
    requires a < b && c > 0.0
    ensures a * c < b * c
  {
  }

  /** x within e of q, scaled by a positive c: x * c is within e * c of q * c. */
  lemma ScaledBounds(q: real, x: real, c: real, e: real, a: real)
    requires q - e < x <= q + e && c > 0.0 && q * c == a
    ensures a - e * c < x * c <= a + e * c
  {
    MulStrictMonotone(q - e, x, c);
    MulMonotone(x, q + e, c);
    assert (q - e) * c == q * c - e * c;
    assert (q + e) * c == q * c + e * c;
  }

  lemma Fraction(c: real, t: real)
    requires 0.0 <= c <= t && t > 0.0
    ensures 0.0 <= c / t <= 1.0
  {
  }

  function Max(a: real, b: real): (m: real)
    ensures m >= a && m >= b
    ensures m == a || m == b
  {
    if a >= b then a else b
  }

  /* ---------------- sums over a sequence of keys ---------------- */

  ghost predicate Covers<K, V>(keys: seq<K>, m: map<K, V>)
  {
    forall i :: 0 <= i < |keys| ==> keys[i] in m
  }

  /** `keys.reduce((total, k) => m[k] + total, 0)`: the values of m summed in
      the order of keys (a key listed twice is counted twice). */
  function SumOver<K>(keys: seq<K>, m: map<K, real>): real
    requires Covers(keys, m)
  {
    if keys == [] then 0.0 else SumOver(keys[..|keys| - 1], m) + m[keys[|keys| - 1]]
  }

  lemma {:induction false} SumOverAppend<K>(a: seq<K>, b: seq<K>, m: map<K, real>)
    requires Covers(a, m) && Covers(b, m)
    ensures Covers(a + b, m)
    ensures SumOver(a + b, m) == SumOver(a, m) + SumOver(b, m)
  {
    if b != [] {
      var b' := b[..|b| - 1];
      assert (a + b)[..|a + b| - 1] == a + b';
      SumOverAppend(a, b', m);
    } else {
      assert a + b == a;
    }
  }

  /** Extending a prefix sum by one more key adds that key's value. */
  lemma SumOverStep<K>(keys: seq<K>, m: map<K, real>, i: nat)
    requires Covers(keys, m) && i < |keys|
    ensures Covers(keys[..i], m) && Covers(keys[..i + 1], m)
    ensures SumOver(keys[..i + 1], m) == SumOver(keys[..i], m) + m[keys[i]]
  {
    assert keys[..i + 1][..i] == keys[..i];
  }

  /** Two maps keyed by exactly the listed keys and agreeing on each are equal. */
  lemma MapsAgree<K, V>(keys: seq<K>, a: map<K, V>, b: map<K, V>)
    requires forall k :: k in a <==> k in keys
    requires forall k :: k in b <==> k in keys
    requires forall i :: 0 <= i < |keys| ==> a[keys[i]] == b[keys[i]]
    ensures a == b
  {
    forall k | k in a ensures a[k] == b[k] {
      var i :| 0 <= i < |keys| && keys[i] == k;
    }
  }

  /** Sums only read the keys they list: two maps that agree there have equal sums. */
  lemma {:induction false} SumOverAgree<K>(keys: seq<K>, m: map<K, real>, m': map<K, real>)
    requires Covers(keys, m) && Covers(keys, m')
    requires forall i :: 0 <= i < |keys| ==> m[keys[i]] == m'[keys[i]]
    ensures SumOver(keys, m) == SumOver(keys, m')
  {
    if keys != [] {
      SumOverAgree(keys[..|keys| - 1], m, m');
    }
  }

  lemma {:induction false} SumOverNonNegative<K>(keys: seq<K>, m: map<K, real>)
    requires Covers(keys, m)
    requires forall i :: 0 <= i < |keys| ==> m[keys[i]] >= 0.0
    ensures SumOver(keys, m) >= 0.0
  {
    if keys != [] {
      SumOverNonNegative(keys[..|keys| - 1], m);
    }
  }

  /** Each non-negative term is at most the sum. */
  lemma {:induction false} SumOverTerm<K>(keys: seq<K>, m: map<K, real>, j: nat)
    requires Covers(keys, m) && j < |keys|
    requires forall i :: 0 <= i < |keys| ==> m[keys[i]] >= 0.0
    ensures m[keys[j]] <= SumOver(keys, m)
  {
    var n := |keys| - 1;
    if j == n {
      SumOverNonNegative(keys[..n], m);
    } else {
      SumOverTerm(keys[..n], m, j);
    }
  }

  /** A sum of non-positive terms that is zero has every term zero. */
  lemma {:induction false} SumOverZeroNonPositive<K>(keys: seq<K>, m: map<K, real>, j: nat)
    requires Covers(keys, m) && j < |keys|
    requires forall i :: 0 <= i < |keys| ==> m[keys[i]] <= 0.0
    requires SumOver(keys, m) == 0.0
    ensures m[keys[j]] == 0.0
  {
    var n := |keys| - 1;
    SumOverNonPositive(keys[..n], m);
    if j < n {
      SumOverZeroNonPositive(keys[..n], m, j);
    }
  }

  lemma {:induction false} SumOverNonPositive<K>(keys: seq<K>, m: map<K, real>)
    requires Covers(keys, m)
    requires forall i :: 0 <= i < |keys| ==> m[keys[i]] <= 0.0
    ensures SumOver(keys, m) <= 0.0
  {
    if keys != [] {
      SumOverNonPositive(keys[..|keys| - 1], m);
    }
  }

  lemma Distribute(c: real, a: real, b: real, s: real)
    requires s == a + b
    ensures c * s == c * a + c * b
  {
  }

  /** Scaling every term by c scales the sum s by c. */
  lemma {:induction false} SumOverScale<K>(keys: seq<K>, m: map<K, real>, m': map<K, real>, c: real, s: real)
    requires Covers(keys, m) && Covers(keys, m') && s == SumOver(keys, m)
    requires forall i :: 0 <= i < |keys| ==> m'[keys[i]] == c * m[keys[i]]
    ensures SumOver(keys, m') == c * s
  {
    if keys == [] {
      Distribute(c, 0.0, 0.0, s);
    } else {
      var n := |keys| - 1;
      SumOverScale(keys[..n], m, m', c, SumOver(keys[..n], m));
      Distribute(c, SumOver(keys[..n], m), m[keys[n]], s);
    }
  }

  /** The sum of differences is the difference of sums. */
  lemma {:induction false} SumOverDifference<K>(keys: seq<K>, a: map<K, real>, b: map<K, real>, d: map<K, real>)
    requires Covers(keys, a) && Covers(keys, b) && Covers(keys, d)
    requires forall i :: 0 <= i < |keys| ==> d[keys[i]] == a[keys[i]] - b[keys[i]]
    ensures SumOver(keys, d) == SumOver(keys, a) - SumOver(keys, b)
  {
    if keys != [] {
      SumOverDifference(keys[..|keys| - 1], a, b, d);
    }
  }

  /** Terms that each differ by at most half a cent give sums that differ
      by at most half a cent per key. */
  lemma {:induction false} SumOverClose<K>(keys: seq<K>, a: map<K, real>, b: map<K, real>)
    requires Covers(keys, a) && Covers(keys, b)
    requires forall i :: 0 <= i < |keys| ==> -0.005 <= a[keys[i]] - b[keys[i]] <= 0.005
    ensures -0.005 * |keys| as real <= SumOver(keys, a) - SumOver(keys, b) <= 0.005 * |keys| as real
  {
    if keys != [] {
      var n := |keys| - 1;
      SumOverClose(keys[..n], a, b);
      assert -0.005 <= a[keys[n]] - b[keys[n]] <= 0.005;
    }
  }

  /** Removing the j-th key removes exactly its term. */
  lemma SumOverRemove<K>(keys: seq<K>, m: map<K, real>, j: nat)
    requires Covers(keys, m) && j < |keys|
    ensures Covers(keys[..j] + keys[j + 1..], m)
    ensures SumOver(keys, m) == SumOver(keys[..j] + keys[j + 1..], m) + m[keys[j]]
  {
    var pre, post := keys[..j], keys[j + 1..];
    assert keys == pre + [keys[j]] + post;
    SumOverAppend(pre + [keys[j]], post, m);
    SumOverAppend(pre, [keys[j]], m);
    SumOverAppend(pre, post, m);
    assert [keys[j]][..0] == [];
  }

  /** Sums do not depend on the order of the keys. */
  lemma {:induction false} SumOverPermutation<K>(keys: seq<K>, others: seq<K>, m: map<K, real>)
    requires Covers(keys, m) && multiset(keys) == multiset(others)
    ensures Covers(others, m)
    ensures SumOver(keys, m) == SumOver(others, m)
  {
    forall i | 0 <= i < |others| ensures others[i] in m {
      assert others[i] in multiset(others);
    }
    if keys != [] {
      var n := |keys| - 1;
      assert keys[n] in multiset(others);
      var j :| 0 <= j < |others| && others[j] == keys[n];
      RemoveMatching(keys, others, j);
      SumOverRemove(others, m, j);
      SumOverPermutation(keys[..n], others[..j] + others[j + 1..], m);
    }
  }

  /** Dropping the last key, and a matching key of a permutation, leaves permutations. */
  lemma RemoveMatching<K>(keys: seq<K>, others: seq<K>, j: nat)
    requires keys != [] && multiset(keys) == multiset(others)
    requires j < |others| && others[j] == keys[|keys| - 1]
    ensures multiset(keys[..|keys| - 1]) == multiset(others[..j] + others[j + 1..])
  {
    var n := |keys| - 1;
    var x := keys[n];
    var rest := others[..j] + others[j + 1..];
    assert keys == keys[..n] + [x];
    assert others == others[..j] + [x] + others[j + 1..];
    assert multiset(keys) == multiset(keys[..n]) + multiset{x};
    assert multiset(others) == multiset(others[..j]) + multiset{x} + multiset(others[j + 1..]);
    assert multiset(rest) == multiset(others[..j]) + multiset(others[j + 1..]);
    forall y ensures multiset(keys[..n])[y] == multiset(rest)[y] {
      assert multiset(keys)[y] == multiset(keys[..n])[y] + multiset{x}[y];
    }
  }


  /* ---------------- last write wins ---------------- */

  /** The last element of s whose key is k: what an object filled by
      `s.forEach(e => obj[key(e)] = ...)` holds for k. */
  function Latest<T, K(==)>(s: seq<T>, key: T -> K, k: K): Option<T>
  {
    if s == [] then None
    else if key(s[|s| - 1]) == k then Some(s[|s| - 1])
    else Latest(s[..|s| - 1], key, k)
  }

  /** Some element has key k exactly when the latest one exists, and the
      latest is an element with key k. */
  lemma {:induction false} LatestFound<T, K>(s: seq<T>, key: T -> K, k: K)
    ensures Latest(s, key, k).Some? <==> exists i :: 0 <= i < |s| && key(s[i]) == k
    ensures Latest(s, key, k).Some? ==> Latest(s, key, k).value in s && key(Latest(s, key, k).value) == k
  {
    if s != [] {
      var n := |s| - 1;
      LatestFound(s[..n], key, k);
      if key(s[n]) != k {
        if exists i :: 0 <= i < |s| && key(s[i]) == k {
          var i :| 0 <= i < |s| && key(s[i]) == k;
          assert s[..n][i] == s[i];
        }
      }
    }
  }

  /** The latest element with key k is one after which no element has key k. */
  lemma {:induction false} LatestIsLast<T, K>(s: seq<T>, key: T -> K, k: K)
    requires Latest(s, key, k).Some?
    ensures exists i :: 0 <= i < |s| && s[i] == Latest(s, key, k).value && key(s[i]) == k
                        && forall j :: i < j < |s| ==> key(s[j]) != k
  {
    var n := |s| - 1;
    if key(s[n]) != k {
      LatestIsLast(s[..n], key, k);
      var i :| 0 <= i < n && s[..n][i] == Latest(s[..n], key, k).value && key(s[..n][i]) == k
               && forall j :: i < j < n ==> key(s[..n][j]) != k;
      assert s[i] == s[..n][i];
      forall j | i < j < |s| ensures key(s[j]) != k {
        if j < n {
          assert s[j] == s[..n][j];
        }
      }
    }
  }

  /** Keys that agree on every element pick the same latest element. */
  lemma {:induction false} LatestAgree<T, K>(s: seq<T>, key: T -> K, key': T -> K, k: K)
    requires forall i :: 0 <= i < |s| ==> key(s[i]) == key'(s[i])
    ensures Latest(s, key, k) == Latest(s, key', k)
  {
    if s != [] {
      var n := |s| - 1;
      assert key(s[n]) == key'(s[n]);
      assert forall i :: 0 <= i < n ==> s[..n][i] == s[i];
      LatestAgree(s[..n], key, key', k);
    }
  }

  ghost predicate Distinct<T>(s: seq<T>)
  {
    forall i, j :: 0 <= i < j < |s| ==> s[i] != s[j]
  }

  /** With distinct keys the latest element with key(s[i]) is s[i] itself. */
  lemma {:induction false} LatestDistinct<T, K>(s: seq<T>, key: T -> K, i: nat)
    requires i < |s|
    requires forall a, b :: 0 <= a < b < |s| ==> key(s[a]) != key(s[b])
    ensures Latest(s, key, key(s[i])) == Some(s[i])
  {
    var n := |s| - 1;
    if i < n {
      assert key(s[n]) != key(s[i]);
      LatestDistinct(s[..n], key, i);
    }
  }

  /** Two distinct sequences with the same elements are permutations of each other. */
  lemma {:induction false} DistinctSameElements<T>(s: seq<T>, t: seq<T>)
    requires Distinct(s) && Distinct(t)
    requires forall x :: x in s <==> x in t
    ensures multiset(s) == multiset(t)
  {
    forall x ensures multiset(s)[x] == multiset(t)[x] {
      DistinctCount(s, x);
      DistinctCount(t, x);
    }
  }

  lemma {:induction false} DistinctCount<T>(s: seq<T>, x: T)
    requires Distinct(s)
    ensures multiset(s)[x] == if x in s then 1 else 0
  {
    if s != [] {
      var n := |s| - 1;
      assert s == s[..n] + [s[n]];
      assert s[n] !in s[..n];
      DistinctCount(s[..n], x);
    }
  }
}
