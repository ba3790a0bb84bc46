/** `.sort({ name: 1 })`: an insertion sort of rows by a string key in MongoDB's
    code-point order. Rows with equal keys keep their input order, which is one of the
    orders the database may return; with distinct keys the order is the only one. */
module Sorting {
  import opened Text

  predicate SortedBy<T>(s: seq<T>, key: T -> string) {
    forall i, j :: 0 <= i < j < |s| ==> LexLessEq(key(s[i]), key(s[j]))
  }

  /** `x` placed before the first element it does not follow. */
  function InsertBy<T>(x: T, s: seq<T>, key: T -> string): (r: seq<T>)
    requires SortedBy(s, key)
    ensures SortedBy(r, key)
    ensures multiset(r) == multiset(s) + multiset{x}
    ensures |r| == |s| + 1
  {
    if s == [] then [x]
    else if LexLessEq(key(x), key(s[0])) then
      LexTransitiveFrom(key(x), s, key);
      [x] + s
    else
      var rest := InsertBy(x, s[1..], key);
      InsertBehindHead(x, s, rest, key);
      [s[0]] + rest
  }

  /** The sorted tail with `x` inserted, behind a head that `x` does not precede. */
  lemma InsertBehindHead<T>(x: T, s: seq<T>, rest: seq<T>, key: T -> string)
    requires s != [] && SortedBy(s, key) && !LexLessEq(key(x), key(s[0]))
    requires SortedBy(rest, key) && multiset(rest) == multiset(s[1..]) + multiset{x}
    ensures SortedBy([s[0]] + rest, key)
    ensures multiset([s[0]] + rest) == multiset(s) + multiset{x}
  {
    LexTotal(key(x), key(s[0]));
    assert s == [s[0]] + s[1..];
    forall j | 0 <= j < |rest| ensures LexLessEq(key(s[0]), key(rest[j])) {
      assert rest[j] in multiset(rest);
      if rest[j] != x {
        assert rest[j] in multiset(s[1..]);
        var k :| 0 <= k < |s[1..]| && s[1..][k] == rest[j];
        assert s[k + 1] == rest[j];
      }
    }
    var r := [s[0]] + rest;
    forall i, j | 0 <= i < j < |r| ensures LexLessEq(key(r[i]), key(r[j])) {
      if i > 0 { assert r[i] == rest[i - 1] && r[j] == rest[j - 1]; }
      else { assert r[j] == rest[j - 1]; }
    }
  }

  /** When `a` precedes the head of a sorted sequence, it precedes every element. */
  lemma LexTransitiveFrom<T>(a: string, s: seq<T>, key: T -> string)
    requires s != [] && SortedBy(s, key) && LexLessEq(a, key(s[0]))
    ensures forall j :: 0 <= j < |s| ==> LexLessEq(a, key(s[j]))
  {
    forall j | 0 <= j < |s| ensures LexLessEq(a, key(s[j])) {
      if j > 0 { LexTransitive(a, key(s[0]), key(s[j])); }
    }
  }

  lemma {:induction false} LexTransitive(a: string, b: string, c: string)
    requires LexLessEq(a, b) && LexLessEq(b, c)
    ensures LexLessEq(a, c)
    decreases |a|
  {
    if a != [] && b != [] && c != [] && a[0] == b[0] && b[0] == c[0] {
      LexTransitive(a[1..], b[1..], c[1..]);
    }
  }

  /** The rows ordered by `key`, a permutation of the input. */
  function SortBy<T>(s: seq<T>, key: T -> string): (r: seq<T>)
    ensures SortedBy(r, key)
    ensures multiset(r) == multiset(s)
    ensures |r| == |s|
  {
    if s == [] then []
    else
      assert s == [s[0]] + s[1..];
      InsertBy(s[0], SortBy(s[1..], key), key)
  }

  /** Code-point order is antisymmetric: names that precede each other are equal. */
  lemma {:induction false} LexAntisymmetric(a: string, b: string)
    requires LexLessEq(a, b) && LexLessEq(b, a)
    ensures a == b
    decreases |a|
  {
    if a != [] {
      LexAntisymmetric(a[1..], b[1..]);
      assert a == [a[0]] + a[1..] && b == [b[0]] + b[1..];
    }
  }

  predicate DistinctKeys<T>(s: seq<T>, key: T -> string) {
    forall i, j :: 0 <= i < j < |s| ==> key(s[i]) != key(s[j])
  }

  /** Two key-ordered arrangements of the same rows are equal when no two rows share a
      key: any result `.sort` may give is then the model's. */
  lemma {:induction false} SortedPermutationUnique<T>(a: seq<T>, b: seq<T>, key: T -> string)
    requires SortedBy(a, key) && SortedBy(b, key)
    requires multiset(a) == multiset(b) && DistinctKeys(a, key)
    ensures a == b
    decreases |a|
  {
    if a == [] {
      assert |b| == |multiset(b)| == 0;
    } else {
      assert |b| == |multiset(b)| == |multiset(a)| == |a|;
      if b[0] != a[0] {
        assert a[0] in multiset(b) && b[0] in multiset(a);
        var k :| 0 <= k < |b| && b[k] == a[0];
        var m :| 0 <= m < |a| && a[m] == b[0];
        assert LexLessEq(key(b[0]), key(b[k]));
        assert LexLessEq(key(a[0]), key(a[m]));
        assert key(a[0]) != key(a[m]);
        LexAntisymmetric(key(a[0]), key(b[0]));
        assert false;
      }
      assert a == [a[0]] + a[1..] && b == [b[0]] + b[1..];
      assert multiset(a) == multiset{a[0]} + multiset(a[1..]);
      assert multiset(b) == multiset{b[0]} + multiset(b[1..]);
      assert multiset(a[1..]) == multiset(a) - multiset{a[0]};
      assert multiset(b[1..]) == multiset(b) - multiset{b[0]};
      assert DistinctKeys(a[1..], key) by {
        forall i, j | 0 <= i < j < |a[1..]| ensures key(a[1..][i]) != key(a[1..][j]) {
          assert a[1..][i] == a[i + 1] && a[1..][j] == a[j + 1];
        }
      }
      assert SortedBy(a[1..], key) by {
        forall i, j | 0 <= i < j < |a[1..]| ensures LexLessEq(key(a[1..][i]), key(a[1..][j])) {
          assert a[1..][i] == a[i + 1] && a[1..][j] == a[j + 1];
        }
      }
      assert SortedBy(b[1..], key) by {
        forall i, j | 0 <= i < j < |b[1..]| ensures LexLessEq(key(b[1..][i]), key(b[1..][j])) {
          assert b[1..][i] == b[i + 1] && b[1..][j] == b[j + 1];
        }
      }
      SortedPermutationUnique(a[1..], b[1..], key);
    }
  }

  /** A row of a sequence whose keys are distinct occurs in it once. */
  lemma DistinctKeysOnce<T>(s: seq<T>, key: T -> string, p: int)
    requires DistinctKeys(s, key) && 0 <= p < |s|
    ensures multiset(s)[s[p]] == 1
  {
    assert s == s[..p] + [s[p]] + s[p + 1..];
    assert s[p] !in s[..p] by {
      forall k | 0 <= k < p ensures s[..p][k] != s[p] {
        assert key(s[k]) != key(s[p]);
      }
    }
    var tail := s[p + 1..];
    assert s[p] !in tail by {
      forall k | 0 <= k < |tail| ensures tail[k] != s[p] {
        assert key(s[p]) != key(s[p + 1 + k]);
      }
    }
    assert multiset(s) == multiset(s[..p]) + multiset{s[p]} + multiset(s[p + 1..]);
  }

  /** A row found at two positions occurs at least twice. */
  lemma TwiceCounted<T>(r: seq<T>, i: int, j: int)
    requires 0 <= i < j < |r| && r[i] == r[j]
    ensures multiset(r)[r[i]] >= 2
  {
    assert r == r[..j] + r[j..];
    assert r[i] == r[..j][i] && r[j] == r[j..][0];
    assert multiset(r) == multiset(r[..j]) + multiset(r[j..]);
  }

  /** With distinct keys, any key-ordered arrangement of the rows is `SortBy`'s. */
  lemma SortByIsTheOrder<T>(s: seq<T>, other: seq<T>, key: T -> string)
    requires DistinctKeys(s, key) && SortedBy(other, key) && multiset(other) == multiset(s)
    ensures other == SortBy(s, key)
  {
    var r := SortBy(s, key);
    assert DistinctKeys(r, key) by {
      forall i, j | 0 <= i < j < |r| ensures key(r[i]) != key(r[j]) {
        assert r[i] in multiset(s) && r[j] in multiset(s);
        var p :| 0 <= p < |s| && s[p] == r[i];
        var q :| 0 <= q < |s| && s[q] == r[j];
        if p == q {
          DistinctKeysOnce(s, key, p);
          TwiceCounted(r, i, j);
          assert false;
        } else if p < q {
          assert key(s[p]) != key(s[q]);
        } else {
          assert key(s[q]) != key(s[p]);
        }
      }
    }
    SortedPermutationUnique(r, other, key);
  }
}
