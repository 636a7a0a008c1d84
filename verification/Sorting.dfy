/** The library sort (`slices.Sort`, `Array.prototype.sort`) and the order on strings. */
module Sorting {
  import opened Common

  ghost predicate TotalOn<T>(s: seq<T>, le: (T, T) -> bool) {
    forall x, y | x in s && y in s :: le(x, y) || le(y, x)
  }

  ghost predicate TransitiveOn<T>(s: seq<T>, le: (T, T) -> bool) {
    forall x, y, z | x in s && y in s && z in s && le(x, y) && le(y, z) :: le(x, z)
  }

  ghost predicate AntisymmetricOn<T>(s: seq<T>, le: (T, T) -> bool) {
    forall x, y | x in s && y in s && le(x, y) && le(y, x) :: x == y
  }

  ghost predicate Sorted<T>(s: seq<T>, le: (T, T) -> bool) {
    forall i, j | 0 <= i < j < |s| :: le(s[i], s[j])
  }

  function Insert<T>(s: seq<T>, x: T, le: (T, T) -> bool): (r: seq<T>)
    ensures multiset(r) == multiset(s) + multiset{x}
  {
    if s == [] then [x]
    else
      var n := |s| - 1;
      assert s == s[..n] + [s[n]];
      if le(s[n], x) then s + [x]
      else Insert(s[..n], x, le) + [s[n]]
  }

  function Sort<T>(s: seq<T>, le: (T, T) -> bool): (r: seq<T>)
    ensures multiset(r) == multiset(s)
  {
    if s == [] then []
    else
      var n := |s| - 1;
      assert s == s[..n] + [s[n]];
      Insert(Sort(s[..n], le), s[n], le)
  }

  lemma SameElements<T>(a: seq<T>, b: seq<T>)
    requires multiset(a) == multiset(b)
    ensures |a| == |b|
    ensures forall x :: x in a <==> x in b
  {
    assert |multiset(a)| == |multiset(b)|;
    forall x ensures x in a <==> x in b {
      assert x in a <==> x in multiset(a);
      assert x in b <==> x in multiset(b);
    }
  }

  ghost predicate Distinct<T>(s: seq<T>) {
    forall i, j | 0 <= i < j < |s| :: s[i] != s[j]
  }

  lemma Repeated<T>(s: seq<T>, i: nat, j: nat)
    requires i < j < |s| && s[i] == s[j]
    ensures multiset(s)[s[i]] >= 2
  {
    assert s == s[..j] + [s[j]] + s[j + 1..];
    assert s[i] in multiset(s[..j]) by { assert s[..j][i] == s[i]; }
  }

  lemma {:induction false} DistinctOnce<T>(s: seq<T>, x: T)
    requires Distinct(s)
    ensures multiset(s)[x] <= 1
  {
    if s != [] {
      var n := |s| - 1;
      DistinctOnce(s[..n], x);
      assert s == s[..n] + [s[n]];
      if s[n] == x && x in s[..n] {
        assert false;
      }
    }
  }

  /** Reordering a list without repetitions does not create any. */
  lemma ReorderedDistinct<T>(a: seq<T>, b: seq<T>)
    requires multiset(a) == multiset(b) && Distinct(a)
    ensures Distinct(b)
  {
    forall i, j | 0 <= i < j < |b| ensures b[i] != b[j] {
      DistinctOnce(a, b[i]);
      if b[i] == b[j] {
        Repeated(b, i, j);
      }
    }
  }

  lemma InsertMember<T>(s: seq<T>, x: T, le: (T, T) -> bool, y: T)
    requires y in Insert(s, x, le)
    ensures y == x || y in s
  {
    assert y in multiset(Insert(s, x, le));
  }

  lemma {:induction false} InsertSorted<T>(s: seq<T>, x: T, le: (T, T) -> bool)
    requires Sorted(s, le)
    requires TotalOn(s + [x], le) && TransitiveOn(s + [x], le)
    ensures Sorted(Insert(s, x, le), le)
  {
    if s != [] {
      var n := |s| - 1;
      assert s[n] in s + [x] && x in s + [x];
      if le(s[n], x) {
        forall i | 0 <= i < |s| ensures le(s[i], x) {
          assert s[i] in s + [x];
        }
      } else {
        assert forall y | y in s[..n] + [x] :: y in s + [x];
        InsertSorted(s[..n], x, le);
        var r := Insert(s[..n], x, le);
        forall i | 0 <= i < |r| ensures le(r[i], s[n]) {
          InsertMember(s[..n], x, le, r[i]);
        }
      }
    }
  }

  lemma {:induction false} SortSorted<T>(s: seq<T>, le: (T, T) -> bool)
    requires TotalOn(s, le) && TransitiveOn(s, le)
    ensures Sorted(Sort(s, le), le)
  {
    if s != [] {
      var n := |s| - 1;
      SortSorted(s[..n], le);
      var r := Sort(s[..n], le);
      SameElements(r, s[..n]);
      forall y | y in r + [s[n]] ensures y in s {
        if y in r {
          SameElements(r, s[..n]);
          assert y in multiset(s[..n]);
        }
      }
      InsertSorted(r, s[n], le);
    }
  }

  lemma SameLast<T>(a: seq<T>, b: seq<T>, le: (T, T) -> bool)
    requires multiset(a) == multiset(b) && a != []
    requires Sorted(a, le) && Sorted(b, le)
    requires AntisymmetricOn(a, le)
    ensures |a| == |b| && a[|a| - 1] == b[|b| - 1]
  {
    SameElements(a, b);
    var n := |a| - 1;
    assert a[n] in b && b[n] in a by {
      assert a[n] in a && b[n] in b;
    }
    var i :| 0 <= i < |b| && b[i] == a[n];
    var j :| 0 <= j < |a| && a[j] == b[n];
    assert i == n || le(b[i], b[n]);
    assert j == n || le(a[j], a[n]);
  }

  lemma MultisetInit<T>(s: seq<T>)
    requires s != []
    ensures multiset(s[..|s| - 1]) == multiset(s) - multiset{s[|s| - 1]}
  {
    assert s == s[..|s| - 1] + [s[|s| - 1]];
  }

  lemma AntisymmetricPrefix<T>(s: seq<T>, n: nat, le: (T, T) -> bool)
    requires n <= |s| && AntisymmetricOn(s, le)
    ensures AntisymmetricOn(s[..n], le)
  {
    forall x, y | x in s[..n] && y in s[..n] && le(x, y) && le(y, x) ensures x == y {
      assert x in s && y in s;
    }
  }

  lemma SortedPrefix<T>(s: seq<T>, n: nat, le: (T, T) -> bool)
    requires n <= |s| && Sorted(s, le)
    ensures Sorted(s[..n], le)
  {
  }

  /** Under an antisymmetric order, a multiset has exactly one sorted listing. */
  lemma {:induction false} SortedUnique<T>(a: seq<T>, b: seq<T>, le: (T, T) -> bool)
    requires multiset(a) == multiset(b)
    requires Sorted(a, le) && Sorted(b, le)
    requires AntisymmetricOn(a, le)
    ensures a == b
  {
    SameElements(a, b);
    if a != [] {
      var n := |a| - 1;
      SameLast(a, b, le);
      MultisetInit(a);
      MultisetInit(b);
      AntisymmetricPrefix(a, n, le);
      SortedPrefix(a, n, le);
      SortedPrefix(b, n, le);
      SortedUnique(a[..n], b[..n], le);
      InitAndLast(a);
      InitAndLast(b);
    }
  }

  /** Byte-wise string order, as `strings.Compare(a, b) <= 0`. */
  predicate StrLe(a: string, b: string) {
    a == "" || (b != "" && (a[0] < b[0] || (a[0] == b[0] && StrLe(a[1..], b[1..]))))
  }

  /** Up to `k` the strings are equal, and there the first has ended or has the smaller character. */
  ghost predicate SmallerAt(a: string, b: string, k: nat) {
    && k <= |a| && k <= |b| && a[..k] == b[..k]
    && (k == |a| || (k < |b| && a[k] < b[k]))
  }

  /** One string is at most another exactly when it is a prefix of it or smaller where they first differ. */
  lemma {:induction false} StrLeIff(a: string, b: string)
    ensures StrLe(a, b) <==> exists k :: SmallerAt(a, b, k)
  {
    if a == "" {
      assert SmallerAt(a, b, 0);
    } else if b != "" && a[0] == b[0] {
      StrLeIff(a[1..], b[1..]);
      if k: nat :| SmallerAt(a[1..], b[1..], k) {
        assert a[..k + 1] == [a[0]] + a[1..][..k] && b[..k + 1] == [b[0]] + b[1..][..k];
        assert SmallerAt(a, b, k + 1);
      }
      if k: nat :| SmallerAt(a, b, k) {
        assert a[1..][..k - 1] == a[..k][1..] && b[1..][..k - 1] == b[..k][1..];
        assert SmallerAt(a[1..], b[1..], k - 1);
      }
    } else if b != "" {
      if a[0] < b[0] {
        assert SmallerAt(a, b, 0);
      }
      if k: nat :| SmallerAt(a, b, k) {
        assert k > 0 ==> a[..k][0] == b[..k][0];
      }
    }
  }

  lemma {:induction false} StrLeTotal(a: string, b: string)
    ensures StrLe(a, b) || StrLe(b, a)
  {
    if a != "" && b != "" {
      StrLeTotal(a[1..], b[1..]);
    }
  }

  lemma {:induction false} StrLeTransitive(a: string, b: string, c: string)
    requires StrLe(a, b) && StrLe(b, c)
    ensures StrLe(a, c)
  {
    if a != "" && a[0] == b[0] && b[0] == c[0] {
      StrLeTransitive(a[1..], b[1..], c[1..]);
    }
  }

  lemma {:induction false} StrLeAntisymmetric(a: string, b: string)
    requires StrLe(a, b) && StrLe(b, a)
    ensures a == b
  {
    if a != "" {
      StrLeAntisymmetric(a[1..], b[1..]);
      assert a == [a[0]] + a[1..] && b == [b[0]] + b[1..];
    }
  }

  lemma StrLeOrder(s: seq<string>)
    ensures TotalOn(s, StrLe) && TransitiveOn(s, StrLe) && AntisymmetricOn(s, StrLe)
  {
    forall x, y | x in s && y in s ensures StrLe(x, y) || StrLe(y, x) {
      StrLeTotal(x, y);
    }
    forall x, y, z | x in s && y in s && z in s && StrLe(x, y) && StrLe(y, z) ensures StrLe(x, z) {
      StrLeTransitive(x, y, z);
    }
    forall x, y | x in s && y in s && StrLe(x, y) && StrLe(y, x) ensures x == y {
      StrLeAntisymmetric(x, y);
    }
  }

  /** Sorting strings depends only on which strings occur, and how often. */
  lemma SortStringsCanonical(a: seq<string>, b: seq<string>)
    requires multiset(a) == multiset(b)
    ensures Sort(a, StrLe) == Sort(b, StrLe)
  {
    StrLeOrder(a);
    StrLeOrder(b);
    SortSorted(a, StrLe);
    SortSorted(b, StrLe);
    StrLeOrder(Sort(a, StrLe));
    SortedUnique(Sort(a, StrLe), Sort(b, StrLe), StrLe);
  }
}
