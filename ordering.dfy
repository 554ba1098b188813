/**
 * Python's ordering of strings and of `pathlib` paths, and the result of
 * `list.sort()` under such an ordering.
 *
 * Python compares two sequences by their first differing element, and a
 * proper prefix comes first: `str` compares code points this way, and a
 * `PurePosixPath` compares its list of parts this way (so paths are ordered
 * part by part, not as flat strings).
 */
module Ordering {

  /** `le` is a total order on `T`. */
  ghost predicate TotalOrder<T(!new)>(le: (T, T) -> bool) {
    && (forall x :: le(x, x))
    && (forall x, y :: le(x, y) && le(y, x) ==> x == y)
    && (forall x, y, z :: le(x, y) && le(y, z) ==> le(x, z))
    && (forall x, y :: le(x, y) || le(y, x))
  }

  /** Lexicographic `a <= b`: decided by the first differing element; a prefix comes first. */
  predicate LexLe<T(==)>(a: seq<T>, b: seq<T>, le: (T, T) -> bool)
    decreases |a|
  {
    if a == [] then true
    else if b == [] then false
    else if a[0] != b[0] then le(a[0], b[0])
    else LexLe(a[1..], b[1..], le)
  }

  predicate CharLe(x: char, y: char) {
    x <= y
  }

  /** Python's `a <= b` on `str`. */
  predicate StrLe(a: string, b: string) {
    LexLe(a, b, CharLe)
  }

  /** A resolved POSIX path, as the list of its parts. */
  type Path = seq<string>

  /** Python's `p <= q` on `PurePosixPath`: its parts compared as a list of strings. */
  predicate PathLe(p: Path, q: Path) {
    LexLe(p, q, StrLe)
  }

  lemma {:induction false} LexReflexive<T(!new)>(a: seq<T>, le: (T, T) -> bool)
    requires TotalOrder(le)
    ensures LexLe(a, a, le)
    decreases |a|
  {
    if a != [] { LexReflexive(a[1..], le); }
  }

  lemma {:induction false} LexAntisymmetric<T(!new)>(a: seq<T>, b: seq<T>, le: (T, T) -> bool)
    requires TotalOrder(le)
    requires LexLe(a, b, le) && LexLe(b, a, le)
    ensures a == b
    decreases |a|
  {
    if a != [] && b != [] && a[0] == b[0] {
      LexAntisymmetric(a[1..], b[1..], le);
      assert a == [a[0]] + a[1..] && b == [b[0]] + b[1..];
    }
  }

  lemma {:induction false} LexTransitive<T(!new)>(a: seq<T>, b: seq<T>, c: seq<T>, le: (T, T) -> bool)
    requires TotalOrder(le)
    requires LexLe(a, b, le) && LexLe(b, c, le)
    ensures LexLe(a, c, le)
    decreases |a|
  {
    if a != [] && b != [] && c != [] && a[0] == b[0] && b[0] == c[0] {
      LexTransitive(a[1..], b[1..], c[1..], le);
    }
  }

  lemma {:induction false} LexTotal<T(!new)>(a: seq<T>, b: seq<T>, le: (T, T) -> bool)
    requires TotalOrder(le)
    ensures LexLe(a, b, le) || LexLe(b, a, le)
    decreases |a|
  {
    if a != [] && b != [] && a[0] == b[0] {
      LexTotal(a[1..], b[1..], le);
    }
  }

  /** Lexicographic extension of a total order is a total order. */
  lemma LexTotalOrder<T(!new)>(le: (T, T) -> bool, lex: (seq<T>, seq<T>) -> bool)
    requires TotalOrder(le)
    requires forall a, b :: lex(a, b) == LexLe(a, b, le)
    ensures TotalOrder(lex)
  {
    forall a ensures lex(a, a) { LexReflexive(a, le); }
    forall a, b | lex(a, b) && lex(b, a) ensures a == b { LexAntisymmetric(a, b, le); }
    forall a, b, c | lex(a, b) && lex(b, c) ensures lex(a, c) { LexTransitive(a, b, c, le); }
    forall a, b ensures lex(a, b) || lex(b, a) { LexTotal(a, b, le); }
  }

  /** Python's string order is a total order. */
  lemma StrLeTotalOrder()
    ensures TotalOrder(StrLe)
  {
    LexTotalOrder(CharLe, StrLe);
  }

  /** Python's path order is a total order. */
  lemma PathLeTotalOrder()
    ensures TotalOrder(PathLe)
  {
    StrLeTotalOrder();
    LexTotalOrder(StrLe, PathLe);
  }

  /** `s` is in ascending order under `le`. */
  ghost predicate Sorted<T>(s: seq<T>, le: (T, T) -> bool) {
    forall i, j :: 0 <= i < j < |s| ==> le(s[i], s[j])
  }

  /** Places `x` before the first element it is `<=` to. */
  function Insert<T>(x: T, s: seq<T>, le: (T, T) -> bool): (r: seq<T>)
    ensures multiset(r) == multiset(s) + multiset{x}
    ensures |r| == |s| + 1
  {
    if s == [] then [x]
    else if le(x, s[0]) then [x] + s
    else
      assert s == [s[0]] + s[1..];
      [s[0]] + Insert(x, s[1..], le)
  }

  /**
   * The list `list.sort()` leaves behind, computed by insertion; under a
   * total order any sort yields this same list (`SortedByIsTheSort`).
   */
  function SortedBy<T>(s: seq<T>, le: (T, T) -> bool): (r: seq<T>)
    ensures multiset(r) == multiset(s)
    ensures |r| == |s|
  {
    if s == [] then []
    else
      assert s == s[..|s| - 1] + [s[|s| - 1]];
      Insert(s[|s| - 1], SortedBy(s[..|s| - 1], le), le)
  }

  lemma {:induction false} InsertSorted<T(!new)>(x: T, s: seq<T>, le: (T, T) -> bool)
    requires TotalOrder(le) && Sorted(s, le)
    ensures Sorted(Insert(x, s, le), le)
  {
    if s != [] && !le(x, s[0]) {
      InsertSorted(x, s[1..], le);
      var r := Insert(x, s[1..], le);
      forall j | 0 <= j < |r| ensures le(s[0], r[j]) {
        assert r[j] in multiset(s[1..]) + multiset{x};
        if r[j] != x {
          assert r[j] in s[1..];
        }
      }
    }
  }

  /** The sort's result is in ascending order. */
  lemma {:induction false} SortedBySorted<T(!new)>(s: seq<T>, le: (T, T) -> bool)
    requires TotalOrder(le)
    ensures Sorted(SortedBy(s, le), le)
  {
    if s != [] {
      SortedBySorted(s[..|s| - 1], le);
      InsertSorted(s[|s| - 1], SortedBy(s[..|s| - 1], le), le);
    }
  }

  /** Two ascending lists with the same elements are the same list (under a total order). */
  lemma {:induction false} SortedUnique<T(!new)>(a: seq<T>, b: seq<T>, le: (T, T) -> bool)
    requires TotalOrder(le)
    requires Sorted(a, le) && Sorted(b, le) && multiset(a) == multiset(b)
    ensures a == b
  {
    if a == [] {
      assert |b| == |multiset(b)| == 0;
    } else {
      assert a[0] in multiset(b);
      assert b != [];
      FirstIsLeast(a, b[0], le);
      FirstIsLeast(b, a[0], le);
      assert a[0] == b[0];
      DropFirst(a);
      DropFirst(b);
      SortedTail(a, le);
      SortedTail(b, le);
      SortedUnique(a[1..], b[1..], le);
      assert a == [a[0]] + a[1..] && b == [b[0]] + b[1..];
    }
  }

  /** The first element of an ascending list is `<=` every element of it. */
  lemma FirstIsLeast<T(!new)>(s: seq<T>, x: T, le: (T, T) -> bool)
    requires TotalOrder(le) && Sorted(s, le) && x in multiset(s)
    ensures le(s[0], x)
  {
    var i :| 0 <= i < |s| && s[i] == x;
    if i > 0 {
      assert le(s[0], s[i]);
    }
  }

  lemma DropFirst<T>(s: seq<T>)
    requires s != []
    ensures multiset(s[1..]) == multiset(s) - multiset{s[0]}
  {
    assert s == [s[0]] + s[1..];
  }

  lemma SortedTail<T>(s: seq<T>, le: (T, T) -> bool)
    requires s != [] && Sorted(s, le)
    ensures Sorted(s[1..], le)
  {
    forall i, j | 0 <= i < j < |s| - 1
      ensures le(s[1..][i], s[1..][j])
    {
      assert s[1..][i] == s[i + 1] && s[1..][j] == s[j + 1];
    }
  }

  /** Any ascending permutation of `s` is `SortedBy(s, le)`: the model of `list.sort()` is exact. */
  lemma SortedByIsTheSort<T(!new)>(s: seq<T>, r: seq<T>, le: (T, T) -> bool)
    requires TotalOrder(le)
    requires Sorted(r, le) && multiset(r) == multiset(s)
    ensures r == SortedBy(s, le)
  {
    SortedBySorted(s, le);
    SortedUnique(r, SortedBy(s, le), le);
  }
}
