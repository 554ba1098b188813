/**
 * The handful of Python `str` operations the core relies on:
 * substring test (`sub in s`), `startswith`/`endswith`, negative slicing
 * (`s[:-k]`), `split(sep)` with `[-1]`, and `replace(c, '')`.
 */
module Strings {

  /** `s.startswith(p)` */
  predicate StartsWith(s: string, p: string) {
    |p| <= |s| && s[..|p|] == p
  }

  /** `s.endswith(p)` */
  predicate EndsWith(s: string, p: string) {
    |p| <= |s| && s[|s| - |p|..] == p
  }

  /** `sub in s`: `sub` occurs somewhere in `s` (the empty string occurs everywhere). */
  predicate Contains(s: string, sub: string)
    decreases |s|
  {
    StartsWith(s, sub) || (|s| > 0 && Contains(s[1..], sub))
  }

  /** `sub` occurs in `s` starting at index `i`. */
  predicate OccursAt(s: string, sub: string, i: nat) {
    i + |sub| <= |s| && s[i..i + |sub|] == sub
  }

  /** `sub in s` means exactly that `sub` occurs at some index of `s`. */
  lemma {:induction false} ContainsIffOccurs(s: string, sub: string)
    ensures Contains(s, sub) <==> exists i: nat :: OccursAt(s, sub, i)
    decreases |s|
  {
    if exists i: nat :: OccursAt(s, sub, i) {
      var i: nat :| OccursAt(s, sub, i);
      OccursContains(s, sub, i);
    }
    if Contains(s, sub) && !StartsWith(s, sub) {
      ContainsIffOccurs(s[1..], sub);
      var i: nat :| OccursAt(s[1..], sub, i);
      assert s[1..][i..i + |sub|] == s[i + 1..i + 1 + |sub|];
      assert OccursAt(s, sub, i + 1);
    } else if Contains(s, sub) {
      assert OccursAt(s, sub, 0);
    }
  }

  /** An occurrence at any index makes `sub in s` true. */
  lemma {:induction false} OccursContains(s: string, sub: string, i: nat)
    requires OccursAt(s, sub, i)
    ensures Contains(s, sub)
    decreases i
  {
    if i > 0 {
      assert s[1..][i - 1..i - 1 + |sub|] == s[i..i + |sub|];
      OccursContains(s[1..], sub, i - 1);
    }
  }

  /** Python's `s[:-k]` for `k > 0`: everything but the last `k` characters, or "" when `s` is shorter. */
  function DropLast(s: string, k: nat): (r: string)
    requires k > 0
    ensures |s| >= k ==> |r| == |s| - k
    ensures |s| < k ==> r == []
  {
    if |s| >= k then s[..|s| - k] else []
  }

  /** `s[:-k]` followed by the last `k` characters gives back `s`. */
  lemma DropLastRejoin(s: string, k: nat)
    requires 0 < k <= |s|
    ensures DropLast(s, k) + s[|s| - k..] == s
  {
    assert s[..|s| - k] + s[|s| - k..] == s;
  }

  function Last<T>(s: seq<T>): T
    requires |s| > 0
  {
    s[|s| - 1]
  }

  /**
   * `s.split(sep)` for a non-empty separator: the pieces between the
   * leftmost non-overlapping occurrences of `sep`, scanning left to right.
   */
  function Split(s: string, sep: string): (parts: seq<string>)
    requires |sep| > 0
    ensures |parts| >= 1
    ensures |Last(parts)| <= |s|
    decreases |s|
  {
    if |s| < |sep| then [s]
    else if StartsWith(s, sep) then [[]] + Split(s[|sep|..], sep)
    else
      var rest := Split(s[1..], sep);
      [[s[0]] + rest[0]] + rest[1..]
  }

  /** `sep.join(parts)` */
  function Join(parts: seq<string>, sep: string): string
    requires |parts| >= 1
  {
    if |parts| == 1 then parts[0] else parts[0] + sep + Join(parts[1..], sep)
  }

  /** Splitting and joining back on the same separator gives the original text. */
  lemma {:induction false} JoinSplit(s: string, sep: string)
    requires |sep| > 0
    ensures Join(Split(s, sep), sep) == s
    decreases |s|
  {
    if |s| < |sep| {
    } else if StartsWith(s, sep) {
      var rest := Split(s[|sep|..], sep);
      assert Split(s, sep) == [[]] + rest;
      JoinSplit(s[|sep|..], sep);
      assert ([[]] + rest)[1..] == rest;
      assert s == sep + s[|sep|..];
    } else {
      var t := s[1..];
      var rest := Split(t, sep);
      var parts := [[s[0]] + rest[0]] + rest[1..];
      assert Split(s, sep) == parts;
      JoinSplit(t, sep);
      assert s == [s[0]] + t;
      if |rest| > 1 {
        assert parts[1..] == rest[1..];
        var tail := Join(rest[1..], sep);
        assert Join(parts, sep) == ([s[0]] + rest[0]) + sep + tail;
        assert Join(rest, sep) == rest[0] + sep + tail;
        assert ([s[0]] + rest[0]) + sep + tail == [s[0]] + (rest[0] + sep + tail);
      }
    }
  }

  /** The first piece of a split is a prefix of the text. */
  lemma {:induction false} FirstPiecePrefix(s: string, sep: string)
    requires |sep| > 0
    ensures var p := Split(s, sep)[0]; |p| <= |s| && s[..|p|] == p
    decreases |s|
  {
    if |s| >= |sep| && !StartsWith(s, sep) {
      var rest := Split(s[1..], sep);
      FirstPiecePrefix(s[1..], sep);
      assert Split(s, sep)[0] == [s[0]] + rest[0];
      assert s[..1 + |rest[0]|] == [s[0]] + s[1..][..|rest[0]|];
    }
  }

  /** No piece of `s.split(sep)` holds `sep`: the text is cut at every occurrence. */
  lemma SplitPiecesFree(s: string, sep: string)
    requires |sep| > 0
    ensures forall k :: 0 <= k < |Split(s, sep)| ==> !Contains(Split(s, sep)[k], sep)
  {
    forall k | 0 <= k < |Split(s, sep)| ensures !Contains(Split(s, sep)[k], sep) {
      PieceFree(s, sep, k);
    }
  }

  lemma {:induction false} PieceFree(s: string, sep: string, k: nat)
    requires |sep| > 0 && k < |Split(s, sep)|
    ensures !Contains(Split(s, sep)[k], sep)
    decreases |s|
  {
    if |s| < |sep| {
      ShorterNotContains(s, sep);
    } else if StartsWith(s, sep) {
      assert Split(s, sep) == [[]] + Split(s[|sep|..], sep);
      if k == 0 {
        ShorterNotContains([], sep);
      } else {
        PieceFree(s[|sep|..], sep, k - 1);
      }
    } else {
      var rest := Split(s[1..], sep);
      assert Split(s, sep) == [[s[0]] + rest[0]] + rest[1..];
      if k == 0 {
        PieceFree(s[1..], sep, 0);
        FirstPiecePrefix(s[1..], sep);
        var p := [s[0]] + rest[0];
        assert p == s[..|p|];
        NotContainsCons(s[0], rest[0], sep);
      } else {
        PieceFree(s[1..], sep, k);
      }
    }
  }

  lemma ShorterNotContains(s: string, sub: string)
    requires |s| < |sub|
    ensures !Contains(s, sub)
    decreases |s|
  {
    if |s| > 0 { ShorterNotContains(s[1..], sub); }
  }

  lemma {:induction false} NotContainsCons(c: char, s: string, sub: string)
    requires !StartsWith([c] + s, sub) && !Contains(s, sub)
    ensures !Contains([c] + s, sub)
  {
    assert ([c] + s)[1..] == s;
  }

  /**
   * What `s.split(sep)[-1]` is: the text after the last occurrence of `sep`,
   * i.e. a suffix of `s` that holds no `sep`, preceded in `s` by `sep` unless
   * it is the whole of `s`; it is the whole of `s` exactly when `s` holds no
   * `sep`, which is also exactly when the split yields a single piece.
   */
  ghost predicate IsTextAfterLastSeparator(s: string, sep: string)
    requires |sep| > 0
  {
    var l := Last(Split(s, sep));
    && l == s[|s| - |l|..]
    && !Contains(l, sep)
    && (|l| < |s| ==> |l| + |sep| <= |s| && s[|s| - |l| - |sep|..|s| - |l|] == sep)
    && (l == s <==> !Contains(s, sep))
    && (|Split(s, sep)| > 1 <==> Contains(s, sep))
  }

  lemma SeparatorFirst(s: string, sep: string)
    requires |sep| > 0 && |s| >= |sep| && StartsWith(s, sep)
    requires IsTextAfterLastSeparator(s[|sep|..], sep)
    ensures IsTextAfterLastSeparator(s, sep)
  {
    var t := s[|sep|..];
    var rest := Split(t, sep);
    assert Split(s, sep) == [[]] + rest;
    var l := Last(rest);
    assert Last(Split(s, sep)) == l;
    assert |l| <= |t| < |s|;
    assert Contains(s, sep);
    assert |Split(s, sep)| > 1;
    assert s[|s| - |l|..] == t[|t| - |l|..];
    if |l| < |t| {
      assert s[|s| - |l| - |sep|..|s| - |l|] == t[|t| - |l| - |sep|..|t| - |l|];
    } else {
      assert s[|s| - |l| - |sep|..|s| - |l|] == s[..|sep|];
    }
  }

  lemma CharacterFirst(s: string, sep: string)
    requires |sep| > 0 && |s| >= |sep| && !StartsWith(s, sep)
    requires IsTextAfterLastSeparator(s[1..], sep)
    ensures IsTextAfterLastSeparator(s, sep)
  {
    var t := s[1..];
    var rest := Split(t, sep);
    assert Split(s, sep) == [[s[0]] + rest[0]] + rest[1..];
    var l := Last(Split(s, sep));
    if |rest| > 1 {
      assert l == Last(rest);
      assert |l| < |t| < |s|;
      assert Contains(s, sep);
      assert |Split(s, sep)| > 1;
      var k := |t| - |l|;
      assert s[|s| - |l|..] == t[k..];
      assert s[k + 1 - |sep|..k + 1] == t[k - |sep|..k];
    } else {
      assert rest[0] == t;
      assert s == [s[0]] + t;
      NotContainsCons(s[0], t, sep);
    }
  }

  /** `s.split(sep)[-1]` is the text after the last occurrence of `sep` (see above). */
  lemma {:induction false} LastPieceAfterLastSeparator(s: string, sep: string)
    requires |sep| > 0
    ensures IsTextAfterLastSeparator(s, sep)
    decreases |s|
  {
    if |s| < |sep| {
      ShorterNotContains(s, sep);
    } else if StartsWith(s, sep) {
      LastPieceAfterLastSeparator(s[|sep|..], sep);
      SeparatorFirst(s, sep);
    } else {
      LastPieceAfterLastSeparator(s[1..], sep);
      CharacterFirst(s, sep);
    }
  }

  /** `s.replace(c, '')` for a one-character `c`: every other character, in order. */
  function RemoveAll(s: string, c: char): (r: string)
    ensures c !in r
    ensures |r| <= |s|
  {
    if s == [] then []
    else if s[0] == c then RemoveAll(s[1..], c) else [s[0]] + RemoveAll(s[1..], c)
  }

  /** Removal keeps every other character exactly as often as before. */
  lemma {:induction false} RemoveAllCounts(s: string, c: char)
    ensures multiset(RemoveAll(s, c)) == multiset(s)[c := 0]
  {
    if s != [] {
      assert s == [s[0]] + s[1..];
      RemoveAllCounts(s[1..], c);
    }
  }

  /**
   * Removal works piece by piece: removing `c` from a concatenation removes
   * it from each part and keeps the parts in order.
   */
  lemma {:induction false} RemoveAllConcat(a: string, b: string, c: char)
    ensures RemoveAll(a + b, c) == RemoveAll(a, c) + RemoveAll(b, c)
    decreases |a|
  {
    if a == [] {
      assert a + b == b;
    } else {
      var ab := a + b;
      assert ab[0] == a[0] && ab[1..] == a[1..] + b;
      RemoveAllConcat(a[1..], b, c);
      var keep := if a[0] == c then [] else [a[0]];
      assert RemoveAll(ab, c) == keep + RemoveAll(a[1..] + b, c);
      assert RemoveAll(a, c) == keep + RemoveAll(a[1..], c);
    }
  }

  /** A single character is dropped exactly when it is `c`. */
  lemma RemoveAllSingle(x: char, c: char)
    ensures RemoveAll([x], c) == if x == c then [] else [x]
  {
    assert [x][1..] == [];
  }

  /** Removal keeps the relative order: it is the identity on text without `c`. */
  lemma {:induction false} RemoveAllAbsent(s: string, c: char)
    requires c !in s
    ensures RemoveAll(s, c) == s
  {
    if s != [] { RemoveAllAbsent(s[1..], c); }
  }
}
