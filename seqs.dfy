/**
 * Sequence operations the table code is built from: selecting the rows a
 * boolean mask marks (`df[mask]`, `dropna`) and listing the distinct values
 * of a column in order of first appearance (`Series.unique`).
 */
module Seqs {

  /** The elements of `s` for which `p` holds, in their original order. */
  function Keep<T(==)>(s: seq<T>, p: T -> bool): (r: seq<T>)
    ensures |r| <= |s|
    ensures forall x :: x in r ==> x in s && p(x)
  {
    if s == [] then [] else (if p(s[0]) then [s[0]] else []) + Keep(s[1..], p)
  }

  /** Every element that satisfies `p` is kept as often as it occurs; no other element is kept. */
  lemma {:induction false} KeepCount<T>(s: seq<T>, p: T -> bool, x: T)
    ensures multiset(Keep(s, p))[x] == if p(x) then multiset(s)[x] else 0
  {
    if s != [] {
      KeepCount(s[1..], p, x);
      assert s == [s[0]] + s[1..];
    }
  }

  /** Membership in the selection, in both directions. */
  lemma KeepMember<T>(s: seq<T>, p: T -> bool, x: T)
    ensures x in Keep(s, p) <==> x in s && p(x)
  {
    KeepCount(s, p, x);
    assert x in Keep(s, p) <==> multiset(Keep(s, p))[x] > 0;
    assert x in s <==> multiset(s)[x] > 0;
  }

  /** A non-empty sequence, alone and ahead of another, seen as its first element and the rest. */
  lemma SplitFirst<T>(a: seq<T>, b: seq<T>)
    requires a != []
    ensures a == [a[0]] + a[1..]
    ensures a + b == [a[0]] + (a[1..] + b)
  {
  }

  lemma KeepCons<T>(x: T, s: seq<T>, p: T -> bool)
    ensures Keep([x] + s, p) == (if p(x) then [x] else []) + Keep(s, p)
  {
    assert ([x] + s)[0] == x && ([x] + s)[1..] == s;
  }

  /** Selection distributes over concatenation: rows of an earlier part stay ahead of rows of a later part. */
  lemma {:induction false} KeepAppend<T>(a: seq<T>, b: seq<T>, p: T -> bool)
    ensures Keep(a + b, p) == Keep(a, p) + Keep(b, p)
  {
    if a == [] {
      assert a + b == b;
    } else {
      var x, rest := a[0], a[1..];
      var head := if p(x) then [x] else [];
      SplitFirst(a, b);
      calc {
        Keep(a + b, p);
        Keep([x] + (rest + b), p);
        { KeepCons(x, rest + b, p); }
        head + Keep(rest + b, p);
        { KeepAppend(rest, b, p); }
        head + (Keep(rest, p) + Keep(b, p));
        (head + Keep(rest, p)) + Keep(b, p);
        { KeepCons(x, rest, p); }
        Keep([x] + rest, p) + Keep(b, p);
        Keep(a, p) + Keep(b, p);
      }
    }
  }

  /** The selection is empty exactly when no element satisfies `p`. */
  lemma KeepEmpty<T>(s: seq<T>, p: T -> bool)
    ensures Keep(s, p) == [] <==> forall x :: x in s ==> !p(x)
  {
    if Keep(s, p) != [] {
      KeepMember(s, p, Keep(s, p)[0]);
    }
    forall x | x in s && p(x) ensures x in Keep(s, p) {
      KeepMember(s, p, x);
    }
  }

  /** The sequences `f` gives for the elements of `s`, concatenated in order. */
  function FlatMap<T, U>(s: seq<T>, f: T -> seq<U>): seq<U> {
    if s == [] then [] else f(s[0]) + FlatMap(s[1..], f)
  }

  /** When `f` yields at most one element per input, FlatMap is no longer than its input. */
  lemma {:induction false} FlatMapAtMostOne<T, U>(s: seq<T>, f: T -> seq<U>)
    requires forall x :: x in s ==> |f(x)| <= 1
    ensures |FlatMap(s, f)| <= |s|
  {
    if s != [] {
      FlatMapAtMostOne(s[1..], f);
    }
  }

  lemma FlatMapCons<T, U>(x: T, s: seq<T>, f: T -> seq<U>)
    ensures FlatMap([x] + s, f) == f(x) + FlatMap(s, f)
  {
    assert ([x] + s)[0] == x && ([x] + s)[1..] == s;
  }

  /** FlatMap distributes over concatenation: what an earlier part yields comes first. */
  lemma {:induction false} FlatMapAppend<T, U>(a: seq<T>, b: seq<T>, f: T -> seq<U>)
    ensures FlatMap(a + b, f) == FlatMap(a, f) + FlatMap(b, f)
  {
    if a == [] {
      assert a + b == b;
    } else {
      var x, rest := a[0], a[1..];
      SplitFirst(a, b);
      calc {
        FlatMap(a + b, f);
        FlatMap([x] + (rest + b), f);
        { FlatMapCons(x, rest + b, f); }
        f(x) + FlatMap(rest + b, f);
        { FlatMapAppend(rest, b, f); }
        f(x) + (FlatMap(rest, f) + FlatMap(b, f));
        (f(x) + FlatMap(rest, f)) + FlatMap(b, f);
        { FlatMapCons(x, rest, f); }
        FlatMap([x] + rest, f) + FlatMap(b, f);
        FlatMap(a, f) + FlatMap(b, f);
      }
    }
  }

  /** No value occurs twice. */
  predicate NoDuplicates<T(==)>(s: seq<T>) {
    forall i, j :: 0 <= i < j < |s| ==> s[i] != s[j]
  }

  /** The distinct values of `s`, each listed once, in order of first appearance. */
  function Unique<T(==)>(s: seq<T>): (r: seq<T>)
    ensures forall x :: x in r ==> x in s
    ensures forall i :: 0 <= i < |s| ==> s[i] in r
    ensures NoDuplicates(r)
  {
    if s == [] then []
    else
      var u := Unique(s[..|s| - 1]);
      assert s == s[..|s| - 1] + [s[|s| - 1]];
      if s[|s| - 1] in u then u else u + [s[|s| - 1]]
  }

  /** The values listed for a prefix of the column are listed first, in the same order. */
  lemma {:induction false} UniquePrefix<T>(s: seq<T>, t: seq<T>)
    ensures Unique(s) <= Unique(s + t)
    decreases |t|
  {
    if t != [] {
      var t' := t[..|t| - 1];
      UniquePrefix(s, t');
      assert (s + t)[..|s + t| - 1] == s + t';
    } else {
      assert s + t == s;
    }
  }
}
