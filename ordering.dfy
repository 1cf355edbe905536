/**
 * Python's ordering of `str` (by code point) and of `pathlib` paths (by
 * their tuple of parts), and `sorted(set(xs))`: the sorted list of the
 * distinct elements of `xs`.
 */
module Ordering {

  /** A strict total order on `T`. */
  ghost predicate StrictTotal<T(!new)>(less: (T, T) -> bool) {
    && (forall x :: !less(x, x))
    && (forall x, y, z :: less(x, y) && less(y, z) ==> less(x, z))
    && (forall x, y :: x != y ==> less(x, y) || less(y, x))
  }

  /** Lexicographic comparison, as Python compares two strings or two tuples. */
  predicate LexLess<T(==)>(a: seq<T>, b: seq<T>, less: (T, T) -> bool)
    decreases |a|
  {
    if |a| == 0 then |b| > 0
    else if |b| == 0 then false
    else if a[0] == b[0] then LexLess(a[1..], b[1..], less)
    else less(a[0], b[0])
  }

  predicate CharLess(x: char, y: char) { x < y }

  /** Python's `<` on `str`. */
  predicate StrLess(a: string, b: string) {
    LexLess(a, b, CharLess)
  }

  /** Python's `<` on POSIX paths: the tuples of their parts, compared as strings. */
  predicate PathLess(a: seq<string>, b: seq<string>) {
    LexLess(a, b, StrLess)
  }

  lemma {:induction false} LexIrreflexive<T(!new)>(a: seq<T>, less: (T, T) -> bool)
    requires StrictTotal(less)
    ensures !LexLess(a, a, less)
    decreases |a|
  {
    if |a| > 0 { LexIrreflexive(a[1..], less); }
  }

  lemma {:induction false} LexTransitive<T(!new)>(a: seq<T>, b: seq<T>, c: seq<T>, less: (T, T) -> bool)
    requires StrictTotal(less)
    requires LexLess(a, b, less) && LexLess(b, c, less)
    ensures LexLess(a, c, less)
    decreases |a|
  {
    if |a| > 0 && |b| > 0 && |c| > 0 && a[0] == b[0] && b[0] == c[0] {
      LexTransitive(a[1..], b[1..], c[1..], less);
    }
  }

  lemma {:induction false} LexTotal<T(!new)>(a: seq<T>, b: seq<T>, less: (T, T) -> bool)
    requires StrictTotal(less)
    requires a != b
    ensures LexLess(a, b, less) || LexLess(b, a, less)
    decreases |a|
  {
    if |a| > 0 && |b| > 0 && a[0] == b[0] {
      assert a == [a[0]] + a[1..] && b == [b[0]] + b[1..];
      LexTotal(a[1..], b[1..], less);
    }
  }

  lemma StrLessStrictTotal()
    ensures StrictTotal(StrLess)
  {
    assert StrictTotal(CharLess);
    forall a: string ensures !StrLess(a, a) { LexIrreflexive(a, CharLess); }
    forall a: string, b: string, c: string | StrLess(a, b) && StrLess(b, c) ensures StrLess(a, c) {
      LexTransitive(a, b, c, CharLess);
    }
    forall a: string, b: string | a != b ensures StrLess(a, b) || StrLess(b, a) {
      LexTotal(a, b, CharLess);
    }
  }

  lemma PathLessStrictTotal()
    ensures StrictTotal(PathLess)
  {
    StrLessStrictTotal();
    forall a: seq<string> ensures !PathLess(a, a) { LexIrreflexive(a, StrLess); }
    forall a: seq<string>, b: seq<string>, c: seq<string> | PathLess(a, b) && PathLess(b, c)
      ensures PathLess(a, c)
    {
      LexTransitive(a, b, c, StrLess);
    }
    forall a: seq<string>, b: seq<string> | a != b ensures PathLess(a, b) || PathLess(b, a) {
      LexTotal(a, b, StrLess);
    }
  }

  /** Strictly increasing, hence free of duplicates. */
  ghost predicate StrictlySorted<T>(s: seq<T>, less: (T, T) -> bool) {
    forall i, j :: 0 <= i < j < |s| ==> less(s[i], s[j])
  }

  /** Inserts `x` into a strictly sorted sequence unless it is already there. */
  function Insert<T(==)>(x: T, s: seq<T>, less: (T, T) -> bool): (r: seq<T>)
    decreases |s|
  {
    if s == [] then [x]
    else if x == s[0] then s
    else if less(x, s[0]) then [x] + s
    else [s[0]] + Insert(x, s[1..], less)
  }

  lemma {:induction false} InsertSpec<T(!new)>(x: T, s: seq<T>, less: (T, T) -> bool)
    requires StrictTotal(less) && StrictlySorted(s, less)
    ensures StrictlySorted(Insert(x, s, less), less)
    ensures forall y :: y in Insert(x, s, less) <==> y == x || y in s
    decreases |s|
  {
    if s != [] && x != s[0] && !less(x, s[0]) {
      InsertSpec(x, s[1..], less);
      var r := Insert(x, s, less);
      assert r == [s[0]] + Insert(x, s[1..], less);
      forall i, j | 0 <= i < j < |r| ensures less(r[i], r[j]) {
        if i == 0 {
          assert r[j] in Insert(x, s[1..], less);
          if r[j] != x {
            var k :| 0 <= k < |s[1..]| && s[1..][k] == r[j];
            assert s[k + 1] == r[j];
          }
        }
      }
      assert s == [s[0]] + s[1..];
    }
  }

  /** `sorted(set(xs))`. */
  function SortedSet<T(==)>(xs: seq<T>, less: (T, T) -> bool): (r: seq<T>)
    decreases |xs|
  {
    if xs == [] then [] else Insert(xs[|xs| - 1], SortedSet(xs[..|xs| - 1], less), less)
  }

  /** `sorted(set(xs))` lists each distinct element of `xs` once, in increasing order. */
  lemma {:induction false} SortedSetSpec<T(!new)>(xs: seq<T>, less: (T, T) -> bool)
    requires StrictTotal(less)
    ensures StrictlySorted(SortedSet(xs, less), less)
    ensures forall y :: y in SortedSet(xs, less) <==> y in xs
    decreases |xs|
  {
    if xs != [] {
      var init := xs[..|xs| - 1];
      SortedSetSpec(init, less);
      InsertSpec(xs[|xs| - 1], SortedSet(init, less), less);
      assert xs == init + [xs[|xs| - 1]];
    }
  }
}
