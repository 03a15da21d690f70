/**
 * Python's ordering of `str` and of `(str, str)` tuples, and `sorted()` of a
 * set of such tuples: the one strictly increasing sequence holding exactly
 * the set's elements.
 */
module Order {

  /** `a < b` on Python strings: code point by code point, a proper prefix first. */
  predicate StrLess(a: string, b: string)
  {
    if a == [] then b != []
    else if b == [] then false
    else if a[0] != b[0] then a[0] < b[0]
    else StrLess(a[1..], b[1..])
  }

  lemma {:induction false} StrLessIrreflexive(a: string)
    ensures !StrLess(a, a)
  {
    if a != [] { StrLessIrreflexive(a[1..]); }
  }

  lemma {:induction false} StrLessAsymmetric(a: string, b: string)
    ensures !(StrLess(a, b) && StrLess(b, a))
  {
    if a != [] && b != [] && a[0] == b[0] { StrLessAsymmetric(a[1..], b[1..]); }
  }

  lemma {:induction false} StrLessTransitive(a: string, b: string, c: string)
    requires StrLess(a, b) && StrLess(b, c)
    ensures StrLess(a, c)
  {
    if a != [] && a[0] == b[0] && b[0] == c[0] {
      StrLessTransitive(a[1..], b[1..], c[1..]);
    }
  }

  lemma {:induction false} StrLessTotal(a: string, b: string)
    ensures a == b || StrLess(a, b) || StrLess(b, a)
  {
    if a != [] && b != [] && a[0] == b[0] {
      StrLessTotal(a[1..], b[1..]);
      if a[1..] == b[1..] {
        assert a == [a[0]] + a[1..] && b == [b[0]] + b[1..];
      }
    }
  }

  /** A pair of strings, compared as a Python tuple. */
  type Pair = (string, string)

  /** `x < y` on Python tuples of two strings. */
  predicate PairLess(x: Pair, y: Pair)
  {
    StrLess(x.0, y.0) || (x.0 == y.0 && StrLess(x.1, y.1))
  }

  lemma PairLessAsymmetric(x: Pair, y: Pair)
    ensures !(PairLess(x, y) && PairLess(y, x))
  {
    StrLessAsymmetric(x.0, y.0);
    StrLessAsymmetric(x.1, y.1);
    StrLessIrreflexive(x.0);
  }

  lemma PairLessTransitive(x: Pair, y: Pair, z: Pair)
    requires PairLess(x, y) && PairLess(y, z)
    ensures PairLess(x, z)
  {
    if StrLess(x.0, y.0) && StrLess(y.0, z.0) {
      StrLessTransitive(x.0, y.0, z.0);
    } else if x.0 == y.0 && y.0 == z.0 {
      StrLessTransitive(x.1, y.1, z.1);
    }
  }

  lemma PairLessTotal(x: Pair, y: Pair)
    ensures x == y || PairLess(x, y) || PairLess(y, x)
  {
    StrLessTotal(x.0, y.0);
    StrLessTotal(x.1, y.1);
  }

  /** Each element before every later one: sorted and free of duplicates. */
  predicate StrictlySorted(s: seq<Pair>)
  {
    forall i, j :: 0 <= i < j < |s| ==> PairLess(s[i], s[j])
  }

  function Elements(s: seq<Pair>): set<Pair>
  {
    set x | x in s
  }

  /** `m` comes before every other element of `s`. */
  predicate IsLeast(m: Pair, s: set<Pair>)
  {
    m in s && forall x :: x in s && x != m ==> PairLess(m, x)
  }

  lemma {:induction false} LeastExists(s: set<Pair>)
    requires s != {}
    ensures exists m :: IsLeast(m, s)
    decreases |s|
  {
    var x :| x in s;
    var rest := s - {x};
    if rest != {} {
      LeastExists(rest);
      var m :| IsLeast(m, rest);
      PairLessTotal(x, m);
      if PairLess(x, m) {
        forall y | y in s && y != x ensures PairLess(x, y) {
          if y != m { PairLessTransitive(x, m, y); }
        }
        assert IsLeast(x, s);
      } else {
        assert x != m && PairLess(m, x);
        assert IsLeast(m, s);
      }
    } else {
      assert s == {x};
      assert IsLeast(x, s);
    }
  }

  /** Two strictly sorted sequences with the same elements are the same sequence. */
  lemma {:induction false} SortedUnique(a: seq<Pair>, b: seq<Pair>)
    requires StrictlySorted(a) && StrictlySorted(b) && Elements(a) == Elements(b)
    ensures a == b
  {
    if a != [] {
      assert a[0] in Elements(b);
      assert b != [];
      if a[0] != b[0] {
        var j :| 0 <= j < |b| && b[j] == a[0];
        assert b[0] in Elements(a);
        var i :| 0 <= i < |a| && a[i] == b[0];
        PairLessAsymmetric(a[0], b[0]);
        assert false;
      }
      forall x ensures x in Elements(a[1..]) <==> x in Elements(b[1..]) {
        if x in Elements(a[1..]) {
          var i :| 0 <= i < |a[1..]| && a[1..][i] == x;
          PairLessAsymmetric(a[0], x);
          assert x != a[0] && x in Elements(b);
        }
        if x in Elements(b[1..]) {
          var i :| 0 <= i < |b[1..]| && b[1..][i] == x;
          PairLessAsymmetric(b[0], x);
          assert x != b[0] && x in Elements(a);
        }
      }
      SortedUnique(a[1..], b[1..]);
      assert a == [a[0]] + a[1..] && b == [b[0]] + b[1..];
    }
  }

  /** Putting before a sorted sequence an element less than all of it keeps it sorted. */
  lemma SortedCons(m: Pair, rest: seq<Pair>)
    requires StrictlySorted(rest)
    requires forall x :: x in Elements(rest) ==> PairLess(m, x)
    ensures StrictlySorted([m] + rest) && Elements([m] + rest) == {m} + Elements(rest)
  {
    var r := [m] + rest;
    forall i, j | 0 <= i < j < |r| ensures PairLess(r[i], r[j]) {
      assert r[j] == rest[j - 1] && r[j] in Elements(rest);
      if i > 0 { assert r[i] == rest[i - 1]; }
    }
  }

  /** Appending the least of the elements not yet placed keeps the selection loop's invariant. */
  lemma SortedSnoc(r: seq<Pair>, rest: set<Pair>, m: Pair)
    requires StrictlySorted(r) && Elements(r) !! rest
    requires forall i, x :: 0 <= i < |r| && x in rest ==> PairLess(r[i], x)
    requires IsLeast(m, rest)
    ensures StrictlySorted(r + [m])
    ensures Elements(r + [m]) == Elements(r) + {m} && Elements(r + [m]) !! rest - {m}
    ensures forall i, x :: 0 <= i < |r + [m]| && x in rest - {m} ==> PairLess((r + [m])[i], x)
  {
    var r' := r + [m];
    forall i, j | 0 <= i < j < |r'| ensures PairLess(r'[i], r'[j]) {
      if j < |r| { assert r'[i] == r[i] && r'[j] == r[j]; } else { assert r'[i] == r[i]; }
    }
    forall i, x | 0 <= i < |r'| && x in rest - {m} ensures PairLess(r'[i], x) {
      if i < |r| { assert r'[i] == r[i]; }
    }
  }

  /** The value of Python's `sorted(s)`. */
  ghost function SortedOf(s: set<Pair>): (r: seq<Pair>)
    ensures StrictlySorted(r) && Elements(r) == s
    decreases |s|
  {
    if s == {} then []
    else
      LeastExists(s);
      var m :| IsLeast(m, s);
      var rest := SortedOf(s - {m});
      SortedCons(m, rest);
      [m] + rest
  }

  /** `sorted(s)`: repeatedly takes the least element left. */
  method Sorted(s: set<Pair>) returns (r: seq<Pair>)
    ensures StrictlySorted(r) && Elements(r) == s
  {
    r := [];
    var rest := s;
    while rest != {}
      invariant StrictlySorted(r)
      invariant Elements(r) + rest == s && Elements(r) !! rest
      invariant forall i, x :: 0 <= i < |r| && x in rest ==> PairLess(r[i], x)
      decreases |rest|
    {
      LeastExists(rest);
      var m :| IsLeast(m, rest);
      SortedSnoc(r, rest, m);
      r := r + [m];
      rest := rest - {m};
    }
  }
}
