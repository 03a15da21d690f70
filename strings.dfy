/**
 * The handful of Python `str` operations that the command-line and bump code
 * rely on, written out over `seq<char>` so that their edge cases are explicit.
 */
module Strings {

  /** `sep.join(parts)` for a one-character separator. */
  function Join(parts: seq<string>, sep: char): string
  {
    if |parts| == 0 then ""
    else if |parts| == 1 then parts[0]
    else parts[0] + [sep] + Join(parts[1..], sep)
  }

  /** `s.split(sep)` for a one-character separator: never empty, and no piece holds `sep`. */
  function Split(s: string, sep: char): (parts: seq<string>)
    ensures |parts| >= 1
    ensures forall i :: 0 <= i < |parts| ==> sep !in parts[i]
  {
    if s == [] then [[]]
    else
      var rest := Split(s[1..], sep);
      if s[0] == sep then [[]] + rest
      else [[s[0]] + rest[0]] + rest[1..]
  }

  /** A split has one piece more than the string has separators. */
  lemma {:induction false} SplitCount(s: string, sep: char)
    ensures |Split(s, sep)| == multiset(s)[sep] + 1
  {
    if s != [] {
      SplitCount(s[1..], sep);
      assert s == [s[0]] + s[1..];
    }
  }

  /** Joining the pieces of a split gives back the string. */
  lemma {:induction false} JoinSplit(s: string, sep: char)
    ensures Join(Split(s, sep), sep) == s
  {
    if s != [] {
      var rest := Split(s[1..], sep);
      JoinSplit(s[1..], sep);
      if s[0] != sep && |rest| > 1 {
        assert Join(Split(s, sep), sep) == [s[0]] + (rest[0] + [sep] + Join(rest[1..], sep));
      }
    }
  }

  lemma {:induction false} SplitWithout(p: string, sep: char)
    requires sep !in p
    ensures Split(p, sep) == [p]
  {
    if p != [] {
      SplitWithout(p[1..], sep);
      assert [p[0]] + p[1..] == p;
    }
  }

  lemma {:induction false} SplitAfterPiece(p: string, t: string, sep: char)
    requires sep !in p
    ensures Split(p + [sep] + t, sep) == [p] + Split(t, sep)
  {
    if p == [] {
      assert p + [sep] + t == [sep] + t;
    } else {
      SplitAfterPiece(p[1..], t, sep);
      assert (p + [sep] + t)[1..] == p[1..] + [sep] + t;
      assert [p[0]] + p[1..] == p;
    }
  }

  /** Splitting a join gives back the pieces, provided no piece holds the separator. */
  lemma {:induction false} SplitJoin(parts: seq<string>, sep: char)
    requires |parts| > 0
    requires forall i :: 0 <= i < |parts| ==> sep !in parts[i]
    ensures Split(Join(parts, sep), sep) == parts
  {
    if |parts| == 1 {
      SplitWithout(parts[0], sep);
    } else {
      SplitJoin(parts[1..], sep);
      SplitAfterPiece(parts[0], Join(parts[1..], sep), sep);
    }
  }

  /** Index of the first occurrence of `c` in `s`. */
  function FirstIndex<T(==)>(s: seq<T>, c: T): (i: nat)
    requires c in s
    ensures i < |s| && s[i] == c && c !in s[..i]
  {
    if s[0] == c then 0 else 1 + FirstIndex(s[1..], c)
  }

  /** The first `c` in `p + [c] + q`, when `p` holds none, is the one after `p`. */
  lemma {:induction false} FirstIndexAfter<T>(p: seq<T>, q: seq<T>, c: T)
    requires c !in p
    ensures FirstIndex(p + [c] + q, c) == |p|
  {
    if p != [] {
      FirstIndexAfter(p[1..], q, c);
      assert (p + [c] + q)[1..] == p[1..] + [c] + q;
    }
  }

  /** `"".join(pieces)`. */
  function Concat(pieces: seq<string>): string
  {
    if pieces == [] then "" else pieces[0] + Concat(pieces[1..])
  }

  /**
   * The lines Python yields when iterating over a text file: each line keeps
   * its terminating '\n', the last one may lack it, and no line is empty.
   */
  function Lines(s: string): (lines: seq<string>)
    ensures Concat(lines) == s
    ensures forall i :: 0 <= i < |lines| ==> lines[i] != []
    ensures forall i, k :: 0 <= i < |lines| && 0 <= k < |lines[i]| - 1 ==> lines[i][k] != '\n'
    ensures forall i :: 0 <= i < |lines| - 1 ==> lines[i][|lines[i]| - 1] == '\n'
  {
    if s == [] then []
    else
      var rest := Lines(s[1..]);
      assert s == [s[0]] + s[1..];
      if s[0] == '\n' || rest == [] then [[s[0]]] + rest
      else
        assert Concat(rest) == rest[0] + Concat(rest[1..]);
        [[s[0]] + rest[0]] + rest[1..]
  }

  /** True when `o` occurs in `s` (`o in s` in Python); the empty string occurs everywhere. */
  predicate Contains(s: string, o: string)
  {
    o <= s || (s != [] && Contains(s[1..], o))
  }

  /**
   * `s.replace(o, n)`: every non-overlapping occurrence of `o`, scanning from
   * the left, becomes `n`. An empty `o` inserts `n` before every character and
   * at the end, as Python does.
   */
  function Replace(s: string, o: string, n: string): string
    decreases |s|, |o|
  {
    if o == [] then
      if s == [] then n else n + [s[0]] + Replace(s[1..], o, n)
    else if o <= s then n + Replace(s[|o|..], o, n)
    else if s == [] then []
    else [s[0]] + Replace(s[1..], o, n)
  }

  /** How many replacements `Replace` makes. */
  function Occurrences(s: string, o: string): nat
    requires o != []
  {
    if o <= s then 1 + Occurrences(s[|o|..], o)
    else if s == [] then 0
    else Occurrences(s[1..], o)
  }

  lemma {:induction false} ReplaceLength(s: string, o: string, n: string)
    requires o != []
    ensures |Replace(s, o, n)| == |s| + Occurrences(s, o) * (|n| - |o|)
  {
    if o <= s {
      var rest := s[|o|..];
      ReplaceLength(rest, o, n);
      assert Replace(s, o, n) == n + Replace(rest, o, n);
      assert Occurrences(s, o) == 1 + Occurrences(rest, o);
      MultiplyStep(Occurrences(rest, o), |n| - |o|);
    } else if s != [] {
      ReplaceLength(s[1..], o, n);
      assert Replace(s, o, n) == [s[0]] + Replace(s[1..], o, n);
      assert Occurrences(s, o) == Occurrences(s[1..], o);
    }
  }

  // Nonlinear-arithmetic helper for ReplaceLength.
  lemma MultiplyStep(k: nat, d: int)
    ensures (k + 1) * d == k * d + d
  {
  }

  // Nonlinear-arithmetic helper for ReplacePresent.
  lemma MultiplyNonzero(k: nat, d: int)
    requires k > 0 && d != 0
    ensures k * d != 0
  {
  }

  lemma {:induction false} ContainsOccurs(s: string, o: string)
    requires o != [] && Contains(s, o)
    ensures Occurrences(s, o) > 0
  {
    if !(o <= s) {
      ContainsOccurs(s[1..], o);
    }
  }

  lemma {:induction false} ReplaceSame(s: string, o: string)
    ensures Replace(s, o, o) == s
  {
    if o == [] {
      if s != [] { ReplaceSame(s[1..], o); }
    } else if o <= s {
      ReplaceSame(s[|o|..], o);
      assert s == o + s[|o|..];
    } else if s != [] {
      ReplaceSame(s[1..], o);
    }
  }

  lemma {:induction false} ReplaceAbsent(s: string, o: string, n: string)
    requires !Contains(s, o)
    ensures Replace(s, o, n) == s
  {
    if s != [] {
      ReplaceAbsent(s[1..], o, n);
    }
  }

  lemma {:induction false} ReplacePresent(s: string, o: string, n: string)
    requires o != n && Contains(s, o)
    ensures Replace(s, o, n) != s
  {
    if o == [] {
      assert |Replace(s, o, n)| > |s| by { ReplaceEmptyLength(s, n); }
    } else if |n| != |o| {
      ReplaceLength(s, o, n);
      ContainsOccurs(s, o);
      MultiplyNonzero(Occurrences(s, o), |n| - |o|);
    } else if o <= s {
      var r := Replace(s, o, n);
      assert r[..|n|] == n;
      assert s[..|o|] == o;
    } else {
      ReplacePresent(s[1..], o, n);
      assert s == [s[0]] + s[1..];
    }
  }

  lemma {:induction false} ReplaceEmptyLength(s: string, n: string)
    requires n != []
    ensures |Replace(s, [], n)| > |s|
  {
    if s != [] {
      ReplaceEmptyLength(s[1..], n);
    }
  }

  /**
   * A replacement changes the string exactly when the two texts differ and the
   * old one occurs in it.
   */
  lemma ReplaceChanges(s: string, o: string, n: string)
    ensures Replace(s, o, n) != s <==> o != n && Contains(s, o)
  {
    if o == n {
      ReplaceSame(s, o);
    } else if Contains(s, o) {
      ReplacePresent(s, o, n);
    } else {
      ReplaceAbsent(s, o, n);
    }
  }

  /** `s.strip(chars)`: drop every leading, then every trailing, character of `chars`. */
  function Strip(s: string, chars: set<char>): (r: string)
    ensures |r| <= |s|
    ensures r == [] || (r[0] !in chars && r[|r| - 1] !in chars)
  {
    StripTrailing(StripLeading(s, chars), chars)
  }

  /**
   * What `Strip` keeps is a slice of the input, and everything it drops on
   * either side is in `chars`: characters inside the slice are never touched.
   */
  lemma StripIsTrim(s: string, chars: set<char>)
    ensures exists i, j :: TrimmedAt(s, chars, i, j)
  {
    var lead := StripLeading(s, chars);
    var r := StripTrailing(lead, chars);
    var i := |s| - |lead|;
    var j := i + |r|;
    assert r == s[i..j] by {
      assert lead == s[i..] && r == lead[..|r|];
    }
    AllInSlice(s, 0, i, chars);
    assert s[..i] == s[0..i];
    AllInSlice(lead, |r|, |lead|, chars);
    assert s[j..] == lead[|r|..|lead|];
    assert TrimmedAt(s, chars, i, j);
  }

  /** `Strip(s, chars)` is `s[i..j]`, and all that lies outside that slice is in `chars`. */
  predicate TrimmedAt(s: string, chars: set<char>, i: int, j: int)
  {
    && 0 <= i <= j <= |s|
    && Strip(s, chars) == s[i..j]
    && AllIn(s[..i], chars)
    && AllIn(s[j..], chars)
  }

  lemma AllInSlice(t: string, lo: nat, hi: nat, chars: set<char>)
    requires lo <= hi <= |t|
    requires forall k :: lo <= k < hi ==> t[k] in chars
    ensures AllIn(t[lo..hi], chars)
  {
    forall k | 0 <= k < hi - lo ensures t[lo..hi][k] in chars {
      assert t[lo..hi][k] == t[lo + k];
    }
  }

  /** Every character of `t` is in `chars`. */
  predicate AllIn(t: string, chars: set<char>)
  {
    forall k :: 0 <= k < |t| ==> t[k] in chars
  }

  function StripLeading(s: string, chars: set<char>): (r: string)
    ensures |r| <= |s| && r == s[|s| - |r|..]
    ensures r == [] || r[0] !in chars
    ensures forall k :: 0 <= k < |s| - |r| ==> s[k] in chars
  {
    if s == [] || s[0] !in chars then s else StripLeading(s[1..], chars)
  }

  function StripTrailing(s: string, chars: set<char>): (r: string)
    ensures |r| <= |s| && r == s[..|r|]
    ensures r == [] || r[|r| - 1] !in chars
    ensures forall k :: |r| <= k < |s| ==> s[k] in chars
  {
    if s == [] || s[|s| - 1] !in chars then s else StripTrailing(s[..|s| - 1], chars)
  }

  /** The characters `str.strip()` removes when given no argument (ASCII range only). */
  const Whitespace: set<char> :=
    {' ', '\t', '\n', '\r', '\U{B}', '\U{C}', '\U{1C}', '\U{1D}', '\U{1E}', '\U{1F}'}

  /** `str.isdecimal()` restricted to ASCII digits: non-empty and all digits. */
  predicate IsDecimal(s: string)
  {
    s != [] && forall k :: 0 <= k < |s| ==> '0' <= s[k] <= '9'
  }

  /** `int(s)` for a decimal string. */
  function DecimalValue(s: string): nat
    requires IsDecimal(s)
  {
    if |s| == 1 then (s[0] - '0') as nat
    else 10 * DecimalValue(s[..|s| - 1]) + (s[|s| - 1] - '0') as nat
  }
}
