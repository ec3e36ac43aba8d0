/** The JavaScript `<` on strings (lexicographic by UTF-16 code unit, a proper prefix
    first) and the stable sort that Array.prototype.sort performs when its comparison
    looks only at a string key of each element. */
module Ordering {

  /** The UTF-16 code units of one character: the character itself inside the Basic
      Multilingual Plane, a surrogate pair above it. */
  function CodeUnits(c: char): (u: seq<int>)
    ensures 1 <= |u| <= 2
  {
    var n := c as int;
    if n < 0x1_0000 then [n]
    else [0xD800 + (n - 0x1_0000) / 0x400, 0xDC00 + (n - 0x1_0000) % 0x400]
  }

  /** The UTF-16 encoding of a string: the code units JavaScript compares. */
  function Utf16(s: string): seq<int>
  {
    if s == [] then [] else CodeUnits(s[0]) + Utf16(s[1..])
  }

  /** Lexicographic order on code units, a proper prefix first. */
  predicate UnitsBelow(a: seq<int>, b: seq<int>)
    decreases |a|
  {
    if a == [] then b != []
    else if b == [] then false
    else if a[0] != b[0] then a[0] < b[0]
    else UnitsBelow(a[1..], b[1..])
  }

  /** A number for each character whose order is the order of the characters' first
      code units: characters below the surrogate range come first, then those above
      the Basic Multilingual Plane (their first unit is a high surrogate), then the
      rest of the Basic Multilingual Plane. */
  function Rank(c: char): int
  {
    var n := c as int;
    if n < 0xD800 || n >= 0x1_0000 then n else n + 0x11_0000
  }

  /** a < b on JavaScript strings, one character at a time. */
  predicate Below(a: string, b: string)
    decreases |a|
  {
    if a == [] then b != []
    else if b == [] then false
    else if a[0] != b[0] then Rank(a[0]) < Rank(b[0])
    else Below(a[1..], b[1..])
  }

  /** Two different characters are ordered by rank as their encodings, followed by
      anything, are ordered by code unit. */
  lemma CharOrder(c: char, d: char, x: seq<int>, y: seq<int>)
    requires c != d
    ensures Rank(c) != Rank(d)
    ensures Rank(c) < Rank(d) <==> UnitsBelow(CodeUnits(c) + x, CodeUnits(d) + y)
  {
    var n, m := c as int, d as int;
    var u, v := CodeUnits(c) + x, CodeUnits(d) + y;
    assert u[0] == CodeUnits(c)[0] && v[0] == CodeUnits(d)[0];
    if n >= 0x1_0000 && m >= 0x1_0000 && u[0] == v[0] {
      assert u[1..] == [CodeUnits(c)[1]] + x;
      assert v[1..] == [CodeUnits(d)[1]] + y;
    }
  }

  /** Prepending the same code units changes no comparison. */
  lemma {:induction false} UnitsBelowCommonPrefix(p: seq<int>, x: seq<int>, y: seq<int>)
    ensures UnitsBelow(p + x, p + y) <==> UnitsBelow(x, y)
    decreases |p|
  {
    if p == [] {
      assert p + x == x && p + y == y;
    } else {
      assert (p + x)[0] == p[0] == (p + y)[0];
      assert (p + x)[1..] == p[1..] + x && (p + y)[1..] == p[1..] + y;
      UnitsBelowCommonPrefix(p[1..], x, y);
    }
  }

  /** The character-wise order is JavaScript's order on UTF-16 code units. */
  lemma {:induction false} BelowIsCodeUnitOrder(a: string, b: string)
    ensures Below(a, b) <==> UnitsBelow(Utf16(a), Utf16(b))
    decreases |a|
  {
    if a != [] && b != [] {
      if a[0] == b[0] {
        BelowIsCodeUnitOrder(a[1..], b[1..]);
        UnitsBelowCommonPrefix(CodeUnits(a[0]), Utf16(a[1..]), Utf16(b[1..]));
      } else {
        CharOrder(a[0], b[0], Utf16(a[1..]), Utf16(b[1..]));
      }
    }
  }

  lemma {:induction false} BelowIrreflexive(a: string)
    ensures !Below(a, a)
    decreases |a|
  {
    if a != [] { BelowIrreflexive(a[1..]); }
  }

  lemma {:induction false} BelowTransitive(a: string, b: string, c: string)
    requires Below(a, b) && Below(b, c)
    ensures Below(a, c)
    decreases |a|
  {
    if a != [] && b != [] && c != [] && a[0] == b[0] && b[0] == c[0] {
      BelowTransitive(a[1..], b[1..], c[1..]);
    }
  }

  /** Any two different strings are ordered one way, and never both ways. */
  lemma {:induction false} BelowTotal(a: string, b: string)
    ensures a != b <==> (Below(a, b) || Below(b, a))
    ensures !(Below(a, b) && Below(b, a))
    decreases |a|
  {
    if a != [] && b != [] && a[0] == b[0] {
      BelowTotal(a[1..], b[1..]);
      assert a == [a[0]] + a[1..] && b == [b[0]] + b[1..];
    } else if a == b {
      BelowIrreflexive(a);
    } else if a != [] && b != [] {
      CharOrder(a[0], b[0], [], []);
    }
  }

  /** The three-way result a comparison callback returns for two string keys. */
  function Compare3(a: string, b: string): (r: int)
    ensures r < 0 <==> Below(a, b)
    ensures r == 0 <==> a == b
    ensures r > 0 <==> Below(b, a)
  {
    BelowTotal(a, b);
    if Below(a, b) then -1 else if a == b then 0 else 1
  }

  /** Elements in non-decreasing order of their key. */
  ghost predicate SortedBy<T>(s: seq<T>, key: T -> string)
  {
    forall i, j :: 0 <= i < j < |s| ==> !Below(key(s[j]), key(s[i]))
  }

  /** Two elements whose keys are equal are the same element. */
  ghost predicate KeyDetermines<T>(s: seq<T>, key: T -> string)
  {
    forall i, j :: 0 <= i < |s| && 0 <= j < |s| && key(s[i]) == key(s[j]) ==> s[i] == s[j]
  }

  /** No element occurs twice. */
  ghost predicate Distinct<T>(s: seq<T>)
  {
    forall i, j :: 0 <= i < j < |s| ==> s[i] != s[j]
  }

  /** Places x after every element whose key is not above x's key. */
  function Insert<T>(x: T, s: seq<T>, key: T -> string): seq<T>
  {
    if s == [] then [x]
    else if Compare3(key(x), key(s[0])) < 0 then [x] + s
    else [s[0]] + Insert(x, s[1..], key)
  }

  /** Stable insertion sort by key: each element in turn is inserted into the sorted
      prefix before it. */
  function SortBy<T>(s: seq<T>, key: T -> string): seq<T>
  {
    if s == [] then [] else Insert(s[|s| - 1], SortBy(s[..|s| - 1], key), key)
  }

  lemma {:induction false} InsertMultiset<T>(x: T, s: seq<T>, key: T -> string)
    ensures multiset(Insert(x, s, key)) == multiset(s) + multiset{x}
    decreases |s|
  {
    if s != [] {
      assert s == [s[0]] + s[1..];
      if !Below(key(x), key(s[0])) {
        InsertMultiset(x, s[1..], key);
      }
    }
  }

  /** Every key in s is at least k. */
  ghost predicate AllAtLeast<T>(s: seq<T>, key: T -> string, k: string)
  {
    forall i :: 0 <= i < |s| ==> !Below(key(s[i]), k)
  }

  lemma {:induction false} InsertKeepsLowerBound<T>(x: T, s: seq<T>, key: T -> string, k: string)
    requires AllAtLeast(s, key, k) && !Below(key(x), k)
    ensures AllAtLeast(Insert(x, s, key), key, k)
  {
    InsertMultiset(x, s, key);
    var r := Insert(x, s, key);
    forall i | 0 <= i < |r| ensures !Below(key(r[i]), k) {
      assert r[i] in multiset(r);
      if r[i] != x {
        assert r[i] in multiset(s);
        var m :| 0 <= m < |s| && s[m] == r[i];
      }
    }
  }

  lemma {:induction false} ConsSorted<T>(y: T, s: seq<T>, key: T -> string)
    requires SortedBy(s, key) && AllAtLeast(s, key, key(y))
    ensures SortedBy([y] + s, key)
  {
    var t := [y] + s;
    forall i, j | 0 <= i < j < |t| ensures !Below(key(t[j]), key(t[i])) {
      assert t[j] == s[j - 1];
      if i > 0 { assert t[i] == s[i - 1]; }
    }
  }

  lemma {:induction false} InsertSorted<T>(x: T, s: seq<T>, key: T -> string)
    requires SortedBy(s, key)
    ensures SortedBy(Insert(x, s, key), key)
    decreases |s|
  {
    if s == [] {
    } else if Below(key(x), key(s[0])) {
      forall i | 0 <= i < |s| ensures !Below(key(s[i]), key(x)) {
        if i > 0 {
          BelowTotal(key(s[i]), key(s[0]));
          if Below(key(s[i]), key(x)) { BelowTransitive(key(s[i]), key(x), key(s[0])); }
        } else {
          BelowTotal(key(x), key(s[0]));
        }
      }
      ConsSorted(x, s, key);
    } else {
      var t := s[1..];
      assert SortedBy(t, key) && AllAtLeast(t, key, key(s[0])) by {
        forall i | 0 <= i < |t| ensures t[i] == s[i + 1] { }
      }
      InsertSorted(x, t, key);
      InsertKeepsLowerBound(x, t, key, key(s[0]));
      ConsSorted(s[0], Insert(x, t, key), key);
    }
  }

  /** The sort returns a sorted permutation of its input. */
  lemma {:induction false} SortByProperties<T>(s: seq<T>, key: T -> string)
    ensures SortedBy(SortBy(s, key), key)
    ensures multiset(SortBy(s, key)) == multiset(s)
    ensures |SortBy(s, key)| == |s|
    decreases |s|
  {
    if s != [] {
      var p := s[..|s| - 1];
      SortByProperties(p, key);
      InsertSorted(s[|s| - 1], SortBy(p, key), key);
      InsertMultiset(s[|s| - 1], SortBy(p, key), key);
      assert s == p + [s[|s| - 1]];
      assert multiset(s) == multiset(p) + multiset{s[|s| - 1]};
    }
    var r := SortBy(s, key);
    assert |multiset(r)| == |r| && |multiset(s)| == |s|;
  }

  /** Sorted permutations start with the same element when keys tell elements apart. */
  lemma SortedPermutationsSameHead<T>(a: seq<T>, b: seq<T>, key: T -> string)
    requires SortedBy(a, key) && SortedBy(b, key)
    requires multiset(a) == multiset(b) && a != []
    requires KeyDetermines(a, key)
    ensures b != [] && a[0] == b[0]
  {
    assert a[0] in multiset(b);
    var j :| 0 <= j < |b| && b[j] == a[0];
    assert b[0] in multiset(a);
    var i :| 0 <= i < |a| && a[i] == b[0];
    if i > 0 { assert !Below(key(a[i]), key(a[0])); } else { BelowIrreflexive(key(a[0])); }
    if j > 0 { assert !Below(key(b[j]), key(b[0])); } else { BelowIrreflexive(key(b[0])); }
    BelowTotal(key(a[0]), key(b[0]));
    assert a[0] == a[i];
  }

  /** Dropping the first element keeps a sequence sorted, and keeps keys telling
      elements apart. */
  lemma SortedTail<T>(s: seq<T>, key: T -> string)
    requires s != []
    ensures SortedBy(s, key) ==> SortedBy(s[1..], key)
    ensures KeyDetermines(s, key) ==> KeyDetermines(s[1..], key)
  {
    forall p | 0 <= p < |s| - 1 ensures s[1..][p] == s[p + 1] { }
  }

  /** Two sorted sequences holding the same elements are equal when no two
      different elements share a key. */
  lemma {:induction false} SortedPermutationsEqual<T>(a: seq<T>, b: seq<T>, key: T -> string)
    requires SortedBy(a, key) && SortedBy(b, key)
    requires multiset(a) == multiset(b)
    requires KeyDetermines(a, key)
    ensures a == b
    decreases |a|
  {
    assert |a| == |multiset(a)| == |multiset(b)| == |b|;
    if a != [] {
      SortedPermutationsSameHead(a, b, key);
      var a', b' := a[1..], b[1..];
      assert a == [a[0]] + a' && b == [b[0]] + b';
      assert multiset(a') == multiset(a) - multiset{a[0]};
      assert multiset(b') == multiset(b) - multiset{b[0]};
      SortedTail(a, key);
      SortedTail(b, key);
      SortedPermutationsEqual(a', b', key);
    }
  }

  /** The sort's result depends only on the multiset of its input, when keys
      tell different elements apart. */
  lemma SortByCanonical<T>(s1: seq<T>, s2: seq<T>, key: T -> string)
    requires multiset(s1) == multiset(s2)
    requires KeyDetermines(s1, key)
    ensures SortBy(s1, key) == SortBy(s2, key)
  {
    SortByProperties(s1, key);
    SortByProperties(s2, key);
    var r := SortBy(s1, key);
    forall p, q | 0 <= p < |r| && 0 <= q < |r| && key(r[p]) == key(r[q]) ensures r[p] == r[q] {
      assert r[p] in multiset(s1) && r[q] in multiset(s1);
      var p' :| 0 <= p' < |s1| && s1[p'] == r[p];
      var q' :| 0 <= q' < |s1| && s1[q'] == r[q];
    }
    SortedPermutationsEqual(r, SortBy(s2, key), key);
  }

  /** Sorting an already sorted sequence changes nothing (the sort is stable). */
  lemma {:induction false} SortBySortedIsIdentity<T>(s: seq<T>, key: T -> string)
    requires SortedBy(s, key)
    ensures SortBy(s, key) == s
    decreases |s|
  {
    if s != [] {
      var p := s[..|s| - 1];
      var x := s[|s| - 1];
      SortBySortedIsIdentity(p, key);
      InsertAtEnd(x, p, key);
      assert s == p + [x];
    }
  }

  lemma {:induction false} InsertAtEnd<T>(x: T, s: seq<T>, key: T -> string)
    requires forall k :: 0 <= k < |s| ==> !Below(key(x), key(s[k]))
    ensures Insert(x, s, key) == s + [x]
    decreases |s|
  {
    if s != [] {
      InsertAtEnd(x, s[1..], key);
      assert s == [s[0]] + s[1..];
    }
  }

  /** s with position j taken out. */
  function Without<T>(s: seq<T>, j: nat): seq<T>
    requires j < |s|
  {
    s[..j] + s[j + 1..]
  }

  /** Removing position j from a duplicate-free sequence removes exactly s[j]. */
  lemma RemoveAt<T>(s: seq<T>, j: nat)
    requires j < |s| && Distinct(s)
    ensures Distinct(Without(s, j))
    ensures forall y :: y in Without(s, j) <==> (y in s && y != s[j])
    ensures multiset(s) == multiset(Without(s, j)) + multiset{s[j]}
  {
    var t := Without(s, j);
    forall p, q | 0 <= p < q < |t| ensures t[p] != t[q] {
      var p' := if p < j then p else p + 1;
      var q' := if q < j then q else q + 1;
      assert t[p] == s[p'] && t[q] == s[q'];
    }
    forall y ensures y in t <==> (y in s && y != s[j]) {
      if y in t {
        var n :| 0 <= n < |t| && t[n] == y;
        if n < j { assert s[n] == y; } else { assert s[n + 1] == y; }
      }
      if y in s && y != s[j] {
        var n :| 0 <= n < |s| && s[n] == y;
        if n < j { assert t[n] == y; } else { assert t[n - 1] == y; }
      }
    }
    assert s == s[..j] + [s[j]] + s[j + 1..];
  }

  /** A duplicate-free sequence whose elements all occur in another duplicate-free
      sequence is a sub-multiset of it. */
  lemma {:induction false} DistinctIncluded<T>(a: seq<T>, b: seq<T>)
    requires Distinct(a) && Distinct(b)
    requires forall x :: x in a ==> x in b
    ensures multiset(a) <= multiset(b)
    decreases |a|
  {
    if a != [] {
      var x := a[0];
      assert x in b;
      var j :| 0 <= j < |b| && b[j] == x;
      RemoveAt(a, 0);
      RemoveAt(b, j);
      var a', b' := Without(a, 0), Without(b, j);
      forall y | y in a' ensures y in b' {
        assert y in a && y != x;
      }
      DistinctIncluded(a', b');
    }
  }

  /** Duplicate-free sequences with the same elements are permutations of each other. */
  lemma DistinctSameElements<T>(a: seq<T>, b: seq<T>)
    requires Distinct(a) && Distinct(b)
    requires forall x :: x in a <==> x in b
    ensures multiset(a) == multiset(b)
  {
    DistinctIncluded(a, b);
    DistinctIncluded(b, a);
  }
}
