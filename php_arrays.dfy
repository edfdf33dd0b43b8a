/**
 * The PHP array built-ins the schedule parser finishes with: `array_unique`,
 * `sort` (on strings that are not numeric, so in `strcmp` order) and
 * `array_slice($a, 0, n)`.
 */
module PhpArrays {
  import opened Text

  /** No element occurs twice. */
  predicate Distinct<T(==)>(s: seq<T>)
  {
    forall i, j :: 0 <= i < j < |s| ==> s[i] != s[j]
  }

  /** Ascending in `strcmp` order, equal neighbours allowed. */
  predicate Sorted(s: seq<string>)
  {
    forall i, j :: 0 <= i < j < |s| ==> !Less(s[j], s[i])
  }

  predicate StrictlyIncreasing(s: seq<string>)
  {
    forall i, j :: 0 <= i < j < |s| ==> Less(s[i], s[j])
  }

  // ---------------------------------------------------------------------------
  // array_unique
  // ---------------------------------------------------------------------------

  /** `array_unique`: the first occurrence of every value, in the original order. */
  function Unique(s: seq<string>): (r: seq<string>)
    ensures Distinct(r)
    ensures forall x :: x in r <==> x in s
  {
    if s == [] then []
    else
      var u := Unique(s[..|s| - 1]);
      if s[|s| - 1] in u then u else u + [s[|s| - 1]]
  }

  lemma {:induction false} UniqueOfDistinct(s: seq<string>)
    requires Distinct(s)
    ensures Unique(s) == s
  {
    if s != [] {
      UniqueOfDistinct(s[..|s| - 1]);
      assert s == s[..|s| - 1] + [s[|s| - 1]];
    }
  }

  // ---------------------------------------------------------------------------
  // sort
  // ---------------------------------------------------------------------------

  /** `strcmp` order as a non-strict order is transitive. */
  lemma NotLessTransitive(a: string, b: string, c: string)
    requires !Less(b, a) && !Less(c, b)
    ensures !Less(c, a)
  {
    if Less(c, a) {
      LessTotal(a, b);
      if a != b {
        LessTransitive(c, a, b);
      }
    }
  }

  lemma LessAsymmetric(a: string, b: string)
    requires Less(a, b)
    ensures !Less(b, a)
  {
    if Less(b, a) {
      LessTransitive(a, b, a);
      LessIrreflexive(a);
    }
  }

  function Insert(x: string, s: seq<string>): (r: seq<string>)
    requires Sorted(s)
    ensures Sorted(r)
    ensures multiset(r) == multiset(s) + multiset{x}
  {
    if s == [] then [x]
    else if !Less(s[0], x) then
      NoneBelow(x, s);
      SortedCons(x, s);
      [x] + s
    else
      var t := s[1..];
      assert s == [s[0]] + t;
      var r := Insert(x, t);
      NoneBelowAfterInsert(x, s[0], t, r);
      SortedCons(s[0], r);
      [s[0]] + r
  }

  /** A value not above the head of a sorted list is not above any of it. */
  lemma NoneBelow(x: string, s: seq<string>)
    requires Sorted(s) && s != [] && !Less(s[0], x)
    ensures forall y :: y in s ==> !Less(y, x)
  {
    forall j | 0 <= j < |s| ensures !Less(s[j], x) {
      if j > 0 { NotLessTransitive(x, s[0], s[j]); }
    }
  }

  /** Inserting a value above `h` into a list with nothing below `h` keeps nothing below `h`. */
  lemma NoneBelowAfterInsert(x: string, h: string, t: seq<string>, r: seq<string>)
    requires Less(h, x) && multiset(r) == multiset(t) + multiset{x}
    requires Sorted([h] + t)
    ensures forall y :: y in r ==> !Less(y, h)
  {
    forall y | y in r ensures !Less(y, h) {
      assert y in multiset(r);
      if y == x {
        LessAsymmetric(h, x);
      } else {
        assert y in multiset(t);
        var k :| 0 <= k < |t| && t[k] == y;
        assert ([h] + t)[k + 1] == y && ([h] + t)[0] == h;
      }
    }
  }

  /** A head with nothing in the sorted tail below it gives a sorted list. */
  lemma SortedCons(h: string, r: seq<string>)
    requires Sorted(r) && forall y :: y in r ==> !Less(y, h)
    ensures Sorted([h] + r)
  {
    forall i, j | 0 <= i < j < |[h] + r| ensures !Less(([h] + r)[j], ([h] + r)[i]) {
      assert ([h] + r)[j] == r[j - 1];
      if i > 0 {
        assert ([h] + r)[i] == r[i - 1];
      }
    }
  }

  /** `sort`: an ascending rearrangement of the input. */
  function Sort(s: seq<string>): (r: seq<string>)
    ensures Sorted(r)
    ensures multiset(r) == multiset(s)
  {
    if s == [] then []
    else
      assert s == [s[0]] + s[1..];
      Insert(s[0], Sort(s[1..]))
  }

  lemma SortedHeadsEqual(a: seq<string>, b: seq<string>)
    requires Sorted(a) && Sorted(b) && multiset(a) == multiset(b) && a != []
    ensures b != [] && a[0] == b[0]
  {
    assert a[0] in multiset(b);
    var i :| 0 <= i < |b| && b[i] == a[0];
    assert b[0] in multiset(a);
    var j :| 0 <= j < |a| && a[j] == b[0];
    LessIrreflexive(a[0]);
    assert !Less(a[0], b[0]) by { if i > 0 { assert !Less(b[i], b[0]); } }
    assert !Less(b[0], a[0]) by { if j > 0 { assert !Less(a[j], a[0]); } }
    LessTotal(a[0], b[0]);
  }

  /** There is only one ascending arrangement of a multiset of strings. */
  lemma {:induction false} SortedUnique(a: seq<string>, b: seq<string>)
    requires Sorted(a) && Sorted(b) && multiset(a) == multiset(b)
    ensures a == b
  {
    if a == [] {
      assert |b| == |multiset(b)| == 0;
    } else {
      SortedHeadsEqual(a, b);
      assert a == [a[0]] + a[1..] && b == [b[0]] + b[1..];
      assert multiset(a) == multiset{a[0]} + multiset(a[1..]);
      assert multiset(b) == multiset{b[0]} + multiset(b[1..]);
      assert multiset(a[1..]) == multiset(b[1..]) by {
        forall x ensures multiset(a[1..])[x] == multiset(b[1..])[x] {
          assert multiset(a)[x] == multiset{a[0]}[x] + multiset(a[1..])[x];
          assert multiset(b)[x] == multiset{b[0]}[x] + multiset(b[1..])[x];
        }
      }
      SortedUnique(a[1..], b[1..]);
    }
  }

  lemma SortedDistinctIsStrict(s: seq<string>)
    requires Sorted(s) && Distinct(s)
    ensures StrictlyIncreasing(s)
  {
    forall i, j | 0 <= i < j < |s| ensures Less(s[i], s[j]) {
      LessTotal(s[i], s[j]);
    }
  }

  lemma StrictIsSortedDistinct(s: seq<string>)
    requires StrictlyIncreasing(s)
    ensures Sorted(s) && Distinct(s)
  {
    forall i, j | 0 <= i < j < |s| ensures !Less(s[j], s[i]) && s[i] != s[j] {
      LessAsymmetric(s[i], s[j]);
      LessIrreflexive(s[i]);
    }
  }

  /** A sequence without repetitions holds each of its values exactly once. */
  lemma {:induction false} DistinctMultiplicity(s: seq<string>, x: string)
    requires Distinct(s)
    ensures multiset(s)[x] == if x in s then 1 else 0
  {
    if s != [] {
      var t := s[..|s| - 1];
      assert s == t + [s[|s| - 1]];
      DistinctMultiplicity(t, x);
    }
  }

  lemma DistinctSameElements(a: seq<string>, b: seq<string>)
    requires Distinct(a) && Distinct(b)
    requires forall x :: x in a <==> x in b
    ensures multiset(a) == multiset(b)
  {
    forall x ensures multiset(a)[x] == multiset(b)[x] {
      DistinctMultiplicity(a, x);
      DistinctMultiplicity(b, x);
    }
  }

  // ---------------------------------------------------------------------------
  // array_unique, then sort, then array_slice($a, 0, 6)
  // ---------------------------------------------------------------------------

  /** `array_slice($a, 0, n)`. */
  function Take(s: seq<string>, n: nat): (r: seq<string>)
    ensures |r| == if |s| <= n then |s| else n
    ensures r == s[..|r|]
  {
    if |s| <= n then s else s[..n]
  }

  const MaxTimes: nat := 6

  function Normalize(s: seq<string>): seq<string>
  {
    Take(Sort(Unique(s)), MaxTimes)
  }

  /** A value at two positions occurs at least twice. */
  lemma RepeatedTwice(r: seq<string>, i: nat, j: nat)
    requires i < j < |r| && r[i] == r[j]
    ensures multiset(r)[r[i]] >= 2
  {
    var a, b := r[..j], r[j..];
    assert r == a + b;
    assert a[i] == r[i] && b[0] == r[j];
    assert multiset(r) == multiset(a) + multiset(b);
  }

  /** The sorted, duplicate-free list of the values of `s`. */
  lemma SortUniqueStrict(s: seq<string>)
    ensures StrictlyIncreasing(Sort(Unique(s)))
    ensures forall x :: x in Sort(Unique(s)) <==> x in s
  {
    var u := Unique(s);
    var r := Sort(u);
    forall x ensures x in r <==> x in u {
      assert x in r <==> x in multiset(r);
    }
    forall i, j | 0 <= i < j < |r| ensures r[i] != r[j] {
      if r[i] == r[j] {
        RepeatedTwice(r, i, j);
        DistinctMultiplicity(u, r[i]);
      }
    }
    SortedDistinctIsStrict(r);
  }

  /**
   * What the parser's post-processing returns: at most six values, strictly
   * ascending (so without repetitions), all taken from the input; and when an
   * input value is left out, the six kept values all come before it.
   */
  lemma NormalizeSpec(s: seq<string>)
    ensures |Normalize(s)| <= MaxTimes
    ensures StrictlyIncreasing(Normalize(s))
    ensures forall x :: x in Normalize(s) ==> x in s
    ensures forall x :: x in s && x !in Normalize(s) ==>
              |Normalize(s)| == MaxTimes && forall y :: y in Normalize(s) ==> Less(y, x)
  {
    SortUniqueStrict(s);
    var full := Sort(Unique(s));
    var r := Normalize(s);
    forall x | x in s && x !in r
      ensures |r| == MaxTimes && forall y :: y in r ==> Less(y, x)
    {
      var k :| 0 <= k < |full| && full[k] == x;
      assert k >= |r|;
      forall y | y in r ensures Less(y, x) {
        var i :| 0 <= i < |r| && r[i] == y;
        assert full[i] == y;
      }
    }
  }

  /** The post-processing only depends on which values occur. */
  lemma NormalizeSameValues(s: seq<string>, t: seq<string>)
    requires forall x :: x in s <==> x in t
    ensures Normalize(s) == Normalize(t)
  {
    DistinctSameElements(Unique(s), Unique(t));
    SortedUnique(Sort(Unique(s)), Sort(Unique(t)));
  }

  /** A strictly ascending list is only cut to its first six values. */
  lemma NormalizeOfStrict(s: seq<string>)
    requires StrictlyIncreasing(s)
    ensures Normalize(s) == Take(s, MaxTimes)
  {
    StrictIsSortedDistinct(s);
    UniqueOfDistinct(s);
    SortedUnique(Sort(s), s);
  }
}
