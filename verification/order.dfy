/** The order Rust's `Ord` puts on `String` (lexicographic over UTF-8 bytes, which
    is lexicographic over code points), the `sort` + `dedup` pair built on it, and
    the tag normalisation of apps/umbreon-mobile/src/timeline.rs. */
module Order {
  import opened Text

  /** `a < b`: `a` is a proper prefix of `b`, or the first difference is smaller in `a`. */
  predicate Below(a: string, b: string)
    decreases |a|
  {
    if |a| == 0 then |b| > 0
    else |b| > 0 && (a[0] < b[0] || (a[0] == b[0] && Below(a[1..], b[1..])))
  }

  predicate AtMost(a: string, b: string) {
    a == b || Below(a, b)
  }

  lemma {:induction false} BelowIrreflexive(a: string)
    ensures !Below(a, a)
    decreases |a|
  {
    if |a| > 0 {
      BelowIrreflexive(a[1..]);
    }
  }

  lemma {:induction false} BelowTransitive(a: string, b: string, c: string)
    requires Below(a, b) && Below(b, c)
    ensures Below(a, c)
    decreases |a|
  {
    if |a| > 0 && a[0] == b[0] && b[0] == c[0] {
      BelowTransitive(a[1..], b[1..], c[1..]);
    }
  }

  /** Any two strings are equal or ordered one way. */
  lemma {:induction false} BelowTotal(a: string, b: string)
    ensures a == b || Below(a, b) || Below(b, a)
    decreases |a|
  {
    if |a| > 0 && |b| > 0 && a[0] == b[0] {
      BelowTotal(a[1..], b[1..]);
      if a[1..] == b[1..] {
        assert a == [a[0]] + a[1..] && b == [b[0]] + b[1..];
      }
    }
  }

  lemma BelowAsymmetric(a: string, b: string)
    requires Below(a, b)
    ensures !Below(b, a) && a != b
  {
    BelowIrreflexive(a);
    if Below(b, a) {
      BelowTransitive(a, b, a);
    }
  }

  lemma AtMostTransitive(a: string, b: string, c: string)
    requires AtMost(a, b) && AtMost(b, c)
    ensures AtMost(a, c)
  {
    if a != b && b != c {
      BelowTransitive(a, b, c);
    }
  }

  /** The strings a sequence holds. */
  function Elems(s: seq<string>): set<string> {
    set x | x in s
  }

  /** Every pair in order, equal neighbours allowed. */
  predicate Sorted(s: seq<string>) {
    forall i, j :: 0 <= i < j < |s| ==> AtMost(s[i], s[j])
  }

  /** Every pair strictly in order: sorted and free of duplicates. */
  predicate StrictlyIncreasing(s: seq<string>) {
    forall i, j :: 0 <= i < j < |s| ==> Below(s[i], s[j])
  }

  /** Puts `x` before the first element it does not exceed. */
  function Insert(x: string, s: seq<string>): seq<string>
    decreases |s|
  {
    if |s| == 0 || AtMost(x, s[0]) then [x] + s else [s[0]] + Insert(x, s[1..])
  }

  /** `slice::sort` on strings. */
  function SortStrings(s: seq<string>): seq<string>
    decreases |s|
  {
    if |s| == 0 then [] else Insert(s[0], SortStrings(s[1..]))
  }

  lemma {:induction false} InsertPermutes(x: string, s: seq<string>)
    ensures multiset(Insert(x, s)) == multiset{x} + multiset(s)
    decreases |s|
  {
    if |s| > 0 && !AtMost(x, s[0]) {
      InsertPermutes(x, s[1..]);
      assert s == [s[0]] + s[1..];
    }
  }

  lemma {:induction false} InsertSorted(x: string, s: seq<string>)
    requires Sorted(s)
    ensures Sorted(Insert(x, s))
    decreases |s|
  {
    if |s| == 0 {
      assert Insert(x, s) == [x];
    } else if AtMost(x, s[0]) {
      forall j | 0 <= j < |s| ensures AtMost(x, s[j]) {
        AtMostTransitive(x, s[0], s[j]);
      }
      SortedCons(x, s);
    } else {
      BelowTotal(x, s[0]);
      SortedTail(s);
      InsertSorted(x, s[1..]);
      HeadBoundsInsert(x, s);
      SortedCons(s[0], Insert(x, s[1..]));
    }
  }

  lemma SortedTail(s: seq<string>)
    requires |s| > 0 && Sorted(s)
    ensures Sorted(s[1..])
  {
    assert forall i :: 0 <= i < |s| - 1 ==> s[1..][i] == s[i + 1];
  }

  /** A first element no larger than any other keeps a sorted list sorted. */
  lemma SortedCons(y: string, rest: seq<string>)
    requires Sorted(rest) && forall j :: 0 <= j < |rest| ==> AtMost(y, rest[j])
    ensures Sorted([y] + rest)
  {
    assert forall i :: 0 < i < |rest| + 1 ==> ([y] + rest)[i] == rest[i - 1];
  }

  /** The head of a sorted list bounds whatever is inserted after it. */
  lemma HeadBoundsInsert(x: string, s: seq<string>)
    requires |s| > 0 && Sorted(s) && AtMost(s[0], x)
    ensures forall j :: 0 <= j < |Insert(x, s[1..])| ==> AtMost(s[0], Insert(x, s[1..])[j])
  {
    var rest := Insert(x, s[1..]);
    InsertPermutes(x, s[1..]);
    forall j | 0 <= j < |rest| ensures AtMost(s[0], rest[j]) {
      assert rest[j] in multiset(rest);
      if rest[j] != x {
        assert rest[j] in s[1..];
        var k :| 0 <= k < |s[1..]| && s[1..][k] == rest[j];
        assert s[k + 1] == rest[j];
      }
    }
  }

  /** The sort orders its input. */
  lemma {:induction false} SortStringsSorted(s: seq<string>)
    ensures Sorted(SortStrings(s))
    decreases |s|
  {
    if |s| > 0 {
      SortStringsSorted(s[1..]);
      InsertSorted(s[0], SortStrings(s[1..]));
    }
  }

  /** The sort is a permutation of its input. */
  lemma {:induction false} SortStringsPermutes(s: seq<string>)
    ensures multiset(SortStrings(s)) == multiset(s)
    decreases |s|
  {
    if |s| > 0 {
      SortStringsPermutes(s[1..]);
      InsertPermutes(s[0], SortStrings(s[1..]));
      assert s == [s[0]] + s[1..];
    }
  }

  /** `Vec::dedup`: each run of equal neighbours kept once. */
  function Dedup(s: seq<string>): (r: seq<string>)
    ensures |r| <= |s|
    ensures |s| > 0 ==> |r| > 0 && r[0] == s[0]
    decreases |s|
  {
    if |s| <= 1 then s
    else if s[0] == s[1] then Dedup(s[1..])
    else [s[0]] + Dedup(s[1..])
  }

  /** Removing repeated neighbours keeps exactly the same strings. */
  lemma {:induction false} DedupSameElements(s: seq<string>)
    ensures Elems(Dedup(s)) == Elems(s)
    decreases |s|
  {
    if |s| > 1 {
      DedupSameElements(s[1..]);
      assert Elems(s) == {s[0]} + Elems(s[1..]);
      if s[0] == s[1] {
        assert s[1..][0] in Elems(s[1..]);
      } else {
        assert Elems([s[0]] + Dedup(s[1..])) == {s[0]} + Elems(Dedup(s[1..]));
      }
    }
  }

  /** On a sorted sequence, `dedup` leaves a strictly increasing one. */
  lemma {:induction false} DedupOfSorted(s: seq<string>)
    requires Sorted(s)
    ensures StrictlyIncreasing(Dedup(s))
    decreases |s|
  {
    if |s| > 1 {
      assert Sorted(s[1..]);
      DedupOfSorted(s[1..]);
      if s[0] != s[1] {
        var rest := Dedup(s[1..]);
        DedupHeadBelow(s);
        IncreasingCons(s[0], rest);
      }
    }
  }

  /** On a sorted sequence whose first two differ, the first lies below everything
      `dedup` keeps of the tail. */
  lemma DedupHeadBelow(s: seq<string>)
    requires Sorted(s) && |s| > 1 && s[0] != s[1]
    ensures forall j :: 0 <= j < |Dedup(s[1..])| ==> Below(s[0], Dedup(s[1..])[j])
  {
    var rest := Dedup(s[1..]);
    DedupSameElements(s[1..]);
    forall j | 0 <= j < |rest| ensures Below(s[0], rest[j]) {
      assert rest[j] in Elems(rest);
      var k :| 1 <= k < |s| && s[k] == rest[j];
      if k > 1 {
        assert AtMost(s[1], s[k]);
        if s[1] != s[k] {
          BelowTransitive(s[0], s[1], s[k]);
        }
      }
    }
  }

  /** A strictly increasing sequence stays so behind a string below all of it. */
  lemma IncreasingCons(x: string, rest: seq<string>)
    requires StrictlyIncreasing(rest)
    requires forall j :: 0 <= j < |rest| ==> Below(x, rest[j])
    ensures StrictlyIncreasing([x] + rest)
  {
    var r := [x] + rest;
    forall i, j | 0 <= i < j < |r| ensures Below(r[i], r[j]) {
      if i == 0 {
        assert r[j] == rest[j - 1];
      } else {
        assert r[i] == rest[i - 1] && r[j] == rest[j - 1];
      }
    }
  }

  /** Two strictly increasing sequences with the same elements are equal: a set of
      strings has one sorted, duplicate-free listing. */
  lemma {:induction false} StrictlyIncreasingUnique(a: seq<string>, b: seq<string>)
    requires StrictlyIncreasing(a) && StrictlyIncreasing(b)
    requires Elems(a) == Elems(b)
    ensures a == b
    decreases |a|
  {
    if |a| > 0 {
      assert a[0] in Elems(a);
    }
    if |b| > 0 {
      assert b[0] in Elems(b);
    }
    if |a| > 0 && |b| > 0 {
      // The head of each is the least element of the shared set.
      assert a[0] in Elems(b);
      assert b[0] in Elems(a);
      var i :| 0 <= i < |b| && b[i] == a[0];
      var j :| 0 <= j < |a| && a[j] == b[0];
      assert a[0] == b[0] by {
        if a[0] != b[0] {
          assert Below(b[0], b[i]) && Below(a[0], a[j]);
          BelowAsymmetric(a[0], b[0]);
        }
      }
      var ta, tb := a[1..], b[1..];
      forall x | x in ta ensures x in tb {
        var k :| 1 <= k < |a| && a[k] == x;
        assert x in Elems(b);
        var m :| 0 <= m < |b| && b[m] == x;
        if m == 0 {
          BelowAsymmetric(a[0], a[k]);
        }
      }
      forall x | x in tb ensures x in ta {
        var k :| 1 <= k < |b| && b[k] == x;
        assert x in Elems(a);
        var m :| 0 <= m < |a| && a[m] == x;
        if m == 0 {
          BelowAsymmetric(b[0], b[k]);
        }
      }
      assert Elems(ta) == Elems(tb);
      StrictlyIncreasingUnique(ta, tb);
      assert a == [a[0]] + ta && b == [b[0]] + tb;
    }
  }

  /** The category terms of an entry, trimmed, with the empty ones dropped, in order. */
  function NonBlankTerms(terms: seq<string>): (r: seq<string>)
    ensures |r| <= |terms|
    ensures forall i :: 0 <= i < |r| ==> |r[i]| > 0 && IsTrimmed(r[i], IsRustSpace)
    decreases |terms|
  {
    if |terms| == 0 then []
    else
      var term := Trim(terms[0], IsRustSpace);
      var rest := NonBlankTerms(terms[1..]);
      if |term| == 0 then rest else [term] + rest
  }

  /** The kept strings are exactly the non-empty trimmed forms of the terms. */
  lemma {:induction false} NonBlankTermsMembers(terms: seq<string>, x: string)
    ensures x in NonBlankTerms(terms) <==>
      exists t :: t in terms && |Trim(t, IsRustSpace)| > 0 && x == Trim(t, IsRustSpace)
    decreases |terms|
  {
    if |terms| > 0 {
      NonBlankTermsMembers(terms[1..], x);
      assert forall t :: t in terms <==> t == terms[0] || t in terms[1..];
    }
  }

  /** The tags of an item: the non-blank trimmed terms, sorted and deduplicated. */
  function NormalizeTags(terms: seq<string>): seq<string> {
    Dedup(SortStrings(NonBlankTerms(terms)))
  }

  /** The tags are strictly increasing, and hold exactly the non-blank trimmed terms. */
  lemma NormalizeTagsSpec(terms: seq<string>)
    ensures StrictlyIncreasing(NormalizeTags(terms))
    ensures Elems(NormalizeTags(terms)) == Elems(NonBlankTerms(terms))
  {
    var nb := NonBlankTerms(terms);
    var sorted := SortStrings(nb);
    SortStringsSorted(nb);
    SortStringsPermutes(nb);
    DedupOfSorted(sorted);
    DedupSameElements(sorted);
    assert forall x :: x in sorted <==> x in multiset(sorted);
    assert forall x :: x in nb <==> x in multiset(nb);
    assert Elems(sorted) == Elems(nb);
  }

  /** A string is a tag exactly when it is the trimmed form of some non-blank term. */
  lemma NormalizeTagsMembers(terms: seq<string>, x: string)
    ensures x in NormalizeTags(terms) <==>
      exists t :: t in terms && |Trim(t, IsRustSpace)| > 0 && x == Trim(t, IsRustSpace)
  {
    NormalizeTagsSpec(terms);
    NonBlankTermsMembers(terms, x);
    assert x in NormalizeTags(terms) <==> x in Elems(NormalizeTags(terms));
    assert x in NonBlankTerms(terms) <==> x in Elems(NonBlankTerms(terms));
  }

  /** Normalisation is the only strictly increasing listing of the terms: any other
      route to a sorted, duplicate-free list of them gives the same tags. */
  lemma NormalizeTagsUnique(terms: seq<string>, tags: seq<string>)
    requires StrictlyIncreasing(tags)
    requires Elems(tags) == Elems(NonBlankTerms(terms))
    ensures NormalizeTags(terms) == tags
  {
    NormalizeTagsSpec(terms);
    StrictlyIncreasingUnique(NormalizeTags(terms), tags);
  }
}
