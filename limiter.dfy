/** The 25-correction limit of `perform_enhanced_analysis`:
    `sorted(corrections, key=lambda x: x["category"])[:25]`, with Python's
    stable sort and its code-point order on strings. */
module CorrectionLimit {
  import opened Corrections

  const MaxCorrections := 25

  /** Python's `<` on `str`: lexicographic on code points, a proper prefix
      first. */
  predicate StrLt(a: string, b: string) {
    if a == [] then b != []
    else if b == [] then false
    else if a[0] != b[0] then a[0] < b[0]
    else StrLt(a[1..], b[1..])
  }

  predicate StrLe(a: string, b: string) {
    a == b || StrLt(a, b)
  }

  lemma {:induction false} StrLtIrreflexive(a: string)
    ensures !StrLt(a, a)
  {
    if a != [] {
      StrLtIrreflexive(a[1..]);
    }
  }

  lemma {:induction false} StrLtTransitive(a: string, b: string, c: string)
    requires StrLt(a, b) && StrLt(b, c)
    ensures StrLt(a, c)
  {
    if a != [] && b != [] && c != [] && a[0] == b[0] && b[0] == c[0] {
      StrLtTransitive(a[1..], b[1..], c[1..]);
    }
  }

  /** Any two distinct strings are ordered one way or the other. */
  lemma {:induction false} StrLtTotal(a: string, b: string)
    ensures a == b || StrLt(a, b) || StrLt(b, a)
  {
    if a != [] && b != [] && a[0] == b[0] {
      StrLtTotal(a[1..], b[1..]);
      if a[1..] == b[1..] {
        assert a == [a[0]] + a[1..] && b == [b[0]] + b[1..];
      }
    }
  }

  /** `StrLe` is a total order, as sorting needs. */
  lemma StrLeTotalOrder()
    ensures forall a: string, b: string, c: string :: StrLe(a, b) && StrLe(b, c) ==> StrLe(a, c)
    ensures forall a: string, b: string :: StrLe(a, b) || StrLe(b, a)
    ensures forall a: string, b: string :: StrLe(a, b) && StrLe(b, a) ==> a == b
    ensures forall a: string, b: string :: StrLt(a, b) <==> StrLe(a, b) && a != b
  {
    forall a: string, b: string, c: string | StrLe(a, b) && StrLe(b, c) ensures StrLe(a, c) {
      if StrLt(a, b) && StrLt(b, c) {
        StrLtTransitive(a, b, c);
      }
    }
    forall a: string, b: string ensures StrLe(a, b) || StrLe(b, a) {
      StrLtTotal(a, b);
    }
    forall a: string, b: string | StrLe(a, b) && StrLe(b, a) ensures a == b {
      if a != b {
        StrLtTransitive(a, b, a);
        StrLtIrreflexive(a);
      }
    }
    forall a: string, b: string ensures StrLt(a, b) <==> StrLe(a, b) && a != b {
      if a == b {
        StrLtIrreflexive(a);
      }
    }
  }

  /** Ascending by category. */
  predicate SortedByCategory(s: seq<Correction>) {
    forall i, j :: 0 <= i < j < |s| ==> StrLe(s[i].category, s[j].category)
  }

  /** The corrections of category `c`, in their order in `s`. */
  function OfCategory(s: seq<Correction>, c: string): (r: seq<Correction>)
    ensures |r| <= |s|
  {
    if s == [] then []
    else OfCategory(s[..|s| - 1], c) + (if s[|s| - 1].category == c then [s[|s| - 1]] else [])
  }

  /** Inserts `x` after every element whose category is not above its own. */
  function Insert(x: Correction, s: seq<Correction>): (r: seq<Correction>)
    ensures |r| == |s| + 1
  {
    if s == [] then [x]
    else if StrLt(x.category, s[0].category) then [x] + s
    else [s[0]] + Insert(x, s[1..])
  }

  /** `sorted(s, key=category)`: insertion of each element, left to right,
      behind the equal ones already placed. */
  function SortByCategory(s: seq<Correction>): (r: seq<Correction>)
    ensures |r| == |s|
  {
    if s == [] then [] else Insert(s[|s| - 1], SortByCategory(s[..|s| - 1]))
  }

  lemma {:induction false} InsertPermutes(x: Correction, s: seq<Correction>)
    ensures multiset(Insert(x, s)) == multiset(s) + multiset{x}
  {
    if s != [] && !StrLt(x.category, s[0].category) {
      InsertPermutes(x, s[1..]);
      assert s == [s[0]] + s[1..];
    }
  }

  lemma {:induction false} InsertSorted(x: Correction, s: seq<Correction>)
    requires SortedByCategory(s)
    ensures SortedByCategory(Insert(x, s))
  {
    StrLeTotalOrder();
    if s != [] && !StrLt(x.category, s[0].category) {
      InsertSorted(x, s[1..]);
      InsertPermutes(x, s[1..]);
      var r := Insert(x, s[1..]);
      forall k | 0 <= k < |r| ensures StrLe(s[0].category, r[k].category) {
        assert r[k] in multiset(s[1..]) + multiset{x};
        if r[k] != x {
          var m :| 0 <= m < |s[1..]| && s[1..][m] == r[k];
          assert s[m + 1] == r[k];
        }
      }
    }
  }

  /** No element of a sorted list whose categories all lie above `c` has
      category `c`. */
  lemma {:induction false} OfCategoryAbove(s: seq<Correction>, c: string)
    requires forall k :: 0 <= k < |s| ==> StrLt(c, s[k].category)
    ensures OfCategory(s, c) == []
  {
    if s != [] {
      OfCategoryAbove(s[..|s| - 1], c);
      StrLtIrreflexive(c);
    }
  }

  lemma {:induction false} OfCategoryCons(y: Correction, s: seq<Correction>, c: string)
    ensures OfCategory([y] + s, c) == (if y.category == c then [y] else []) + OfCategory(s, c)
  {
    if s != [] {
      var t := [y] + s;
      assert t[..|t| - 1] == [y] + s[..|s| - 1];
      OfCategoryCons(y, s[..|s| - 1], c);
    } else {
      assert [y] + s == [y];
      assert ([y] + s)[..0] == [];
    }
  }

  /** Stability of one insertion: `x` lands behind every element of its
      own category, and the others keep their relative order. */
  lemma {:induction false} InsertStable(x: Correction, s: seq<Correction>, c: string)
    requires SortedByCategory(s)
    ensures OfCategory(Insert(x, s), c) == OfCategory(s, c) + (if x.category == c then [x] else [])
  {
    if s == [] {
      assert [x][..0] == [];
      assert OfCategory([x], c) == OfCategory([x][..0], c) + (if x.category == c then [x] else []);
    } else if StrLt(x.category, s[0].category) {
      InsertStableFront(x, s, c);
    } else {
      SortedTail(s);
      InsertStable(x, s[1..], c);
      InsertStableBehind(x, s, c);
    }
  }

  lemma SortedTail(s: seq<Correction>)
    requires SortedByCategory(s) && s != []
    ensures SortedByCategory(s[1..])
  {
  }

  /** `x` goes behind the head of `s`: stability carries over from the tail. */
  lemma InsertStableBehind(x: Correction, s: seq<Correction>, c: string)
    requires s != [] && !StrLt(x.category, s[0].category)
    requires OfCategory(Insert(x, s[1..]), c) == OfCategory(s[1..], c) + (if x.category == c then [x] else [])
    ensures OfCategory(Insert(x, s), c) == OfCategory(s, c) + (if x.category == c then [x] else [])
  {
    var rest := s[1..];
    assert Insert(x, s) == [s[0]] + Insert(x, rest);
    OfCategoryCons(s[0], Insert(x, rest), c);
    OfCategoryCons(s[0], rest, c);
    assert s == [s[0]] + rest;
  }

  /** `x` goes in front of a sorted list whose categories are all above its own. */
  lemma InsertStableFront(x: Correction, s: seq<Correction>, c: string)
    requires SortedByCategory(s) && s != []
    requires StrLt(x.category, s[0].category)
    ensures OfCategory([x] + s, c) == OfCategory(s, c) + (if x.category == c then [x] else [])
  {
    OfCategoryCons(x, s, c);
    if x.category == c {
      forall k | 0 <= k < |s| ensures StrLt(c, s[k].category) {
        if k > 0 && s[0].category != s[k].category {
          assert StrLe(s[0].category, s[k].category);
          StrLtTransitive(c, s[0].category, s[k].category);
        }
      }
      OfCategoryAbove(s, c);
    }
  }

  /** What Python promises of `sorted` with a key: a permutation, ordered
      by the key, and stable (each category keeps its input order). */
  lemma {:induction false} SortByCategorySpec(s: seq<Correction>)
    ensures multiset(SortByCategory(s)) == multiset(s)
    ensures SortedByCategory(SortByCategory(s))
    ensures forall c :: OfCategory(SortByCategory(s), c) == OfCategory(s, c)
  {
    if s != [] {
      var init, x := s[..|s| - 1], s[|s| - 1];
      SortByCategorySpec(init);
      InsertPermutes(x, SortByCategory(init));
      assert s == init + [x];
      InsertSorted(x, SortByCategory(init));
      forall c ensures OfCategory(SortByCategory(s), c) == OfCategory(s, c) {
        InsertStable(x, SortByCategory(init), c);
      }
    }
  }

  /** Sorting by a stable key order has exactly one outcome: two sorted
      lists with the same categories' subsequences are equal.  Together
      with `SortByCategorySpec` this pins `SortByCategory` down as Python's
      `sorted`, not just some sorting. */
  lemma {:induction false} StableSortUnique(a: seq<Correction>, b: seq<Correction>)
    requires SortedByCategory(a) && SortedByCategory(b)
    requires forall c :: OfCategory(a, c) == OfCategory(b, c)
    ensures a == b
    decreases |a| + |b|
  {
    StrLeTotalOrder();
    if a != [] || b != [] {
      var x := if a != [] then a[|a| - 1] else b[|b| - 1];
      // x's category is the largest in a or b; its last element is the last of both.
      if a == [] {
        OfCategoryLast(b);
        assert false;
      } else if b == [] {
        OfCategoryLast(a);
        assert false;
      } else {
        var la, lb := a[|a| - 1], b[|b| - 1];
        OfCategoryLast(a);
        OfCategoryLast(b);
        if la.category != lb.category {
          StrLtTotal(la.category, lb.category);
          if StrLt(la.category, lb.category) {
            OfCategoryAboveAll(a, lb.category);
          } else {
            OfCategoryAboveAll(b, la.category);
          }
          assert false;
        } else {
          assert la == lb;
          var a', b' := a[..|a| - 1], b[..|b| - 1];
          forall c ensures OfCategory(a', c) == OfCategory(b', c) {
            OfCategoryInit(a, c);
            OfCategoryInit(b, c);
          }
          StableSortUnique(a', b');
          assert a == a' + [la] && b == b' + [lb];
        }
      }
    }
  }

  /** Dropping the last element drops it from its own category only. */
  lemma OfCategoryInit(s: seq<Correction>, c: string)
    requires s != []
    ensures OfCategory(s[..|s| - 1], c) ==
      if s[|s| - 1].category == c then OfCategory(s, c)[..|OfCategory(s, c)| - 1] else OfCategory(s, c)
  {
    var init := OfCategory(s[..|s| - 1], c);
    if s[|s| - 1].category == c {
      assert OfCategory(s, c) == init + [s[|s| - 1]];
      assert (init + [s[|s| - 1]])[..|init|] == init;
    }
  }

  /** The last element of a list is the last element of its category. */
  lemma OfCategoryLast(s: seq<Correction>)
    requires s != []
    ensures OfCategory(s, s[|s| - 1].category) != []
    ensures OfCategory(s, s[|s| - 1].category)[|OfCategory(s, s[|s| - 1].category)| - 1] == s[|s| - 1]
  {
  }

  /** A category above every category of a sorted list does not occur in it. */
  lemma {:induction false} OfCategoryAboveAll(s: seq<Correction>, c: string)
    requires SortedByCategory(s) && s != []
    requires StrLt(s[|s| - 1].category, c)
    ensures OfCategory(s, c) == []
  {
    StrLeTotalOrder();
    var init := s[..|s| - 1];
    if init != [] {
      assert StrLe(init[|init| - 1].category, s[|s| - 1].category);
      OfCategoryAboveAll(init, c);
    } else {
      assert OfCategory(init, c) == [];
    }
  }

  /** `perform_enhanced_analysis`'s return: the list itself when it has at
      most 25 entries, else the first 25 of the stable sort by category. */
  function Cap(cs: seq<Correction>): (r: seq<Correction>)
    ensures |r| <= MaxCorrections
    ensures |cs| <= MaxCorrections ==> r == cs
  {
    if |cs| > MaxCorrections then SortByCategory(cs)[..MaxCorrections] else cs
  }

  /** A capped list keeps only corrections of the input, sorted by
      category, and takes them from each category in input order; every
      dropped correction's category is at least every kept one's. */
  lemma CapSpec(cs: seq<Correction>)
    requires |cs| > MaxCorrections
    ensures |Cap(cs)| == MaxCorrections
    ensures multiset(Cap(cs)) <= multiset(cs)
    ensures SortedByCategory(Cap(cs))
    ensures forall c :: OfCategory(Cap(cs), c) <= OfCategory(cs, c)
    ensures forall d, k :: d in multiset(cs) - multiset(Cap(cs)) && k in Cap(cs) ==> StrLe(k.category, d.category)
  {
    var s := SortByCategory(cs);
    SortByCategorySpec(cs);
    assert |s| == |cs| by { assert |multiset(s)| == |multiset(cs)|; }
    var r := s[..MaxCorrections];
    assert s == r + s[MaxCorrections..];
    assert multiset(s) == multiset(r) + multiset(s[MaxCorrections..]);
    forall c ensures OfCategory(r, c) <= OfCategory(cs, c) {
      OfCategoryPrefix(s, MaxCorrections, c);
    }
    forall d, k | d in multiset(cs) - multiset(r) && k in r ensures StrLe(k.category, d.category) {
      assert d in s[MaxCorrections..];
      var j :| 0 <= j < |s| - MaxCorrections && s[MaxCorrections..][j] == d;
      var i :| 0 <= i < |r| && r[i] == k;
      assert s[i] == k && s[MaxCorrections + j] == d;
    }
  }

  lemma {:induction false} OfCategoryPrefix(s: seq<Correction>, n: nat, c: string)
    requires n <= |s|
    ensures OfCategory(s[..n], c) <= OfCategory(s, c)
    decreases |s|
  {
    if n < |s| {
      OfCategoryPrefix(s[..|s| - 1], n, c);
      assert s[..|s| - 1][..n] == s[..n];
    } else {
      assert s[..n] == s;
    }
  }
}
