/**
  Stable ordering of a sequence of distinct elements by an integer key.

  `Less` orders two elements by key and, on equal keys, by their position in a
  reference sequence.  A sequence that is `Ordered` and is a permutation of the
  reference sequence is the result of a stable sort of it, and there is only one
  such sequence (`StableSortUnique`).  `StableSort` is the recursive reference
  definition that the in-place mergesort is proved against.
 */
module StableOrder {

  ghost predicate Distinct<T>(s: seq<T>) {
    forall i, j :: 0 <= i < j < |s| ==> s[i] != s[j]
  }

  /** The position of every element of a sequence of distinct elements. */
  ghost function Positions<T>(s: seq<T>): (pos: map<T, nat>)
    requires Distinct(s)
    ensures pos.Keys == set x | x in s
    ensures forall i :: 0 <= i < |s| ==> s[i] in pos && pos[s[i]] == i
  {
    map i: nat | i < |s| :: s[i] := i
  }

  ghost predicate Less<T>(key: map<T, int>, pos: map<T, nat>, a: T, b: T) {
    && a in key && b in key && a in pos && b in pos
    && (key[a] < key[b] || (key[a] == key[b] && pos[a] < pos[b]))
  }

  ghost predicate Ordered<T>(key: map<T, int>, pos: map<T, nat>, s: seq<T>) {
    forall i, j :: 0 <= i < j < |s| ==> Less(key, pos, s[i], s[j])
  }

  /** `bigger` knows every key that `key` knows. */
  ghost predicate Extends<T>(bigger: map<T, int>, key: map<T, int>) {
    forall x :: x in key ==> x in bigger && bigger[x] == key[x]
  }

  /** Every element of `a` stands before every element of `b` in the reference sequence. */
  ghost predicate Before<T>(pos: map<T, nat>, a: seq<T>, b: seq<T>) {
    forall x, y :: x in a && y in b ==> x in pos && y in pos && pos[x] < pos[y]
  }

  lemma OrderedExtends<T>(bigger: map<T, int>, key: map<T, int>, pos: map<T, nat>, s: seq<T>)
    requires Extends(bigger, key) && Ordered(key, pos, s)
    ensures Ordered(bigger, pos, s)
  {
    forall i, j | 0 <= i < j < |s|
      ensures Less(bigger, pos, s[i], s[j])
    {
      assert Less(key, pos, s[i], s[j]);
    }
  }

  /** Any part of an ordered sequence is ordered. */
  lemma OrderedPart<T>(key: map<T, int>, pos: map<T, nat>, a: seq<T>, b: seq<T>, c: seq<T>)
    requires Ordered(key, pos, a + b + c)
    ensures Ordered(key, pos, b) && Ordered(key, pos, a + b) && Ordered(key, pos, b + c)
  {
    var s := a + b + c;
    forall i, j | 0 <= i < j < |b|
      ensures Less(key, pos, b[i], b[j])
    {
      assert s[|a| + i] == b[i] && s[|a| + j] == b[j];
    }
    forall i, j | 0 <= i < j < |a + b|
      ensures Less(key, pos, (a + b)[i], (a + b)[j])
    {
      assert s[i] == (a + b)[i] && s[j] == (a + b)[j];
    }
    forall i, j | 0 <= i < j < |b + c|
      ensures Less(key, pos, (b + c)[i], (b + c)[j])
    {
      assert s[|a| + i] == (b + c)[i] && s[|a| + j] == (b + c)[j];
    }
  }

  /** One merge step: `x` is below the head of `q`, so it may go out before all of `q`. */
  lemma MergeStep<T>(key: map<T, int>, pos: map<T, nat>, out: seq<T>, x: T, q: seq<T>)
    requires Ordered(key, pos, out + [x]) && Ordered(key, pos, out + q)
    requires |q| > 0 ==> Less(key, pos, x, q[0])
    ensures Ordered(key, pos, out + [x] + q)
  {
    var s := out + [x] + q;
    forall i, j | 0 <= i < j < |s|
      ensures Less(key, pos, s[i], s[j])
    {
      var n := |out|;
      if j <= n {
        assert s[i] == (out + [x])[i] && s[j] == (out + [x])[j];
      } else if i != n {
        var i' := if i < n then i else i - 1;
        assert s[i] == (out + q)[i'] && s[j] == (out + q)[j - 1];
      } else if j > n + 1 {
        assert q[0] == (out + q)[n] && s[j] == (out + q)[j - 1];
        assert Less(key, pos, q[0], s[j]);
      }
    }
  }

  // ---------------------------------------------------------------------------
  // Sequences made of sorted runs of a given size
  // ---------------------------------------------------------------------------

  /** Sorted runs of exactly `k` elements, each wholly before the next in the reference order. */
  ghost predicate FullRuns<T>(key: map<T, int>, pos: map<T, nat>, s: seq<T>, k: nat)
    requires k > 0
  {
    s == [] ||
    (k <= |s| && Ordered(key, pos, s[..k]) && Before(pos, s[..k], s[k..]) && FullRuns(key, pos, s[k..], k))
  }

  /** The same, except that the last run may be shorter. */
  ghost predicate Runs<T>(key: map<T, int>, pos: map<T, nat>, s: seq<T>, k: nat)
    requires k > 0
  {
    if |s| <= k then Ordered(key, pos, s)
    else Ordered(key, pos, s[..k]) && Before(pos, s[..k], s[k..]) && Runs(key, pos, s[k..], k)
  }

  lemma {:induction false} RunsExtends<T>(bigger: map<T, int>, key: map<T, int>, pos: map<T, nat>, s: seq<T>, k: nat)
    requires k > 0 && Extends(bigger, key)
    ensures Runs(key, pos, s, k) ==> Runs(bigger, pos, s, k)
    ensures FullRuns(key, pos, s, k) ==> FullRuns(bigger, pos, s, k)
    decreases |s|
  {
    if Ordered(key, pos, s) {
      OrderedExtends(bigger, key, pos, s);
    }
    if k <= |s| {
      if Ordered(key, pos, s[..k]) {
        OrderedExtends(bigger, key, pos, s[..k]);
      }
      RunsExtends(bigger, key, pos, s[k..], k);
    }
  }

  lemma BeforeParts<T>(pos: map<T, nat>, s: seq<T>, x: seq<T>, k: nat)
    requires k <= |s| && Before(pos, s, x) && Before(pos, s[..k], s[k..])
    ensures Before(pos, s[k..], x) && Before(pos, s[..k], s[k..] + x)
  {
    assert forall y :: y in s[k..] ==> y in s;
    assert forall y :: y in s[..k] ==> y in s;
  }

  /** Appending one more run to full runs; it closes the list if it is a short one. */
  lemma {:induction false} AppendRun<T>(key: map<T, int>, pos: map<T, nat>, s: seq<T>, x: seq<T>, k: nat)
    requires k > 0 && FullRuns(key, pos, s, k)
    requires Ordered(key, pos, x) && 0 < |x| <= k && Before(pos, s, x)
    ensures Runs(key, pos, s + x, k)
    ensures |x| == k ==> FullRuns(key, pos, s + x, k)
    decreases |s|
  {
    if s == [] {
      assert s + x == x && x[..|x|] == x && x[|x|..] == [];
    } else {
      var a, rest := s[..k], s[k..];
      BeforeParts(pos, s, x, k);
      hide Ordered, Before;
      AppendRun(key, pos, rest, x, k);
      assert (s + x)[..k] == a && (s + x)[k..] == rest + x;
    }
  }

  /** At run size one every reference sequence qualifies, whatever keys are known. */
  lemma {:induction false} SingletonRuns<T>(key: map<T, int>, pos: map<T, nat>, s: seq<T>)
    requires forall i :: 0 <= i < |s| ==> s[i] in pos
    requires forall i, j :: 0 <= i < j < |s| ==> pos[s[i]] < pos[s[j]]
    ensures Runs(key, pos, s, 1)
    decreases |s|
  {
    if |s| > 1 {
      SingletonRuns(key, pos, s[1..]);
    }
  }

  // ---------------------------------------------------------------------------
  // The reference sort and its uniqueness
  // ---------------------------------------------------------------------------

  ghost function KeyOr0<T>(key: map<T, int>, x: T): int {
    if x in key then key[x] else 0
  }

  /** Inserts `x` in front of the first element whose key is not smaller. */
  ghost function Insert<T>(key: map<T, int>, x: T, s: seq<T>): seq<T> {
    if s == [] || KeyOr0(key, x) <= KeyOr0(key, s[0]) then [x] + s else [s[0]] + Insert(key, x, s[1..])
  }

  ghost function StableSort<T>(key: map<T, int>, s: seq<T>): seq<T> {
    if s == [] then [] else Insert(key, s[0], StableSort(key, s[1..]))
  }

  lemma SameElements<T>(a: seq<T>, b: seq<T>)
    requires multiset(a) == multiset(b)
    ensures forall x :: x in a ==> x in b
    ensures forall x :: x in b ==> x in a
    ensures |a| == |b|
  {
    assert |multiset(a)| == |a| && |multiset(b)| == |b|;
    forall x
      ensures x in a <==> x in b
    {
      assert x in a <==> x in multiset(a);
      assert x in b <==> x in multiset(b);
    }
  }

  lemma {:induction false} InsertKeeps<T>(key: map<T, int>, x: T, s: seq<T>)
    ensures multiset(Insert(key, x, s)) == multiset{x} + multiset(s)
    decreases |s|
  {
    if s != [] {
      assert s == [s[0]] + s[1..];
      InsertKeeps(key, x, s[1..]);
    }
  }

  /** The reference sort rearranges: no element is lost or invented. */
  lemma {:induction false} StableSortKeeps<T>(key: map<T, int>, s: seq<T>)
    ensures multiset(StableSort(key, s)) == multiset(s)
    decreases |s|
  {
    if s != [] {
      assert s == [s[0]] + s[1..];
      StableSortKeeps(key, s[1..]);
      InsertKeeps(key, s[0], StableSort(key, s[1..]));
    }
  }

  lemma {:induction false} InsertOrdered<T>(key: map<T, int>, pos: map<T, nat>, x: T, s: seq<T>)
    requires x in key && forall y :: y in s ==> y in key
    requires Ordered(key, pos, s) && x in pos
    requires forall y :: y in s ==> y in pos && pos[x] < pos[y]
    ensures Ordered(key, pos, Insert(key, x, s))
    decreases |s|
  {
    if s == [] {
    } else if key[x] <= key[s[0]] {
      assert Ordered(key, pos, [] + [x]);
      MergeStep(key, pos, [], x, s);
      assert [] + [x] + s == [x] + s;
    } else {
      var t := s[1..];
      assert [s[0]] + t + [] == s;
      OrderedPart(key, pos, [s[0]], t, []);
      InsertOrdered(key, pos, x, t);
      var r := Insert(key, x, t);
      InsertKeeps(key, x, t);
      forall y | y in r
        ensures Less(key, pos, s[0], y)
      {
        assert y in multiset(r);
        if y != x {
          var i :| 0 <= i < |t| && t[i] == y;
          assert Less(key, pos, s[0], s[i + 1]);
        }
      }
    }
  }

  /** The reference sort is stable: its result is ordered by key, then by position. */
  lemma {:induction false} StableSortOrdered<T>(key: map<T, int>, pos: map<T, nat>, s: seq<T>)
    requires forall y :: y in s ==> y in key
    requires forall i :: 0 <= i < |s| ==> s[i] in pos
    requires forall i, j :: 0 <= i < j < |s| ==> pos[s[i]] < pos[s[j]]
    ensures Ordered(key, pos, StableSort(key, s))
    decreases |s|
  {
    if s != [] {
      StableSortOrdered(key, pos, s[1..]);
      StableSortKeeps(key, s[1..]);
      SameElements(StableSort(key, s[1..]), s[1..]);
      var t := StableSort(key, s[1..]);
      forall y | y in t
        ensures y in key && y in pos && pos[s[0]] < pos[y]
      {
        assert y in s[1..];
        var i :| 0 <= i < |s[1..]| && s[1..][i] == y;
        assert s[i + 1] == y;
      }
      InsertOrdered(key, pos, s[0], StableSort(key, s[1..]));
    }
  }

  lemma HeadsAgree<T>(key: map<T, int>, pos: map<T, nat>, a: seq<T>, b: seq<T>)
    requires Ordered(key, pos, a) && Ordered(key, pos, b)
    requires |a| > 0 && |b| > 0 && a[0] in b && b[0] in a
    ensures a[0] == b[0]
  {
    var i :| 0 <= i < |b| && b[i] == a[0];
    var j :| 0 <= j < |a| && a[j] == b[0];
    assert 0 < j ==> Less(key, pos, a[0], b[0]);
    assert 0 < i ==> Less(key, pos, b[0], a[0]);
  }

  lemma TailsAgree<T>(a: seq<T>, b: seq<T>)
    requires |a| > 0 && |b| > 0 && a[0] == b[0] && multiset(a) == multiset(b)
    ensures multiset(a[1..]) == multiset(b[1..])
  {
    assert a == [a[0]] + a[1..] && b == [b[0]] + b[1..];
    assert multiset(a) == multiset{a[0]} + multiset(a[1..]);
    assert multiset(b) == multiset{a[0]} + multiset(b[1..]);
    assert multiset(a) - multiset{a[0]} == multiset(a[1..]);
  }

  /** Two ordered arrangements of the same elements are the same sequence. */
  lemma {:induction false} OrderedUnique<T>(key: map<T, int>, pos: map<T, nat>, a: seq<T>, b: seq<T>)
    requires Ordered(key, pos, a) && Ordered(key, pos, b) && multiset(a) == multiset(b)
    ensures a == b
    decreases |a|
  {
    assert |multiset(a)| == |a| && |multiset(b)| == |b|;
    if a != [] {
      assert a[0] in multiset(b) && b[0] in multiset(a);
      HeadsAgree(key, pos, a, b);
      TailsAgree(a, b);
      OrderedUnique(key, pos, a[1..], b[1..]);
      assert a == [a[0]] + a[1..] && b == [b[0]] + b[1..];
    }
  }

  /** An ordered permutation of `s` is the stable sort of `s`, and the only one. */
  lemma StableSortUnique<T>(key: map<T, int>, s: seq<T>, r: seq<T>)
    requires Distinct(s) && forall y :: y in s ==> y in key
    requires multiset(r) == multiset(s) && Ordered(key, Positions(s), r)
    ensures r == StableSort(key, s)
  {
    StableSortOrdered(key, Positions(s), s);
    StableSortKeeps(key, s);
    OrderedUnique(key, Positions(s), r, StableSort(key, s));
  }

  /** Keys strictly ascend along `s`. */
  ghost predicate Ascending<T>(key: map<T, int>, s: seq<T>) {
    forall i, j :: 0 <= i < j < |s| ==> s[i] in key && s[j] in key && key[s[i]] < key[s[j]]
  }

  lemma {:induction false} DistinctOnce<T>(s: seq<T>, x: T)
    requires Distinct(s)
    ensures multiset(s)[x] <= 1
    decreases |s|
  {
    if s != [] {
      assert s == [s[0]] + s[1..];
      DistinctOnce(s[1..], x);
      if x == s[0] {
        assert x !in s[1..];
      }
    }
  }

  lemma PermutationDistinct<T>(p: seq<T>, s: seq<T>)
    requires Distinct(s) && multiset(p) == multiset(s)
    ensures Distinct(p)
  {
    forall i, j | 0 <= i < j < |p|
      ensures p[i] != p[j]
    {
      assert p == p[..i] + [p[i]] + p[i + 1..j] + [p[j]] + p[j + 1..];
      DistinctOnce(s, p[i]);
    }
  }

  /** A list whose keys strictly ascend is what sorting any rearrangement of it yields. */
  lemma AscendingRestored<T>(key: map<T, int>, p: seq<T>, s: seq<T>)
    requires Distinct(s) && Ascending(key, s) && multiset(p) == multiset(s)
    requires forall y :: y in p ==> y in key
    ensures StableSort(key, p) == s
  {
    PermutationDistinct(p, s);
    SameElements(p, s);
    forall i, j | 0 <= i < j < |s|
      ensures Less(key, Positions(p), s[i], s[j])
    {
      assert s[i] in p && s[j] in p;
    }
    StableSortUnique(key, p, s);
  }

  lemma TieNotRestored<T>(key: map<T, int>, s: seq<T>, p: seq<T>, i: nat, j: nat)
    requires Distinct(s) && forall y :: y in s ==> y in key
    requires i < j < |s| && key[s[j]] <= key[s[i]]
    requires p == s[i := s[j]][j := s[i]]
    ensures multiset(p) == multiset(s) && forall y :: y in p ==> y in key
    ensures StableSort(key, p) != s
  {
    PermutationDistinct(p, s);
    SameElements(p, s);
    var pos := Positions(p);
    StableSortOrdered(key, pos, p);
    assert p[j] == s[i] && p[i] == s[j];
    assert !Less(key, pos, s[i], s[j]);
    assert !Ordered(key, pos, s);
  }

  /**
    When does sorting undo every rearrangement?  For a list that is already sorted,
    exactly when its keys strictly ascend: with a tie, swapping the two tied elements is a
    rearrangement that a stable sort keeps.
   */
  lemma SortUndoesEveryRearrangement<T(!new)>(key: map<T, int>, s: seq<T>)
    requires Distinct(s) && forall y :: y in s ==> y in key
    ensures (forall p: seq<T> :: multiset(p) == multiset(s) ==> SortsTo(key, p, s)) <==> Ascending(key, s)
  {
    if Ascending(key, s) {
      forall p: seq<T> | multiset(p) == multiset(s)
        ensures SortsTo(key, p, s)
      {
        SameElements(p, s);
        AscendingRestored(key, p, s);
      }
    } else {
      var i, j :| 0 <= i < j < |s| && !(s[i] in key && s[j] in key && key[s[i]] < key[s[j]]);
      var p := s[i := s[j]][j := s[i]];
      TieNotRestored(key, s, p, i, j);
      assert !SortsTo(key, p, s);
    }
  }

  ghost predicate SortsTo<T>(key: map<T, int>, p: seq<T>, s: seq<T>) {
    (forall y :: y in p ==> y in key) && StableSort(key, p) == s
  }
}
