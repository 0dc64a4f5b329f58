/** Sorting, duplicate removal and the order of strings (Go's sort and slices packages, as far as they are used). */
module Ordering {

  /** Go's string order; a character stands for a byte. */
  predicate Less(a: string, b: string) {
    b != "" && (a == "" || a[0] < b[0] || (a[0] == b[0] && Less(a[1..], b[1..])))
  }

  ghost predicate WeakAt<T>(lt: (T, T) -> bool, a: T, b: T, c: T) {
    && !lt(a, a)
    && (lt(a, c) ==> lt(a, b) || lt(b, c))
    && (lt(a, b) && lt(b, c) ==> lt(a, c))
  }

  /** A strict order in which different elements may tie. */
  ghost predicate WeakOrder<T(!new)>(lt: (T, T) -> bool) {
    forall a, b, c :: WeakAt(lt, a, b, c)
  }

  ghost predicate Comparable<T>(lt: (T, T) -> bool, a: T, b: T) {
    a == b || lt(a, b) || lt(b, a)
  }

  ghost predicate TotalOrder<T(!new)>(lt: (T, T) -> bool) {
    WeakOrder(lt) && forall a, b :: Comparable(lt, a, b)
  }

  lemma {:induction false} LessConnects(a: string, b: string)
    ensures !Less(a, a)
    ensures a == b || Less(a, b) || Less(b, a)
  {
    if a != "" {
      LessConnects(a[1..], if b != "" then b[1..] else "");
      assert b != "" && a[0] == b[0] && a[1..] == b[1..] ==> a == [a[0]] + a[1..] == [b[0]] + b[1..] == b;
    }
  }

  /** Both strings go on behind position `i`, where the first is smaller, and agree before it. */
  ghost predicate SmallerAt(a: string, b: string, i: int) {
    0 <= i < |a| && i < |b| && a[i] < b[i] && a[..i] == b[..i]
  }

  /** The first difference decides, and a proper prefix comes first. */
  lemma {:induction false} LessIsLexicographic(a: string, b: string)
    ensures Less(a, b) <==> (a <= b && a != b) || exists i :: SmallerAt(a, b, i)
  {
    if a == "" {
      assert a <= b && !exists i :: SmallerAt(a, b, i);
    } else if b != "" {
      assert a == [a[0]] + a[1..] && b == [b[0]] + b[1..];
      if a[0] == b[0] {
        LessIsLexicographic(a[1..], b[1..]);
        SameHead(a[0], a[1..], b[1..]);
      } else if a[0] < b[0] {
        assert SmallerAt(a, b, 0);
      } else {
        assert forall i :: i > 0 && SmallerAt(a, b, i) ==> a[..i][0] == b[..i][0];
      }
    }
  }

  lemma SameHead(x: char, a: string, b: string)
    ensures [x] + a <= [x] + b <==> a <= b
    ensures [x] + a == [x] + b <==> a == b
    ensures (exists i :: SmallerAt([x] + a, [x] + b, i)) <==> exists i :: SmallerAt(a, b, i)
  {
    var c, d := [x] + a, [x] + b;
    assert c[1..] == a && d[1..] == b;
    if i :| SmallerAt(a, b, i) {
      assert c[..i + 1] == [x] + a[..i] && d[..i + 1] == [x] + b[..i];
      assert SmallerAt(c, d, i + 1);
    }
    if i :| SmallerAt(c, d, i) {
      assert a[..i - 1] == c[..i][1..] && b[..i - 1] == d[..i][1..];
      assert SmallerAt(a, b, i - 1);
    }
  }

  lemma {:induction false} LessTransitive(a: string, b: string, c: string)
    requires Less(a, b) && Less(b, c)
    ensures Less(a, c)
  {
    if a != "" && a[0] == b[0] == c[0] {
      LessTransitive(a[1..], b[1..], c[1..]);
    }
  }

  lemma StringsAreOrdered()
    ensures TotalOrder(Less)
  {
    forall a: string, b: string
      ensures Comparable(Less, a, b)
    {
      LessConnects(a, b);
    }
    forall a: string, b: string, c: string
      ensures WeakAt(Less, a, b, c)
    {
      LessConnects(a, b);
      LessConnects(b, c);
      if Less(a, b) && Less(b, c) { LessTransitive(a, b, c); }
      if Less(a, c) && Less(c, b) { LessTransitive(a, c, b); }
    }
  }

  ghost predicate Ascending<T>(lt: (T, T) -> bool, s: seq<T>) {
    forall i, j :: 0 <= i < j < |s| ==> !lt(s[j], s[i])
  }

  ghost predicate StrictlyAscending<T>(lt: (T, T) -> bool, s: seq<T>) {
    forall i, j :: 0 <= i < j < |s| ==> lt(s[i], s[j])
  }

  /** Some sorting of `s`; sort.Slice does not promise which one when keys are equal. */
  ghost predicate IsSorting<T>(lt: (T, T) -> bool, s: seq<T>, sorted: seq<T>) {
    Ascending(lt, sorted) && multiset(sorted) == multiset(s)
  }

  function Insert<T>(lt: (T, T) -> bool, x: T, s: seq<T>): seq<T> {
    if s == [] || !lt(s[0], x) then [x] + s else [s[0]] + Insert(lt, x, s[1..])
  }

  function Sort<T>(lt: (T, T) -> bool, s: seq<T>): seq<T> {
    if s == [] then [] else Insert(lt, s[0], Sort(lt, s[1..]))
  }

  lemma {:induction false} InsertKeeps<T(!new)>(lt: (T, T) -> bool, x: T, s: seq<T>)
    ensures multiset(Insert(lt, x, s)) == multiset([x] + s)
  {
    if s != [] {
      InsertKeeps(lt, x, s[1..]);
      assert s == [s[0]] + s[1..];
    }
  }

  lemma {:induction false} InsertSorts<T(!new)>(lt: (T, T) -> bool, x: T, s: seq<T>)
    requires WeakOrder(lt) && Ascending(lt, s)
    ensures Ascending(lt, Insert(lt, x, s))
  {
    if s != [] && lt(s[0], x) {
      var rest := Insert(lt, x, s[1..]);
      InsertSorts(lt, x, s[1..]);
      InsertKeeps(lt, x, s[1..]);
      SameElements(rest, [x] + s[1..]);
      forall j | 0 <= j < |rest|
        ensures !lt(rest[j], s[0])
      {
        assert rest[j] in rest;
        assert WeakAt(lt, s[0], rest[j], x) && WeakAt(lt, s[0], x, s[0]);
      }
    } else {
      forall j | 0 <= j < |s|
        ensures !lt(s[j], x)
      {
        assert WeakAt(lt, s[j], s[0], x);
      }
    }
  }

  lemma {:induction false} SortSorts<T(!new)>(lt: (T, T) -> bool, s: seq<T>)
    requires WeakOrder(lt)
    ensures IsSorting(lt, s, Sort(lt, s))
  {
    if s != [] {
      SortSorts(lt, s[1..]);
      InsertSorts(lt, s[0], Sort(lt, s[1..]));
      InsertKeeps(lt, s[0], Sort(lt, s[1..]));
      assert s == [s[0]] + s[1..];
    }
  }

  lemma SameElements<T>(a: seq<T>, b: seq<T>)
    requires multiset(a) == multiset(b)
    ensures forall x :: x in a <==> x in b
    ensures |a| == |b|
  {
    assert forall x :: x in a <==> x in multiset(a);
    assert |multiset(a)| == |a| && |multiset(b)| == |b|;
  }

  /** slices.Compact */
  function Compact<T(==)>(s: seq<T>): seq<T> {
    if |s| < 2 then s
    else if s[0] == s[1] then Compact(s[1..])
    else [s[0]] + Compact(s[1..])
  }

  lemma {:induction false} CompactKeepsElements<T(!new)>(s: seq<T>, x: T)
    ensures x in Compact(s) <==> x in s
    ensures s != [] ==> Compact(s) != [] && Compact(s)[0] == s[0]
  {
    if |s| >= 2 {
      CompactKeepsElements(s[1..], x);
      assert s == [s[0]] + s[1..];
    }
  }

  lemma {:induction false} CompactOfSorted<T(!new)>(lt: (T, T) -> bool, s: seq<T>)
    requires TotalOrder(lt) && Ascending(lt, s)
    ensures StrictlyAscending(lt, Compact(s))
  {
    if |s| >= 2 {
      CompactOfSorted(lt, s[1..]);
      var rest := Compact(s[1..]);
      CompactKeepsElements(s[1..], s[1]);
      assert Comparable(lt, s[0], s[1]);
      forall j | 0 <= j < |rest| && s[0] != s[1]
        ensures lt(s[0], rest[j])
      {
        assert WeakAt(lt, s[0], rest[0], rest[j]);
      }
    }
  }

  lemma HeadIsIn<T>(s: seq<T>)
    ensures s == [] || s[0] in s
  {
  }

  /** A strictly ascending sequence is determined by its set of elements. */
  lemma {:induction false} StrictlyAscendingIsUnique<T(!new)>(lt: (T, T) -> bool, a: seq<T>, b: seq<T>)
    requires WeakOrder(lt) && StrictlyAscending(lt, a) && StrictlyAscending(lt, b)
    requires forall x :: x in a <==> x in b
    ensures a == b
  {
    HeadIsIn(a);
    HeadIsIn(b);
    if a != [] {
      assert WeakAt(lt, a[0], b[0], a[0]);
      assert a == [a[0]] + a[1..] && b == [b[0]] + b[1..];
      forall x
        ensures x in a[1..] <==> x in b[1..]
      {
        assert x in a <==> x == a[0] || x in a[1..];
        assert x in b <==> x == b[0] || x in b[1..];
        assert lt(a[0], x) <== x in a[1..];
        assert lt(b[0], x) <== x in b[1..];
        assert WeakAt(lt, x, x, x);
      }
      StrictlyAscendingIsUnique(lt, a[1..], b[1..]);
    }
  }

  ghost predicate Distinct<T>(s: seq<T>) {
    forall i, j :: 0 <= i < j < |s| ==> s[i] != s[j]
  }

  lemma DistinctOneMore<T>(s: seq<T>, x: T)
    ensures Distinct(s + [x]) <==> Distinct(s) && x !in s
  {
    var t := s + [x];
    assert t[|s|] == x && forall i :: 0 <= i < |s| ==> t[i] == s[i];
    if Distinct(t) {
      assert forall i :: 0 <= i < |s| ==> s[i] != x;
    }
  }

  lemma TwiceInMultiset<T>(s: seq<T>, i: nat, j: nat)
    requires i < j < |s| && s[i] == s[j]
    ensures multiset(s)[s[i]] >= 2
  {
    assert s == s[..j] + [s[j]] + s[j + 1..];
    assert s[i] in s[..j];
  }

  lemma {:induction false} OnceInMultiset<T>(s: seq<T>, x: T)
    requires Distinct(s)
    ensures multiset(s)[x] <= 1
  {
    if s != [] {
      assert s == [s[0]] + s[1..];
      OnceInMultiset(s[1..], x);
    }
  }

  lemma DistinctReordered<T>(s: seq<T>, t: seq<T>)
    requires Distinct(s) && multiset(s) == multiset(t)
    ensures Distinct(t)
  {
    forall i, j | 0 <= i < j < |t|
      ensures t[i] != t[j]
    {
      OnceInMultiset(s, t[i]);
      if t[i] == t[j] { TwiceInMultiset(t, i, j); }
    }
  }

  lemma DistinctSorted<T(!new)>(lt: (T, T) -> bool, s: seq<T>)
    requires TotalOrder(lt) && Distinct(s)
    ensures StrictlyAscending(lt, Sort(lt, s))
    ensures forall x :: x in Sort(lt, s) <==> x in s
  {
    var sorted := Sort(lt, s);
    SortSorts(lt, s);
    SameElements(sorted, s);
    DistinctReordered(s, sorted);
    forall i, j | 0 <= i < j < |sorted|
      ensures lt(sorted[i], sorted[j])
    {
      assert Comparable(lt, sorted[i], sorted[j]);
    }
  }

  lemma SortedAndCompacted<T(!new)>(lt: (T, T) -> bool, s: seq<T>)
    requires TotalOrder(lt)
    ensures StrictlyAscending(lt, Compact(Sort(lt, s)))
    ensures forall x :: x in Compact(Sort(lt, s)) <==> x in s
  {
    var sorted := Sort(lt, s);
    SortSorts(lt, s);
    SameElements(sorted, s);
    CompactOfSorted(lt, sorted);
    forall x
      ensures x in Compact(sorted) <==> x in sorted
    {
      CompactKeepsElements(sorted, x);
    }
  }

  ghost predicate NoTies<T>(lt: (T, T) -> bool, s: seq<T>) {
    forall i, j :: 0 <= i < j < |s| ==> lt(s[i], s[j]) || lt(s[j], s[i])
  }

  /** When no two elements tie, sorting has only one outcome. */
  lemma SortingIsUnique<T(!new)>(lt: (T, T) -> bool, s: seq<T>, a: seq<T>, b: seq<T>)
    requires WeakOrder(lt) && IsSorting(lt, s, a) && IsSorting(lt, s, b)
    requires NoTies(lt, a) && NoTies(lt, b)
    ensures a == b
  {
    SameElements(a, b);
    StrictlyAscendingIsUnique(lt, a, b);
  }
}
