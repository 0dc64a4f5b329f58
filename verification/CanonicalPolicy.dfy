/** The canonical text of an allocation-policy descriptor (pkg/allocpolicy/allocpolicy.go). */
module CanonicalPolicy {
  import opened Ordering
  import opened Splitting

  datatype Entry = Entry(component: string, paths: seq<string>)

  type Pair = (string, string)

  /* ---- What the text is a rendering of ---- */

  ghost predicate Has(entries: seq<Entry>, p: Pair) {
    exists e :: e in entries && e.component == p.0 && p.1 in e.paths
  }

  predicate PairLess(a: Pair, b: Pair) {
    Less(a.0, b.0) || (a.0 == b.0 && Less(a.1, b.1))
  }

  lemma PairsAreOrdered()
    ensures TotalOrder(PairLess)
  {
    StringsAreOrdered();
    forall a: Pair, b: Pair
      ensures Comparable(PairLess, a, b)
    {
      assert Comparable(Less, a.0, b.0) && Comparable(Less, a.1, b.1);
    }
    forall a: Pair, b: Pair, c: Pair
      ensures WeakAt(PairLess, a, b, c)
    {
      assert WeakAt(Less, a.0, b.0, c.0) && WeakAt(Less, a.1, b.1, c.1) && WeakAt(Less, a.0, a.0, a.0);
      assert Comparable(Less, a.0, b.0) && Comparable(Less, b.0, c.0) && Comparable(Less, a.1, b.1);
    }
  }

  function Line(p: Pair): string {
    p.0 + ":" + p.1 + "\n"
  }

  function Text(lines: seq<Pair>): string {
    if lines == [] then "" else Text(lines[..|lines| - 1]) + Line(lines[|lines| - 1])
  }

  /** The pairs of the entries, each once, in order. */
  ghost predicate Enumerates(lines: seq<Pair>, entries: seq<Entry>) {
    StrictlyAscending(PairLess, lines) && forall p: Pair :: p in lines <==> Has(entries, p)
  }

  function PairsOf(component: string, paths: seq<string>): (r: seq<Pair>)
    ensures |r| == |paths| && forall i :: 0 <= i < |paths| ==> r[i] == (component, paths[i])
  {
    if paths == [] then [] else PairsOf(component, paths[..|paths| - 1]) + [(component, paths[|paths| - 1])]
  }

  function AllPairs(entries: seq<Entry>): seq<Pair> {
    if entries == [] then [] else PairsOf(entries[0].component, entries[0].paths) + AllPairs(entries[1..])
  }

  /** All pairs at once: sorted, then each kept once. */
  function Lines(entries: seq<Entry>): seq<Pair> {
    Compact(Sort(PairLess, AllPairs(entries)))
  }

  function CanonicalText(entries: seq<Entry>): string {
    Text(Lines(entries))
  }

  lemma PairsOfAre(component: string, paths: seq<string>)
    ensures forall p: Pair :: p in PairsOf(component, paths) <==> p.0 == component && p.1 in paths
  {
    var pairs := PairsOf(component, paths);
    forall p: Pair
      ensures p in pairs <==> p.0 == component && p.1 in paths
    {
      if p.0 == component && p.1 in paths {
        var k :| 0 <= k < |paths| && paths[k] == p.1;
        assert pairs[k] == p;
      }
    }
  }

  lemma {:induction false} AllPairsAre(entries: seq<Entry>, p: Pair)
    ensures p in AllPairs(entries) <==> Has(entries, p)
  {
    if entries != [] {
      AllPairsAre(entries[1..], p);
      PairsOfAre(entries[0].component, entries[0].paths);
      assert entries == [entries[0]] + entries[1..];
    }
  }

  lemma LinesEnumerate(entries: seq<Entry>)
    ensures Enumerates(Lines(entries), entries)
  {
    PairsAreOrdered();
    SortedAndCompacted(PairLess, AllPairs(entries));
    forall p: Pair
      ensures p in AllPairs(entries) <==> Has(entries, p)
    {
      AllPairsAre(entries, p);
    }
  }

  /* ---- The code ---- */

  /** Everything merged under a component so far, and the components in order of appearance. */
  ghost predicate MergedFrom(merged: map<string, seq<string>>, components: seq<string>, entries: seq<Entry>) {
    && (forall c :: c in components <==> c in merged)
    && Distinct(components)
    && (forall p: Pair :: Has(entries, p) <==> p.0 in merged && p.1 in merged[p.0])
  }

  method MergeEntries(entries: seq<Entry>) returns (merged: map<string, seq<string>>, components: seq<string>)
    ensures MergedFrom(merged, components, entries)
  {
    merged, components := map[], [];
    for i := 0 to |entries|
      invariant MergedFrom(merged, components, entries[..i])
    {
      var e := entries[i];
      ghost var before := merged;
      if e.component !in merged {
        components := components + [e.component];
        merged := merged[e.component := e.paths];
      } else {
        merged := merged[e.component := merged[e.component] + e.paths];
      }
      assert entries[..i + 1] == entries[..i] + [e];
      forall p: Pair
        ensures Has(entries[..i + 1], p) <==> Has(entries[..i], p) || (p.0 == e.component && p.1 in e.paths)
      {
        assert e in entries[..i + 1];
      }
    }
  }

  method WritePaths(component: string, merged: seq<string>) returns (text: string)
    ensures text == Text(PairsOf(component, Compact(Sort(Less, merged))))
  {
    var paths := Sort(Less, merged);
    paths := Compact(paths);
    text := "";
    for i := 0 to |paths|
      invariant text == Text(PairsOf(component, paths[..i]))
    {
      assert paths[..i + 1][..i] == paths[..i];
      TextOfOneMore(PairsOf(component, paths[..i]), (component, paths[i]));
      text := text + (component + ":" + paths[i] + "\n");
    }
    assert paths[..|paths|] == paths;
  }

  lemma BlockIsSorted(component: string, merged: seq<string>)
    ensures var block := PairsOf(component, Compact(Sort(Less, merged)));
            StrictlyAscending(PairLess, block) && forall p: Pair :: p in block <==> p.0 == component && p.1 in merged
  {
    StringsAreOrdered();
    SortedAndCompacted(Less, merged);
    PairsOfAre(component, Compact(Sort(Less, merged)));
  }

  lemma TextOfOneMore(lines: seq<Pair>, p: Pair)
    ensures Text(lines + [p]) == Text(lines) + Line(p)
  {
    assert (lines + [p])[..|lines|] == lines;
  }

  lemma {:induction false} TextOfJoin(a: seq<Pair>, b: seq<Pair>)
    ensures Text(a + b) == Text(a) + Text(b)
  {
    if b == [] {
      assert a + b == a;
    } else {
      var front, last := b[..|b| - 1], b[|b| - 1];
      assert a + b == (a + front) + [last] && b == front + [last];
      TextOfJoin(a, front);
      TextOfOneMore(a + front, last);
      TextOfOneMore(front, last);
      Regroup(Text(a), Text(front), Line(last));
    }
  }

  /** `canonicalStringFor`: merged per component, components sorted, each component's paths sorted and compacted. */
  method CanonicalStringFor(entries: seq<Entry>) returns (text: string)
    ensures text == CanonicalText(entries)
  {
    var merged, components := MergeEntries(entries);
    var sorted := Sort(Less, components);
    StringsAreOrdered();
    DistinctSorted(Less, components);
    text := "";
    ghost var lines: seq<Pair> := [];
    for i := 0 to |sorted|
      invariant text == Text(lines) && ListsFirst(lines, sorted, merged, i)
    {
      var component := sorted[i];
      assert component in merged;
      ghost var more := PairsOf(component, Compact(Sort(Less, merged[component])));
      var block := WritePaths(component, merged[component]);
      BlockIsSorted(component, merged[component]);
      TextOfJoin(lines, more);
      ListsNext(lines, more, sorted, merged, i);
      text, lines := text + block, lines + more;
    }
    assert sorted[..|sorted|] == sorted;
    LinesAreUnique(entries, lines);
  }

  lemma LinesAreUnique(entries: seq<Entry>, lines: seq<Pair>)
    requires Enumerates(lines, entries)
    ensures lines == Lines(entries)
  {
    PairsAreOrdered();
    LinesEnumerate(entries);
    StrictlyAscendingIsUnique(PairLess, lines, Lines(entries));
  }

  /** The lines of the first `i` components. */
  ghost predicate ListsFirst(lines: seq<Pair>, sorted: seq<string>, merged: map<string, seq<string>>, i: nat)
    requires i <= |sorted| && forall c :: c in sorted ==> c in merged
  {
    && StrictlyAscending(PairLess, lines)
    && forall p: Pair :: p in lines <==> p.0 in sorted[..i] && p.1 in merged[p.0]
  }

  lemma ListsNext(lines: seq<Pair>, more: seq<Pair>, sorted: seq<string>, merged: map<string, seq<string>>, i: nat)
    requires i < |sorted| && StrictlyAscending(Less, sorted) && forall c :: c in sorted ==> c in merged
    requires ListsFirst(lines, sorted, merged, i) && StrictlyAscending(PairLess, more)
    requires forall p: Pair :: p in more <==> p.0 == sorted[i] && p.1 in merged[sorted[i]]
    ensures ListsFirst(lines + more, sorted, merged, i + 1)
  {
    assert sorted[..i + 1] == sorted[..i] + [sorted[i]];
    forall a, b | 0 <= a < |lines| && 0 <= b < |more|
      ensures PairLess(lines[a], more[b])
    {
      assert lines[a] in lines && more[b] in more;
    }
  }

  /** `IdentityFor`; the hash is an arbitrary function. */
  method IdentityFor(hash: string -> string, entries: seq<Entry>) returns (identity: string)
    ensures identity == hash(CanonicalText(entries))
  {
    var text := CanonicalStringFor(entries);
    identity := hash(text);
  }

  /* ---- What the text determines, and what determines it ---- */

  ghost predicate SamePairs(a: seq<Entry>, b: seq<Entry>) {
    forall p: Pair :: Has(a, p) <==> Has(b, p)
  }

  /** Order, repetition and splitting of the entries make no difference: only the set of pairs counts. */
  lemma OnlyThePairsCount(a: seq<Entry>, b: seq<Entry>)
    requires SamePairs(a, b)
    ensures CanonicalText(a) == CanonicalText(b)
  {
    LinesEnumerate(a);
    LinesAreUnique(b, Lines(a));
  }

  predicate Clean(p: Pair) {
    ':' !in p.0 && '\n' !in p.0 && '\n' !in p.1
  }

  lemma FirstLineIsDetermined(p: Pair, rest: string, q: Pair, others: string)
    requires Clean(p) && Clean(q) && Line(p) + rest == Line(q) + others
    ensures p == q && rest == others
  {
    var s := Line(p) + rest;
    assert s == p.0 + ":" + p.1 + ['\n'] + rest && s == q.0 + ":" + q.1 + ['\n'] + others;
    CutsAtTheSamePlace(p.0 + ":" + p.1, rest, '\n', q.0 + ":" + q.1, others);
    CutsAtTheSamePlace(p.0, p.1, ':', q.0, q.1);
  }

  lemma FirstLine(lines: seq<Pair>)
    requires lines != []
    ensures Text(lines) == Line(lines[0]) + Text(lines[1..]) && Text(lines) != ""
  {
    assert lines == [lines[0]] + lines[1..];
    TextOfJoin([lines[0]], lines[1..]);
    assert [lines[0]][..0] == [];
    assert Text([lines[0]]) == Line(lines[0]);
  }

  lemma {:induction false} TextIsInjective(a: seq<Pair>, b: seq<Pair>)
    requires (forall p :: p in a ==> Clean(p)) && (forall p :: p in b ==> Clean(p))
    requires Text(a) == Text(b)
    ensures a == b
  {
    if a != [] { FirstLine(a); }
    if b != [] { FirstLine(b); }
    if a != [] && b != [] {
      assert a[0] in a && b[0] in b;
      FirstLineIsDetermined(a[0], Text(a[1..]), b[0], Text(b[1..]));
      TextIsInjective(a[1..], b[1..]);
      assert a == [a[0]] + a[1..] && b == [b[0]] + b[1..];
    }
  }

  /**
   For components without ':' and newline and paths without newline, the text stands for exactly the set
   of pairs, and so does the identity under a hash that keeps the two texts apart.
   */
  lemma TheTextIsThePairs(a: seq<Entry>, b: seq<Entry>, hash: string -> string)
    requires forall p: Pair :: Has(a, p) || Has(b, p) ==> Clean(p)
    ensures CanonicalText(a) == CanonicalText(b) <==> SamePairs(a, b)
    ensures (hash(CanonicalText(a)) == hash(CanonicalText(b)) ==> CanonicalText(a) == CanonicalText(b)) ==>
              (hash(CanonicalText(a)) == hash(CanonicalText(b)) <==> SamePairs(a, b))
  {
    LinesEnumerate(a);
    LinesEnumerate(b);
    if CanonicalText(a) == CanonicalText(b) {
      assert forall p :: p in Lines(a) ==> Has(a, p);
      assert forall p :: p in Lines(b) ==> Has(b, p);
      TextIsInjective(Lines(a), Lines(b));
    }
    if SamePairs(a, b) {
      OnlyThePairsCount(a, b);
    }
  }

  /** Without that care different pairs share a text, wherever a ':' in a component could have been the cut. */
  lemma AColonInAComponentCollides(x: string, y: string, z: string)
    ensures CanonicalText([Entry(x + ":" + y, [z])]) == CanonicalText([Entry(x, [y + ":" + z])])
    ensures !SamePairs([Entry(x + ":" + y, [z])], [Entry(x, [y + ":" + z])])
  {
    var long := x + ":" + y;
    OneLine(long, z);
    OneLine(x, y + ":" + z);
    assert Line((long, z)) == Line((x, y + ":" + z));
    assert |long| > |x|;
    assert Has([Entry(long, [z])], (long, z)) && !Has([Entry(x, [y + ":" + z])], (long, z));
  }

  lemma OneLine(component: string, path: string)
    ensures CanonicalText([Entry(component, [path])]) == component + ":" + path + "\n"
    ensures forall p: Pair :: Has([Entry(component, [path])], p) <==> p == (component, path)
  {
    var entries := [Entry(component, [path])];
    forall p: Pair
      ensures Has(entries, p) <==> p == (component, path)
    {
      assert Entry(component, [path]) in entries;
    }
    LinesAreUnique(entries, [(component, path)]);
    TextOfOneMore([], (component, path));
    assert [] + [(component, path)] == [(component, path)];
  }

  lemma NoEntriesNoText()
    ensures CanonicalText([]) == ""
  {
    assert AllPairs([]) == [] && Sort(PairLess, AllPairs([])) == [];
  }

  lemma HasOneMore(entries: seq<Entry>, component: string, path: string)
    ensures forall q :: Has(entries + [Entry(component, [path])], q) <==> Has(entries, q) || q == (component, path)
  {
    var last := Entry(component, [path]);
    var more := entries + [last];
    assert last in more && forall e :: e in more <==> e in entries || e == last;
  }

  /**
   With `OnlyThePairsCount` this fixes the text of every list of entries: a pair that comes after all others
   in ascending order adds its line at the end.
   */
  lemma TheLastPairIsTheLastLine(entries: seq<Entry>, component: string, path: string)
    requires forall e: Entry, q {:trigger q in e.paths} :: e in entries && q in e.paths ==>
               Less(e.component, component) || (e.component == component && Less(q, path))
    ensures CanonicalText(entries + [Entry(component, [path])]) ==
              CanonicalText(entries) + (component + ":" + path + "\n")
  {
    LinesEnumerate(entries);
    AllComeBefore(entries, component, path);
    EnumeratesOneMore(Lines(entries), entries, component, path);
    LinesAreUnique(entries + [Entry(component, [path])], Lines(entries) + [(component, path)]);
    TextOfOneMore(Lines(entries), (component, path));
  }

  lemma EnumeratesOneMore(lines: seq<Pair>, entries: seq<Entry>, component: string, path: string)
    requires Enumerates(lines, entries)
    requires forall q: Pair :: Has(entries, q) ==> PairLess(q, (component, path))
    ensures Enumerates(lines + [(component, path)], entries + [Entry(component, [path])])
  {
    var p: Pair := (component, path);
    var longer := lines + [p];
    HasOneMore(entries, component, path);
    forall i, j | 0 <= i < j < |longer|
      ensures PairLess(longer[i], longer[j])
    {
      if j == |lines| { assert lines[i] in lines && Has(entries, lines[i]); }
    }
    assert forall q: Pair :: q in longer <==> q in lines || q == p;
  }

  lemma AllComeBefore(entries: seq<Entry>, component: string, path: string)
    requires forall e: Entry, q {:trigger q in e.paths} :: e in entries && q in e.paths ==>
               Less(e.component, component) || (e.component == component && Less(q, path))
    ensures forall q: Pair :: Has(entries, q) ==> PairLess(q, (component, path))
  {
    forall q: Pair | Has(entries, q)
      ensures PairLess(q, (component, path))
    {
      var e :| e in entries && e.component == q.0 && q.1 in e.paths;
      var p := q.1;
      assert p in e.paths;
      assert Less(e.component, component) || (e.component == component && Less(p, path));
    }
  }
}
