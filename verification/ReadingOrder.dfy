/** The order in which an archive's files are read, and what it costs on a stream that only goes
    forward (src/compression/src/archiveextraction.cpp, src/compression/src/budgeteddevice.cpp). */
module ReadingOrder {
  import opened ArchiveWalk
  import opened BudgetedDevices

  // ---------- Sorting ----------

  ghost predicate SortedByPosition(files: seq<PendingFile>) {
    forall i, j :: 0 <= i < j < |files| ==> files[i].file.position <= files[j].file.position
  }

  function Insert(f: PendingFile, sorted: seq<PendingFile>): seq<PendingFile> {
    if sorted == [] then [f]
    else if sorted[0].file.position > f.file.position then [f] + sorted
    else [sorted[0]] + Insert(f, sorted[1..])
  }

  lemma {:induction false} InsertKeeps(f: PendingFile, sorted: seq<PendingFile>)
    ensures multiset(Insert(f, sorted)) == multiset(sorted) + multiset{f}
  {
    if sorted != [] {
      InsertKeeps(f, sorted[1..]);
      assert sorted == [sorted[0]] + sorted[1..];
    }
  }

  lemma {:induction false} InsertSorts(f: PendingFile, sorted: seq<PendingFile>)
    requires SortedByPosition(sorted)
    ensures SortedByPosition(Insert(f, sorted))
  {
    if sorted != [] && sorted[0].file.position <= f.file.position {
      InsertSorts(f, sorted[1..]);
      InsertKeeps(f, sorted[1..]);
      forall x | x in Insert(f, sorted[1..]) ensures sorted[0].file.position <= x.file.position {
        assert x in multiset(Insert(f, sorted[1..]));
        if x != f { assert x in sorted[1..]; }
      }
      SortedBehind(sorted[0], Insert(f, sorted[1..]));
    }
  }

  lemma SortedBehind(first: PendingFile, rest: seq<PendingFile>)
    requires SortedByPosition(rest) && forall x :: x in rest ==> first.file.position <= x.file.position
    ensures SortedByPosition([first] + rest)
  {
  }

  /** std::sort: some order by position; of equal positions any may come first. */
  method SortByPosition(files: seq<PendingFile>) returns (sorted: seq<PendingFile>)
    ensures multiset(sorted) == multiset(files) && SortedByPosition(sorted)
  {
    hide SortedByPosition;
    sorted := [];
    assert SortedByPosition([]) by { NothingIsSorted(); }
    for i := 0 to |files|
      invariant multiset(sorted) == multiset(files[..i]) && SortedByPosition(sorted)
    {
      InsertSorts(files[i], sorted);
      InsertKeeps(files[i], sorted);
      assert files[..i + 1] == files[..i] + [files[i]];
      sorted := Insert(files[i], sorted);
    }
    assert files[..|files|] == files;
  }

  lemma NothingIsSorted()
    ensures SortedByPosition([])
  {
  }

  // ---------- Skipping what a link stands in for ----------

  /** The files of an order that are not skipped because a link is in their place. */
  function Unlinked(w: World, order: seq<PendingFile>): seq<PendingFile> {
    if order == [] then []
    else
      var n := |order| - 1;
      Unlinked(w, order[..n]) + (if order[n].path in w.links then [] else [order[n]])
  }

  /** Skipping what a link stands in for does not depend on the order. */
  lemma {:induction false} UnlinkedCounts(w: World, order: seq<PendingFile>, f: PendingFile)
    ensures multiset(Unlinked(w, order))[f] == if f.path in w.links then 0 else multiset(order)[f]
  {
    if order != [] {
      var n := |order| - 1;
      UnlinkedCounts(w, order[..n], f);
      assert order == order[..n] + [order[n]];
    }
  }

  lemma UnlinkedPermutes(w: World, order: seq<PendingFile>, order': seq<PendingFile>)
    requires multiset(order) == multiset(order')
    ensures multiset(Unlinked(w, order)) == multiset(Unlinked(w, order'))
  {
    forall f ensures multiset(Unlinked(w, order))[f] == multiset(Unlinked(w, order'))[f] {
      UnlinkedCounts(w, order, f);
      UnlinkedCounts(w, order', f);
    }
  }

  lemma {:induction false} UnlinkedSorted(w: World, order: seq<PendingFile>)
    requires SortedByPosition(order)
    ensures SortedByPosition(Unlinked(w, order))
  {
    if order != [] {
      var n := |order| - 1;
      UnlinkedSorted(w, order[..n]);
      var before := Unlinked(w, order[..n]);
      forall i | 0 <= i < |before| ensures before[i].file.position <= order[n].file.position {
        UnlinkedCounts(w, order[..n], before[i]);
        assert before[i] in multiset(before) && before[i] in order[..n];
      }
    }
  }

  // ---------- What the order costs ----------

  function RegionOf(f: PendingFile): Region { Region(f.file.position, f.file.size) }

  function Regions(files: seq<PendingFile>): (r: seq<Region>)
    ensures |r| == |files|
  {
    seq(|files|, i requires 0 <= i < |files| => RegionOf(files[i]))
  }

  /** The second does not start within the first. */
  predicate Clear(a: Region, b: Region) { !(a.start <= b.start < a.End()) }

  /** No file's data starts within another's, where an empty file starts at its position. */
  ghost predicate NoneWithin(files: multiset<PendingFile>) {
    forall a, b :: a in files && b in files - multiset{a} ==> Clear(RegionOf(a), RegionOf(b))
  }

  lemma TwoOf(order: seq<PendingFile>, i: nat, j: nat)
    requires i < j < |order|
    ensures order[i] in multiset(order) && order[j] in multiset(order) - multiset{order[i]}
  {
    assert order == order[..i] + [order[i]] + order[i + 1..];
    assert order[j] == order[i + 1..][j - i - 1];
    assert multiset(order) == multiset(order[..i]) + multiset{order[i]} + multiset(order[i + 1..]);
    assert order[j] in multiset(order[i + 1..]);
  }

  lemma SortedIsDisjoint(order: seq<PendingFile>)
    requires SortedByPosition(order) && NoneWithin(multiset(order))
    ensures SortedDisjoint(Regions(order))
  {
    forall i, j | 0 <= i < j < |order| ensures Regions(order)[i].End() <= Regions(order)[j].start {
      TwoOf(order, i, j);
      assert Clear(RegionOf(order[i]), RegionOf(order[j]));
    }
  }

  /** Some order by position. */
  lemma {:induction false} SomeOrder(files: multiset<PendingFile>) returns (order: seq<PendingFile>)
    ensures multiset(order) == files && SortedByPosition(order)
    decreases |files|
  {
    if |files| == 0 {
      order := [];
      assert files == multiset{};
    } else {
      var f :| f in files;
      var rest := SomeOrder(files - multiset{f});
      InsertKeeps(f, rest);
      InsertSorts(f, rest);
      order := Insert(f, rest);
      assert files - multiset{f} + multiset{f} == files;
    }
  }

  lemma InsertFurther(f: PendingFile, sorted: seq<PendingFile>)
    requires sorted != [] && sorted[0].file.position <= f.file.position
    ensures Insert(f, sorted) == [sorted[0]] + Insert(f, sorted[1..])
  {
  }

  /** A file goes behind those that are not further on. */
  lemma {:induction false} InsertedBehind(a: PendingFile, b: PendingFile, sorted: seq<PendingFile>)
      returns (i: nat, j: nat)
    requires a in sorted && SortedByPosition(sorted) && a.file.position <= b.file.position
    ensures i < j < |Insert(b, sorted)| && Insert(b, sorted)[i] == a && Insert(b, sorted)[j] == b
  {
    hide Insert;
    var k :| 0 <= k < |sorted| && sorted[k] == a;
    assert sorted[0].file.position <= a.file.position;
    InsertFurther(b, sorted);
    if k == 0 {
      i := 0;
      InsertKeeps(b, sorted[1..]);
      assert b in multiset(Insert(b, sorted[1..]));
      var m :| 0 <= m < |Insert(b, sorted[1..])| && Insert(b, sorted[1..])[m] == b;
      j := m + 1;
    } else {
      assert sorted[1..][k - 1] == a;
      i, j := InsertedBehind(a, b, sorted[1..]);
      i, j := i + 1, j + 1;
    }
  }

  /** Sorting by position pays off, whichever of equal positions comes first, exactly when no
      file's data starts within another's. */
  lemma SortingPaysOffIff(files: multiset<PendingFile>)
    ensures NoneWithin(files) <==>
            forall order :: multiset(order) == files && SortedByPosition(order) ==> SortedDisjoint(Regions(order))
  {
    hide SortedByPosition;
    if NoneWithin(files) {
      forall order | multiset(order) == files && SortedByPosition(order) ensures SortedDisjoint(Regions(order)) {
        SortedIsDisjoint(order);
      }
    } else {
      var a, b :| a in files && b in files - multiset{a} && !Clear(RegionOf(a), RegionOf(b));
      var order, i, j := OrderBehind(files, a, b);
      assert Regions(order)[i].End() > Regions(order)[j].start;
    }
  }

  /** An order that reads one file before another that is not further back. */
  lemma OrderBehind(files: multiset<PendingFile>, a: PendingFile, b: PendingFile)
      returns (order: seq<PendingFile>, i: nat, j: nat)
    requires a in files && b in files - multiset{a} && a.file.position <= b.file.position
    ensures multiset(order) == files && SortedByPosition(order)
    ensures i < j < |order| && order[i] == a && order[j] == b
  {
    hide Insert, SortedByPosition;
    var others := files - multiset{a} - multiset{b};
    var rest := SomeOrder(others);
    var some := Insert(a, rest);
    InsertKeeps(a, rest);
    InsertSorts(a, rest);
    InsertKeeps(b, some);
    InsertSorts(b, some);
    assert a in multiset(some);
    i, j := InsertedBehind(a, b, some);
    order := Insert(b, some);
    assert others + multiset{a} + multiset{b} == files;
  }

  lemma FewerWithin(fewer: multiset<PendingFile>, files: multiset<PendingFile>)
    requires NoneWithin(files) && forall f :: fewer[f] <= files[f]
    ensures NoneWithin(fewer)
  {
    forall a, b | a in fewer && b in fewer - multiset{a} ensures Clear(RegionOf(a), RegionOf(b)) {
      assert a in files && b in files - multiset{a};
    }
  }

  lemma BeginningHasFewer(w: World, order: seq<PendingFile>, n: nat)
    requires n <= |order|
    ensures forall f :: multiset(Unlinked(w, order[..n]))[f] <= multiset(Unlinked(w, order))[f]
  {
    hide Unlinked;
    assert order == order[..n] + order[n..];
    forall f ensures multiset(Unlinked(w, order[..n]))[f] <= multiset(Unlinked(w, order))[f] {
      UnlinkedCounts(w, order[..n], f);
      UnlinkedCounts(w, order, f);
    }
  }

  /** A stream is started over for the first file at most when the files a sorted order leaves
      are read one after another, as far as they are read. */
  lemma SortedStartsOverOnce(w: World, order: seq<PendingFile>)
    requires SortedByPosition(order) && NoneWithin(multiset(Unlinked(w, order)))
    ensures forall n: nat, pos: int :: n <= |order| ==> StartOvers(pos, Regions(Unlinked(w, order[..n]))) <= 1
  {
    hide NoneWithin, Unlinked, StartOvers;
    forall n: nat, pos: int | n <= |order| ensures StartOvers(pos, Regions(Unlinked(w, order[..n]))) <= 1 {
      BeginningHasFewer(w, order, n);
      FewerWithin(multiset(Unlinked(w, order[..n])), multiset(Unlinked(w, order)));
      UnlinkedSorted(w, order[..n]);
      SortedIsDisjoint(Unlinked(w, order[..n]));
      OneStartOverIffSorted(pos, Regions(Unlinked(w, order[..n])));
    }
  }
}
