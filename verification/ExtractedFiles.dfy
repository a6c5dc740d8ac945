/** What the extraction folder holds after an extraction that succeeded: each path of the walk its
    file's content (src/compression/src/archiveextraction.cpp). */
module ExtractedFiles {
  import opened Options
  import opened Bytes
  import opened ArchiveWalk
  import opened ArchiveChains
  import opened ReadingOrder
  import opened ArchiveDisk
  import opened ArchiveExtraction

  // ---------- The paths of the walk differ ----------

  predicate NameIn(name: string, entries: Entries) {
    entries.More? && (entries.name == name || NameIn(name, entries.rest))
  }

  /** No two entries of a directory have one name. */
  predicate UniqueNames(entries: Entries) {
    entries.More? ==>
      && !NameIn(entries.name, entries.rest)
      && (entries.entry.Some? && entries.entry.value.kind.Directory? ==> UniqueNames(entries.entry.value.kind.entries))
      && UniqueNames(entries.rest)
  }

  /** The path is the entry's or below it. */
  predicate Under(p: string, path: string, name: string) {
    p == path + "/" + name || path + "/" + name + "/" <= p
  }

  lemma UnderOne(p: string, path: string, a: string, b: string)
    requires Under(p, path, a) && Under(p, path, b) && IsPlainName(a) && IsPlainName(b)
    ensures a == b
  {
    var q := p[|path| + 1..];
    assert a <= q && (|a| == |q| || q[|a|] == '/') by { FirstName(p, path, a); }
    assert b <= q && (|b| == |q| || q[|b|] == '/') by { FirstName(p, path, b); }
    assert forall k :: 0 <= k < |a| ==> a[k] == q[k] && a[k] in a;
    assert forall k :: 0 <= k < |b| ==> b[k] == q[k] && b[k] in b;
  }

  lemma FirstName(p: string, path: string, name: string)
    requires Under(p, path, name)
    ensures |p| > |path| && name <= p[|path| + 1..]
    ensures |name| == |p[|path| + 1..]| || p[|path| + 1..][|name|] == '/'
  {
    var head := path + "/" + name;
    assert head <= p && head[|path| + 1..] == name;
    assert p[|path| + 1..][..|name|] == p[..|head|][|path| + 1..];
    if p != head { assert p[|head|] == (head + "/")[|head|]; }
  }

  ghost predicate FromNames(f: PendingFile, path: string, entries: Entries) {
    exists name :: NameIn(name, entries) && IsPlainName(name) && Under(f.path, path, name)
  }

  ghost predicate DistinctPaths(files: seq<PendingFile>) {
    forall i, j :: 0 <= i < j < |files| ==> files[i].path != files[j].path
  }

  lemma {:induction false} WalkPathsDiffer(w: World, folder: string, path: string, entries: Entries)
    requires ResolvesByLinks(w) && w.canonical(path) == path && UniqueNames(entries)
    ensures DistinctPaths(Walk(w, folder, path, entries))
    ensures forall f :: f in Walk(w, folder, path, entries) ==> FromNames(f, path, entries)
    decreases entries
  {
    match entries {
      case NoEntries =>
      case More(name, entry, rest) =>
        WalkPathsDiffer(w, folder, path, rest);
        var v := Judge(w, folder, path, name, entry);
        var own := FilesOf(w, folder, v);
        if v.Descend? { WalkPathsDiffer(w, folder, v.directory.path, v.directory.entries); }
        OwnPaths(w, folder, path, name, entry);
        TwoParts(own, Walk(w, folder, path, rest), path, name, rest);
        assert Walk(w, folder, path, entries) == own + Walk(w, folder, path, rest);
        forall f | f in own + Walk(w, folder, path, rest) ensures FromNames(f, path, entries) {
          if f in own {
            assert NameIn(name, entries);
          } else {
            var n :| NameIn(n, rest) && IsPlainName(n) && Under(f.path, path, n);
            assert NameIn(n, entries);
          }
        }
    }
  }

  /** All that an entry contributes is at its path or below it. */
  lemma OwnPaths(w: World, folder: string, path: string, name: string, entry: Option<Entry>)
    requires ResolvesByLinks(w) && w.canonical(path) == path
    requires var v := Judge(w, folder, path, name, entry);
             v.Descend? ==> DistinctPaths(FilesOf(w, folder, v))
                            && forall f :: f in FilesOf(w, folder, v) ==>
                                      FromNames(f, v.directory.path, v.directory.entries)
    ensures var v := Judge(w, folder, path, name, entry);
            && DistinctPaths(FilesOf(w, folder, v)) && (v != Skip ==> IsPlainName(name))
            && forall f :: f in FilesOf(w, folder, v) ==> Under(f.path, path, name)
  {
    var v := Judge(w, folder, path, name, entry);
    if v.Descend? {
      var p := path + "/" + name;
      assert v.directory.path == p;
      forall f | f in FilesOf(w, folder, v) ensures Under(f.path, path, name) {
        var n :| NameIn(n, v.directory.entries) && IsPlainName(n) && Under(f.path, p, n);
        assert p + "/" <= p + "/" + n;
      }
    }
  }

  lemma TwoParts(own: seq<PendingFile>, others: seq<PendingFile>, path: string, name: string, rest: Entries)
    requires DistinctPaths(own) && DistinctPaths(others) && !NameIn(name, rest)
    requires forall f :: f in own ==> IsPlainName(name) && Under(f.path, path, name)
    requires forall f :: f in others ==> FromNames(f, path, rest)
    ensures DistinctPaths(own + others)
  {
    hide Under, IsPlainName;
    forall i, j | 0 <= i < |own| && 0 <= j < |others| ensures own[i].path != others[j].path {
      assert own[i] in own && others[j] in others;
      var n :| NameIn(n, rest) && IsPlainName(n) && Under(others[j].path, path, n);
      if own[i].path == others[j].path { UnderOne(own[i].path, path, name, n); }
    }
  }

  // ---------- In any order ----------

  ghost predicate PathsApart(files: multiset<PendingFile>) {
    forall a, b :: a in files && b in files - multiset{a} ==> a.path != b.path
  }

  lemma DistinctIsApart(files: seq<PendingFile>)
    ensures DistinctPaths(files) <==> PathsApart(multiset(files))
  {
    if DistinctPaths(files) {
      forall a, b | a in multiset(files) && b in multiset(files) - multiset{a} ensures a.path != b.path {
        var i :| 0 <= i < |files| && files[i] == a;
        var j := OtherIndex(files, i, b);
      }
    }
    if PathsApart(multiset(files)) {
      forall i, j | 0 <= i < j < |files| ensures files[i].path != files[j].path { TwoOf(files, i, j); }
    }
  }

  lemma OtherIndex(files: seq<PendingFile>, i: nat, b: PendingFile) returns (j: nat)
    requires i < |files| && b in multiset(files) - multiset{files[i]}
    ensures j < |files| && j != i && files[j] == b
  {
    var before, after := files[..i], files[i + 1..];
    assert files == before + [files[i]] + after;
    assert multiset(files) - multiset{files[i]} == multiset(before) + multiset(after);
    if b in before { j :| 0 <= j < |before| && before[j] == b; }
    else {
      var k :| 0 <= k < |after| && after[k] == b;
      j := i + 1 + k;
    }
  }

  lemma FewerStayApart(fewer: multiset<PendingFile>, files: multiset<PendingFile>)
    requires PathsApart(files) && forall f :: fewer[f] <= files[f]
    ensures PathsApart(fewer)
  {
    forall a, b | a in fewer && b in fewer - multiset{a} ensures a.path != b.path {
      assert a in files && b in files - multiset{a};
    }
  }

  // ---------- What the paths hold ----------

  /** Opening a file for writing gives up what it held. */
  function Final(log: seq<Written>): map<string, bytes> {
    if log == [] then map[]
    else
      var last := log[|log| - 1];
      Final(log[..|log| - 1])[last.path := last.data]
  }

  lemma {:induction false} FinalHolds(log: seq<Written>, files: seq<PendingFile>)
    requires AllWhole(log, files) && DistinctPaths(files)
    ensures forall f :: f in files ==>
              f.path in Final(log) && f.file.size <= |f.file.data| && Final(log)[f.path] == f.file.data[..f.file.size]
    ensures forall p :: p in Final(log) ==> exists f :: f in files && f.path == p
  {
    if log != [] {
      var n := |log| - 1;
      FinalHolds(log[..n], files[..n]);
      assert files == files[..n] + [files[n]] && log[n] == Whole(files[n]);
      forall p | p in Final(log) ensures exists f :: f in files && f.path == p {
        if p in Final(log[..n]) {
          var f :| f in files[..n] && f.path == p;
          assert f in files;
        } else {
          assert files[n] in files && files[n].path == p;
        }
      }
    }
  }

  /** After an extraction that succeeded, what it wrote is at each path of the walk that no link
      stands in for that file's content, and nothing else. */
  lemma EachPathHoldsItsFile(w: World, root: Entries, folder: string, log: seq<Written>, order: seq<PendingFile>)
    requires ResolvesByLinks(w) && w.canonical(folder) == folder && UniqueNames(root)
    requires multiset(order) == multiset(Walk(w, folder, folder, root)) && AllWhole(log, Unlinked(w, order))
    ensures var walk, final := Walk(w, folder, folder, root), Final(log);
            && (forall f :: f in walk && f.path !in w.links ==>
                  f.path in final && f.file.size <= |f.file.data| && final[f.path] == f.file.data[..f.file.size])
            && (forall p :: p in final ==> exists f :: f in walk && f.path !in w.links && f.path == p)
  {
    hide Walk, UniqueNames, ResolvesByLinks, AllWhole, DistinctPaths, PathsApart, Final, Unlinked;
    var walk, left := Walk(w, folder, folder, root), Unlinked(w, order);
    WalkPathsDiffer(w, folder, folder, root);
    DistinctIsApart(walk);
    LeftOfWalk(w, order, walk);
    FewerStayApart(multiset(left), multiset(walk));
    DistinctIsApart(left);
    FinalHolds(log, left);
  }

  lemma LeftOfWalk(w: World, order: seq<PendingFile>, walk: seq<PendingFile>)
    requires multiset(order) == multiset(walk)
    ensures forall f :: multiset(Unlinked(w, order))[f] <= multiset(walk)[f]
    ensures forall f :: f in Unlinked(w, order) <==> f in walk && f.path !in w.links
  {
    hide Unlinked;
    forall f ensures multiset(Unlinked(w, order))[f] == if f.path in w.links then 0 else multiset(walk)[f] {
      UnlinkedCounts(w, order, f);
    }
    forall f ensures f in Unlinked(w, order) <==> f in walk && f.path !in w.links {
      assert f in Unlinked(w, order) <==> f in multiset(Unlinked(w, order));
      assert f in walk <==> f in multiset(walk);
    }
  }
}
