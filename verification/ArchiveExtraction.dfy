/** Extracting an archive: the folders and files of its walk, the files sorted and written under
    one budget (src/compression/src/archiveextraction.cpp). */
module ArchiveExtraction {
  import opened Bytes
  import opened Failures
  import opened ArchiveWalk
  import opened ArchiveChains
  import opened BudgetedDevices
  import opened ReadingOrder
  import opened ArchiveDisk
  import opened ArchiveScan

  const COPY_SIZE := 1024 * 1024

  /** What an extraction that succeeds writes for one file. */
  function Whole(f: PendingFile): Written
    requires f.file.size <= |f.file.data|
  {
    Written(f.path, f.file.data[..f.file.size])
  }

  /** Nothing, or a beginning of the file at its path. */
  ghost predicate IsPart(done: seq<Written>, f: PendingFile) {
    done == [] || (|done| == 1 && done[0].path == f.path && done[0].data <= f.file.data)
  }

  /** Writes what follows a beginning of the file opened last. */
  method WriteChunk(f: PendingFile, ghost before: nat, data: bytes, disk: Disk, ghost others: seq<Written>)
      returns (n: int)
    requires before + |data| <= |f.file.data| && data == f.file.data[before..before + |data|]
    requires disk.log == others + [BeginningOf(f, before)]
    modifies disk`log, disk`faults
    ensures n <= |data|
    ensures disk.log == others + [BeginningOf(f, before + if n < 0 then 0 else n)]
    ensures disk.faults == old(disk.faults) + if n == |data| then 0 else 1
  {
    n := disk.Write(data);
    ghost var k := if n < 0 then 0 else n;
    assert f.file.data[..before + k] == f.file.data[..before] + data[..k];
  }

  /** Writes one entry, or says why it was not written whole. */
  method WriteFileEntry(ghost w: World, f: PendingFile, archive: Archive, disk: Disk, budget: int,
                        interrupt: InterruptFlag)
      returns (result: Failure, left: int, ghost done: seq<Written>)
    requires InMadeFolder(w, disk.made, f.path)
    modifies archive, disk`log, disk`faults, interrupt
    ensures archive.faults >= old(archive.faults) && disk.faults >= old(disk.faults)
    ensures old(interrupt.raised) ==> interrupt.raised
    // what was written is a beginning of the entry, and comes off the budget
    ensures disk.log == old(disk.log) + done && IsPart(done, f)
    ensures Total(done) == 0 || Total(done) <= budget
    ensures result != Error ==> left + Total(done) == budget
    ensures result == NoFailure ==> f.file.size <= |f.file.data| && done == [Whole(f)]
    ensures result == Error ==> disk.faults > old(disk.faults) || archive.faults > old(archive.faults)
                                || |f.file.data| < f.file.size
    ensures result == BudgetExceeded ==> 0 < f.file.size && budget < f.file.size
    ensures result == Interrupted ==> interrupt.raised
  {
    hide Total, Whole, IsPart, InMadeFolder;
    NothingDone(f);
    PartDone(f, 0);
    ghost var others := disk.log;
    var ok := disk.OpenFile(w, f.path);
    if !ok { return Error, budget, []; }
    var hasDevice := archive.CreateDevice();
    if !hasDevice {
      disk.Remove();
      return Error, budget, [];
    }
    var reader := new EntryReader(archive, f.file);
    result, left, done := CopyData(f, reader, disk, budget, interrupt, others);
  }

  /** The copy loop of writeFileEntry. */
  method CopyData(f: PendingFile, reader: EntryReader, disk: Disk, budget: int, interrupt: InterruptFlag,
                  ghost others: seq<Written>)
      returns (result: Failure, left: int, ghost done: seq<Written>)
    requires reader.file == f.file && reader.pos == 0 && disk.log == others + [BeginningOf(f, 0)]
    modifies reader, reader.archive, disk`log, disk`faults, interrupt
    ensures reader.archive.faults >= old(reader.archive.faults) && disk.faults >= old(disk.faults)
    ensures old(interrupt.raised) ==> interrupt.raised
    ensures disk.log == others + done && IsPart(done, f)
    ensures Total(done) == 0 || Total(done) <= budget
    ensures result != Error ==> left + Total(done) == budget
    ensures result == NoFailure ==> f.file.size <= |f.file.data| && done == [Whole(f)]
    ensures result == Error ==> disk.faults > old(disk.faults) || reader.archive.faults > old(reader.archive.faults)
                                || |f.file.data| < f.file.size
    ensures result == BudgetExceeded ==> 0 < f.file.size && budget < f.file.size
    ensures result == Interrupted ==> interrupt.raised
  {
    hide Total, Whole, IsPart, BeginningOf;
    left, done := budget, [BeginningOf(f, 0)];
    PartDone(f, 0);
    var remaining := f.file.size;
    while remaining > 0
      invariant 0 <= remaining <= f.file.size && reader.pos == f.file.size - remaining <= |f.file.data|
      invariant done == [BeginningOf(f, reader.pos)] && IsPart(done, f) && Total(done) == reader.pos
      invariant disk.log == others + done && (old(interrupt.raised) ==> interrupt.raised)
      invariant disk.faults == old(disk.faults) && reader.archive.faults == old(reader.archive.faults)
      invariant left == budget - reader.pos && (reader.pos == 0 || left >= 0)
    {
      var stop := interrupt.Poll();
      if stop { return Interrupted, left, done; }
      ghost var before := reader.pos;
      var n, data := reader.Read(if remaining < COPY_SIZE then remaining else COPY_SIZE);
      if n <= 0 { return Error, left, done; }
      if n > left { return BudgetExceeded, left, done; }
      var written := WriteChunk(f, before, data, disk, others);
      ghost var now := before + if written < 0 then 0 else written;
      done := [BeginningOf(f, now)];
      PartDone(f, now);
      if written != n { return Error, left, done; }
      left := left - n;
      remaining := remaining - n;
    }
    WholeAt(f);
    return NoFailure, left, done;
  }

  function BeginningOf(f: PendingFile, n: nat): Written
    requires n <= |f.file.data|
  {
    Written(f.path, f.file.data[..n])
  }

  lemma NothingDone(f: PendingFile)
    ensures IsPart([], f) && Total([]) == 0
  {
  }

  lemma PartDone(f: PendingFile, n: nat)
    requires n <= |f.file.data|
    ensures IsPart([BeginningOf(f, n)], f) && Total([BeginningOf(f, n)]) == n
  {
    TotalOfFew(f.path, f.file.data[..n]);
  }

  lemma WholeAt(f: PendingFile)
    requires f.file.size <= |f.file.data|
    ensures Whole(f) == BeginningOf(f, f.file.size)
  {
  }

  lemma TotalOfFew(path: string, data: bytes)
    ensures Total([]) == 0
    ensures Total([Written(path, data)]) == |data|
  {
    assert [Written(path, data)][1..] == [];
  }

  // ---------- The whole extraction ----------

  ghost predicate AllWhole(log: seq<Written>, files: seq<PendingFile>) {
    && |log| == |files|
    && forall i :: 0 <= i < |log| ==> files[i].file.size <= |files[i].file.data| && log[i] == Whole(files[i])
  }

  /** What was written: files whole, in order, and then at most a part of the next. */
  ghost predicate WrittenUpTo(log: seq<Written>, w: World, order: seq<PendingFile>, k: nat) {
    && k <= |order|
    && var whole := Unlinked(w, order[..k]);
       && |whole| <= |log|
       && AllWhole(log[..|whole|], whole)
       && (|log| == |whole|
           || (k < |order| && order[k].path !in w.links && IsPart(log[|whole|..], order[k])))
  }

  lemma WholeUpTo(log: seq<Written>, w: World, order: seq<PendingFile>, k: nat)
    requires k <= |order| && AllWhole(log, Unlinked(w, order[..k]))
    ensures WrittenUpTo(log, w, order, k)
  {
    assert log[..|log|] == log;
  }

  lemma PartUpTo(log: seq<Written>, done: seq<Written>, w: World, order: seq<PendingFile>, k: nat)
    requires k < |order| && order[k].path !in w.links
    requires AllWhole(log, Unlinked(w, order[..k])) && IsPart(done, order[k])
    ensures WrittenUpTo(log + done, w, order, k)
  {
    assert (log + done)[..|log|] == log && (log + done)[|log|..] == done;
  }

  lemma OneMoreWhole(log: seq<Written>, w: World, order: seq<PendingFile>, k: nat)
    requires k < |order| && AllWhole(log, Unlinked(w, order[..k]))
    ensures order[k].path in w.links ==> AllWhole(log, Unlinked(w, order[..k + 1]))
    ensures order[k].path !in w.links && order[k].file.size <= |order[k].file.data| ==>
              AllWhole(log + [Whole(order[k])], Unlinked(w, order[..k + 1]))
  {
    assert order[..k + 1][..k] == order[..k];
    assert Unlinked(w, order[..k]) + [] == Unlinked(w, order[..k]);
  }

  // ---------- Sizes ----------

  function Sizes(files: seq<PendingFile>): nat {
    if files == [] then 0 else Sizes(files[..|files| - 1]) + files[|files| - 1].file.size
  }

  lemma {:induction false} SizesAppend(a: seq<PendingFile>, b: seq<PendingFile>)
    ensures Sizes(a + b) == Sizes(a) + Sizes(b)
  {
    if b == [] { assert a + b == a; } else {
      assert (a + b)[..|a + b| - 1] == a + b[..|b| - 1];
      SizesAppend(a, b[..|b| - 1]);
    }
  }

  lemma WithoutOne(files: seq<PendingFile>, k: nat)
    requires k < |files|
    ensures var rest := files[..k] + files[k + 1..];
            multiset(rest) == multiset(files) - multiset{files[k]} && Sizes(files) == Sizes(rest) + files[k].file.size
  {
    var f, before, after := files[k], files[..k], files[k + 1..];
    assert files == before + ([f] + after);
    assert [f][..0] == [];
    SizesAppend(before, [f] + after);
    SizesAppend([f], after);
    SizesAppend(before, after);
  }

  /** The sizes of some files add up to the same in any order. */
  lemma {:induction false} SizesPermute(a: seq<PendingFile>, b: seq<PendingFile>)
    requires multiset(a) == multiset(b)
    ensures Sizes(a) == Sizes(b)
    decreases |a|
  {
    hide Sizes;
    if a == [] {
      assert |multiset(b)| == 0;
    } else {
      assert a[0] in multiset(b);
      var k :| 0 <= k < |b| && b[k] == a[0];
      WithoutOne(a, 0);
      WithoutOne(b, k);
      SizesPermute(a[..0] + a[1..], b[..k] + b[k + 1..]);
    }
  }

  lemma OneMoreSize(w: World, order: seq<PendingFile>, k: nat)
    requires k < |order| && order[k].path !in w.links
    ensures Sizes(Unlinked(w, order[..k + 1])) == Sizes(Unlinked(w, order[..k])) + order[k].file.size
    ensures Sizes(Unlinked(w, order[..k + 1])) <= Sizes(Unlinked(w, order))
  {
    assert order[..k + 1][..k] == order[..k];
    SizesAppend(Unlinked(w, order[..k]), [order[k]]);
    assert [order[k]][..0] == [];
    SizesGrow(w, order, k + 1);
  }

  lemma OneLinkMore(w: World, order: seq<PendingFile>, k: nat)
    requires k < |order| && order[k].path in w.links
    ensures Unlinked(w, order[..k + 1]) == Unlinked(w, order[..k])
  {
    assert order[..k + 1][..k] == order[..k];
    assert Unlinked(w, order[..k]) + [] == Unlinked(w, order[..k]);
  }

  lemma {:induction false} SizesGrow(w: World, order: seq<PendingFile>, k: nat)
    requires k <= |order|
    ensures Sizes(Unlinked(w, order[..k])) <= Sizes(Unlinked(w, order))
    decreases |order|
  {
    if k == |order| { assert order[..k] == order; } else {
      var n := |order| - 1;
      SizesGrow(w, order[..n], k);
      assert order[..n][..k] == order[..k];
      SizesAppend(Unlinked(w, order[..n]), if order[n].path in w.links then [] else [order[n]]);
    }
  }

  lemma WholeTotal(f: PendingFile)
    requires f.file.size <= |f.file.data|
    ensures Total([Whole(f)]) == f.file.size
  {
    TotalOfFew(f.path, f.file.data[..f.file.size]);
  }

  method WriteFiles(w: World, order: seq<PendingFile>, archive: Archive, disk: Disk, budget: int,
                    interrupt: InterruptFlag)
      returns (result: Failure, left: int, ghost k: nat)
    requires disk.log == [] && forall f :: f in order ==> InMadeFolder(w, disk.made, f.path)
    modifies archive, disk`log, disk`faults, interrupt
    ensures archive.faults >= old(archive.faults) && disk.faults >= old(disk.faults)
    ensures old(interrupt.raised) ==> interrupt.raised
    ensures WrittenUpTo(disk.log, w, order, k)
    ensures Total(disk.log) == 0 || Total(disk.log) <= budget
    ensures result != Error ==> left + Total(disk.log) == budget
    ensures result == NoFailure ==> AllWhole(disk.log, Unlinked(w, order))
    ensures result == Error ==> disk.faults > old(disk.faults) || archive.faults > old(archive.faults)
                                || (k < |order| && |order[k].file.data| < order[k].file.size)
    ensures result == Interrupted ==> interrupt.raised
    ensures result == NoFailure ==> Total(disk.log) == Sizes(Unlinked(w, order))
    ensures result == BudgetExceeded ==> 0 < Sizes(Unlinked(w, order)) && budget < Sizes(Unlinked(w, order))
  {
    hide Unlinked, AllWhole, WrittenUpTo, IsPart, Total, Sizes, InMadeFolder;
    left, k := budget, 0;
    NothingWritten(w, order);
    for i := 0 to |order|
      invariant Total(disk.log) == Sizes(Unlinked(w, order[..i]))
      invariant AllWhole(disk.log, Unlinked(w, order[..i])) && k == i
      invariant left + Total(disk.log) == budget && (Total(disk.log) == 0 || left >= 0)
      invariant disk.faults >= old(disk.faults) && archive.faults >= old(archive.faults)
      invariant old(interrupt.raised) ==> interrupt.raised
    {
      WholeUpTo(disk.log, w, order, i);
      var stop := interrupt.Poll();
      if stop { return Interrupted, left, i; }
      OneMoreWhole(disk.log, w, order, i);
      k := i + 1;
      if order[i].path in w.links {
        OneLinkMore(w, order, i);
        continue;
      }
      ghost var done: seq<Written>;
      ghost var before := disk.log;
      result, left, done := WriteFileEntry(w, order[i], archive, disk, left, interrupt);
      TotalAppend(before, done);
      PartUpTo(before, done, w, order, i);
      OneMoreSize(w, order, i);
      if result == NoFailure { WholeTotal(order[i]); }
      if result != NoFailure { return result, left, i; }
    }
    assert order[..|order|] == order;
    WholeUpTo(disk.log, w, order, |order|);
    var stop := interrupt.Poll();
    result := if stop then Interrupted else NoFailure;
  }

  lemma NothingWritten(w: World, order: seq<PendingFile>)
    ensures Sizes(Unlinked(w, order[..0])) == 0
    ensures AllWhole([], Unlinked(w, order[..0])) && Total([]) == 0
  {
  }

  /** A record of a file to be extracted, inside the folder and not in a link's place. */
  ghost predicate Allowed(x: Written, w: World, folder: string, walk: seq<PendingFile>) {
    exists f :: f in walk && f.path !in w.links && PlacedInside(f, folder) && x.path == f.path && x.data <= f.file.data
  }

  lemma WrittenAllowed(log: seq<Written>, w: World, folder: string, root: Entries, order: seq<PendingFile>, k: nat)
    requires WrittenUpTo(log, w, order, k)
    requires multiset(order) == multiset(Walk(w, folder, folder, root))
    ensures forall x :: x in log ==> Allowed(x, w, folder, Walk(w, folder, folder, root))
  {
    hide WrittenUpTo, PlacedInside, Walk, IsInside, Allowed;
    var walk := Walk(w, folder, folder, root);
    OwnFolder(folder);
    WalkStaysInside(w, folder, folder, root);
    forall x | x in log ensures Allowed(x, w, folder, walk) {
      var f := FileOf(log, w, order, k, x);
      assert f in multiset(order);
      FileAllows(x, w, folder, walk, f);
    }
  }

  lemma FileAllows(x: Written, w: World, folder: string, walk: seq<PendingFile>, f: PendingFile)
    requires f in walk && f.path !in w.links && PlacedInside(f, folder) && x.path == f.path && x.data <= f.file.data
    ensures Allowed(x, w, folder, walk)
  {
    hide PlacedInside;
  }

  lemma FileOf(log: seq<Written>, w: World, order: seq<PendingFile>, k: nat, x: Written) returns (f: PendingFile)
    requires WrittenUpTo(log, w, order, k) && x in log
    ensures f in order && f.path !in w.links && x.path == f.path && x.data <= f.file.data
  {
    hide Unlinked;
    var whole := Unlinked(w, order[..k]);
    var i :| 0 <= i < |log| && log[i] == x;
    if i < |whole| {
      f := whole[i];
      assert log[..|whole|][i] == x;
      assert f in multiset(whole);
      UnlinkedCounts(w, order[..k], f);
      assert f in order[..k];
    } else {
      f := order[k];
      assert log[|whole|..][i - |whole|] == x;
    }
  }

  lemma OwnFolder(folder: string)
    ensures IsInside(folder, folder)
  {
  }

  /** What was made and written once all directories were scanned: every folder of the walk, its
      files in an order by position, whole up to one of them and at most a part of that one. */
  ghost predicate WrittenInOrder(made: seq<string>, log: seq<Written>, w: World, folder: string, root: Entries,
                                 order: seq<PendingFile>, k: nat)
  {
    var top := w.canonical(folder);
    && multiset(order) == multiset(Walk(w, top, top, root)) && SortedByPosition(order)
    && multiset(made) == multiset{folder} + multiset(WalkFolders(w, top, top, root))
    && WrittenUpTo(log, w, order, k)
  }

  /** The first folder made is the one to extract to, all others lie inside it. */
  lemma MadeAreInside(w: World, top: string, root: Entries, folder: string, made: seq<string>)
    requires [folder] <= made && multiset(made) <= multiset([folder]) + multiset(WalkFolders(w, top, top, root))
    ensures forall i :: 0 < i < |made| ==> MadeInside(made[i], w, top)
  {
    hide MadeInside, WalkFolders, IsInside;
    OwnFolder(top);
    FoldersStayInside(w, top, top, root);
    assert made == [folder] + made[1..];
    forall i | 0 < i < |made| ensures MadeInside(made[i], w, top) {
      assert made[1..][i - 1] == made[i] && made[i] in multiset(made[1..]);
      assert multiset(made) == multiset([folder]) + multiset(made[1..]);
      Cancelled(multiset([folder]), multiset(made[1..]), multiset(WalkFolders(w, top, top, root)));
    }
  }

  lemma Cancelled(a: multiset<string>, b: multiset<string>, c: multiset<string>)
    requires a + b <= a + c
    ensures b <= c
  {
    forall x ensures b[x] <= c[x] { assert (a + b)[x] <= (a + c)[x]; }
  }

  /** Each file that names lead to was written whole at its place, unless a link stands there, and
      nothing else was written. */
  ghost predicate ReachedWritten(log: seq<Written>, w: World, folder: string, root: Entries) {
    && (forall f :: FileReached(w, folder, folder, root, f) && f.path !in w.links ==>
          f.file.size <= |f.file.data| && Written(f.path, f.file.data[..f.file.size]) in log)
    && (forall x :: x in log ==>
          exists f :: FileReached(w, folder, folder, root, f) && f.path !in w.links && IsWhole(x, f))
  }

  predicate IsWhole(x: Written, f: PendingFile) {
    f.file.size <= |f.file.data| && x == Written(f.path, f.file.data[..f.file.size])
  }

  lemma WalkWritten(log: seq<Written>, w: World, folder: string, root: Entries, order: seq<PendingFile>)
    requires multiset(order) == multiset(Walk(w, folder, folder, root)) && AllWhole(log, Unlinked(w, order))
    ensures ReachedWritten(log, w, folder, root)
  {
    hide Walk, Unlinked, FileReached;
    WalkIsReached(w, folder, folder, root);
    var left := Unlinked(w, order);
    forall f ensures f in left <==> FileReached(w, folder, folder, root, f) && f.path !in w.links {
      UnlinkedCounts(w, order, f);
      assert f in left <==> f in multiset(left);
      assert f in order <==> f in multiset(order);
      assert f in Walk(w, folder, folder, root) <==> f in multiset(Walk(w, folder, folder, root));
    }
    forall f | f in left ensures f.file.size <= |f.file.data| && Written(f.path, f.file.data[..f.file.size]) in log {
      var i :| 0 <= i < |left| && left[i] == f;
      assert log[i] == Whole(f);
    }
    forall x | x in log ensures exists f :: f in left && IsWhole(x, f) {
      var i :| 0 <= i < |log| && log[i] == x;
      assert left[i] in left && IsWhole(x, left[i]);
    }
  }

  /** extractArchiveDirectory. Whatever comes of it, folders are made inside the folder only, and
      only beginnings of the archive's files are written, in folders that were made, never through
      a link, in the order of their positions and within the budget. Success means that exactly
      the files of the recursive walk that no link stands in for were written, each whole and as
      often as the archive has it. `scanned`: whether all directories were scanned, which comes
      before anything is written. */
  method ExtractArchiveDirectory(w: World, root: Entries, folder: string, archive: Archive, disk: Disk, budget: int,
                                 interrupt: InterruptFlag)
      returns (result: Failure, ghost scanned: bool, ghost order: seq<PendingFile>, ghost k: nat)
    requires disk.log == [] && disk.made == []
    modifies archive, disk, interrupt
    ensures var top := w.canonical(folder);
            && (forall x :: x in disk.log ==> Allowed(x, w, top, Walk(w, top, top, root)))
            && (disk.made != [] ==> disk.made[0] == folder)
            && (forall i :: 0 < i < |disk.made| ==> MadeInside(disk.made[i], w, top))
            && (if scanned then WrittenInOrder(disk.made, disk.log, w, folder, root, order, k)
                else disk.log == [] && result in {Error, Interrupted})
    ensures var walk := Walk(w, w.canonical(folder), w.canonical(folder), root);
            && (result == NoFailure ==>
                  && scanned && AllWhole(disk.log, Unlinked(w, order))
                  && multiset(Unlinked(w, order)) == multiset(Unlinked(w, walk)))
            && (result == Error ==> disk.faults > old(disk.faults) || archive.faults > old(archive.faults)
                                    || w.canonical(folder) == ""
                                    || exists f :: f in walk && |f.file.data| < f.file.size)
            && (result == BudgetExceeded ==>
                  0 < Sizes(Unlinked(w, walk)) && budget < Sizes(Unlinked(w, walk)))
            // unless something goes wrong it succeeds exactly when the files fit the budget
            && (disk.faults == old(disk.faults) && archive.faults == old(archive.faults) && !interrupt.raised
                && w.canonical(folder) != "" && (forall f :: f in walk ==> f.file.size <= |f.file.data|) ==>
                  (result == NoFailure <==> Sizes(Unlinked(w, walk)) == 0 || Sizes(Unlinked(w, walk)) <= budget))
            // as far as the files are read, a forward-only stream is started over at most once
            && (scanned && NoneWithin(multiset(Unlinked(w, walk))) ==>
                  forall n: nat, pos: int :: n <= |order| ==> StartOvers(pos, Regions(Unlinked(w, order[..n]))) <= 1)
    ensures result == NoFailure ==> ReachedWritten(disk.log, w, w.canonical(folder), root)
    ensures Total(disk.log) == 0 || Total(disk.log) <= budget
    ensures disk.faults >= old(disk.faults) && archive.faults >= old(archive.faults)
    ensures result == Interrupted ==> interrupt.raised
  {
    hide IsInside, PlacedInside, Walk, WalkFolders, Unlinked, AllWhole, WrittenUpTo, Total, Allowed, Sizes, MadeInside;
    hide NoneWithin, SortedByPosition, StartOvers, Regions, InMadeFolder, MadeAt, ReachedWritten;
    scanned, order, k := false, [], 0;
    NothingWritten(w, []);
    var ok := disk.MakePath(folder);
    if !ok { return Error, false, [], 0; }
    var canonicalFolder := w.canonical(folder);
    if canonicalFolder == "" { return Error, false, [], 0; }

    JustMade(w, [], folder);
    assert [] + [folder] == [folder] == disk.made;
    var files;
    result, files := FindFiles(w, canonicalFolder, root, disk, interrupt);
    MadeAreInside(w, canonicalFolder, root, folder, disk.made);
    if result != NoFailure { return result, false, [], 0; }
    var sorted := SortByPosition(files);
    scanned, order := true, sorted;
    PermutedIn(w, disk.made, files, sorted);
    var left;
    result, left, k := WriteFiles(w, sorted, archive, disk, budget, interrupt);
    WrittenAllowed(disk.log, w, canonicalFolder, root, order, k);
    OrderMeans(w, order, Walk(w, canonicalFolder, canonicalFolder, root), k);
    if result == NoFailure { WalkWritten(disk.log, w, canonicalFolder, root, order); }
  }

  /** What is said of the sorted order, said of the walk. */
  lemma OrderMeans(w: World, order: seq<PendingFile>, walk: seq<PendingFile>, k: nat)
    requires multiset(order) == multiset(walk) && SortedByPosition(order)
    ensures multiset(Unlinked(w, order)) == multiset(Unlinked(w, walk))
    ensures Sizes(Unlinked(w, order)) == Sizes(Unlinked(w, walk))
    ensures NoneWithin(multiset(Unlinked(w, walk))) ==>
              forall n: nat, pos: int :: n <= |order| ==> StartOvers(pos, Regions(Unlinked(w, order[..n]))) <= 1
    ensures k < |order| ==> order[k] in walk
  {
    hide NoneWithin, SortedByPosition, StartOvers, Regions, Unlinked, Sizes;
    UnlinkedPermutes(w, order, walk);
    SizesPermute(Unlinked(w, order), Unlinked(w, walk));
    if NoneWithin(multiset(Unlinked(w, walk))) { SortedStartsOverOnce(w, order); }
    if k < |order| { assert order[k] in multiset(order); }
  }

  lemma PermutedIn(w: World, made: seq<string>, files: seq<PendingFile>, order: seq<PendingFile>)
    requires multiset(order) == multiset(files) && forall f :: f in files ==> InMadeFolder(w, made, f.path)
    ensures forall f :: f in order ==> InMadeFolder(w, made, f.path)
  {
    hide InMadeFolder;
    forall f | f in order ensures f in files { assert f in multiset(order); }
  }
}
