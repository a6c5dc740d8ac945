/** Scanning an archive's directories with a worklist: the folders are made, the files found
    (src/compression/src/archiveextraction.cpp). */
module ArchiveScan {
  import opened Options
  import opened Failures
  import opened ArchiveWalk
  import opened ArchiveChains
  import opened ArchiveDisk

  /** The folder made for an entry, before it is known where that resolves to. */
  function MadeFor(w: World, path: string, name: string, entry: Option<Entry>): seq<string> {
    if entry.None? || !IsPlainName(name) || entry.value.symLinkTarget != "" then []
    else
      var p := path + "/" + name;
      if entry.value.kind.Directory? && p !in w.links then [p] else []
  }

  /** The folders made below a directory, by recursion. */
  function WalkFolders(w: World, folder: string, path: string, entries: Entries): seq<string>
    decreases entries
  {
    match entries
    case NoEntries => []
    case More(name, entry, rest) =>
      var v := Judge(w, folder, path, name, entry);
      MadeFor(w, path, name, entry)
        + (if v.Descend? then WalkFolders(w, folder, v.directory.path, v.directory.entries) else [])
        + WalkFolders(w, folder, path, rest)
  }

  /** A folder made lies inside the folder, under a plain name, and no link stands there. */
  ghost predicate MadeInside(p: string, w: World, folder: string) {
    p !in w.links && exists dir, name :: IsInside(dir, folder) && IsPlainName(name) && p == dir + "/" + name
  }

  lemma {:induction false} FoldersStayInside(w: World, folder: string, path: string, entries: Entries)
    requires IsInside(path, folder)
    ensures forall p :: p in WalkFolders(w, folder, path, entries) ==> MadeInside(p, w, folder)
    decreases entries
  {
    hide IsInside, IsPlainName;
    match entries {
      case NoEntries =>
      case More(name, entry, rest) =>
        FoldersStayInside(w, folder, path, rest);
        var v := Judge(w, folder, path, name, entry);
        if v.Descend? { FoldersStayInside(w, folder, v.directory.path, v.directory.entries); }
    }
  }

  /** The folders made are exactly those that names lead to. */
  lemma {:induction false} FoldersAreReached(w: World, folder: string, path: string, entries: Entries)
    ensures forall p :: p in WalkFolders(w, folder, path, entries)
                        <==> Reached(w, folder, path, entries, FolderGoal, p)
    decreases entries
  {
    hide Reached, ReachedBy, IsPlainName, IsInside, MadeFor;
    match entries {
      case NoEntries => NothingReached(w, folder, path);
      case More(name, entry, rest) =>
        FoldersAreReached(w, folder, path, rest);
        var v := Judge(w, folder, path, name, entry);
        if v.Descend? { FoldersAreReached(w, folder, v.directory.path, v.directory.entries); }
        forall p ensures p in WalkFolders(w, folder, path, entries)
                         <==> Reached(w, folder, path, entries, FolderGoal, p)
        {
          ReachedFirst(w, folder, path, entries, FolderGoal, p);
          MadeIsReached(w, folder, path, name, entry, p);
        }
    }
  }

  lemma NothingReached(w: World, folder: string, path: string)
    ensures forall p :: !Reached(w, folder, path, NoEntries, FolderGoal, p)
  {
  }

  lemma MadeIsReached(w: World, folder: string, path: string, name: string, entry: Option<Entry>, p: string)
    ensures var v := Judge(w, folder, path, name, entry);
            p in MadeFor(w, path, name, entry)
            || (v.Descend? && Reached(w, folder, v.directory.path, v.directory.entries, FolderGoal, p))
            <==> ReachedBy(w, folder, path, name, entry, FolderGoal, p)
  {
    hide IsPlainName, OneComponent, IsInside, IsBelow, Reached, ReachedBy;
    PlainMeansOneComponent(name);
    InsideMeansBelow(w.canonical(path + "/" + name), folder);
    if entry.Some? { ReachedByMeans(w, folder, path, name, entry.value, FolderGoal, p); }
    else { NoneReached(w, folder, path, name, FolderGoal, p); }
  }

  /** What is found and made below the directories that wait. */
  datatype Work = Work(files: multiset<PendingFile>, folders: multiset<string>) {
    function Plus(other: Work): Work { Work(files + other.files, folders + other.folders) }
  }

  ghost function WorkOf(w: World, folder: string, d: PendingDirectory): Work {
    Work(multiset(Walk(w, folder, d.path, d.entries)), multiset(WalkFolders(w, folder, d.path, d.entries)))
  }

  ghost function StackWork(w: World, folder: string, stack: seq<PendingDirectory>): Work {
    if stack == [] then Work(multiset{}, multiset{})
    else StackWork(w, folder, stack[..|stack| - 1]).Plus(WorkOf(w, folder, stack[|stack| - 1]))
  }

  ghost function StackSize(stack: seq<PendingDirectory>): nat {
    if stack == [] then 0 else StackSize(stack[..|stack| - 1]) + Size(stack[|stack| - 1].entries)
  }

  lemma Push(w: World, folder: string, stack: seq<PendingDirectory>, d: PendingDirectory)
    ensures StackWork(w, folder, stack + [d]) == StackWork(w, folder, stack).Plus(WorkOf(w, folder, d))
    ensures StackSize(stack + [d]) == StackSize(stack) + Size(d.entries)
  {
    hide WorkOf;
    assert (stack + [d])[..|stack|] == stack;
  }

  /** What was found and made, and what is still to be, is all there is. */
  ghost predicate Balanced(w: World, folder: string, files: seq<PendingFile>, made: seq<string>,
                           stack: seq<PendingDirectory>, current: PendingDirectory, goal: Work)
  {
    goal == Work(multiset(files), multiset(made)).Plus(StackWork(w, folder, stack)).Plus(WorkOf(w, folder, current))
  }

  lemma FilesFirst(w: World, folder: string, path: string, e: Entries)
    requires e.More?
    ensures var v := Judge(w, folder, path, e.name, e.entry);
            multiset(Walk(w, folder, path, e))
            == (if v.Keep? then multiset{v.file} else multiset{})
               + (if v.Descend? then multiset(Walk(w, folder, v.directory.path, v.directory.entries)) else multiset{})
               + multiset(Walk(w, folder, path, e.rest))
  {
    hide Judge;
  }

  lemma FoldersFirst(w: World, folder: string, path: string, e: Entries)
    requires e.More?
    ensures var v := Judge(w, folder, path, e.name, e.entry);
            multiset(WalkFolders(w, folder, path, e))
            == multiset(MadeFor(w, path, e.name, e.entry))
               + (if v.Descend? then multiset(WalkFolders(w, folder, v.directory.path, v.directory.entries))
                  else multiset{})
               + multiset(WalkFolders(w, folder, path, e.rest))
  {
    hide Judge, MadeFor;
  }

  lemma SizeFirst(w: World, folder: string, path: string, e: Entries)
    requires e.More?
    ensures var v := Judge(w, folder, path, e.name, e.entry);
            (if v.Descend? then Size(v.directory.entries) else 0) + Size(e.rest) < Size(e)
  {
    hide IsInside, IsPlainName;
  }

  /** The work below a directory, one entry at a time. */
  lemma WorkFirst(w: World, folder: string, current: PendingDirectory)
    requires current.entries.More?
    ensures var e := current.entries;
            var v, own := Judge(w, folder, current.path, e.name, e.entry), MadeFor(w, current.path, e.name, e.entry);
            var below := if v.Descend? then WorkOf(w, folder, v.directory) else Work(multiset{}, multiset{});
            WorkOf(w, folder, current)
            == Work(if v.Keep? then multiset{v.file} else multiset{}, multiset(own)).Plus(below)
                 .Plus(WorkOf(w, folder, current.(entries := e.rest)))
  {
    hide Judge, MadeFor, Walk, WalkFolders;
    FilesFirst(w, folder, current.path, current.entries);
    FoldersFirst(w, folder, current.path, current.entries);
  }

  /** One entry taken: kept as a file, made a folder of, put on the worklist, or passed over. */
  lemma NextEntry(w: World, folder: string, files: seq<PendingFile>, made: seq<string>,
                  stack: seq<PendingDirectory>, current: PendingDirectory, goal: Work)
    requires current.entries.More? && Balanced(w, folder, files, made, stack, current, goal)
    ensures var e := current.entries;
            var v, own := Judge(w, folder, current.path, e.name, e.entry), MadeFor(w, current.path, e.name, e.entry);
            var files' := if v.Keep? then files + [v.file] else files;
            var stack' := if v.Descend? then stack + [v.directory] else stack;
            && Balanced(w, folder, files', made + own, stack', current.(entries := e.rest), goal)
            && StackSize(stack') + Size(e.rest) < StackSize(stack) + Size(e)
  {
    hide Judge, MadeFor, WorkOf, StackWork, StackSize, Size, Work.Plus;
    var e := current.entries;
    var v, own := Judge(w, folder, current.path, e.name, e.entry), MadeFor(w, current.path, e.name, e.entry);
    var below := if v.Descend? then WorkOf(w, folder, v.directory) else Work(multiset{}, multiset{});
    var taken := Work(if v.Keep? then multiset{v.file} else multiset{}, multiset(own));
    WorkFirst(w, folder, current);
    SizeFirst(w, folder, current.path, e);
    WorkMoves(Work(multiset(files), multiset(made)), StackWork(w, folder, stack), taken, below,
              WorkOf(w, folder, current.(entries := e.rest)));
    Taken(files, made, v, own);
    if v.Descend? { Push(w, folder, stack, v.directory); } else { NoMore(StackWork(w, folder, stack)); }
  }

  lemma WorkMoves(done: Work, stack: Work, taken: Work, below: Work, rest: Work)
    ensures done.Plus(stack).Plus(taken.Plus(below).Plus(rest)) == done.Plus(taken).Plus(stack.Plus(below)).Plus(rest)
  {
  }

  lemma NoMore(work: Work)
    ensures work.Plus(Work(multiset{}, multiset{})) == work
  {
  }

  lemma Taken(files: seq<PendingFile>, made: seq<string>, v: Verdict, own: seq<string>)
    ensures Work(multiset(if v.Keep? then files + [v.file] else files), multiset(made + own))
         == Work(multiset(files), multiset(made))
              .Plus(Work(if v.Keep? then multiset{v.file} else multiset{}, multiset(own)))
  {
  }

  /** Between two directories: what was found and made, and what waits, is all there is. */
  ghost predicate Waiting(w: World, folder: string, files: seq<PendingFile>, made: seq<string>,
                          stack: seq<PendingDirectory>, goal: Work)
  {
    goal == Work(multiset(files), multiset(made)).Plus(StackWork(w, folder, stack))
  }

  lemma FirstDirectory(w: World, folder: string, made: seq<string>, all: PendingDirectory)
    ensures Waiting(w, folder, [], made, [all], Work(multiset{}, multiset(made)).Plus(WorkOf(w, folder, all)))
  {
    hide WorkOf, StackWork;
    Push(w, folder, [], all);
    NoStack(w, folder);
    assert [] + [all] == [all];
  }

  /** A directory on the worklist becomes the current one. */
  lemma NextDirectory(w: World, folder: string, files: seq<PendingFile>, made: seq<string>,
                      below: seq<PendingDirectory>, current: PendingDirectory, goal: Work)
    requires Waiting(w, folder, files, made, below + [current], goal)
    ensures Balanced(w, folder, files, made, below, current, goal)
    ensures StackSize(below + [current]) == StackSize(below) + Size(current.entries)
  {
    hide WorkOf, StackWork, StackSize, Size;
    Push(w, folder, below, current);
  }

  /** Nothing is left of a directory. */
  lemma DirectoryDone(w: World, folder: string, files: seq<PendingFile>, made: seq<string>,
                      stack: seq<PendingDirectory>, current: PendingDirectory, goal: Work)
    requires current.entries.NoEntries? && Balanced(w, folder, files, made, stack, current, goal)
    ensures Waiting(w, folder, files, made, stack, goal)
  {
    hide StackWork;
    assert WorkOf(w, folder, current) == Work(multiset{}, multiset{});
  }

  lemma NoStack(w: World, folder: string)
    ensures StackWork(w, folder, []) == Work(multiset{}, multiset{}) && StackSize([]) == 0
  {
  }

  /** The directories that wait were made, and so were the folders of the files found. */
  ghost predicate Grounded(w: World, made: seq<string>, files: seq<PendingFile>, stack: seq<PendingDirectory>) {
    && (forall d :: d in stack ==> MadeAt(w, made, d.path))
    && (forall f :: f in files ==> InMadeFolder(w, made, f.path))
  }

  lemma GroundedLater(w: World, made: seq<string>, more: seq<string>, path: string)
    ensures MadeAt(w, made, path) ==> MadeAt(w, made + more, path)
    ensures InMadeFolder(w, made, path) ==> InMadeFolder(w, made + more, path)
  {
    assert forall p :: p in made ==> p in made + more;
    assert forall folder :: MadeAt(w, made, folder) ==> MadeAt(w, made + more, folder);
  }

  lemma GroundedNext(w: World, folder: string, made: seq<string>, files: seq<PendingFile>, stack: seq<PendingDirectory>,
                     current: PendingDirectory)
    requires Grounded(w, made, files, stack) && MadeAt(w, made, current.path) && current.entries.More?
    ensures var e := current.entries;
            var v, own := Judge(w, folder, current.path, e.name, e.entry), MadeFor(w, current.path, e.name, e.entry);
            && Grounded(w, made + own, if v.Keep? then files + [v.file] else files,
                        if v.Descend? then stack + [v.directory] else stack)
            && MadeAt(w, made + own, current.path)
  {
    hide InMadeFolder, MadeAt, IsInside, IsPlainName;
    var e := current.entries;
    var v, own := Judge(w, folder, current.path, e.name, e.entry), MadeFor(w, current.path, e.name, e.entry);
    forall path: string
      ensures MadeAt(w, made, path) ==> MadeAt(w, made + own, path)
      ensures InMadeFolder(w, made, path) ==> InMadeFolder(w, made + own, path)
    {
      GroundedLater(w, made, own, path);
    }
    if v.Descend? { JustMade(w, made, current.path + "/" + e.name); }
    if v.Keep? { FileInFolder(w, made + own, current.path, e.name); }
  }

  lemma JustMade(w: World, made: seq<string>, p: string)
    ensures MadeAt(w, made + [p], w.canonical(p))
  {
    assert p in made + [p];
  }

  lemma FileInFolder(w: World, made: seq<string>, folder: string, name: string)
    requires MadeAt(w, made, folder) && IsPlainName(name)
    ensures InMadeFolder(w, made, folder + "/" + name)
  {
  }

  /** Finds the files, last directory first, and makes their folders. Whatever the order, they are
      those of the recursive walk, each as often as it is there. */
  method FindFiles(w: World, folder: string, root: Entries, disk: Disk, interrupt: InterruptFlag)
      returns (result: Failure, files: seq<PendingFile>)
    requires MadeAt(w, disk.made, folder)
    modifies disk`made, disk`faults, interrupt
    ensures disk.faults >= old(disk.faults)
    ensures old(interrupt.raised) ==> interrupt.raised
    ensures old(disk.made) <= disk.made
    ensures multiset(disk.made) <= multiset(old(disk.made)) + multiset(WalkFolders(w, folder, folder, root))
    ensures result == NoFailure ==>
              && multiset(files) == multiset(Walk(w, folder, folder, root))
              && multiset(disk.made) == multiset(old(disk.made)) + multiset(WalkFolders(w, folder, folder, root))
              && forall f :: f in files ==> InMadeFolder(w, disk.made, f.path)
    ensures result == Error ==> disk.faults > old(disk.faults)
    ensures result == Interrupted ==> interrupt.raised
    ensures result != BudgetExceeded
  {
    hide StackSize, WorkOf, Walk, WalkFolders, Size, MadeAt, InMadeFolder, Waiting;
    files := [];
    var all := PendingDirectory(root, folder);
    ghost var goal := Work(multiset{}, multiset(disk.made)).Plus(WorkOf(w, folder, all));
    WorkIs(w, folder, all);
    FirstDirectory(w, folder, disk.made, all);
    var directories := [all];
    while directories != []
      invariant Waiting(w, folder, files, disk.made, directories, goal)
      invariant Grounded(w, disk.made, files, directories) && old(disk.made) <= disk.made
      invariant disk.faults == old(disk.faults) && (old(interrupt.raised) ==> interrupt.raised)
      decreases StackSize(directories)
    {
      WithinGoal(w, folder, files, disk.made, directories, goal);
      var stop := interrupt.Poll();
      if stop { return Interrupted, files; }
      var current, below := directories[|directories| - 1], directories[..|directories| - 1];
      assert directories == below + [current];
      NextDirectory(w, folder, files, disk.made, below, current, goal);
      var failure;
      failure, directories, files := ScanDirectory(w, folder, current, below, files, disk, goal);
      if failure { return Error, files; }
    }
    AllFound(w, folder, files, disk.made, old(disk.made), all, goal);
    return NoFailure, files;
  }

  lemma AllFound(w: World, folder: string, files: seq<PendingFile>, made: seq<string>, before: seq<string>,
                 all: PendingDirectory, goal: Work)
    requires goal == Work(multiset{}, multiset(before)).Plus(WorkOf(w, folder, all))
    requires Waiting(w, folder, files, made, [], goal)
    ensures multiset(files) == WorkOf(w, folder, all).files
    ensures multiset(made) == multiset(before) + WorkOf(w, folder, all).folders
  {
    hide WorkOf;
    assert goal == Work(multiset(files), multiset(made));
  }

  lemma WithinGoal(w: World, folder: string, files: seq<PendingFile>, made: seq<string>,
                   stack: seq<PendingDirectory>, goal: Work)
    requires Waiting(w, folder, files, made, stack, goal)
    ensures multiset(made) <= goal.folders
  {
    hide StackWork;
  }

  lemma WorkIs(w: World, folder: string, d: PendingDirectory)
    ensures WorkOf(w, folder, d).files == multiset(Walk(w, folder, d.path, d.entries))
    ensures WorkOf(w, folder, d).folders == multiset(WalkFolders(w, folder, d.path, d.entries))
  {
  }

  method ScanDirectory(w: World, folder: string, scanned: PendingDirectory, stack: seq<PendingDirectory>,
                       found: seq<PendingFile>, disk: Disk, ghost goal: Work)
      returns (failure: bool, directories: seq<PendingDirectory>, files: seq<PendingFile>)
    requires Balanced(w, folder, found, disk.made, stack, scanned, goal)
    requires Grounded(w, disk.made, found, stack) && MadeAt(w, disk.made, scanned.path)
    modifies disk`made, disk`faults
    ensures disk.faults == old(disk.faults) + if failure then 1 else 0
    ensures old(disk.made) <= disk.made && multiset(disk.made) <= goal.folders
    // what is found and made, and what waits, together stay the recursive walk
    ensures !failure ==>
      && Waiting(w, folder, files, disk.made, directories, goal)
      && Grounded(w, disk.made, files, directories)
      && StackSize(directories) < StackSize(stack) + Size(scanned.entries)
  {
    hide StackSize, Size, Grounded, MadeAt, IsInside, IsPlainName, Balanced, Waiting;
    directories, files := stack, found;
    var current := scanned;
    while current.entries.More?
      invariant current.path == scanned.path && disk.faults == old(disk.faults) && old(disk.made) <= disk.made
      invariant Balanced(w, folder, files, disk.made, directories, current, goal)
      invariant Grounded(w, disk.made, files, directories) && MadeAt(w, disk.made, current.path)
      invariant StackSize(directories) + Size(current.entries) <= StackSize(stack) + Size(scanned.entries)
      decreases current.entries
    {
      var name, entry := current.entries.name, current.entries.entry;
      var path := current.path + "/" + name;
      NextEntry(w, folder, files, disk.made, directories, current, goal);
      GroundedNext(w, folder, disk.made, files, directories, current);
      BalancedMade(w, folder, files, disk.made, directories, current, goal);
      current := current.(entries := current.entries.rest);
      assert disk.made + [] == disk.made;
      if entry.Some? && IsPlainName(name) && entry.value.symLinkTarget == "" {
        match entry.value.kind {
          case Directory(entries) =>
            if path !in w.links {
              var ok := disk.MakePath(path);
              if !ok { return true, directories, files; }
              var canonical := w.canonical(path);
              if IsInside(canonical, folder) { directories := directories + [PendingDirectory(entries, canonical)]; }
            }
          case File(f) =>
            files := files + [PendingFile(f, path)];
          case Other =>
        }
      }
    }
    BalancedMade(w, folder, files, disk.made, directories, current, goal);
    DirectoryDone(w, folder, files, disk.made, directories, current, goal);
    SizeOfNothing(current.entries);
    return false, directories, files;
  }

  lemma BalancedMade(w: World, folder: string, files: seq<PendingFile>, made: seq<string>,
                     stack: seq<PendingDirectory>, current: PendingDirectory, goal: Work)
    requires Balanced(w, folder, files, made, stack, current, goal)
    ensures multiset(made) <= goal.folders
  {
    hide StackWork, WorkOf;
  }

  lemma SizeOfNothing(entries: Entries)
    ensures Size(entries) > 0
  {
  }
}
