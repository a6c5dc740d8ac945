/** Taking over, once, the data a portable run kept in its old locations
    (src/datalocation/src/datalocation.cpp, takeOverOldPortableData). */
module TakeOver {
  import opened Options
  import opened CopyingOver

  // ---------- Taking over ----------

  datatype OldFolder = OldFolder(inConfigLocation: bool, name: string, countsAsData: bool)

  const OLD_FOLDERS := [
    OldFolder(false, "formats", true), OldFolder(false, PLUGINS, false), OldFolder(false, "plugin_config", true),
    OldFolder(false, "teamfolder", true), OldFolder(true, "themes", true)
  ]

  /** The one old folder that does not count as data. */
  const PLUGINS := "plugins"

  const MARKER := "logsquirl_taken_over.txt"

  datatype Location = Location(portable: bool, isolated: bool, beside: Path) {
    function Marker(): Path { beside + [MARKER] }

    function At(f: FoundFolder): Path { beside + [f.folder.name] }

    function Plugins(): Path { beside + [PLUGINS] }
  }

  /** An old location that is named, and the folders in it. */
  datatype OldDirectory = OldDirectory(path: Path, folders: map<string, Tree>)

  datatype FoundFolder = FoundFolder(folder: OldFolder, tree: Tree)

  datatype Outcome = Outcome(copied: seq<Path>, skipped: seq<Path>, failed: seq<Path>)

  function FoundIn(l: Location, old_: Option<OldDirectory>, folder: OldFolder): (r: seq<FoundFolder>)
    ensures |r| <= 1 && forall f :: f in r ==> f.folder == folder
  {
    if old_.None? || old_.value.path == l.beside || folder.name !in old_.value.folders then []
    else
      var tree := old_.value.folders[folder.name];
      if tree.Folder? && tree.entries != [] then [FoundFolder(folder, tree)] else []
  }

  /** The old folders that hold anything, among the first ones. */
  function Found(l: Location, data: Option<OldDirectory>, config: Option<OldDirectory>, n: nat): (r: seq<FoundFolder>)
    requires n <= |OLD_FOLDERS|
    ensures forall f :: f in r ==> f.folder in OLD_FOLDERS[..n]
  {
    if n == 0 then [] else
      Found(l, data, config, n - 1)
      + FoundIn(l, if OLD_FOLDERS[n - 1].inConfigLocation then config else data, OLD_FOLDERS[n - 1])
  }

  predicate DataBeside(files: Files, l: Location, n: nat)
    requires n <= |OLD_FOLDERS|
  {
    exists k :: 0 <= k < n && OLD_FOLDERS[k].countsAsData && HoldsAnything(files, l.beside + [OLD_FOLDERS[k].name])
  }

  lemma OldFoldersDistinct()
    ensures forall i, j :: 0 <= i < j < |OLD_FOLDERS| ==> OLD_FOLDERS[i].name != OLD_FOLDERS[j].name
    ensures forall f :: f in OLD_FOLDERS ==> f.name != MARKER && (f.name == PLUGINS <==> !f.countsAsData)
    ensures PLUGINS != MARKER
  {
  }

  lemma NextNameIsNew(l: Location, data: Option<OldDirectory>, config: Option<OldDirectory>, n: nat)
    requires 0 < n <= |OLD_FOLDERS|
    ensures forall f :: f in Found(l, data, config, n - 1) ==> f.folder.name != OLD_FOLDERS[n - 1].name
  {
    hide FoundIn;
    OldFoldersDistinct();
    forall f | f in Found(l, data, config, n - 1) ensures f.folder.name != OLD_FOLDERS[n - 1].name {
      var k :| 0 <= k < n - 1 && OLD_FOLDERS[k] == f.folder;
    }
  }

  predicate Distinct(found: seq<FoundFolder>) {
    forall i, j :: 0 <= i < j < |found| ==> found[i].folder.name != found[j].folder.name
  }

  lemma DistinctMore(found: seq<FoundFolder>, last: seq<FoundFolder>, folder: OldFolder)
    requires Distinct(found) && |last| <= 1 && forall f :: f in last ==> f.folder == folder
    requires forall f :: f in found ==> f.folder.name != folder.name
    ensures Distinct(found + last)
  {
  }

  lemma {:induction false} FoundDistinct(l: Location, data: Option<OldDirectory>, config: Option<OldDirectory>, n: nat)
    requires n <= |OLD_FOLDERS|
    ensures Distinct(Found(l, data, config, n))
  {
    hide OLD_FOLDERS, FoundIn, Distinct;
    if n > 0 {
      FoundDistinct(l, data, config, n - 1);
      NextNameIsNew(l, data, config, n);
      var last := FoundIn(l, if OLD_FOLDERS[n - 1].inConfigLocation then config else data, OLD_FOLDERS[n - 1]);
      DistinctMore(Found(l, data, config, n - 1), last, OLD_FOLDERS[n - 1]);
    } else {
      NoneDistinct();
    }
  }

  lemma NoneDistinct()
    ensures Distinct([])
  {
  }

  ghost predicate AllWellNamed(old_: Option<OldDirectory>) {
    old_.Some? ==> forall name :: name in old_.value.folders ==> WellNamed(old_.value.folders[name])
  }

  lemma {:induction false} FoundWellNamed(l: Location, data: Option<OldDirectory>, config: Option<OldDirectory>, n: nat)
    requires n <= |OLD_FOLDERS| && AllWellNamed(data) && AllWellNamed(config)
    ensures forall f :: f in Found(l, data, config, n) ==> WellNamed(f.tree) && f.tree.Folder?
  {
    hide OLD_FOLDERS, WellNamed;
    if n > 0 { FoundWellNamed(l, data, config, n - 1); }
  }

  /** A folder is there whole, or what is missing was reported. A plugin that was there was skipped
      and nothing was added to it. */
  ghost predicate Settled(before: Files, after: Files, r: Outcome, f: FoundFolder, to: Path) {
    if f.folder.countsAsData then to in r.copied && CopiedOrReported(after, r.failed, f.tree, to)
    else Reported(r.failed, to) || PluginsSettled(before, after, r, f.tree, to)
  }

  ghost predicate PluginsSettled(before: Files, after: Files, r: Outcome, t: Tree, to: Path) {
    && t.Folder? && IsFolder(after, to)
    && forall e :: e in t.entries ==> PluginSettled(before, after, r, e, to + [e.name])
  }

  ghost predicate PluginSettled(before: Files, after: Files, r: Outcome, e: Entry, at: Path) {
    if at in before then at in r.skipped && Untouched(before, after, at)
    else at in r.copied && CopiedOrReported(after, r.failed, e.tree, at)
  }

  predicate Adds(before: Outcome, after: Outcome) {
    AllIn(before.copied, after.copied) && AllIn(before.skipped, after.skipped) && AllIn(before.failed, after.failed)
  }

  lemma SettledStays(before: Files, middle: Files, after: Files, r: Outcome, r': Outcome, f: FoundFolder, to: Path)
    requires Settled(before, middle, r, f, to) && Kept(middle, after) && Untouched(middle, after, to) && Adds(r, r')
    ensures Settled(before, after, r', f, to)
  {
    hide CopiedOrReported;
    if f.folder.countsAsData {
      StillCopied(middle, after, r.failed, r'.failed, f.tree, to);
    } else if Reported(r.failed, to) {
      var x :| x in r.failed && x <= to;
      assert x in r'.failed;
    } else {
      FolderStays(middle, after, to);
      forall e | e in f.tree.entries ensures PluginSettled(before, after, r', e, to + [e.name]) {
        var at := to + [e.name];
        assert PluginSettled(before, middle, r, e, at);
        if at in before {
          BelowUntouched(middle, after, to, at);
          UntouchedBoth(before, middle, after, at);
        } else {
          StillCopied(middle, after, r.failed, r'.failed, e.tree, at);
        }
      }
    }
  }

  lemma BelowUntouched(before: Files, after: Files, to: Path, at: Path)
    requires Untouched(before, after, to) && to <= at
    ensures Untouched(before, after, at)
  {
    forall p | p in after && at <= p ensures p in before { assert p[..|to|] == at[..|to|] == to; }
  }

  /** Nothing is added to a plugin that is there, whatever its name. */
  ghost predicate PluginsUntouched(before: Files, after: Files, to: Path) {
    forall name: string :: to + [name] in before ==> Untouched(before, after, to + [name])
  }

  lemma PluginsStayUntouched(before: Files, middle: Files, after: Files, to: Path)
    requires PluginsUntouched(before, middle, to) && Untouched(middle, after, to)
    ensures PluginsUntouched(before, after, to)
  {
    forall name: string | to + [name] in before ensures Untouched(before, after, to + [name]) {
      BelowUntouched(middle, after, to, to + [name]);
      UntouchedBoth(before, middle, after, to + [name]);
    }
  }

  lemma EntriesUntouched(before: Files, after: Files, t: Tree, to: Path)
    requires t.Folder? && CopiedUpTo(before, after, t, to, |t.entries|, true)
    ensures PluginsUntouched(before, after, to)
  {
    forall p | p in after && p !in before && |p| > |to|
      ensures forall name: string :: to + [name] <= p ==> to + [name] !in before
    {
      var child := Child(t.entries, p[|to|..][0]);
      var k :| 0 <= k < |t.entries| && t.entries[k] == Entry(p[|to|], child.value);
      assert to + [t.entries[k].name] <= p;
      forall name: string | to + [name] <= p ensures to + [name] !in before { assert name == p[|to|]; }
    }
  }

  /** One plugin at a time: one that is already there stays as it is. */
  method CopyPlugins(tree: Tree, to: Path, disk: Disk) returns (r: Outcome)
    requires WellNamed(tree) && tree.Folder? && WellFormed(disk.files) && to != []
    requires disk.ended || IsFolder(disk.files, to)
    modifies disk
    ensures WellFormed(disk.files) && Kept(old(disk.files), disk.files)
            && OnlyFrom(old(disk.files), disk.files, tree, to)
    ensures old(disk.ended) ==> disk.ended && disk.files == old(disk.files)
    ensures disk.faults >= old(disk.faults)
    // nothing is added to a plugin that was there, wherever the run ends
    ensures PluginsUntouched(old(disk.files), disk.files, to)
    ensures forall e :: e in tree.entries ==>
              if to + [e.name] in old(disk.files) then to + [e.name] in r.skipped else to + [e.name] in r.copied
    ensures forall p :: p in r.skipped ==> p in old(disk.files)
    ensures forall p :: p in r.copied ==> p !in old(disk.files)
    ensures !disk.ended ==> PluginsSettled(old(disk.files), disk.files, r, tree, to)
    ensures !disk.ended && disk.faults == old(disk.faults) ==> AllBlocked(old(disk.files), tree, to, r.failed)
  {
    hide NodeAt, OnlyFrom, WellFormed, CopiedOrReported, AllBlocked, CopiedUpTo, PluginSettled, PluginsUntouched;
    r := Outcome([], [], []);
    ghost var start := disk.files;
    NoneBlocked(start, tree, to);
    RootOnly(start, start, tree, to);
    NothingCopied(start, start, tree, to);
    for i := 0 to |tree.entries|
      invariant WellFormed(disk.files) && CopiedUpTo(start, disk.files, tree, to, i, true)
      invariant old(disk.ended) ==> disk.ended && disk.files == start
      invariant disk.faults >= old(disk.faults)
      invariant disk.ended || IsFolder(disk.files, to)
      invariant forall e :: e in tree.entries[..i] ==>
                  if to + [e.name] in start then to + [e.name] in r.skipped else to + [e.name] in r.copied
      invariant forall p :: p in r.skipped ==> p in start
      invariant forall p :: p in r.copied ==> p !in start
      invariant !disk.ended ==> forall e :: e in tree.entries[..i] ==>
                PluginSettled(start, disk.files, r, e, to + [e.name])
      invariant !disk.ended && disk.faults == old(disk.faults) ==> AllBlocked(start, tree, to, r.failed)
    {
      var entry := tree.entries[i];
      var at := to + [entry.name];
      assert tree.entries[..i + 1] == tree.entries[..i] + [entry];
      NextUntouched(start, disk.files, tree, to, i, true);
      assert at in disk.files <==> at in start;
      ghost var was, wasR := disk.files, r;
      if at in disk.files {
        r := r.(skipped := r.skipped + [at]);
        SkippedNext(start, disk.files, tree, to, i);
        SkippedSettled(start, disk.files, r, entry, at);
        PluginsStaySettled(start, was, disk.files, wasR, r, tree, to, i, at);
      } else {
        BelowFolder(disk, to, entry.name);
        var failed := CopyEntry(entry.tree, at, disk);
        r := r.(failed := r.failed + failed, copied := r.copied + [at]);
        CopiedNext(start, was, disk.files, tree, to, i, true);
        if !disk.ended {
          FolderStays(was, disk.files, to);
          NowSettled(start, disk.files, failed, r, entry, at);
          OthersBeside(was, disk.files, tree, to, i);
          PluginsStaySettled(start, was, disk.files, wasR, r, tree, to, i, at);
          if disk.faults == old(disk.faults) {
            ChildBlocked(start, was, tree, i, to, failed);
            BothBlocked(start, tree, to, wasR.failed, failed);
          }
        }
      }
    }
    assert tree.entries[..|tree.entries|] == tree.entries;
    EntriesUntouched(start, disk.files, tree, to);
    UpToEnd(start, disk.files, tree, to, true);
  }

  lemma SkippedNext(before: Files, now: Files, t: Tree, to: Path, i: nat)
    requires t.Folder? && i < |t.entries| && CopiedUpTo(before, now, t, to, i, true)
    ensures CopiedUpTo(before, now, t, to, i + 1, true)
  {
    hide OnlyFrom;
  }

  lemma SkippedSettled(before: Files, now: Files, r: Outcome, e: Entry, at: Path)
    requires at in before && at in r.skipped && Untouched(before, now, at)
    ensures PluginSettled(before, now, r, e, at)
  {
  }

  lemma NowSettled(before: Files, now: Files, failed: seq<Path>, r: Outcome, e: Entry, at: Path)
    requires at !in before && at in r.copied && AllIn(failed, r.failed) && CopiedOrReported(now, failed, e.tree, at)
    ensures PluginSettled(before, now, r, e, at)
  {
    hide CopiedOrReported;
    StillCopied(now, now, failed, r.failed, e.tree, at);
  }

  /** Copying one entry adds nothing below the ones before it. */
  lemma OthersBeside(before: Files, after: Files, t: Tree, to: Path, i: nat)
    requires WellNamed(t) && t.Folder? && i < |t.entries|
    requires OnlyFrom(before, after, t.entries[i].tree, to + [t.entries[i].name])
    ensures forall e :: e in t.entries[..i] ==> Untouched(before, after, to + [e.name])
  {
    hide OnlyFrom;
    var at := to + [t.entries[i].name];
    forall e | e in t.entries[..i] ensures Untouched(before, after, to + [e.name]) {
      var k :| 0 <= k < i && t.entries[k] == e;
      assert (to + [e.name])[|to|] != at[|to|];
      BesideUntouched(before, after, t.entries[i].tree, at, to + [e.name]);
    }
  }

  lemma PluginsStaySettled(before: Files, middle: Files, after: Files, r: Outcome, r': Outcome, t: Tree,
                           to: Path, i: nat, at: Path)
    requires t.Folder? && i < |t.entries| && Kept(middle, after) && Adds(r, r')
    requires after == middle || forall e :: e in t.entries[..i] ==> Untouched(middle, after, to + [e.name])
    ensures (forall e :: e in t.entries[..i] ==> PluginSettled(before, middle, r, e, to + [e.name])) ==>
             forall e :: e in t.entries[..i] ==> PluginSettled(before, after, r', e, to + [e.name])
  {
    hide CopiedOrReported;
    forall e | e in t.entries[..i] && PluginSettled(before, middle, r, e, to + [e.name])
      ensures PluginSettled(before, after, r', e, to + [e.name])
    {
      if to + [e.name] in before { UntouchedBoth(before, middle, after, to + [e.name]); }
      else { StillCopied(middle, after, r.failed, r'.failed, e.tree, to + [e.name]); }
    }
  }

  /** One folder found, copied beside the executable. */
  method CopyFound(f: FoundFolder, to: Path, disk: Disk) returns (r: Outcome)
    requires WellNamed(f.tree) && f.tree.Folder? && disk.CanPut(to)
    modifies disk
    ensures WellFormed(disk.files) && Kept(old(disk.files), disk.files)
            && OnlyFrom(old(disk.files), disk.files, f.tree, to)
    ensures old(disk.ended) ==> disk.ended && disk.files == old(disk.files)
    ensures disk.faults >= old(disk.faults)
    ensures !f.folder.countsAsData ==> PluginsUntouched(old(disk.files), disk.files, to)
    ensures !disk.ended ==> Settled(old(disk.files), disk.files, r, f, to)
    ensures !disk.ended && disk.faults == old(disk.faults) ==> AllBlocked(old(disk.files), f.tree, to, r.failed)
  {
    hide NodeAt, WellFormed, OnlyFrom, CopiedOrReported, AllBlocked, PluginsSettled, PluginsUntouched, Untouched;
    ghost var start := disk.files;
    if f.folder.countsAsData {
      var failed := CopyEntry(f.tree, to, disk);
      r := Outcome([to], [], failed);
      return;
    }
    var ok := disk.MakeFolder(to);
    ghost var made := disk.files;
    RootOnly(start, made, f.tree, to);
    if !ok {
      r := Outcome([], [], [to]);
      assert to in r.failed;
      RootOfPlugins(start, made, to);
      if !disk.ended && disk.faults == old(disk.faults) { RootBlocked(start, f.tree, to); }
    } else {
      r := CopyPlugins(f.tree, to, disk);
      OnlyFromBoth(start, made, disk.files, f.tree, to);
      AfterRoot(start, made, disk.files, to, r, f.tree);
    }
  }

  lemma RootOfPlugins(before: Files, made: Files, to: Path)
    requires forall p :: p in made && p !in before ==> p == to
    ensures PluginsUntouched(before, made, to)
  {
  }

  /** Making the folder itself changes nothing of what is said about its entries. */
  lemma AfterRoot(before: Files, made: Files, after: Files, to: Path, r: Outcome, t: Tree)
    requires Kept(before, made) && forall p :: p in made && p !in before ==> p == to && made[p] == FolderNode
    requires PluginsUntouched(made, after, to) && t.Folder?
    ensures PluginsUntouched(before, after, to)
    ensures PluginsSettled(made, after, r, t, to) ==> PluginsSettled(before, after, r, t, to)
    ensures AllBlocked(made, t, to, r.failed) ==> AllBlocked(before, t, to, r.failed)
  {
    hide CopiedOrReported;
    forall name: string | to + [name] in before ensures Untouched(before, after, to + [name]) {
      assert Untouched(made, after, to + [name]);
    }
    if PluginsSettled(made, after, r, t, to) {
      forall e | e in t.entries ensures PluginSettled(before, after, r, e, to + [e.name]) {
        assert PluginSettled(made, after, r, e, to + [e.name]);
      }
    }
    if AllBlocked(made, t, to, r.failed) {
      forall x | x in r.failed ensures Blocked(before, t, to, x) {
        assert Blocked(made, t, to, x);
        assert x == to ==> x[|to|..] == [];
      }
    }
  }

  /** What is new is part of a folder found, at its place beside the executable. */
  ghost predicate FromFound(before: Files, after: Files, l: Location, found: seq<FoundFolder>) {
    forall p :: p in after && p !in before ==> exists f :: f in found && Comes(f, l, p, after[p])
  }

  predicate Comes(f: FoundFolder, l: Location, p: Path, node: Node) {
    l.At(f) <= p && NodeAt(f.tree, p[|l.At(f)|..]) == Some(node)
  }

  lemma FromOneMore(before: Files, middle: Files, after: Files, l: Location, found: seq<FoundFolder>, i: nat)
    requires i < |found| && FromFound(before, middle, l, found[..i]) && Kept(middle, after)
    requires OnlyFrom(middle, after, found[i].tree, l.At(found[i]))
    ensures FromFound(before, after, l, found[..i + 1])
  {
    hide NodeAt;
    forall p | p in after && p !in before ensures exists f :: f in found[..i + 1] && Comes(f, l, p, after[p]) {
      if p in middle {
        var f :| f in found[..i] && Comes(f, l, p, middle[p]);
        assert f in found[..i + 1];
      } else {
        assert found[i] in found[..i + 1] && Comes(found[i], l, p, after[p]);
      }
    }
  }

  lemma OthersUntouched(before: Files, after: Files, l: Location, found: seq<FoundFolder>, at: Path)
    requires FromFound(before, after, l, found) && |at| == |l.beside| + 1
    requires forall f :: f in found ==> l.At(f) != at
    ensures Untouched(before, after, at)
  {
    hide NodeAt;
    forall p | p in after && p !in before ensures !(at <= p) {
      var f :| f in found && Comes(f, l, p, after[p]);
      assert l.At(f) == p[..|at|];
    }
  }

  /** The tree is at its place, whole, and nothing else is. */
  ghost predicate IsWholeAt(files: Files, t: Tree, to: Path) {
    forall below ::
      if NodeAt(t, below).Some? then Has(files, to + below, NodeAt(t, below).value) else to + below !in files
  }

  lemma WholeWhereNothingWas(before: Files, after: Files, l: Location, found: seq<FoundFolder>, i: nat)
    requires i < |found| && FromFound(before, after, l, found) && Kept(before, after) && WellFormed(before)
    requires Distinct(found)
    requires CopiedOrReported(after, [], found[i].tree, l.At(found[i])) && found[i].tree.Folder?
    requires !HoldsAnything(before, l.At(found[i]))
    ensures IsWholeAt(after, found[i].tree, l.At(found[i]))
  {
    hide NodeAt, FromFound;
    var t, to := found[i].tree, l.At(found[i]);
    assert NodeAt(t, []) == Some(FolderNode) by { RootNode(t); }
    assert to + [] == to;
    assert Has(after, to, FolderNode);
    forall below | to + below in after
      ensures NodeAt(t, below) == Some(after[to + below])
    {
      var p := to + below;
      if p in before {
        NothingBelow(before, to, below);
        assert below == [];
      } else {
        NewIsFrom(before, after, l, found, i, p);
        assert p[|to|..] == below;
      }
    }
  }

  lemma RootNode(t: Tree)
    ensures NodeAt(t, []) == Some(NodeOf(t))
  {
  }

  lemma NothingBelow(before: Files, to: Path, below: Path)
    requires WellFormed(before) && to != [] && !HoldsAnything(before, to) && to + below in before
    ensures below == []
  {
    assert (to + below)[..|to|] == to;
  }

  lemma NewIsFrom(before: Files, after: Files, l: Location, found: seq<FoundFolder>, i: nat, p: Path)
    requires i < |found| && FromFound(before, after, l, found)
    requires Distinct(found)
    requires p in after && p !in before && l.At(found[i]) <= p
    ensures Comes(found[i], l, p, after[p])
  {
    hide NodeAt;
    var f :| f in found && Comes(f, l, p, after[p]);
    var j :| 0 <= j < |found| && found[j] == f;
    assert l.At(f) == p[..|l.beside| + 1] == l.At(found[i]);
    assert f.folder.name == l.At(f)[|l.beside|] == found[i].folder.name;
  }

  /** What is said of a folder when its turn came holds from the start on. */
  lemma FromTheStart(start: Files, was: Files, now: Files, r: Outcome, f: FoundFolder, to: Path)
    requires Kept(start, was) && Untouched(start, was, to)
    ensures Settled(was, now, r, f, to) ==> Settled(start, now, r, f, to)
    ensures AllBlocked(was, f.tree, to, r.failed) ==> AllBlocked(start, f.tree, to, r.failed)
    ensures PluginsUntouched(was, now, to) ==> PluginsUntouched(start, now, to)
  {
    hide CopiedOrReported;
    if Settled(was, now, r, f, to) && !f.folder.countsAsData && !Reported(r.failed, to) {
      forall e | e in f.tree.entries ensures PluginSettled(start, now, r, e, to + [e.name]) {
        assert PluginSettled(was, now, r, e, to + [e.name]);
        BelowUntouched(start, was, to, to + [e.name]);
        if to + [e.name] in start { UntouchedBoth(start, was, now, to + [e.name]); }
      }
    }
    if AllBlocked(was, f.tree, to, r.failed) {
      forall x | x in r.failed ensures Blocked(start, f.tree, to, x) { assert Blocked(was, f.tree, to, x); }
    }
    if PluginsUntouched(was, now, to) {
      forall name: string | to + [name] in start ensures Untouched(start, now, to + [name]) {
        BelowUntouched(start, was, to, to + [name]);
        UntouchedBoth(start, was, now, to + [name]);
      }
    }
  }

  /** A failure is that of something in the way of a folder found. */
  ghost predicate FailedBlocked(files: Files, l: Location, found: seq<FoundFolder>, failed: seq<Path>) {
    forall x :: x in failed ==> exists f :: f in found && Blocked(files, f.tree, l.At(f), x)
  }

  lemma BlockedMore(files: Files, l: Location, found: seq<FoundFolder>, f: FoundFolder, a: seq<Path>, b: seq<Path>)
    requires FailedBlocked(files, l, found, a) && AllBlocked(files, f.tree, l.At(f), b)
    ensures FailedBlocked(files, l, found + [f], a + b)
  {
    hide Blocked;
    forall x | x in a + b ensures exists g :: g in found + [f] && Blocked(files, g.tree, l.At(g), x) {
      if x in a {
        var g :| g in found && Blocked(files, g.tree, l.At(g), x);
        assert g in found + [f];
      } else {
        assert f in found + [f];
      }
    }
  }

  ghost predicate Progress(start: Files, now: Files, l: Location, found: seq<FoundFolder>) {
    && Kept(start, now) && FromFound(start, now, l, found)
    && forall f :: f in found && !f.folder.countsAsData ==> PluginsUntouched(start, now, l.At(f))
  }

  function Places(l: Location, found: seq<FoundFolder>): (r: seq<Path>)
    ensures |r| == |found|
  {
    seq(|found|, i requires 0 <= i < |found| => l.At(found[i]))
  }

  /** Each folder found, unless data is beside the executable already. */
  method CopyAllFound(l: Location, found: seq<FoundFolder>, dataBeside: bool, disk: Disk) returns (r: Outcome)
    requires WellFormed(disk.files) && IsFolder(disk.files, l.beside)
    requires forall f :: f in found ==> WellNamed(f.tree) && f.tree.Folder?
    requires Distinct(found)
    modifies disk
    ensures WellFormed(disk.files) && Progress(old(disk.files), disk.files, l, found)
    ensures disk.faults >= old(disk.faults)
    ensures dataBeside ==> disk.files == old(disk.files) && r == Outcome([], Places(l, found), [])
    ensures !disk.ended && !dataBeside ==> forall f :: f in found ==>
              Settled(old(disk.files), disk.files, r, f, l.At(f))
    ensures !disk.ended && disk.faults == old(disk.faults) ==> FailedBlocked(old(disk.files), l, found, r.failed)
  {
    hide WellFormed, WellNamed, Progress, Settled, OnlyFrom, AllBlocked, FailedBlocked, Location.At, Distinct;
    hide PluginsUntouched;
    r := Outcome([], [], []);
    ghost var start := disk.files;
    NoProgress(start, l, found[..0]);
    for i := 0 to |found|
      invariant WellFormed(disk.files) && Progress(start, disk.files, l, found[..i])
      invariant disk.faults >= old(disk.faults)
      invariant dataBeside ==> disk.files == start && r == Outcome([], Places(l, found[..i]), [])
      invariant IsFolder(disk.files, l.beside)
      invariant !disk.ended && !dataBeside ==> forall f :: f in found[..i] ==> Settled(start, disk.files, r, f, l.At(f))
      invariant !disk.ended && disk.faults == old(disk.faults) ==> FailedBlocked(start, l, found[..i], r.failed)
    {
      var to := l.At(found[i]);
      assert found[..i + 1] == found[..i] + [found[i]];
      if dataBeside {
        r := r.(skipped := r.skipped + [to]);
        NoProgress(start, l, found[..i + 1]);
      } else {
        ghost var was, before := disk.files, r;
        CanPutBeside(disk, l, found[i]);
        NotYet(start, was, l, found, i);
        var own := CopyFound(found[i], to, disk);
        r := Outcome(r.copied + own.copied, r.skipped + own.skipped, r.failed + own.failed);
        FolderStays(was, disk.files, l.beside);
        FromTheStart(start, was, disk.files, own, found[i], to);
        MoreProgress(start, was, disk.files, l, found, i);
        if !disk.ended {
          AllStillSettled(start, was, disk.files, before, r, l, found, i);
          OwnSettled(start, disk.files, own, r, found[i], to);
          if disk.faults == old(disk.faults) { BlockedMore(start, l, found[..i], found[i], before.failed, own.failed); }
        }
      }
    }
    assert found[..|found|] == found;
  }

  lemma NoProgress(files: Files, l: Location, found: seq<FoundFolder>)
    ensures Progress(files, files, l, found) && FailedBlocked(files, l, found, [])
  {
  }

  lemma CanPutBeside(disk: Disk, l: Location, f: FoundFolder)
    requires WellFormed(disk.files) && IsFolder(disk.files, l.beside)
    ensures disk.CanPut(l.At(f))
  {
    BelowFolder(disk, l.beside, f.folder.name);
  }

  lemma PlacesDiffer(l: Location, found: seq<FoundFolder>, i: nat)
    requires i < |found| && Distinct(found)
    ensures forall f :: f in found[..i] ==> l.At(f) != l.At(found[i]) && |l.At(f)| == |l.At(found[i])| == |l.beside| + 1
  {
    forall f | f in found[..i] ensures l.At(f) != l.At(found[i]) {
      var j :| 0 <= j < i && found[j] == f;
      assert l.At(f)[|l.beside|] == f.folder.name && l.At(found[i])[|l.beside|] == found[i].folder.name;
    }
  }

  /** What comes later has not been touched. */
  lemma NotYet(start: Files, was: Files, l: Location, found: seq<FoundFolder>, i: nat)
    requires i < |found| && Distinct(found) && Progress(start, was, l, found[..i])
    ensures Kept(start, was) && Untouched(start, was, l.At(found[i]))
  {
    hide FromFound, PluginsUntouched;
    PlacesDiffer(l, found, i);
    OthersUntouched(start, was, l, found[..i], l.At(found[i]));
  }

  lemma MoreProgress(start: Files, was: Files, now: Files, l: Location, found: seq<FoundFolder>, i: nat)
    requires i < |found| && Distinct(found) && Progress(start, was, l, found[..i]) && Kept(was, now)
    requires OnlyFrom(was, now, found[i].tree, l.At(found[i]))
    requires !found[i].folder.countsAsData ==> PluginsUntouched(start, now, l.At(found[i]))
    ensures Progress(start, now, l, found[..i + 1])
  {
    FromOneMore(start, was, now, l, found, i);
    hide FromFound, OnlyFrom, PluginsUntouched;
    PlacesDiffer(l, found, i);
    forall f | f in found[..i + 1] && !f.folder.countsAsData ensures PluginsUntouched(start, now, l.At(f)) {
      if f != found[i] {
        assert f in found[..i];
        BesideUntouched(was, now, found[i].tree, l.At(found[i]), l.At(f));
        PluginsStayUntouched(start, was, now, l.At(f));
      }
    }
  }

  lemma AllStillSettled(start: Files, was: Files, now: Files, r: Outcome, r': Outcome, l: Location,
                        found: seq<FoundFolder>, i: nat)
    requires i < |found| && Distinct(found) && Kept(was, now) && Adds(r, r')
    requires OnlyFrom(was, now, found[i].tree, l.At(found[i]))
    requires forall f :: f in found[..i] ==> Settled(start, was, r, f, l.At(f))
    ensures forall f :: f in found[..i] ==> Settled(start, now, r', f, l.At(f))
  {
    hide Settled, OnlyFrom;
    PlacesDiffer(l, found, i);
    forall f | f in found[..i] ensures Settled(start, now, r', f, l.At(f)) {
      BesideUntouched(was, now, found[i].tree, l.At(found[i]), l.At(f));
      SettledStays(start, was, now, r, r', f, l.At(f));
    }
  }

  lemma OwnSettled(start: Files, now: Files, own: Outcome, r: Outcome, f: FoundFolder, to: Path)
    requires Settled(start, now, own, f, to) && Adds(own, r)
    ensures Settled(start, now, r, f, to)
  {
    hide Settled;
    SettledStays(start, now, now, own, r, f, to);
  }

  // ---------- What a run leaves ----------

  lemma NothingBeside(start: Files, l: Location, f: FoundFolder)
    requires f.folder in OLD_FOLDERS && f.folder.countsAsData && !DataBeside(start, l, |OLD_FOLDERS|)
    ensures !HoldsAnything(start, l.At(f))
  {
    hide OLD_FOLDERS, HoldsAnything;
    var k :| 0 <= k < |OLD_FOLDERS| && OLD_FOLDERS[k] == f.folder;
  }

  lemma MarkerIsNew(start: Files, files: Files, l: Location, data: Option<OldDirectory>, config: Option<OldDirectory>)
    requires FromFound(start, files, l, Found(l, data, config, |OLD_FOLDERS|)) && l.Marker() !in start
    ensures l.Marker() !in files
    ensures forall f :: f in Found(l, data, config, |OLD_FOLDERS|) ==> l.At(f) != l.Marker()
  {
    hide FromFound, Found;
    OldFoldersDistinct();
    var found := Found(l, data, config, |OLD_FOLDERS|);
    forall f | f in found ensures l.At(f) != l.Marker() {
      assert f.folder in OLD_FOLDERS;
      assert l.At(f)[|l.beside|] == f.folder.name && l.Marker()[|l.beside|] == MARKER;
    }
    OthersUntouched(start, files, l, found, l.Marker());
  }

  lemma MarkerBeside(disk: Disk, l: Location)
    requires WellFormed(disk.files) && IsFolder(disk.files, l.beside)
    ensures disk.CanPut(l.Marker())
  {
    BelowFolder(disk, l.beside, MARKER);
  }

  ghost predicate AllSettled(start: Files, files: Files, r: Outcome, l: Location, found: seq<FoundFolder>) {
    && (forall f :: f in found ==> Settled(start, files, r, f, l.At(f)))
    && (r.failed == [] ==> forall f :: f in found && f.folder.countsAsData ==> IsWholeAt(files, f.tree, l.At(f)))
  }

  lemma AllWhole(start: Files, files: Files, l: Location, found: seq<FoundFolder>, r: Outcome)
    requires WellFormed(start) && Kept(start, files) && FromFound(start, files, l, found) && Distinct(found)
    requires forall f :: f in found ==> f.folder in OLD_FOLDERS && f.tree.Folder?
    requires !DataBeside(start, l, |OLD_FOLDERS|)
    requires forall f :: f in found ==> Settled(start, files, r, f, l.At(f))
    ensures AllSettled(start, files, r, l, found)
  {
    hide CopiedOrReported, FromFound, WellFormed, DataBeside, HoldsAnything, IsWholeAt, OLD_FOLDERS, Location.At;
    hide Distinct;
    forall f | f in found && f.folder.countsAsData && r.failed == [] ensures IsWholeAt(files, f.tree, l.At(f)) {
      var j :| 0 <= j < |found| && found[j] == f;
      assert Settled(start, files, r, f, l.At(f));
      NothingBeside(start, l, f);
      WholeWhereNothingWas(start, files, l, found, j);
    }
  }

  /** The marker is beside all that was copied. */
  lemma MarkerLeavesCopies(start: Files, files: Files, after: Files, r: Outcome, r': Outcome, l: Location,
                           found: seq<FoundFolder>)
    requires AllSettled(start, files, r, l, found) && Adds(r, r')
    requires forall f :: f in found ==> l.At(f) != l.Marker()
    requires Kept(files, after) && forall p :: p in after && p !in files ==> p == l.Marker()
    ensures AllSettled(start, after, r', l, found)
  {
    hide Settled, IsWholeAt;
    forall f | f in found ensures Settled(start, after, r', f, l.At(f)) {
      MarkerBesideFolder(files, after, l, f);
      SettledStays(start, files, after, r, r', f, l.At(f));
    }
    forall f | f in found && f.folder.countsAsData && r'.failed == [] ensures IsWholeAt(after, f.tree, l.At(f)) {
      NothingIn(r.failed, r'.failed);
      WholeStays(files, after, f.tree, l.At(f), l.Marker());
    }
  }

  lemma NothingIn(some: seq<Path>, all: seq<Path>)
    requires AllIn(some, all)
    ensures all == [] ==> some == []
  {
    if some != [] { assert some[0] in all; }
  }

  lemma MarkerBesideFolder(files: Files, after: Files, l: Location, f: FoundFolder)
    requires l.At(f) != l.Marker() && forall p :: p in after && p !in files ==> p == l.Marker()
    ensures Untouched(files, after, l.At(f))
  {
  }

  lemma WholeStays(files: Files, after: Files, t: Tree, to: Path, marker: Path)
    requires IsWholeAt(files, t, to) && |marker| == |to| && marker != to
    requires Kept(files, after) && forall p :: p in after && p !in files ==> p == marker
    ensures IsWholeAt(after, t, to)
  {
    hide NodeAt;
    forall below ensures to + below != marker { assert (to + below)[..|to|] == to; }
  }

  /** What one run leaves, whatever fails and wherever it ends. */
  ghost predicate RunKeeps(l: Location, before: Files, after: Files) {
    && Kept(before, after) && WellFormed(after)
    && (!Looks(l, before) ==> after == before)
    && (DataBeside(before, l, |OLD_FOLDERS|) ==> forall p :: p in after ==> p in before || p == l.Marker())
    && PluginsUntouched(before, after, l.Plugins())
  }

  /** Whether a run goes as far as copying, or saying why it does not. */
  predicate Looks(l: Location, files: Files) { l.portable && !l.isolated && l.Marker() !in files }

  /** All of the tree is there. */
  ghost predicate HasTree(files: Files, t: Tree, to: Path) {
    forall below :: NodeAt(t, below).Some? ==> Has(files, to + below, NodeAt(t, below).value)
  }

  ghost predicate AllThere(files: Files, l: Location, found: seq<FoundFolder>) {
    forall f :: f in found ==> HasTree(files, f.tree, l.At(f))
  }

  /** Each of the plugins is not there at all, or all of it is. */
  ghost predicate NoneHalfThere(files: Files, t: Tree, to: Path)
    requires t.Folder?
  {
    forall e :: e in t.entries ==> to + [e.name] !in files || HasTree(files, e.tree, to + [e.name])
  }

  /** What is beside the executable lets a run copy all that is missing. */
  ghost predicate CanComplete(files: Files, l: Location, found: seq<FoundFolder>) {
    && Looks(l, files) && !DataBeside(files, l, |OLD_FOLDERS|)
    && forall f :: f in found && !f.folder.countsAsData ==> f.tree.Folder? && NoneHalfThere(files, f.tree, l.At(f))
  }

  lemma TreeStays(before: Files, after: Files, t: Tree, to: Path)
    requires HasTree(before, t, to) && Kept(before, after)
    ensures HasTree(after, t, to)
  {
    hide NodeAt;
  }

  lemma TreeWasThere(before: Files, after: Files, t: Tree, to: Path)
    requires HasTree(after, t, to) && Kept(before, after) && Untouched(before, after, to)
    ensures HasTree(before, t, to)
  {
    hide NodeAt;
    forall below | NodeAt(t, below).Some? ensures Has(before, to + below, NodeAt(t, below).value) {
      assert to <= to + below;
    }
  }

  lemma NoFailureMeansAll(files: Files, t: Tree, to: Path)
    ensures CopiedOrReported(files, [], t, to) <==> HasTree(files, t, to)
  {
    hide NodeAt;
  }

  lemma TreeOfEntry(files: Files, t: Tree, to: Path, e: Entry)
    requires WellNamed(t) && t.Folder? && e in t.entries && HasTree(files, t, to)
    ensures HasTree(files, e.tree, to + [e.name])
  {
    var k :| 0 <= k < |t.entries| && t.entries[k] == e;
    hide NodeAt, WellNamed;
    forall below | NodeAt(e.tree, below).Some? ensures Has(files, to + [e.name] + below, NodeAt(e.tree, below).value) {
      ChildNode(t, k, below);
      assert to + ([e.name] + below) == to + [e.name] + below;
    }
  }

  /** A folder settled without a failure is there, whole or with the plugins that were there. */
  lemma SettledIsThereIff(start: Files, files: Files, r: Outcome, f: FoundFolder, to: Path)
    requires WellNamed(f.tree) && f.tree.Folder? && Kept(start, files)
    requires Settled(start, files, r, f, to) && r.failed == []
    ensures f.folder.countsAsData ==> HasTree(files, f.tree, to)
    ensures !f.folder.countsAsData ==> (HasTree(files, f.tree, to) <==> NoneHalfThere(start, f.tree, to))
  {
    hide CopiedOrReported, HasTree, NodeAt, WellNamed;
    if f.folder.countsAsData {
      NoFailureMeansAll(files, f.tree, to);
    } else {
      assert PluginsSettled(start, files, r, f.tree, to);
      if HasTree(files, f.tree, to) {
        forall e | e in f.tree.entries && to + [e.name] in start ensures HasTree(start, e.tree, to + [e.name]) {
          assert PluginSettled(start, files, r, e, to + [e.name]);
          TreeOfEntry(files, f.tree, to, e);
          TreeWasThere(start, files, e.tree, to + [e.name]);
        }
      }
      if NoneHalfThere(start, f.tree, to) {
        forall e | e in f.tree.entries ensures CopiedOrReported(files, [], e.tree, to + [e.name]) {
          assert PluginSettled(start, files, r, e, to + [e.name]);
          if to + [e.name] in start { TreeStays(start, files, e.tree, to + [e.name]); }
          NoFailureMeansAll(files, e.tree, to + [e.name]);
        }
        AllChildrenCopied(files, [], f.tree, to);
        NoFailureMeansAll(files, f.tree, to);
      }
    }
  }

  /** Copying with nothing beside: everything is there in the end exactly when no plugin was half
      there at the start. */
  lemma CopiedIsThereIff(start: Files, files: Files, r: Outcome, l: Location, found: seq<FoundFolder>)
    requires forall f :: f in found ==> WellNamed(f.tree) && f.tree.Folder?
    requires Kept(start, files) && AllSettled(start, files, r, l, found) && r.failed == []
    requires Looks(l, start) && !DataBeside(start, l, |OLD_FOLDERS|)
    ensures AllThere(files, l, found) <==> CanComplete(start, l, found)
    ensures AllThere(start, l, found) ==> AllThere(files, l, found)
  {
    hide Settled, HasTree, NoneHalfThere, WellNamed, DataBeside, Looks, IsWholeAt;
    forall f | f in found
      ensures f.folder.countsAsData ==> HasTree(files, f.tree, l.At(f))
      ensures !f.folder.countsAsData ==> (HasTree(files, f.tree, l.At(f)) <==> NoneHalfThere(start, f.tree, l.At(f)))
    {
      SettledIsThereIff(start, files, r, f, l.At(f));
    }
    if AllThere(start, l, found) {
      forall f | f in found ensures HasTree(files, f.tree, l.At(f)) { TreeStays(start, files, f.tree, l.At(f)); }
    }
  }

  /** Where only the marker is new, what is there and what is not stays so. */
  lemma MarkerChangesNothing(start: Files, files: Files, l: Location, found: seq<FoundFolder>)
    requires Kept(start, files) && forall p :: p in files && p !in start ==> p == l.Marker()
    requires forall f :: f in found ==> l.At(f) != l.Marker()
    ensures AllThere(files, l, found) <==> AllThere(start, l, found)
  {
    hide HasTree;
    forall f | f in found ensures HasTree(files, f.tree, l.At(f)) <==> HasTree(start, f.tree, l.At(f)) {
      MarkerBesideFolder(start, files, l, f);
      if HasTree(files, f.tree, l.At(f)) { TreeWasThere(start, files, f.tree, l.At(f)); }
      if HasTree(start, f.tree, l.At(f)) { TreeStays(start, files, f.tree, l.At(f)); }
    }
  }

  // ---------- The take-over ----------

  /** The folders to take over, and whether data is beside the executable. */
  method LookForOldFolders(l: Location, data: Option<OldDirectory>, config: Option<OldDirectory>, disk: Disk)
      returns (found: seq<FoundFolder>, dataBeside: bool)
    ensures found == Found(l, data, config, |OLD_FOLDERS|)
    ensures dataBeside <==> DataBeside(disk.files, l, |OLD_FOLDERS|)
  {
    hide OLD_FOLDERS, HoldsAnything, Found, FoundIn, DataBeside;
    found, dataBeside := [], false;
    NothingLookedAt(disk.files, l, data, config);
    for n := 0 to |OLD_FOLDERS|
      invariant found == Found(l, data, config, n) && (dataBeside <==> DataBeside(disk.files, l, n))
    {
      var folder := OLD_FOLDERS[n];
      NextFolder(disk.files, l, data, config, n);
      dataBeside := dataBeside || (folder.countsAsData && HoldsAnything(disk.files, l.beside + [folder.name]));
      found := found + FoundIn(l, if folder.inConfigLocation then config else data, folder);
    }
  }

  lemma NothingLookedAt(files: Files, l: Location, data: Option<OldDirectory>, config: Option<OldDirectory>)
    ensures Found(l, data, config, 0) == [] && !DataBeside(files, l, 0)
  {
  }

  lemma NextFolder(files: Files, l: Location, data: Option<OldDirectory>, config: Option<OldDirectory>, n: nat)
    requires n < |OLD_FOLDERS|
    ensures var folder := OLD_FOLDERS[n];
            && Found(l, data, config, n + 1)
               == Found(l, data, config, n) + FoundIn(l, if folder.inConfigLocation then config else data, folder)
            && (DataBeside(files, l, n + 1) <==>
                DataBeside(files, l, n) || (folder.countsAsData && HoldsAnything(files, l.beside + [folder.name])))
  {
    hide OLD_FOLDERS, HoldsAnything, FoundIn;
  }

  lemma NothingNew(files: Files, l: Location, found: seq<FoundFolder>)
    ensures FromFound(files, files - {l.Marker()}, l, found) && FailedBlocked(files, l, found, [])
    ensures PluginsUntouched(files, files, l.Plugins())
  {
  }

  lemma NewButMarker(start: Files, copied: Files, after: Files, l: Location, found: seq<FoundFolder>)
    requires FromFound(start, copied, l, found) && Kept(copied, after)
    requires forall p :: p in after && p !in copied ==> p == l.Marker()
    ensures FromFound(start, after - {l.Marker()}, l, found)
  {
    hide Comes;
  }

  /** Nothing is added to the plugins that were there, whether or not there are old ones. */
  lemma ProgressKeepsPlugins(start: Files, copied: Files, after: Files, l: Location, found: seq<FoundFolder>)
    requires Progress(start, copied, l, found) && forall f :: f in found ==> f.folder in OLD_FOLDERS
    requires Kept(copied, after) && forall p :: p in after && p !in copied ==> p == l.Marker()
    ensures PluginsUntouched(start, after, l.Plugins())
  {
    hide FromFound, OLD_FOLDERS;
    OldFoldersDistinct();
    assert l.Plugins()[|l.beside|] != l.Marker()[|l.beside|];
    if f :| f in found && l.At(f) == l.Plugins() {
      assert l.At(f)[|l.beside|] == f.folder.name;
      PluginsStayUntouched(start, copied, after, l.Plugins());
    } else {
      OthersUntouched(start, copied, l, found, l.Plugins());
      UntouchedBoth(start, copied, after, l.Plugins());
      NothingNew(start, l, found);
      PluginsStayUntouched(start, start, after, l.Plugins());
    }
  }

  method TakeOverOldPortableData(l: Location, data: Option<OldDirectory>, config: Option<OldDirectory>,
                                 text: string, disk: Disk) returns (r: Outcome)
    requires WellFormed(disk.files) && IsFolder(disk.files, l.beside)
    requires AllWellNamed(data) && AllWellNamed(config) && !disk.ended
    modifies disk
    ensures RunKeeps(l, old(disk.files), disk.files)
    // what is new is the marker or comes from the old folders
    ensures FromFound(old(disk.files), disk.files - {l.Marker()}, l, Found(l, data, config, |OLD_FOLDERS|))
    // a run that comes to its end leaves nothing out without saying so
    ensures var found := Found(l, data, config, |OLD_FOLDERS|);
            Looks(l, old(disk.files)) && found != [] && !disk.ended ==>
              && (l.Marker() in disk.files || l.Marker() in r.failed)
              && if DataBeside(old(disk.files), l, |OLD_FOLDERS|) then r.copied == [] && r.skipped == Places(l, found)
                 else AllSettled(old(disk.files), disk.files, r, l, found)
    // a failure has its cause: the disk, or something that was in the way
    ensures !disk.ended && disk.faults == old(disk.faults) ==>
              FailedBlocked(old(disk.files), l, Found(l, data, config, |OLD_FOLDERS|), r.failed)
    // without a failure all old folders are there in the end exactly when they were before, or
    // there was no data beside the executable and no plugin half there
    ensures var found := Found(l, data, config, |OLD_FOLDERS|);
            !disk.ended && r.failed == [] ==>
              (AllThere(disk.files, l, found) <==>
               AllThere(old(disk.files), l, found) || CanComplete(old(disk.files), l, found))
  {
    hide OLD_FOLDERS, WellFormed, WellNamed, FromFound, Settled, AllSettled, HoldsAnything, Location.At;
    hide Location.Marker;
    hide DataBeside, Found, HasTree, AllThere, CanComplete, FailedBlocked, PluginsUntouched, Distinct;
    hide Location.Plugins, Progress;
    r := Outcome([], [], []);
    ghost var start := disk.files;
    ghost var all := Found(l, data, config, |OLD_FOLDERS|);
    NothingNew(start, l, all);
    CannotLook(start, l, all);
    if !l.portable || l.isolated || l.Marker() in disk.files { return; }
    var found, dataBeside := LookForOldFolders(l, data, config, disk);
    if found == [] {
      NothingFound(start, l);
      return;
    }

    FoundDistinct(l, data, config, |OLD_FOLDERS|);
    FoundWellNamed(l, data, config, |OLD_FOLDERS|);
    r := CopyAllFound(l, found, dataBeside, disk);
    ghost var copied, before := disk.files, r;
    ProgressMeans(start, copied, l, found);
    if !dataBeside && !disk.ended { AllWhole(start, copied, l, found, r); }
    MarkerIsNew(start, copied, l, data, config);
    MarkerBeside(disk, l);
    var written := disk.WriteText(l.Marker(), text);
    if !written { r := r.(failed := r.failed + [l.Marker()]); }
    ProgressKeepsPlugins(start, copied, disk.files, l, found);
    NewButMarker(start, copied, disk.files, l, found);
    if !disk.ended {
      if dataBeside {
        MarkerChangesNothing(start, disk.files, l, found);
        DataIsInTheWay(start, l, found);
      } else {
        MarkerLeavesCopies(start, copied, disk.files, before, r, l, found);
        if r.failed == [] { CopiedIsThereIff(start, disk.files, r, l, found); }
      }
    }
  }

  lemma ProgressMeans(start: Files, copied: Files, l: Location, found: seq<FoundFolder>)
    requires Progress(start, copied, l, found)
    ensures Kept(start, copied) && FromFound(start, copied, l, found)
  {
  }

  lemma CannotLook(files: Files, l: Location, found: seq<FoundFolder>)
    ensures !Looks(l, files) ==> !CanComplete(files, l, found)
  {
  }

  lemma DataIsInTheWay(files: Files, l: Location, found: seq<FoundFolder>)
    requires DataBeside(files, l, |OLD_FOLDERS|)
    ensures !CanComplete(files, l, found)
  {
  }

  lemma NothingFound(files: Files, l: Location)
    ensures AllThere(files, l, [])
  {
  }
}
