/** Copying files, links and whole folders over nothing that is there
    (src/datalocation/src/datalocation.cpp, copyEntry). */
module CopyingOver {
  import opened Options

  type Path = seq<string>

  // ---------- What is copied ----------

  datatype Tree = LinkTo(target: string) | Document(data: string) | Folder(entries: seq<Entry>)

  datatype Entry = Entry(name: string, tree: Tree)

  datatype Node = LinkNode(target: string) | FileNode(data: string) | FolderNode

  /** No two entries of a folder have one name. */
  predicate WellNamed(t: Tree) {
    t.Folder? ==>
      && (forall i, j :: 0 <= i < j < |t.entries| ==> t.entries[i].name != t.entries[j].name)
      && forall e :: e in t.entries ==> WellNamed(e.tree)
  }

  function NodeOf(t: Tree): Node {
    match t
    case LinkTo(target) => LinkNode(target)
    case Document(data) => FileNode(data)
    case Folder(_) => FolderNode
  }

  function Child(entries: seq<Entry>, name: string): (r: Option<Tree>)
    ensures r.Some? ==> Entry(name, r.value) in entries
  {
    if entries == [] then None
    else if entries[0].name == name then Some(entries[0].tree)
    else Child(entries[1..], name)
  }

  /** What a tree holds at a path below it. */
  function NodeAt(t: Tree, below: Path): Option<Node>
    decreases |below|
  {
    if below == [] then Some(NodeOf(t))
    else if !t.Folder? then None
    else
      var child := Child(t.entries, below[0]);
      if child.None? then None else NodeAt(child.value, below[1..])
  }

  lemma {:induction false} ChildFound(entries: seq<Entry>, i: nat)
    requires i < |entries| && forall i, j :: 0 <= i < j < |entries| ==> entries[i].name != entries[j].name
    ensures Child(entries, entries[i].name) == Some(entries[i].tree)
  {
    if i > 0 {
      assert entries[1..][i - 1] == entries[i];
      ChildFound(entries[1..], i - 1);
    }
  }

  // ---------- The disk ----------

  type Files = map<Path, Node>

  predicate IsFolder(files: Files, path: Path) { path in files && files[path] == FolderNode }

  /** What is on a disk is in folders. */
  ghost predicate WellFormed(files: Files) {
    forall p, n :: p in files && 0 < n < |p| ==> IsFolder(files, p[..n])
  }

  predicate HoldsAnything(files: Files, path: Path) {
    IsFolder(files, path) && exists p :: p in files && |path| < |p| && path <= p
  }

  /** Nothing that was there changed. */
  predicate Kept(before: Files, after: Files) {
    forall p :: p in before ==> p in after && after[p] == before[p]
  }

  /** What is new is part of the tree, at its place below the path. */
  ghost predicate OnlyFrom(before: Files, after: Files, t: Tree, to: Path) {
    forall p :: p in after && p !in before ==> to <= p && NodeAt(t, p[|to|..]) == Some(after[p])
  }

  predicate Has(files: Files, path: Path, node: Node) { path in files && files[path] == node }

  predicate Reported(failed: seq<Path>, path: Path) { exists f :: f in failed && f <= path }

  /** Every part of the tree is there, or a failure at it or above it was reported. */
  ghost predicate CopiedOrReported(files: Files, failed: seq<Path>, t: Tree, to: Path) {
    forall below :: NodeAt(t, below).Some? ==>
      Has(files, to + below, NodeAt(t, below).value) || Reported(failed, to + below)
  }

  lemma InFolders(files: Files, path: Path)
    requires WellFormed(files) && path != [] && (|path| == 1 || IsFolder(files, path[..|path| - 1]))
    ensures forall n :: 0 < n < |path| ==> IsFolder(files, path[..n])
  {
    forall n | 0 < n < |path| ensures IsFolder(files, path[..n]) {
      if n < |path| - 1 { assert path[..|path| - 1][..n] == path[..n]; }
    }
  }

  /** The disk beside the executable. Anything on it can fail, and the process can end at any step;
      from then on nothing it does has an effect. */
  class Disk {
    var files: Files
    var ended: bool
    // How often something failed that nothing was in the way of.
    var faults: nat

    constructor (files: Files)
      ensures this.files == files && !ended && faults == 0
    {
      this.files, ended, faults := files, false, 0;
    }

    ghost predicate CanPut(path: Path) reads this {
      path != [] && WellFormed(files) && (ended || |path| == 1 || IsFolder(files, path[..|path| - 1]))
    }

    method Put(path: Path, node: Node) returns (ok: bool)
      requires CanPut(path)
      modifies this
      ensures WellFormed(files)
      ensures Kept(old(files), files) && forall p :: p in files && p !in old(files) ==> p == path && files[p] == node
      ensures old(ended) ==> ended && files == old(files)
      ensures faults >= old(faults)
      ensures ok && !ended ==> path !in old(files) && Has(files, path, node)
      ensures !ok && !ended && faults == old(faults) ==> path in old(files)
    {
      ok := *;
      ok := ok && !ended && path !in files;
      if ok {
        InFolders(files, path);
        files := files[path := node];
      } else {
        if path !in files { faults := faults + 1; }
      }
      if * { ended := true; }
    }

    /** Opens a new file and writes to it. */
    method WriteText(path: Path, text: string) returns (written: bool)
      requires CanPut(path)
      modifies this
      ensures WellFormed(files)
      ensures Kept(old(files), files) && forall p :: p in files && p !in old(files) ==> p == path
      ensures old(ended) ==> ended && files == old(files)
      ensures faults >= old(faults)
      ensures written && !ended ==> path in files
      ensures !written && !ended && faults == old(faults) ==> path in old(files)
    {
      var made := Put(path, FileNode(text));
      written := *;
      written := written && made;
      if made && !written { faults := faults + 1; }
    }

    method MakeFolder(path: Path) returns (ok: bool)
      requires CanPut(path)
      modifies this
      ensures WellFormed(files)
      ensures Kept(old(files), files) && forall p :: p in files && p !in old(files) ==>
                p == path && files[p] == FolderNode
      ensures old(ended) ==> ended && files == old(files)
      ensures faults >= old(faults)
      ensures ok && !ended ==> IsFolder(files, path)
      ensures !ok && !ended && faults == old(faults) ==> path in old(files) && old(files)[path] != FolderNode
    {
      if IsFolder(files, path) { return true; }
      ok := Put(path, FolderNode);
    }
  }

  // ---------- Copying ----------

  /** Nothing is new at the path or below it. */
  predicate Untouched(before: Files, after: Files, at: Path) {
    forall p :: p in after && at <= p ==> p in before
  }

  /** Something is in the way of a part of the tree. Two folders are in nobody's way. */
  predicate Blocked(files: Files, t: Tree, to: Path, path: Path) {
    && to <= path && path in files && NodeAt(t, path[|to|..]).Some?
    && !(files[path] == FolderNode && NodeAt(t, path[|to|..]).value == FolderNode)
  }

  ghost predicate AllBlocked(files: Files, t: Tree, to: Path, failed: seq<Path>) {
    forall f :: f in failed ==> Blocked(files, t, to, f)
  }

  lemma RootOnly(before: Files, after: Files, t: Tree, to: Path)
    requires forall p :: p in after && p !in before ==> p == to && after[p] == NodeOf(t)
    ensures OnlyFrom(before, after, t, to)
  {
    assert to[|to|..] == [];
  }

  lemma RootCopied(files: Files, failed: seq<Path>, t: Tree, to: Path)
    requires to in failed || (!t.Folder? && to in files && files[to] == NodeOf(t))
    ensures CopiedOrReported(files, failed, t, to)
  {
    forall below | NodeAt(t, below).Some?
      ensures Has(files, to + below, NodeAt(t, below).value) || Reported(failed, to + below)
    {
      assert to <= to + below;
      if below == [] { assert to + below == to; }
    }
  }

  lemma RootBlocked(files: Files, t: Tree, to: Path)
    requires to in files && !(files[to] == FolderNode && t.Folder?)
    ensures AllBlocked(files, t, to, [to])
  {
    assert to[|to|..] == [];
  }

  lemma ChildNode(t: Tree, i: nat, below: Path)
    requires WellNamed(t) && t.Folder? && i < |t.entries|
    ensures NodeAt(t, [t.entries[i].name] + below) == NodeAt(t.entries[i].tree, below)
  {
    ChildFound(t.entries, i);
    assert ([t.entries[i].name] + below)[1..] == below;
  }

  lemma ChildPath(t: Tree, i: nat, to: Path, p: Path)
    requires WellNamed(t) && t.Folder? && i < |t.entries| && to + [t.entries[i].name] <= p
    ensures to <= p && NodeAt(t, p[|to|..]) == NodeAt(t.entries[i].tree, p[|to| + 1..])
  {
    hide NodeAt, WellNamed;
    assert p[..|to|] == (to + [t.entries[i].name])[..|to|] == to;
    ChildNode(t, i, p[|to| + 1..]);
    assert p[|to|..] == [t.entries[i].name] + p[|to| + 1..];
  }

  lemma ChildOnly(before: Files, after: Files, t: Tree, i: nat, to: Path)
    requires WellNamed(t) && t.Folder? && i < |t.entries|
    requires OnlyFrom(before, after, t.entries[i].tree, to + [t.entries[i].name])
    ensures OnlyFrom(before, after, t, to)
  {
    hide NodeAt, WellNamed;
    forall p | p in after && p !in before ensures to <= p && NodeAt(t, p[|to|..]) == Some(after[p]) {
      ChildPath(t, i, to, p);
    }
  }

  lemma ChildBlocked(before: Files, now: Files, t: Tree, i: nat, to: Path, failed: seq<Path>)
    requires WellNamed(t) && t.Folder? && i < |t.entries|
    requires AllBlocked(now, t.entries[i].tree, to + [t.entries[i].name], failed)
    requires Kept(before, now) && Untouched(before, now, to + [t.entries[i].name])
    ensures AllBlocked(before, t, to, failed)
  {
    hide NodeAt, WellNamed;
    forall f | f in failed ensures Blocked(before, t, to, f) { ChildPath(t, i, to, f); }
  }

  lemma OnlyFromBoth(before: Files, middle: Files, after: Files, t: Tree, to: Path)
    requires OnlyFrom(before, middle, t, to) && OnlyFrom(middle, after, t, to) && Kept(middle, after)
    ensures OnlyFrom(before, after, t, to)
  {
    hide NodeAt;
  }

  predicate AllIn(some: seq<Path>, all: seq<Path>) { forall p :: p in some ==> p in all }

  lemma StillCopied(before: Files, after: Files, failedBefore: seq<Path>, failed: seq<Path>, t: Tree, to: Path)
    requires CopiedOrReported(before, failedBefore, t, to) && Kept(before, after) && AllIn(failedBefore, failed)
    ensures CopiedOrReported(after, failed, t, to)
  {
    hide NodeAt;
    forall below | NodeAt(t, below).Some?
      ensures Has(after, to + below, NodeAt(t, below).value) || Reported(failed, to + below)
    {
      if Reported(failedBefore, to + below) {
        var f :| f in failedBefore && f <= to + below;
        assert f in failed;
      }
    }
  }

  lemma AllChildrenCopied(files: Files, failed: seq<Path>, t: Tree, to: Path)
    requires WellNamed(t) && t.Folder? && IsFolder(files, to)
    requires forall e :: e in t.entries ==> CopiedOrReported(files, failed, e.tree, to + [e.name])
    ensures CopiedOrReported(files, failed, t, to)
  {
    hide Reported, WellNamed, Has;
    forall below | NodeAt(t, below).Some?
      ensures Has(files, to + below, NodeAt(t, below).value) || Reported(failed, to + below)
    {
      if below == [] {
        assert to + below == to;
        assert Has(files, to, FolderNode) by { FolderIsThere(files, to); }
      } else {
        var child := Child(t.entries, below[0]);
        var e := Entry(below[0], child.value);
        assert e in t.entries && CopiedOrReported(files, failed, e.tree, to + [e.name]);
        assert to + [below[0]] + below[1..] == to + below;
        assert NodeAt(t, below) == NodeAt(e.tree, below[1..]);
      }
    }
  }

  lemma FolderIsThere(files: Files, to: Path)
    requires IsFolder(files, to)
    ensures Has(files, to, FolderNode)
  {
  }

  /** The entries of a folder copied up to one of them: nothing is new below those still to come
      nor, where what is there is kept, below those that were there. */
  ghost predicate CopiedUpTo(before: Files, now: Files, t: Tree, to: Path, i: nat, keep: bool)
    requires t.Folder?
  {
    && Kept(before, now) && OnlyFrom(before, now, t, to)
    && forall k :: 0 <= k < |t.entries| && (i <= k || (keep && to + [t.entries[k].name] in before)) ==>
         Untouched(before, now, to + [t.entries[k].name])
  }

  lemma CopiedNext(before: Files, was: Files, now: Files, t: Tree, to: Path, i: nat, keep: bool)
    requires WellNamed(t) && t.Folder? && i < |t.entries| && CopiedUpTo(before, was, t, to, i, keep)
    requires Kept(was, now) && OnlyFrom(was, now, t.entries[i].tree, to + [t.entries[i].name])
    requires keep ==> to + [t.entries[i].name] !in before
    ensures CopiedUpTo(before, now, t, to, i + 1, keep)
  {
    ChildOnly(was, now, t, i, to);
    OnlyFromBoth(before, was, now, t, to);
    hide NodeAt;
    var at := to + [t.entries[i].name];
    forall k | 0 <= k < |t.entries| && (i + 1 <= k || (keep && to + [t.entries[k].name] in before))
      ensures Untouched(before, now, to + [t.entries[k].name])
    {
      var other := to + [t.entries[k].name];
      assert k != i && t.entries[k].name != t.entries[i].name;
      assert other[|to|] != at[|to|];
      BesideUntouched(was, now, t.entries[i].tree, at, other);
      UntouchedBoth(before, was, now, other);
    }
  }

  lemma UntouchedBoth(before: Files, middle: Files, after: Files, at: Path)
    requires Untouched(before, middle, at) && Untouched(middle, after, at)
    ensures Untouched(before, after, at)
  {
  }

  /** Copying to a path touches nothing below another one as long. */
  lemma BesideUntouched(before: Files, after: Files, t: Tree, to: Path, other: Path)
    requires OnlyFrom(before, after, t, to) && |other| == |to| && other != to
    ensures Untouched(before, after, other)
  {
    hide NodeAt;
    forall p | p in after && p !in before ensures !(other <= p) { assert p[..|to|] == to; }
  }

  /** Copies a file, a link or a whole folder, over nothing. */
  method CopyEntry(from: Tree, to: Path, disk: Disk) returns (failed: seq<Path>)
    requires WellNamed(from) && disk.CanPut(to)
    modifies disk
    ensures WellFormed(disk.files)
    ensures Kept(old(disk.files), disk.files) && OnlyFrom(old(disk.files), disk.files, from, to)
    ensures old(disk.ended) ==> disk.ended && disk.files == old(disk.files)
    ensures disk.faults >= old(disk.faults)
    ensures !disk.ended ==> CopiedOrReported(disk.files, failed, from, to)
    // a failure has its cause: the disk, or something that was in the way
    ensures !disk.ended && disk.faults == old(disk.faults) ==> AllBlocked(old(disk.files), from, to, failed)
    decreases from
  {
    hide NodeAt, OnlyFrom, WellFormed, CopiedOrReported, Has, Reported, AllBlocked, CopiedUpTo;
    failed := [];
    ghost var start := disk.files;
    NoneBlocked(start, from, to);
    if !from.Folder? {
      var ok := disk.Put(to, NodeOf(from));
      if !ok { failed := [to]; }
      RootOnly(start, disk.files, from, to);
      if !disk.ended { PutCopied(start, disk.files, failed, from, to, ok, disk.faults > old(disk.faults)); }
      return;
    }
    var ok := disk.MakeFolder(to);
    RootOnly(start, disk.files, from, to);
    if !ok {
      RootCopied(disk.files, [to], from, to);
      if !disk.ended && disk.faults == old(disk.faults) { RootBlocked(start, from, to); }
      return [to];
    }
    NothingCopied(start, disk.files, from, to);
    for i := 0 to |from.entries|
      invariant WellFormed(disk.files) && CopiedUpTo(start, disk.files, from, to, i, false)
      invariant old(disk.ended) ==> disk.ended && disk.files == start
      invariant disk.faults >= old(disk.faults)
      invariant disk.ended || IsFolder(disk.files, to)
      invariant !disk.ended ==> forall e :: e in from.entries[..i] ==>
                  CopiedOrReported(disk.files, failed, e.tree, to + [e.name])
      invariant !disk.ended && disk.faults == old(disk.faults) ==> AllBlocked(start, from, to, failed)
    {
      var entry := from.entries[i];
      BelowFolder(disk, to, entry.name);
      ghost var was, wasFailed := disk.files, failed;
      assert Kept(start, was) && Untouched(start, was, to + [entry.name]) by {
        NextUntouched(start, was, from, to, i, false);
      }
      var more := CopyEntry(entry.tree, to + [entry.name], disk);
      failed := failed + more;
      CopiedNext(start, was, disk.files, from, to, i, false);
      if !disk.ended {
        FolderStays(was, disk.files, to);
        StillCopied(disk.files, disk.files, more, failed, entry.tree, to + [entry.name]);
        forall e | e in from.entries[..i] ensures CopiedOrReported(disk.files, failed, e.tree, to + [e.name]) {
          StillCopied(was, disk.files, wasFailed, failed, e.tree, to + [e.name]);
        }
        assert from.entries[..i + 1] == from.entries[..i] + [entry];
        if disk.faults == old(disk.faults) {
          ChildBlocked(start, was, from, i, to, more);
          BothBlocked(start, from, to, wasFailed, more);
        }
      }
    }
    assert from.entries[..|from.entries|] == from.entries;
    UpToEnd(start, disk.files, from, to, false);
    if !disk.ended { AllChildrenCopied(disk.files, failed, from, to); }
  }

  lemma NoneBlocked(files: Files, t: Tree, to: Path)
    ensures AllBlocked(files, t, to, [])
  {
  }

  lemma BothBlocked(files: Files, t: Tree, to: Path, a: seq<Path>, b: seq<Path>)
    requires AllBlocked(files, t, to, a) && AllBlocked(files, t, to, b)
    ensures AllBlocked(files, t, to, a + b)
  {
  }

  lemma PutCopied(before: Files, after: Files, failed: seq<Path>, t: Tree, to: Path, ok: bool, faulted: bool)
    requires !t.Folder? && failed == if ok then [] else [to]
    requires ok ==> Has(after, to, NodeOf(t))
    requires !ok && !faulted ==> to in before
    ensures CopiedOrReported(after, failed, t, to)
    ensures !faulted ==> AllBlocked(before, t, to, failed)
  {
    RootCopied(after, failed, t, to);
    if !ok && !faulted { RootBlocked(before, t, to); }
  }

  lemma NothingCopied(before: Files, now: Files, t: Tree, to: Path)
    requires t.Folder? && Kept(before, now) && OnlyFrom(before, now, t, to)
    requires forall p :: p in now && p !in before ==> p == to
    ensures CopiedUpTo(before, now, t, to, 0, false) && CopiedUpTo(before, now, t, to, 0, true)
  {
  }

  lemma NextUntouched(before: Files, now: Files, t: Tree, to: Path, i: nat, keep: bool)
    requires t.Folder? && i < |t.entries| && CopiedUpTo(before, now, t, to, i, keep)
    ensures Kept(before, now) && Untouched(before, now, to + [t.entries[i].name])
  {
  }

  lemma UpToEnd(before: Files, now: Files, t: Tree, to: Path, keep: bool)
    requires t.Folder? && CopiedUpTo(before, now, t, to, |t.entries|, keep)
    ensures Kept(before, now) && OnlyFrom(before, now, t, to)
  {
  }

  lemma FolderStays(before: Files, after: Files, to: Path)
    requires IsFolder(before, to) && Kept(before, after)
    ensures IsFolder(after, to)
  {
  }

  lemma BelowFolder(disk: Disk, to: Path, name: string)
    requires WellFormed(disk.files) && (disk.ended || IsFolder(disk.files, to))
    ensures disk.CanPut(to + [name])
  {
    assert (to + [name])[..|to + [name]| - 1] == to;
  }
}
