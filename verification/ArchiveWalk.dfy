/** Which files an archive puts where (src/compression/src/archiveextraction.cpp): the
    recursive definition, and what keeps every path inside the folder. */
module ArchiveWalk {
  import opened Options
  import opened Bytes
  import opened Texts

  // ---------- Paths ----------

  /** Whether `path` is `folder` or below it. */
  predicate IsInside(path: string, folder: string) {
    var prefix := if folder != "" && folder[|folder| - 1] == '/' then folder else folder + "/";
    path == folder || prefix <= path
  }

  predicate IsPlainName(name: string) {
    name != "" && name != "." && name != ".." && '/' !in name && '\\' !in name
  }

  /** The parts of a path between its slashes. */
  function Components(path: string): (parts: seq<string>) { Split(path, '/') }

  lemma ComponentsDetermine(a: string, b: string)
    requires Components(a) == Components(b)
    ensures a == b
  {
    SplitRejoins(a, '/');
    SplitRejoins(b, '/');
  }

  /** Inside means by whole components: `/tmp/destX` is not below `/tmp/dest`. */
  lemma InsideByComponents(path: string, folder: string)
    requires folder != "" && folder[|folder| - 1] != '/'
    ensures IsInside(path, folder) <==> Components(folder) <= Components(path)
  {
    if path != folder && folder + "/" <= path {
      var rest := path[|folder| + 1..];
      assert path == folder + "/" + rest;
      SplitOfJoined(folder, rest, '/');
    }
    if Components(folder) <= Components(path) {
      var n := |Components(folder)|;
      if n == |Components(path)| {
        assert Components(folder) == Components(path);
        ComponentsDetermine(folder, path);
      } else {
        SplitAfter(path, n);
        var head, tail := HeadPath(path, n), TailPath(path, n);
        assert Components(head) == Components(folder);
        ComponentsDetermine(head, folder);
        assert folder + "/" <= path;
      }
    }
  }

  /** The path's first `n` components, and the rest. */
  function HeadPath(path: string, n: nat): string
    requires 0 < n < |Components(path)|
  {
    if path[0] == '/' then (if n == 1 then "" else "/" + HeadPath(path[1..], n - 1))
    else [path[0]] + HeadPath(path[1..], n)
  }

  function TailPath(path: string, n: nat): string
    requires 0 < n < |Components(path)|
  {
    if path[0] == '/' then (if n == 1 then path[1..] else TailPath(path[1..], n - 1))
    else TailPath(path[1..], n)
  }

  lemma {:induction false} SplitAfter(path: string, n: nat)
    requires 0 < n < |Components(path)|
    ensures path == HeadPath(path, n) + "/" + TailPath(path, n)
    ensures Components(HeadPath(path, n)) == Components(path)[..n]
    decreases |path|
  {
    var head, tail := HeadPath(path, n), TailPath(path, n);
    var parts := Components(path[1..]);
    if path[0] != '/' {
      SplitAfter(path[1..], n);
      assert head[1..] == HeadPath(path[1..], n);
      assert path == [path[0]] + path[1..];
      assert Components(head) == [[path[0]] + parts[..n][0]] + parts[..n][1..];
    } else if n == 1 {
      assert path == "" + "/" + path[1..];
    } else {
      SplitAfter(path[1..], n - 1);
      assert head[1..] == HeadPath(path[1..], n - 1);
      assert Components(path)[..n] == [""] + parts[..n - 1];
      assert path == ['/'] + path[1..];
    }
  }

  // ---------- Archives ----------

  /** A file's size in the archive's headers, its data, and where the data lies. */
  datatype ArchiveFile = ArchiveFile(size: nat, data: bytes, position: int)

  datatype Entries = NoEntries | More(name: string, entry: Option<Entry>, rest: Entries)

  /** An entry is a link as soon as it has a target. */
  datatype Entry = Entry(symLinkTarget: string, kind: Kind)
  datatype Kind = Directory(entries: Entries) | File(file: ArchiveFile) | Other

  /** The folder's surroundings, as they were before: which paths are links, and what a path
      resolves to. */
  datatype World = World(links: set<string>, canonical: string -> string)

  datatype PendingFile = PendingFile(file: ArchiveFile, path: string)
  datatype PendingDirectory = PendingDirectory(entries: Entries, path: string)

  /** What becomes of one entry of a directory at `path`. */
  datatype Verdict = Skip | Descend(directory: PendingDirectory) | Keep(file: PendingFile)

  function Judge(w: World, folder: string, path: string, name: string, entry: Option<Entry>): Verdict {
    if entry.None? || !IsPlainName(name) || entry.value.symLinkTarget != "" then Skip
    else
      var p := path + "/" + name;
      match entry.value.kind
      case Directory(entries) =>
        if p in w.links || !IsInside(w.canonical(p), folder) then Skip
        else Descend(PendingDirectory(entries, w.canonical(p)))
      case File(f) => Keep(PendingFile(f, p))
      case Other => Skip
  }

  /** The files below a directory, by recursion. */
  function Walk(w: World, folder: string, path: string, entries: Entries): seq<PendingFile>
    decreases entries
  {
    match entries
    case NoEntries => []
    case More(name, entry, rest) =>
      (match Judge(w, folder, path, name, entry)
       case Skip => []
       case Keep(f) => [f]
       case Descend(d) => Walk(w, folder, d.path, d.entries)) + Walk(w, folder, path, rest)
  }

  function Size(entries: Entries): (n: nat)
    ensures n > 0
    decreases entries
  {
    match entries
    case NoEntries => 1
    case More(name, entry, rest) =>
      (if entry.Some? && entry.value.kind.Directory? then Size(entry.value.kind.entries) else 0) + Size(rest) + 1
  }

  /** Every file found is put into a directory inside the folder, under a plain name. */
  ghost predicate PlacedInside(f: PendingFile, folder: string) {
    exists dir, name :: IsInside(dir, folder) && IsPlainName(name) && f.path == dir + "/" + name
  }

  lemma {:induction false} WalkStaysInside(w: World, folder: string, path: string, entries: Entries)
    requires IsInside(path, folder)
    ensures forall f :: f in Walk(w, folder, path, entries) ==> PlacedInside(f, folder)
    decreases entries
  {
    match entries {
      case NoEntries =>
      case More(name, entry, rest) =>
        WalkStaysInside(w, folder, path, rest);
        var v := Judge(w, folder, path, name, entry);
        if v.Descend? { WalkStaysInside(w, folder, v.directory.path, v.directory.entries); }
        else if v.Keep? { assert v.file.path == path + "/" + name; }
    }
  }

  /** So every path written is the folder's canonical path and at least one more component. */
  lemma PlacedBelow(f: PendingFile, folder: string)
    requires PlacedInside(f, folder) && folder != "" && folder[|folder| - 1] != '/'
    ensures Components(folder) < Components(f.path)
    ensures IsPlainName(Components(f.path)[|Components(f.path)| - 1])
  {
    var dir, name :| IsInside(dir, folder) && IsPlainName(name) && f.path == dir + "/" + name;
    InsideByComponents(dir, folder);
    SplitOfJoined(dir, name, '/');
    SplitOfOne(name, '/');
  }
}
