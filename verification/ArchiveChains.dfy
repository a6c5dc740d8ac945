/** Which files an archive puts where, said by the names on the way to each of them
    (src/compression/src/archiveextraction.cpp). */
module ArchiveChains {
  import opened Options
  import opened Texts
  import opened ArchiveWalk

  /** A name that adds itself to any path, as one more component, and is no way back up. */
  ghost predicate OneComponent(name: string) {
    && name !in {"", ".", ".."} && '\\' !in name
    && forall dir: string :: Components(dir + "/" + name) == Components(dir) + [name]
  }

  lemma PlainMeansOneComponent(name: string)
    ensures IsPlainName(name) <==> OneComponent(name)
  {
    if '/' !in name {
      forall dir: string ensures Components(dir + "/" + name) == Components(dir) + [name] {
        SplitOfJoined(dir, name, '/');
        SplitOfOne(name, '/');
      }
    }
    if OneComponent(name) {
      assert Components("" + "/" + name) == Components("") + [name];
      PartsHaveNoSeparator("" + "/" + name, '/');
      assert name in Components("" + "/" + name);
    }
  }

  lemma {:induction false} PartsHaveNoSeparator(s: string, sep: char)
    ensures forall part :: part in Split(s, sep) ==> sep !in part
  {
    if s != "" {
      PartsHaveNoSeparator(s[1..], sep);
      var rest := Split(s[1..], sep);
      assert rest[0] in rest;
    }
  }

  /** The folder itself, or its path going on after one slash. */
  ghost predicate IsBelow(path: string, folder: string) {
    var start := if folder != "" && folder[|folder| - 1] == '/' then folder else folder + "/";
    path == folder || exists rest: string :: path == start + rest
  }

  lemma InsideMeansBelow(path: string, folder: string)
    ensures IsInside(path, folder) <==> IsBelow(path, folder)
  {
    var start := if folder != "" && folder[|folder| - 1] == '/' then folder else folder + "/";
    if start <= path { assert path == start + path[|start|..]; }
    if rest: string :| path == start + rest { assert start <= path; }
  }

  predicate InDirectory(name: string, entry: Entry, entries: Entries) {
    entries.More?
    && ((entries.name == name && entries.entry == Some(entry)) || InDirectory(name, entry, entries.rest))
  }

  /** What names lead to: a file, or a directory to make. */
  datatype Goal = FileGoal(file: ArchiveFile) | FolderGoal

  /** The rest of the way, once an entry has the first name: the goal itself, or a directory that
      resolves to a place inside the folder. No link stands in a directory's place on the disk. */
  ghost predicate GoesOn(w: World, folder: string, path: string, entry: Entry, names: seq<string>, goal: Goal)
    requires names != []
    decreases |names|, 0
  {
    var p := path + "/" + names[0];
    && entry.symLinkTarget == ""
    && if |names| == 1 && goal.FileGoal? then entry.kind == File(goal.file)
       else entry.kind.Directory? && p !in w.links
            && (|names| == 1 || (IsBelow(w.canonical(p), folder)
                                 && Leads(w, folder, w.canonical(p), entry.kind.entries, names[1..], goal)))
  }

  /** The names lead from the directory to the goal, each of them one path component, and no entry on
      the way a link. */
  ghost predicate Leads(w: World, folder: string, path: string, entries: Entries, names: seq<string>, goal: Goal)
    decreases |names|, 1
  {
    && names != [] && OneComponent(names[0])
    && exists entry :: InDirectory(names[0], entry, entries) && GoesOn(w, folder, path, entry, names, goal)
  }

  /** Where the names lead to on the disk. */
  function Place(w: World, path: string, names: seq<string>): string
    requires names != []
    decreases |names|
  {
    var p := path + "/" + names[0];
    if |names| == 1 then p else Place(w, w.canonical(p), names[1..])
  }

  ghost predicate Reached(w: World, folder: string, path: string, entries: Entries, goal: Goal, place: string) {
    exists names :: Leads(w, folder, path, entries, names, goal) && Place(w, path, names) == place
  }

  ghost predicate ReachedBy(w: World, folder: string, path: string, name: string, entry: Option<Entry>, goal: Goal,
                            place: string)
  {
    entry.Some? && OneComponent(name)
    && exists names :: names != [] && names[0] == name && GoesOn(w, folder, path, entry.value, names, goal)
                       && Place(w, path, names) == place
  }

  lemma ReachedFirst(w: World, folder: string, path: string, e: Entries, goal: Goal, place: string)
    requires e.More?
    ensures Reached(w, folder, path, e, goal, place) <==>
            ReachedBy(w, folder, path, e.name, e.entry, goal, place) || Reached(w, folder, path, e.rest, goal, place)
  {
    hide GoesOn, OneComponent, Place;
    if Reached(w, folder, path, e, goal, place) {
      var names :| Leads(w, folder, path, e, names, goal) && Place(w, path, names) == place;
      var entry :| InDirectory(names[0], entry, e) && GoesOn(w, folder, path, entry, names, goal);
      if InDirectory(names[0], entry, e.rest) { assert Leads(w, folder, path, e.rest, names, goal); }
    }
    if ReachedBy(w, folder, path, e.name, e.entry, goal, place) {
      var names :| names != [] && names[0] == e.name && GoesOn(w, folder, path, e.entry.value, names, goal)
                   && Place(w, path, names) == place;
      assert InDirectory(names[0], e.entry.value, e);
      assert Leads(w, folder, path, e, names, goal);
    }
    if Reached(w, folder, path, e.rest, goal, place) {
      var names :| Leads(w, folder, path, e.rest, names, goal) && Place(w, path, names) == place;
      var entry :| InDirectory(names[0], entry, e.rest) && GoesOn(w, folder, path, entry, names, goal);
      assert InDirectory(names[0], entry, e);
      assert Leads(w, folder, path, e, names, goal);
    }
  }

  /** The way can end with this entry. */
  ghost predicate EndsAt(w: World, p: string, entry: Entry, goal: Goal) {
    if goal.FileGoal? then entry.kind == File(goal.file) else entry.kind.Directory? && p !in w.links
  }

  /** Or it goes on below it. */
  ghost predicate OpensTo(w: World, folder: string, p: string, entry: Entry) {
    entry.kind.Directory? && p !in w.links && IsBelow(w.canonical(p), folder)
  }

  lemma ReachedByMeans(w: World, folder: string, path: string, name: string, entry: Entry, goal: Goal, place: string)
    ensures var p := path + "/" + name;
            ReachedBy(w, folder, path, name, Some(entry), goal, place) <==>
            && OneComponent(name) && entry.symLinkTarget == ""
            && ((EndsAt(w, p, entry, goal) && place == p)
                || (OpensTo(w, folder, p, entry)
                    && Reached(w, folder, w.canonical(p), entry.kind.entries, goal, place)))
  {
    hide OneComponent, IsBelow;
    var p := path + "/" + name;
    if ReachedBy(w, folder, path, name, Some(entry), goal, place) {
      var names :| names != [] && names[0] == name && GoesOn(w, folder, path, entry, names, goal)
                   && Place(w, path, names) == place;
      if |names| > 1 { assert Leads(w, folder, w.canonical(p), entry.kind.entries, names[1..], goal); }
    }
    if OneComponent(name) && entry.symLinkTarget == "" {
      if EndsAt(w, p, entry, goal) && place == p {
        assert [name] != [] && [name][0] == name && GoesOn(w, folder, path, entry, [name], goal);
        assert Place(w, path, [name]) == place;
      }
      if OpensTo(w, folder, p, entry) && Reached(w, folder, w.canonical(p), entry.kind.entries, goal, place) {
        var rest :| Leads(w, folder, w.canonical(p), entry.kind.entries, rest, goal)
                    && Place(w, w.canonical(p), rest) == place;
        var names := [name] + rest;
        assert names[1..] == rest && names[0] == name && |names| > 1;
        assert GoesOn(w, folder, path, entry, names, goal);
        assert Place(w, path, names) == place;
      }
    }
  }

  ghost predicate FileReached(w: World, folder: string, path: string, entries: Entries, f: PendingFile) {
    Reached(w, folder, path, entries, FileGoal(f.file), f.path)
  }

  /** The files of the walk are exactly those that names lead to, each at its place. */
  lemma {:induction false} WalkIsReached(w: World, folder: string, path: string, entries: Entries)
    ensures forall f :: f in Walk(w, folder, path, entries) <==> FileReached(w, folder, path, entries, f)
    decreases entries
  {
    match entries {
      case NoEntries =>
      case More(name, entry, rest) =>
        WalkIsReached(w, folder, path, rest);
        forall f ensures f in Walk(w, folder, path, entries) <==> FileReached(w, folder, path, entries, f) {
          ReachedFirst(w, folder, path, entries, FileGoal(f.file), f.path);
          if entry.Some? && entry.value.kind.Directory? {
            WalkIsReached(w, folder, w.canonical(path + "/" + name), entry.value.kind.entries);
          }
          JudgedIsReached(w, folder, path, name, entry, f);
          assert f in Walk(w, folder, path, rest) <==> FileReached(w, folder, path, rest, f);
          assert Walk(w, folder, path, entries)
              == FilesOf(w, folder, Judge(w, folder, path, name, entry)) + Walk(w, folder, path, rest);
        }
    }
  }

  function FilesOf(w: World, folder: string, v: Verdict): seq<PendingFile> {
    match v
    case Skip => []
    case Keep(f) => [f]
    case Descend(d) => Walk(w, folder, d.path, d.entries)
  }

  lemma JudgedIsReached(w: World, folder: string, path: string, name: string, entry: Option<Entry>, f: PendingFile)
    requires entry.Some? && entry.value.kind.Directory? ==>
               var p := w.canonical(path + "/" + name);
               f in Walk(w, folder, p, entry.value.kind.entries)
               <==> FileReached(w, folder, p, entry.value.kind.entries, f)
    ensures f in FilesOf(w, folder, Judge(w, folder, path, name, entry))
            <==> ReachedBy(w, folder, path, name, entry, FileGoal(f.file), f.path)
  {
    hide IsPlainName, OneComponent, IsInside, IsBelow, Reached, Walk, ReachedBy;
    PlainMeansOneComponent(name);
    InsideMeansBelow(w.canonical(path + "/" + name), folder);
    if entry.Some? { ReachedByMeans(w, folder, path, name, entry.value, FileGoal(f.file), f.path); }
    else { NoneReached(w, folder, path, name, FileGoal(f.file), f.path); }
  }

  lemma NoneReached(w: World, folder: string, path: string, name: string, goal: Goal, place: string)
    ensures !ReachedBy(w, folder, path, name, None, goal, place)
  {
  }

  // ---------- Where the place is ----------

  /** A path resolves to itself when its folder does and it is no link. */
  ghost predicate ResolvesByLinks(w: World) {
    forall path: string, name: string ::
      w.canonical(path) == path && IsPlainName(name) && path + "/" + name !in w.links ==>
        w.canonical(path + "/" + name) == path + "/" + name
  }

  /** Where nothing but links makes a path resolve elsewhere, the place is the folder and the names. */
  lemma {:induction false} PlaceIsPath(w: World, folder: string, path: string, entries: Entries, names: seq<string>,
                                       goal: Goal)
    requires ResolvesByLinks(w) && w.canonical(path) == path && Leads(w, folder, path, entries, names, goal)
    ensures Place(w, path, names) == path + "/" + Join(names, "/")
    decreases |names|
  {
    hide OneComponent, IsBelow;
    PlainMeansOneComponent(names[0]);
    if |names| > 1 {
      var p := path + "/" + names[0];
      var entry :| InDirectory(names[0], entry, entries) && GoesOn(w, folder, path, entry, names, goal);
      PlaceIsPath(w, folder, p, entry.kind.entries, names[1..], goal);
      assert p + "/" + Join(names[1..], "/") == path + "/" + (names[0] + "/" + Join(names[1..], "/"));
    }
  }
}
