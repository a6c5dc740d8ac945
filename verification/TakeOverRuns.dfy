/** What is beside the executable over any number of runs, however each of them ended. */
module TakeOverRuns {
  import opened CopyingOver
  import opened TakeOver

  /** The disk before the first run and after each, however each of them ended. */
  ghost predicate Runs(l: Location, states: seq<Files>) {
    && states != [] && WellFormed(states[0])
    && forall i, j :: 0 <= i < j < |states| && j == i + 1 ==> RunKeeps(l, states[i], states[j])
  }

  lemma RunsBefore(l: Location, states: seq<Files>)
    requires Runs(l, states) && |states| > 1
    ensures Runs(l, states[..|states| - 1])
    ensures RunKeeps(l, states[|states| - 2], states[|states| - 1])
  {
    hide RunKeeps;
    var before := states[..|states| - 1];
    assert forall i :: 0 <= i < |before| ==> before[i] == states[i];
  }

  /** Nothing that was beside the executable ever changes or goes. */
  lemma {:induction false} NothingThereChanges(l: Location, states: seq<Files>)
    requires Runs(l, states)
    ensures Kept(states[0], states[|states| - 1])
    decreases |states|
  {
    if |states| > 1 {
      RunsBefore(l, states);
      NothingThereChanges(l, states[..|states| - 1]);
    }
  }

  /** Once the marker is there no run does anything. */
  lemma {:induction false} TakenOverOnce(l: Location, states: seq<Files>)
    requires Runs(l, states) && l.Marker() in states[0]
    ensures states[|states| - 1] == states[0]
    decreases |states|
  {
    if |states| > 1 {
      RunsBefore(l, states);
      TakenOverOnce(l, states[..|states| - 1]);
    }
  }

  lemma DataStaysBeside(l: Location, before: Files, after: Files)
    requires DataBeside(before, l, |OLD_FOLDERS|) && Kept(before, after)
    ensures DataBeside(after, l, |OLD_FOLDERS|)
  {
    hide OLD_FOLDERS;
    var k :| 0 <= k < |OLD_FOLDERS| && OLD_FOLDERS[k].countsAsData
             && HoldsAnything(before, l.beside + [OLD_FOLDERS[k].name]);
  }

  lemma {:induction false} DataBesideEndsIt(l: Location, states: seq<Files>)
    requires Runs(l, states) && DataBeside(states[0], l, |OLD_FOLDERS|)
    ensures forall p :: p in states[|states| - 1] ==> p in states[0] || p == l.Marker()
    ensures DataBeside(states[|states| - 1], l, |OLD_FOLDERS|)
    decreases |states|
  {
    hide DataBeside, OLD_FOLDERS;
    if |states| > 1 {
      RunsBefore(l, states);
      DataBesideEndsIt(l, states[..|states| - 1]);
      DataStaysBeside(l, states[|states| - 2], states[|states| - 1]);
    }
  }

  lemma {:induction false} PluginsNeverMixed(l: Location, states: seq<Files>)
    requires Runs(l, states)
    ensures PluginsUntouched(states[0], states[|states| - 1], l.Plugins())
    decreases |states|
  {
    hide OLD_FOLDERS, DataBeside, WellFormed;
    if |states| == 1 {
      NothingNew(states[0], l, []);
    } else {
      var n := |states| - 1;
      RunsBefore(l, states);
      PluginsNeverMixed(l, states[..n]);
      NothingThereChanges(l, states[..n]);
      PluginsUntouchedBoth(states[0], states[n - 1], states[n], l.Plugins());
    }
  }

  lemma PluginsUntouchedBoth(before: Files, middle: Files, after: Files, to: Path)
    requires Kept(before, middle) && PluginsUntouched(before, middle, to) && PluginsUntouched(middle, after, to)
    ensures PluginsUntouched(before, after, to)
  {
    forall name: string | to + [name] in before ensures Untouched(before, after, to + [name]) {
      UntouchedBoth(before, middle, after, to + [name]);
    }
  }

  /** A run that ended after it copied anything of a folder that counts as data is not resumed: no
      later run copies anything more, so each old folder is there in the end exactly when it is
      there already. */
  lemma InterruptedIsNotResumed(l: Location, f: FoundFolder, p: Path, states: seq<Files>, found: seq<FoundFolder>)
    requires Runs(l, states) && f.folder in OLD_FOLDERS && f.folder.countsAsData
    requires p in states[0] && l.At(f) <= p && |p| > |l.At(f)|
    requires forall g :: g in found ==> g.folder in OLD_FOLDERS
    ensures forall q :: q in states[|states| - 1] ==> q in states[0] || q == l.Marker()
    ensures AllThere(states[|states| - 1], l, found) <==> AllThere(states[0], l, found)
  {
    hide OLD_FOLDERS, RunKeeps, AllThere;
    assert p[..|l.At(f)|] == l.At(f) != [];
    var k :| 0 <= k < |OLD_FOLDERS| && OLD_FOLDERS[k] == f.folder;
    assert HoldsAnything(states[0], l.beside + [OLD_FOLDERS[k].name]);
    DataBesideEndsIt(l, states);
    NothingThereChanges(l, states);
    OldFoldersDistinct();
    forall g | g in found ensures l.At(g) != l.Marker() {
      assert l.At(g)[|l.beside|] == g.folder.name && l.Marker()[|l.beside|] == MARKER;
    }
    MarkerChangesNothing(states[0], states[|states| - 1], l, found);
  }

  /** The same of one plugin: once its folder is there, no run adds to it. */
  lemma HalfPluginStaysHalf(l: Location, t: Tree, name: string, states: seq<Files>)
    requires Runs(l, states) && l.Plugins() + [name] in states[0]
    ensures HasTree(states[|states| - 1], t, l.Plugins() + [name]) <==> HasTree(states[0], t, l.Plugins() + [name])
  {
    hide HasTree, RunKeeps;
    var at := l.Plugins() + [name];
    PluginsNeverMixed(l, states);
    NothingThereChanges(l, states);
    assert Untouched(states[0], states[|states| - 1], at);
    if HasTree(states[0], t, at) { TreeStays(states[0], states[|states| - 1], t, at); }
    if HasTree(states[|states| - 1], t, at) { TreeWasThere(states[0], states[|states| - 1], t, at); }
  }

  const PLUGIN := Folder([Entry("a", Document("text"))])
  const OLD_PLUGINS := FoundFolder(OldFolder(false, PLUGINS, false), Folder([Entry("x", PLUGIN)]))
  const HERE := Location(true, false, ["app"])
  const UNTOUCHED: Files := map[["app"] := FolderNode]
  const KILLED: Files := UNTOUCHED[["app", PLUGINS] := FolderNode][["app", PLUGINS, "x"] := FolderNode]

  /** Such a state: killed after it made a plugin's folder, a run leaves no data beside the
      executable, and yet no later run completes the plugin. */
  lemma HalfCopiedPlugin()
    ensures CanComplete(UNTOUCHED, HERE, [OLD_PLUGINS])
    ensures RunKeeps(HERE, UNTOUCHED, KILLED) && FromFound(UNTOUCHED, KILLED, HERE, [OLD_PLUGINS])
    ensures Looks(HERE, KILLED) && !DataBeside(KILLED, HERE, |OLD_FOLDERS|) && !CanComplete(KILLED, HERE, [OLD_PLUGINS])
    ensures forall states :: Runs(HERE, states) && states[0] == KILLED ==>
              !AllThere(states[|states| - 1], HERE, [OLD_PLUGINS])
  {
    hide OLD_FOLDERS, RunKeeps, FromFound, DataBeside, CanComplete, AllThere;
    KilledMidway();
    HalfIsNotThere();
    forall states | Runs(HERE, states) && states[0] == KILLED
      ensures !AllThere(states[|states| - 1], HERE, [OLD_PLUGINS])
    {
      NeverWhole(states);
    }
  }

  lemma NothingBesideHere()
    ensures !DataBeside(UNTOUCHED, HERE, |OLD_FOLDERS|) && !DataBeside(KILLED, HERE, |OLD_FOLDERS|)
  {
    OldFoldersDistinct();
    hide OLD_FOLDERS;
    forall k | 0 <= k < |OLD_FOLDERS| && OLD_FOLDERS[k].countsAsData
      ensures HERE.beside + [OLD_FOLDERS[k].name] !in KILLED
    {
      assert (HERE.beside + [OLD_FOLDERS[k].name])[1] == OLD_FOLDERS[k].name;
    }
  }

  lemma KilledMidway()
    ensures CanComplete(UNTOUCHED, HERE, [OLD_PLUGINS])
    ensures RunKeeps(HERE, UNTOUCHED, KILLED) && FromFound(UNTOUCHED, KILLED, HERE, [OLD_PLUGINS])
  {
    hide OLD_FOLDERS, DataBeside;
    NothingBesideHere();
    var to := HERE.At(OLD_PLUGINS);
    assert to == ["app", PLUGINS] == HERE.Plugins() && to + ["x"] == ["app", PLUGINS, "x"];
    assert HERE.Marker() == ["app", MARKER];
    assert Comes(OLD_PLUGINS, HERE, to, FolderNode) by { assert to[|to|..] == []; }
    assert Comes(OLD_PLUGINS, HERE, to + ["x"], FolderNode) by {
      assert (to + ["x"])[|to|..] == ["x"] == ["x"] + [];
      ChildNode(OLD_PLUGINS.tree, 0, []);
      RootNode(PLUGIN);
    }
    forall p, n | p in KILLED && 0 < n < |p| ensures IsFolder(KILLED, p[..n]) {
      assert p[..n] == ["app"] || p[..n] == ["app", PLUGINS];
    }
    assert OLD_PLUGINS in [OLD_PLUGINS];
  }

  lemma HalfIsNotThere()
    ensures !HasTree(KILLED, PLUGIN, HERE.Plugins() + ["x"]) && HERE.Plugins() + ["x"] in KILLED
    ensures Looks(HERE, KILLED) && !DataBeside(KILLED, HERE, |OLD_FOLDERS|) && !CanComplete(KILLED, HERE, [OLD_PLUGINS])
  {
    hide OLD_FOLDERS, DataBeside;
    NothingBesideHere();
    var at := HERE.Plugins() + ["x"];
    assert at == ["app", PLUGINS, "x"] && HERE.At(OLD_PLUGINS) == HERE.Plugins();
    assert HERE.Marker() == ["app", MARKER];
    ChildNode(PLUGIN, 0, []);
    assert NodeAt(PLUGIN, ["a"]).Some? by { assert ["a"] + [] == ["a"]; }
    assert at + ["a"] !in KILLED by { assert |at + ["a"]| == 4; }
    assert !Has(KILLED, at + ["a"], NodeAt(PLUGIN, ["a"]).value);
    assert Entry("x", PLUGIN) in OLD_PLUGINS.tree.entries && OLD_PLUGINS in [OLD_PLUGINS];
  }

  lemma NeverWhole(states: seq<Files>)
    requires Runs(HERE, states) && states[0] == KILLED
    ensures !AllThere(states[|states| - 1], HERE, [OLD_PLUGINS])
  {
    hide RunKeeps, HasTree;
    HalfIsNotThere();
    assert HERE.At(OLD_PLUGINS) == HERE.Plugins();
    HalfPluginStaysHalf(HERE, PLUGIN, "x", states);
    var last := states[|states| - 1];
    if HasTree(last, OLD_PLUGINS.tree, HERE.Plugins()) {
      TreeOfEntry(last, OLD_PLUGINS.tree, HERE.Plugins(), Entry("x", PLUGIN));
      assert false;
    }
    assert OLD_PLUGINS in [OLD_PLUGINS];
  }
}
