/** What is looked for and what is copied when old data is taken over, said outright
    (src/datalocation/src/datalocation.cpp). */
module TakeOverMeanings {
  import opened Options
  import opened CopyingOver
  import opened TakeOver

  /** The old folders, and which of them count as data. */
  datatype Known = Known(name: string, ofConfig: bool, isData: bool)

  const KNOWN := [Known("formats", false, true), Known("plugins", false, false), Known("plugin_config", false, true),
                  Known("teamfolder", false, true), Known("themes", true, true)]

  /** An old location has a folder of that name, and something in it, elsewhere than beside the executable. */
  predicate HasFolder(l: Location, from: Option<OldDirectory>, name: string, tree: Tree) {
    && from.Some? && from.value.path != l.beside && name in from.value.folders && from.value.folders[name] == tree
    && tree.Folder? && tree.entries != []
  }

  /** Found are those of them that hold anything, whichever location they are looked for in. */
  lemma FoundMeans(l: Location, data: Option<OldDirectory>, config: Option<OldDirectory>)
    ensures forall f :: f in Found(l, data, config, |OLD_FOLDERS|) <==>
              exists k :: 0 <= k < |KNOWN|
                && f.folder == OldFolder(KNOWN[k].ofConfig, KNOWN[k].name, KNOWN[k].isData)
                && HasFolder(l, if KNOWN[k].ofConfig then config else data, KNOWN[k].name, f.tree)
  {
    hide FoundIn, HasFolder;
    FirstFound(l, data, config, |OLD_FOLDERS|);
    assert |KNOWN| == |OLD_FOLDERS|;
    forall k | 0 <= k < |KNOWN|
      ensures OLD_FOLDERS[k] == OldFolder(KNOWN[k].ofConfig, KNOWN[k].name, KNOWN[k].isData)
    {
    }
  }

  lemma {:induction false} FirstFound(l: Location, data: Option<OldDirectory>, config: Option<OldDirectory>, n: nat)
    requires n <= |OLD_FOLDERS|
    ensures forall f :: f in Found(l, data, config, n) <==>
              exists k :: 0 <= k < n && f.folder == OLD_FOLDERS[k]
                && HasFolder(l, if OLD_FOLDERS[k].inConfigLocation then config else data, OLD_FOLDERS[k].name, f.tree)
  {
    hide OLD_FOLDERS, HasFolder, FoundIn;
    if n > 0 {
      FirstFound(l, data, config, n - 1);
      var folder := OLD_FOLDERS[n - 1];
      var from := if folder.inConfigLocation then config else data;
      forall f
        ensures f in FoundIn(l, from, folder) <==> f.folder == folder && HasFolder(l, from, folder.name, f.tree)
      {
        OneFound(l, from, folder, f);
      }
    }
  }

  lemma OneFound(l: Location, from: Option<OldDirectory>, folder: OldFolder, f: FoundFolder)
    ensures f in FoundIn(l, from, folder) <==> f.folder == folder && HasFolder(l, from, folder.name, f.tree)
  {
  }

  /** A folder holds anything when some entry is in it. */
  lemma HoldsMeans(files: Files, path: Path)
    requires WellFormed(files)
    ensures HoldsAnything(files, path) <==> IsFolder(files, path) && exists name :: path + [name] in files
  {
    if HoldsAnything(files, path) {
      var p :| p in files && |path| < |p| && path <= p;
      var n := |path| + 1;
      assert p[..n] == path + [p[|path|]];
      if n < |p| { assert IsFolder(files, p[..n]); } else { assert p[..n] == p; }
    }
    if IsFolder(files, path) {
      forall name | path + [name] in files ensures HoldsAnything(files, path) { assert path <= path + [name]; }
    }
  }

  /** All of a tree is there exactly when its link, its document or its folder is, and in a folder all of
      each entry. */
  lemma HasTreeMeans(files: Files, t: Tree, to: Path)
    requires WellNamed(t)
    ensures HasTree(files, t, to) <==>
            match t
            case LinkTo(target) => Has(files, to, LinkNode(target))
            case Document(data) => Has(files, to, FileNode(data))
            case Folder(entries) =>
              Has(files, to, FolderNode) && forall e :: e in entries ==> HasTree(files, e.tree, to + [e.name])
  {
    hide WellNamed;
    assert to + [] == to;
    if HasTree(files, t, to) {
      assert NodeAt(t, []).Some?;
      assert Has(files, to + [], NodeAt(t, []).value);
      if t.Folder? {
        forall e | e in t.entries ensures HasTree(files, e.tree, to + [e.name]) { TreeOfEntry(files, t, to, e); }
      }
    }
    if !t.Folder? && Has(files, to, NodeOf(t)) {
      forall below | NodeAt(t, below).Some? ensures Has(files, to + below, NodeAt(t, below).value) {}
    }
    if t.Folder? && Has(files, to, FolderNode) && forall e :: e in t.entries ==> HasTree(files, e.tree, to + [e.name]) {
      EntriesAreAll(files, t, to);
    }
  }

  lemma EntriesAreAll(files: Files, t: Tree, to: Path)
    requires t.Folder? && Has(files, to, FolderNode)
    requires forall e :: e in t.entries ==> HasTree(files, e.tree, to + [e.name])
    ensures HasTree(files, t, to)
  {
    forall below | NodeAt(t, below).Some? ensures Has(files, to + below, NodeAt(t, below).value) {
      if below == [] { assert to + below == to; } else {
        var child := Child(t.entries, below[0]);
        assert HasTree(files, Entry(below[0], child.value).tree, to + [below[0]]);
        assert to + [below[0]] + below[1..] == to + below;
      }
    }
  }
}
