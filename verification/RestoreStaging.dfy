/** Restoring a snapshot: mount it aside and compare, mount it in place, delete the rest, and undo all that on failure. */
module RestoreStaging {
  import opened Text
  import opened SnapshotTree

  /** The export carries its files and directories with paths below the mount point. */
  type Tree = Fs

  /** What mounting an export does when it succeeds: its files and directories are there, and nothing else appears, changes
      or goes away. The container's own way of doing so is not part of this model. */
  ghost predicate Mounted(before: Fs, root: Path, tree: Tree, after: Fs)
  {
    && WellFormed(after)
    && (forall f {:trigger f in tree.files} :: f in tree.files ==> root + f in after.files && after.files[root + f] == tree.files[f])
    && (forall d {:trigger d in tree.dirs} :: d in tree.dirs ==> root + d in after.dirs)
    && (forall f {:trigger f in after.files} :: f in after.files && !Carried(root, tree, f) ==>
          f in before.files && after.files[f] == before.files[f])
    && (forall f {:trigger f in before.files} :: f in before.files && !(Under(root, f) && f[|root|..] in tree.dirs) ==>
          f in after.files)
    && (forall d {:trigger d in before.dirs} :: d in before.dirs && !Carried(root, tree, d) ==> d in after.dirs)
    && (forall d {:trigger d in after.dirs} :: d in after.dirs && !(Under(root, d) && d[|root|..] in tree.dirs) && d != root ==> d in before.dirs)
  }

  predicate Carried(root: Path, tree: Tree, f: Path)
  {
    Under(root, f) && f[|root|..] in tree.files
  }

  predicate GeneratedName(name: string)
  {
    |name| >= 10 && name[..10] == ".succinix-"
  }

  /** A path below the stage with such a name in it is the container's own. */
  predicate Generated(p: Path)
  {
    exists i :: 0 <= i < |p| && GeneratedName(p[i])
  }

  /** Paths of the inventory as seen from the root of the workspace; `None` when one escapes it. */
  function Relative(root: Path, paths: set<Path>): Option<set<Path>>
  {
    if forall p :: p in paths ==> Under(root, p) then Some(set p | p in paths :: p[|root|..]) else None
  }

  function NotGenerated(paths: set<Path>): set<Path>
  {
    set p | p in paths && !Generated(p)
  }

  datatype SnapshotManifest = SnapshotManifest(files: Option<set<Path>>, emptyDirs: Option<set<Path>>)

  function InventoryOf(m: SnapshotManifest): Option<Inventory>
  {
    if m.files.None? then None else Some(Inventory(m.files.value, EmptyDirsOf(m)))
  }

  function EmptyDirsOf(m: SnapshotManifest): set<Path>
  {
    if m.emptyDirs.Some? then m.emptyDirs.value else {}
  }

  function Below(root: Path, paths: set<Path>): set<Path>
  {
    set p | p in paths && Under(root, p) :: p[|root|..]
  }

  /** The comparison of the staged files and empty directories with the manifest; the stage itself counts as an empty
      directory only when the manifest says so. */
  predicate StageMatches(root: Path, m: SnapshotManifest, files: set<Path>, emptyDirs: set<Path>)
    requires m.files.Some? && Relative(root, m.files.value).Some? && Relative(root, EmptyDirsOf(m)).Some?
  {
    && NotGenerated(files) == NotGenerated(Relative(root, m.files.value).value)
    && (m.emptyDirs.Some? ==>
          var expected := NotGenerated(Relative(root, m.emptyDirs.value).value);
          (set d | d in NotGenerated(emptyDirs) && (d != [] || [] in expected)) == expected)
  }

  // ----- What a restore ends with -----

  function EmptyDirsIn(tree: Tree): set<Path>
  {
    set d | d in tree.dirs && Children(tree, d) == {}
  }

  /** The stage was new, so its listing is that of the export. */
  lemma StageShowsTheExport(before: Fs, stage: Path, tree: Tree, staged: Fs, listing: Listing, skip: Path -> bool,
                            readable: Path -> bool)
    requires Mounted(before, stage, tree, staged) && WellFormed(tree) && stage in staged.dirs
    requires Lists(listing, staged, stage, Unseen(skip, readable), readable)
    requires (forall p :: !skip(p)) && forall p :: readable(p)
    requires forall f :: f in before.files ==> !Under(stage, f)
    requires forall d :: d in before.dirs && Under(stage, d) ==> d == stage
    ensures Below(stage, set f | f in listing.files) == tree.files.Keys
    ensures Below(stage, set d | d in listing.emptyDirs) == EmptyDirsIn(tree)
  {
    hide Children, WellFormed, Unseen;
    forall p | Under(stage, p) && |stage| < |p|
      ensures Visible(stage, Unseen(skip, readable), p)
    {
      AllSeen(stage, skip, readable, p);
    }
    FilesOnStage(before, stage, tree, staged);
    EmptyDirsOnStage(before, stage, tree, staged);
    var shown := Below(stage, set f | f in listing.files);
    forall f | f in tree.files
      ensures f in shown
    {
      assert stage + [] == stage;
      assert ListedFile(staged, stage, Unseen(skip, readable), stage + f);
    }
    forall f | f in shown
      ensures f in tree.files
    {
      var p :| p in listing.files && Under(stage, p) && f == p[|stage|..];
      assert ListedFile(staged, stage, Unseen(skip, readable), p);
    }
    var empty := Below(stage, set d | d in listing.emptyDirs);
    forall d | d in EmptyDirsIn(tree)
      ensures d in empty
    {
      assert ListedEmptyDir(staged, stage, Unseen(skip, readable), stage + d);
      assert (stage + d)[|stage|..] == d;
    }
    forall d | d in empty
      ensures d in EmptyDirsIn(tree)
    {
      var p :| p in listing.emptyDirs && Under(stage, p) && d == p[|stage|..];
      assert ListedEmptyDir(staged, stage, Unseen(skip, readable), p);
      assert p == stage + d;
    }
  }

  lemma FilesOnStage(before: Fs, stage: Path, tree: Tree, staged: Fs)
    requires Mounted(before, stage, tree, staged) && forall f :: f in before.files ==> !Under(stage, f)
    requires WellFormed(tree)
    ensures forall f :: f in tree.files ==> stage + f in staged.files && Under(stage, stage + f) && (stage + f)[|stage|..] == f && f != []
    ensures forall p :: p in staged.files && Under(stage, p) ==> p[|stage|..] in tree.files
  {
  }

  lemma EmptyDirsOnStage(before: Fs, stage: Path, tree: Tree, staged: Fs)
    requires Mounted(before, stage, tree, staged) && WellFormed(tree)
    requires forall f :: f in before.files ==> !Under(stage, f)
    requires forall d :: d in before.dirs && Under(stage, d) ==> d == stage
    ensures forall d :: d in tree.dirs ==> stage + d in staged.dirs
    ensures forall d :: stage + d in staged.dirs ==> d in tree.dirs
    ensures forall d :: d in tree.dirs ==> (Children(staged, stage + d) == {} <==> Children(tree, d) == {})
  {
    hide WellFormed;
    assert [] in tree.dirs by {
      RootIsDir(tree);
    }
    forall d | stage + d in staged.dirs
      ensures d in tree.dirs
    {
      assert (stage + d)[|stage|..] == d && Under(stage, stage + d);
      assert stage + [] == stage;
    }
    forall d | d in tree.dirs
      ensures Children(staged, stage + d) == {} <==> Children(tree, d) == {}
    {
      if c :| c in Children(tree, d) {
        assert stage + c in Children(staged, stage + d) by {
          assert Parent(stage + c) == stage + Parent(c);
        }
      }
      if c :| c in Children(staged, stage + d) {
        var rel := c[|stage|..];
        assert c[..|stage|] == Parent(c)[..|stage|] == stage && c == stage + rel && |rel| > 0;
        assert Parent(rel) == d by {
          assert Parent(c) == stage + Parent(rel);
          assert Parent(c)[|stage|..] == d;
        }
        assert rel in tree.files || rel in tree.dirs;
        assert rel in Children(tree, d);
      }
    }
  }

  lemma RootIsDir(fs: Fs)
    requires WellFormed(fs)
    ensures [] in fs.dirs
  {
  }

  /** Mounted and pruned, the workspace has the files of the manifest with the contents of the export, and besides what
      is skipped no others; only for generated paths the manifest need not be met. */
  lemma RestoreEndsWithTheManifest(before: Fs, root: Path, skip: Path -> bool, m: SnapshotManifest, tree: Tree,
                                   mounted: Fs, pruned: Fs, failing: set<Path>, emptyDirs: set<Path>, f: Path)
    requires Mounted(before, root, tree, mounted)
    requires m.files.Some? && Relative(root, m.files.value).Some? && Relative(root, EmptyDirsOf(m)).Some?
    requires StageMatches(root, m, tree.files.Keys, emptyDirs)
    requires IsPruned(pruned, mounted, root, skip, InventoryOf(m).value, failing)
    ensures Under(root, f) && f in m.files.value && !Generated(f[|root|..]) ==>
              f in pruned.files && f[|root|..] in tree.files && pruned.files[f] == tree.files[f[|root|..]]
    ensures ListedFile(pruned, root, skip, f) ==> f in m.files.value
  {
    hide Children, Visible, IsPruned;
    var inventory := InventoryOf(m).value;
    if Under(root, f) && f in m.files.value && !Generated(f[|root|..]) {
      var rel := f[|root|..];
      assert Under(root, f) && f == root + rel;
      assert rel in NotGenerated(Relative(root, m.files.value).value);
      assert rel in NotGenerated(tree.files.Keys);
      assert rel in tree.files;
      PruneKeepsTheInventory(pruned, mounted, root, skip, inventory, failing, f);
    }
    if ListedFile(pruned, root, skip, f) {
      PruneLeavesNothingElse(pruned, mounted, root, skip, inventory, failing, f);
    }
  }

  predicate StrictlyBelow(root: Path, p: Path)
  {
    Under(root, p) && |root| < |p|
  }

  /** An export has its own filter: it holds everything below the root that this does not drop, listed or not. */
  ghost predicate Exported(prior: Fs, root: Path, dropped: Path -> bool, tree: Tree)
  {
    && WellFormed(tree)
    && (forall f {:trigger f in tree.files} :: f in tree.files ==>
          root + f in prior.files && tree.files[f] == prior.files[root + f] && !dropped(root + f))
    && (forall f {:trigger f in prior.files} :: f in prior.files && StrictlyBelow(root, f) && !dropped(f) ==>
          f[|root|..] in tree.files)
    && (forall d {:trigger d in tree.dirs} :: d in tree.dirs ==> root + d in prior.dirs)
    && (forall d {:trigger d in prior.dirs} :: d in prior.dirs && StrictlyBelow(root, d) ==>
          (d[|root|..] in tree.dirs <==> !dropped(d)))
  }

  ghost predicate Recorded(prior: Fs, root: Path, skip: Path -> bool, inventory: Inventory)
  {
    && (forall f {:trigger f in inventory.files} {:trigger ListedFile(prior, root, skip, f)} ::
          f in inventory.files <==> ListedFile(prior, root, skip, f))
    && (forall d {:trigger d in inventory.emptyDirs} {:trigger ListedDir(prior, root, skip, d)} ::
          d in inventory.emptyDirs <==> ListedDir(prior, root, skip, d))
  }

  predicate HoldsFile(fs: Fs, f: Path, content: string)
  {
    f in fs.files && fs.files[f] == content
  }

  /** Whatever the failed restore has made of the workspace: mounting the export back and pruning by the listing taken
      before leaves no file that was not there. A file that was there is there again with its content exactly when the
      export did not drop it, or the failed restore has left it alone. */
  lemma RollbackRestoresTheFiles(prior: Fs, broken: Fs, root: Path, skip: Path -> bool, dropped: Path -> bool, tree: Tree,
                                 inventory: Inventory, remounted: Fs, pruned: Fs, failing: set<Path>, f: Path)
    requires WellFormed(prior) && Exported(prior, root, dropped, tree) && Recorded(prior, root, skip, inventory)
    requires Mounted(broken, root, tree, remounted) && IsPruned(pruned, remounted, root, skip, inventory, failing)
    ensures ListedFile(pruned, root, skip, f) ==> ListedFile(prior, root, skip, f)
    ensures ListedFile(prior, root, skip, f) ==>
              (HoldsFile(pruned, f, prior.files[f]) <==> !dropped(f) || HoldsFile(broken, f, prior.files[f]))
  {
    hide Children, IsPruned;
    if ListedFile(pruned, root, skip, f) {
      PruneLeavesNothingElse(pruned, remounted, root, skip, inventory, failing, f);
    }
    if ListedFile(prior, root, skip, f) {
      assert f == root + f[|root|..] && StrictlyBelow(root, f);
      assert f[|root|..] !in tree.dirs;
      if f in remounted.files {
        PruneKeepsTheInventory(pruned, remounted, root, skip, inventory, failing, f);
      }
      PruneAddsNothing(pruned, remounted, root, skip, inventory, failing);
    }
  }

  lemma PruneAddsNothing(after: Fs, fs: Fs, root: Path, skip: Path -> bool, inventory: Inventory, failing: set<Path>)
    requires IsPruned(after, fs, root, skip, inventory, failing)
    ensures forall f :: f in after.files ==> f in fs.files && after.files[f] == fs.files[f]
  {
  }

  /** And, when no deletion of a directory fails, likewise the directories. */
  lemma RollbackRestoresTheDirectories(prior: Fs, broken: Fs, root: Path, skip: Path -> bool, dropped: Path -> bool,
                                       tree: Tree, inventory: Inventory, remounted: Fs, pruned: Fs, dir: Path)
    requires WellFormed(prior) && Exported(prior, root, dropped, tree) && Recorded(prior, root, skip, inventory)
    requires Mounted(broken, root, tree, remounted) && IsPruned(pruned, remounted, root, skip, inventory, {})
    requires Visible(root, skip, dir)
    ensures dir in pruned.dirs <==> dir in prior.dirs && (!dropped(dir) || dir in broken.dirs)
  {
    hide Children, Visible;
    VisibleIsUnder(root, skip, dir);
    if dir in prior.dirs {
      assert ListedDir(prior, root, skip, dir);
      assert StrictlyBelow(root, dir) && !Carried(root, tree, dir);
      assert dir in remounted.dirs <==> !dropped(dir) || dir in broken.dirs;
      forall d | d in remounted.dirs && Under(d, dir) && ListedDir(remounted, root, skip, d) && d != root
        ensures Desired(inventory, d)
      {
        if d != dir {
          AncestorsAreDirs(prior, d, dir);
        }
        assert ListedDir(prior, root, skip, d);
      }
    } else if dir in pruned.dirs {
      assert dir in remounted.dirs && ListedDir(remounted, root, skip, dir);
      assert Under(dir, dir);
      assert Desired(inventory, dir);
      assert dir !in inventory.emptyDirs;
      var f :| f in inventory.files && 0 < |dir| < |f| && Under(dir, f);
      assert ListedFile(prior, root, skip, f);
      AncestorsAreDirs(prior, dir, f);
    }
  }

  lemma VisibleIsUnder(root: Path, skip: Path -> bool, p: Path)
    requires Visible(root, skip, p)
    ensures Under(root, p) && |root| < |p| && p == root + p[|root|..]
  {
  }

  // ----- What a save has recorded -----

  /** The inventory a save writes into its manifest. */
  ghost predicate RecordedBySave(prior: Fs, root: Path, skip: Path -> bool, m: SnapshotManifest)
  {
    && m.files.Some? && m.emptyDirs.Some?
    && (forall f {:trigger f in m.files.value} {:trigger ListedFile(prior, root, skip, f)} ::
          f in m.files.value <==> ListedFile(prior, root, skip, f))
    && (forall d {:trigger d in m.emptyDirs.value} {:trigger ListedEmptyDir(prior, root, skip, d)} ::
          d in m.emptyDirs.value <==> ListedEmptyDir(prior, root, skip, d))
  }

  /** The listing and the export agree on a file: both have it, or neither does. */
  ghost predicate SameFileFilter(root: Path, skip: Path -> bool, dropped: Path -> bool, f: Path)
  {
    Visible(root, skip, f) <==> !dropped(f)
  }

  /** A directory is empty for the listing when there is nothing in it, and for the export when nothing is left of it. */
  ghost predicate SameEmptyDirs(prior: Fs, root: Path, skip: Path -> bool, dropped: Path -> bool, d: Path)
  {
    Visible(root, skip, d) && Children(prior, d) == {} <==> !dropped(d) && forall c :: c in Children(prior, d) ==> dropped(c)
  }

  ghost predicate FiltersAgree(prior: Fs, root: Path, skip: Path -> bool, dropped: Path -> bool)
  {
    && (forall f {:trigger f in prior.files} :: f in prior.files && StrictlyBelow(root, f) && !Generated(f[|root|..]) ==>
          SameFileFilter(root, skip, dropped, f))
    && (forall d {:trigger d in prior.dirs} :: d in prior.dirs && StrictlyBelow(root, d) && !Generated(d[|root|..]) ==>
          SameEmptyDirs(prior, root, skip, dropped, d))
  }

  lemma RecordedIsRelative(prior: Fs, root: Path, skip: Path -> bool, m: SnapshotManifest)
    requires RecordedBySave(prior, root, skip, m)
    ensures Relative(root, m.files.value).Some? && Relative(root, EmptyDirsOf(m)).Some?
  {
    assert Under(root, root);
    forall f | f in m.files.value
      ensures Under(root, f)
    {
      assert ListedFile(prior, root, skip, f);
    }
    forall d | d in m.emptyDirs.value
      ensures Under(root, d)
    {
      assert ListedEmptyDir(prior, root, skip, d);
    }
  }

  lemma FilesMatch(prior: Fs, root: Path, skip: Path -> bool, dropped: Path -> bool, tree: Tree, m: SnapshotManifest)
    requires Exported(prior, root, dropped, tree) && RecordedBySave(prior, root, skip, m) && Relative(root, m.files.value).Some?
    ensures NotGenerated(tree.files.Keys) == NotGenerated(Relative(root, m.files.value).value)
       <==> forall f :: f in prior.files && StrictlyBelow(root, f) && !Generated(f[|root|..]) ==>
              SameFileFilter(root, skip, dropped, f)
  {
    hide Visible, Generated, WellFormed;
    var carried, known := NotGenerated(tree.files.Keys), NotGenerated(Relative(root, m.files.value).value);
    forall f | f in prior.files && StrictlyBelow(root, f)
      ensures f[|root|..] in tree.files <==> !dropped(f)
      ensures f[|root|..] in Relative(root, m.files.value).value <==> Visible(root, skip, f)
    {
      assert f == root + f[|root|..];
      OnlyItself(root, m.files.value, f);
      assert f in m.files.value <==> ListedFile(prior, root, skip, f);
    }
    forall r | r in carried || r in known
      ensures root + r in prior.files && StrictlyBelow(root, root + r) && (root + r)[|root|..] == r && !Generated(r)
    {
      if r in known {
        var f :| f in m.files.value && r == f[|root|..];
        assert ListedFile(prior, root, skip, f);
        VisibleIsUnder(root, skip, f);
      } else {
        NotTheRoot(tree, r);
      }
    }
    if carried == known {
      forall f | f in prior.files && StrictlyBelow(root, f) && !Generated(f[|root|..])
        ensures SameFileFilter(root, skip, dropped, f)
      {
        assert f[|root|..] in carried <==> f[|root|..] in known;
      }
    }
    if forall f :: f in prior.files && StrictlyBelow(root, f) && !Generated(f[|root|..]) ==> SameFileFilter(root, skip, dropped, f) {
      forall r
        ensures r in carried <==> r in known
      {
        if r in carried || r in known {
          assert SameFileFilter(root, skip, dropped, root + r);
        }
      }
    }
  }

  lemma NotTheRoot(tree: Tree, r: Path)
    requires WellFormed(tree) && r in tree.files
    ensures r != []
  {
  }

  lemma OnlyItself(root: Path, paths: set<Path>, p: Path)
    requires Relative(root, paths).Some? && Under(root, p)
    ensures p[|root|..] in Relative(root, paths).value <==> p in paths
  {
    if q :| q in paths && q[|root|..] == p[|root|..] {
      assert q == root + q[|root|..] && p == root + p[|root|..];
    }
  }

  lemma EmptyInTree(prior: Fs, root: Path, dropped: Path -> bool, tree: Tree, d: Path)
    requires WellFormed(prior) && Exported(prior, root, dropped, tree) && d in prior.dirs && StrictlyBelow(root, d)
    ensures d[|root|..] in EmptyDirsIn(tree) <==> !dropped(d) && forall c :: c in Children(prior, d) ==> dropped(c)
  {
    hide WellFormed;
    var rel := d[|root|..];
    if rel in tree.dirs {
      if c :| c in Children(prior, d) && !dropped(c) {
        ChildShape(prior, d, c);
        assert c[..|root|] == d[..|root|] && StrictlyBelow(root, c);
        assert Parent(c[|root|..]) == rel;
        assert c[|root|..] in Children(tree, rel);
      }
      if c :| c in Children(tree, rel) {
        assert Parent(root + c) == root + rel == d;
        assert root + c in Children(prior, d);
        assert (root + c)[|root|..] == c && StrictlyBelow(root, root + c);
        assert !dropped(root + c);
      }
    }
  }

  lemma EmptyDirsMatch(prior: Fs, root: Path, skip: Path -> bool, dropped: Path -> bool, tree: Tree, m: SnapshotManifest)
    requires WellFormed(prior) && root in prior.dirs && Exported(prior, root, dropped, tree) && RecordedBySave(prior, root, skip, m)
    requires Relative(root, m.emptyDirs.value).Some?
    ensures var expected := NotGenerated(Relative(root, m.emptyDirs.value).value);
      (set d | d in NotGenerated(EmptyDirsIn(tree)) && (d != [] || [] in expected)) == expected
      <==> forall d :: d in prior.dirs && StrictlyBelow(root, d) && !Generated(d[|root|..]) ==>
             SameEmptyDirs(prior, root, skip, dropped, d)
  {
    hide Visible, Generated, WellFormed, Children;
    var known := Relative(root, m.emptyDirs.value).value;
    var expected := NotGenerated(known);
    var actual := set d | d in NotGenerated(EmptyDirsIn(tree)) && (d != [] || [] in expected);
    forall d | d in prior.dirs && StrictlyBelow(root, d)
      ensures d[|root|..] in known <==> Visible(root, skip, d) && Children(prior, d) == {}
      ensures SameEmptyDirs(prior, root, skip, dropped, d) <==> (d[|root|..] in known <==> d[|root|..] in EmptyDirsIn(tree))
    {
      assert d == root + d[|root|..];
      OnlyItself(root, m.emptyDirs.value, d);
      assert d in m.emptyDirs.value <==> ListedEmptyDir(prior, root, skip, d);
      EmptyInTree(prior, root, dropped, tree, d);
    }
    EmptyRoot(prior, root, skip, dropped, tree, m);
    forall r | r != [] && (r in known || r in EmptyDirsIn(tree))
      ensures root + r in prior.dirs && StrictlyBelow(root, root + r) && (root + r)[|root|..] == r
    {
      if r in known {
        var d :| d in m.emptyDirs.value && r == d[|root|..];
        assert ListedEmptyDir(prior, root, skip, d);
        RecordedIsRelative(prior, root, skip, m);
        assert d == root + r;
      }
    }
    forall d | d in prior.dirs && StrictlyBelow(root, d)
      ensures d[|root|..] != []
    {
    }
    if actual == expected {
      forall d | d in prior.dirs && StrictlyBelow(root, d) && !Generated(d[|root|..])
        ensures SameEmptyDirs(prior, root, skip, dropped, d)
      {
        assert d[|root|..] in actual <==> d[|root|..] in expected;
      }
    }
    if forall d :: d in prior.dirs && StrictlyBelow(root, d) && !Generated(d[|root|..]) ==> SameEmptyDirs(prior, root, skip, dropped, d) {
      forall r
        ensures r in actual <==> r in expected
      {
        if r != [] && (r in known || r in EmptyDirsIn(tree)) && !Generated(r) {
          assert SameEmptyDirs(prior, root, skip, dropped, root + r);
        }
      }
    }
  }

  lemma ChildOfTheRoot(prior: Fs, root: Path, tree: Tree, c: Path)
    requires c in Children(tree, []) && (root + c in prior.files || root + c in prior.dirs)
    ensures root + c in Children(prior, root)
  {
    assert Parent(root + c) == root + Parent(c) == root;
  }

  lemma OnlyTheRootIsRoot(root: Path, d: Path)
    requires Under(root, d) && d[|root|..] == []
    ensures d == root
  {
  }

  /** An empty workspace is empty for both. */
  lemma EmptyRoot(prior: Fs, root: Path, skip: Path -> bool, dropped: Path -> bool, tree: Tree, m: SnapshotManifest)
    requires WellFormed(prior) && root in prior.dirs && Exported(prior, root, dropped, tree) && RecordedBySave(prior, root, skip, m)
    requires Relative(root, m.emptyDirs.value).Some?
    ensures [] in Relative(root, m.emptyDirs.value).value ==> [] in EmptyDirsIn(tree)
    ensures !Generated([])
  {
    hide WellFormed, Visible, Children;
    RootIsDir(tree);
    if [] in Relative(root, m.emptyDirs.value).value {
      var d :| d in m.emptyDirs.value && d[|root|..] == [];
      OnlyTheRootIsRoot(root, d);
      assert ListedEmptyDir(prior, root, skip, root);
      forall c | c in Children(tree, [])
        ensures c in Children(tree, []) && root + c in Children(prior, root)
      {
        InTree(tree, c);
        ChildOfTheRoot(prior, root, tree, c);
      }
    }
  }

  lemma InTree(tree: Tree, c: Path)
    requires c in Children(tree, [])
    ensures c in tree.files || c in tree.dirs
  {
  }

  /** A snapshot that a save has recorded passes the comparison on the stage exactly when listing and export agree on every
      file and every empty directory of the workspace, generated paths aside. */
  lemma SavedSnapshotPassesTheStage(prior: Fs, root: Path, skip: Path -> bool, dropped: Path -> bool, tree: Tree,
                                    m: SnapshotManifest)
    requires WellFormed(prior) && root in prior.dirs && Exported(prior, root, dropped, tree) && RecordedBySave(prior, root, skip, m)
    ensures Relative(root, m.files.value).Some? && Relative(root, EmptyDirsOf(m)).Some?
    ensures StageMatches(root, m, tree.files.Keys, EmptyDirsIn(tree)) <==> FiltersAgree(prior, root, skip, dropped)
  {
    hide WellFormed, Exported, RecordedBySave, Generated, NotGenerated, SameFileFilter, SameEmptyDirs, Relative, EmptyDirsIn;
    RecordedIsRelative(prior, root, skip, m);
    RecordsBoth(prior, root, skip, m);
    assert EmptyDirsOf(m) == m.emptyDirs.value;
    FilesMatch(prior, root, skip, dropped, tree, m);
    EmptyDirsMatch(prior, root, skip, dropped, tree, m);
  }

  lemma RecordsBoth(prior: Fs, root: Path, skip: Path -> bool, m: SnapshotManifest)
    requires RecordedBySave(prior, root, skip, m)
    ensures m.files.Some? && m.emptyDirs.Some?
  {
  }

  // ----- The whole import -----

  datatype Outcome = Success(after: Fs) | Failed(after: Fs)

  datatype Failure = InventoryMissing | InventoryEscapes | StagingFailed | InventoryMismatch | RolledBack | RollbackFailed

  /** What the container and the file system make of each step. */
  datatype Environment = Environment(
    stage: Path, mount: (Path, Tree, Fs) -> Outcome, dropped: Path -> bool, take: Fs -> Tree,
    fileFails: Path -> bool, dirFails: Path -> bool, backFileFails: Path -> bool, backDirFails: Path -> bool, stageStays: bool)

  /** A mount that succeeds does what a mount does; one into the stage, even a failing one, stays there. The backup is an
      export, and what an export drops it drops with all that lies below. */
  ghost predicate Reasonable(env: Environment, root: Path)
  {
    && Under(root, env.stage) && env.stage != [] && Generated(env.stage[|root|..])
    && (forall at, tree, fs {:trigger env.mount(at, tree, fs)} :: WellFormed(fs) ==>
          && WellFormed(env.mount(at, tree, fs).after)
          && (at == env.stage ==> SameOutside(env.stage, env.mount(at, tree, fs).after, fs))
          && (env.mount(at, tree, fs).Success? ==> Mounted(fs, at, tree, env.mount(at, tree, fs).after)))
    && (forall p, i {:trigger env.dropped(p[..i])} :: 0 <= i <= |p| && env.dropped(p[..i]) ==> env.dropped(p))
    && (forall fs {:trigger env.take(fs)} :: WellFormed(fs) && root in fs.dirs ==> Exported(fs, root, env.dropped, env.take(fs)))
  }

  // ----- When a restore succeeds -----

  /** All directories are taken to be readable while a restore is under way. */
  function AllReadable(): Path -> bool
  {
    (p: Path) => true
  }

  predicate InventoryFits(root: Path, m: SnapshotManifest)
  {
    m.files.Some? && Relative(root, m.files.value).Some? && Relative(root, EmptyDirsOf(m)).Some?
  }

  /** The stage can be made and the export mounted into it. */
  predicate Stages(fs: Fs, env: Environment, tree: Tree)
  {
    (forall i :: 0 <= i <= |env.stage| ==> env.stage[..i] !in fs.files)
    && env.mount(env.stage, tree, MakeDir(fs, env.stage)).Success?
  }

  function Staged(fs: Fs, env: Environment, tree: Tree): Fs
  {
    env.mount(env.stage, tree, MakeDir(fs, env.stage)).after
  }

  /** The export can be mounted in place, and whatever file the inventory does not have can be deleted. */
  ghost predicate Replaces(staged: Fs, root: Path, skip: Path -> bool, env: Environment, tree: Tree, inventory: Inventory)
  {
    var mounted := env.mount(root, tree, staged);
    mounted.Success? && !StaleFileFails(mounted.after, root, skip, inventory, env.fileFails)
  }

  /** The backup can be mounted, and whatever file was not there before can be deleted. */
  ghost predicate Returns(staged: Fs, broken: Fs, root: Path, skip: Path -> bool, env: Environment)
  {
    var back := env.mount(root, env.take(staged), broken);
    back.Success? && !NewFileFails(back.after, staged, root, skip, env.backFileFails)
  }

  ghost predicate NewFileFails(fs: Fs, prior: Fs, root: Path, skip: Path -> bool, fails: Path -> bool)
  {
    exists f :: ListedFile(fs, root, skip, f) && !ListedFile(prior, root, skip, f) && fails(f)
  }

  lemma SameStaleFiles(fs: Fs, root: Path, skip: Path -> bool, inventory: Inventory, fails: Path -> bool)
    ensures StaleFileFails(fs, root, Unseen(skip, AllReadable()), inventory, fails) <==> StaleFileFails(fs, root, skip, inventory, fails)
  {
    hide Visible, Unseen;
    forall f
      ensures ListedFile(fs, root, Unseen(skip, AllReadable()), f) <==> ListedFile(fs, root, skip, f)
    {
      AllSeen(root, skip, AllReadable(), f);
    }
  }

  lemma NewFilesAreStale(fs: Fs, prior: Fs, root: Path, skip: Path -> bool, inventory: Inventory, fails: Path -> bool)
    requires Recorded(prior, root, skip, inventory)
    ensures StaleFileFails(fs, root, skip, inventory, fails) <==> NewFileFails(fs, prior, root, skip, fails)
  {
    hide Visible;
    forall f
      ensures f in inventory.files <==> ListedFile(prior, root, skip, f)
    {
    }
  }

  predicate SameOutside(stage: Path, a: Fs, b: Fs)
  {
    && (forall f :: f in a.files && !Under(stage, f) ==> f in b.files && a.files[f] == b.files[f])
    && (forall f :: f in b.files && !Under(stage, f) ==> f in a.files)
  }

  function MakeDir(fs: Fs, dir: Path): Fs
  {
    fs.(dirs := fs.dirs + set i | 0 <= i <= |dir| :: dir[..i])
  }

  lemma MakeDirShape(fs: Fs, dir: Path)
    requires WellFormed(fs) && forall i :: 0 <= i <= |dir| ==> dir[..i] !in fs.files
    ensures WellFormed(MakeDir(fs, dir)) && dir in MakeDir(fs, dir).dirs
  {
    assert dir[..|dir|] == dir;
    forall i | 0 < i <= |dir|
      ensures Parent(dir[..i]) in MakeDir(fs, dir).dirs
    {
      assert Parent(dir[..i]) == dir[..i - 1];
    }
  }

  /** The files a restore has to do with: those outside the stage. */
  ghost predicate SameFiles(root: Path, skip: Path -> bool, stage: Path, a: Fs, b: Fs)
  {
    forall f {:trigger ListedFile(a, root, skip, f)} {:trigger ListedFile(b, root, skip, f)} :: !Under(stage, f) ==>
      (ListedFile(a, root, skip, f) <==> ListedFile(b, root, skip, f))
      && (ListedFile(a, root, skip, f) ==> a.files[f] == b.files[f])
  }

  lemma OutsideIsSameFiles(root: Path, skip: Path -> bool, stage: Path, a: Fs, b: Fs)
    requires SameOutside(stage, a, b)
    ensures SameFiles(root, skip, stage, a, b)
  {
    hide Visible;
  }

  ghost predicate HasTheManifest(fs: Fs, root: Path, skip: Path -> bool, stage: Path, m: SnapshotManifest, tree: Tree)
    requires m.files.Some?
  {
    forall f {:trigger f in m.files.value} {:trigger ListedFile(fs, root, skip, f)} :: !Under(stage, f) ==>
      && (Under(root, f) && f in m.files.value && !Generated(f[|root|..]) ==>
            f in fs.files && f[|root|..] in tree.files && fs.files[f] == tree.files[f[|root|..]])
      && (ListedFile(fs, root, skip, f) ==> f in m.files.value)
  }

  /** What a rollback comes to, for the files outside the stage. */
  ghost predicate Undone(root: Path, skip: Path -> bool, env: Environment, after: Fs, prior: Fs, broken: Fs)
  {
    forall f {:trigger ListedFile(after, root, skip, f)} {:trigger ListedFile(prior, root, skip, f)} :: !Under(env.stage, f) ==>
      (ListedFile(after, root, skip, f) ==> ListedFile(prior, root, skip, f))
      && (ListedFile(prior, root, skip, f) ==>
            (HoldsFile(after, f, prior.files[f]) <==> !env.dropped(f) || HoldsFile(broken, f, prior.files[f])))
  }

  lemma UndoneOutside(root: Path, skip: Path -> bool, env: Environment, after: Fs, undone: Fs, prior: Fs, start: Fs, broken: Fs)
    requires Undone(root, skip, env, undone, prior, broken)
    requires SameOutside(env.stage, after, undone) && SameOutside(env.stage, prior, start)
    ensures Undone(root, skip, env, after, start, broken)
  {
    hide Visible;
    forall f | !Under(env.stage, f)
      ensures ListedFile(after, root, skip, f) ==> ListedFile(start, root, skip, f)
      ensures ListedFile(start, root, skip, f) ==>
                (HoldsFile(after, f, start.files[f]) <==> !env.dropped(f) || HoldsFile(broken, f, start.files[f]))
    {
      assert ListedFile(after, root, skip, f) <==> ListedFile(undone, root, skip, f);
      assert ListedFile(start, root, skip, f) <==> ListedFile(prior, root, skip, f);
    }
  }

  lemma RecordedAsSeen(fs: Fs, root: Path, skip: Path -> bool, listing: Listing)
    requires Lists(listing, fs, root, Unseen(skip, AllReadable()), AllReadable())
    ensures Recorded(fs, root, skip, Inventory(set f | f in listing.files, set d | d in listing.dirs))
  {
    hide Visible, Unseen;
    forall p
      ensures Visible(root, Unseen(skip, AllReadable()), p) <==> Visible(root, skip, p)
    {
      AllSeen(root, skip, AllReadable(), p);
    }
    forall f
      ensures ListedFile(fs, root, Unseen(skip, AllReadable()), f) <==> ListedFile(fs, root, skip, f)
      ensures ListedDir(fs, root, Unseen(skip, AllReadable()), f) <==> ListedDir(fs, root, skip, f)
    {
    }
  }

  lemma SameOutsideTwice(stage: Path, a: Fs, b: Fs, c: Fs)
    requires SameOutside(stage, a, b) && SameOutside(stage, b, c)
    ensures SameOutside(stage, a, c)
  {
  }

  lemma ManifestIsThere(staged: Fs, root: Path, skip: Path -> bool, m: SnapshotManifest, tree: Tree, mounted: Fs,
                        pruned: Fs, env: Environment)
    requires Mounted(staged, root, tree, mounted)
    requires m.files.Some? && Relative(root, m.files.value).Some? && Relative(root, EmptyDirsOf(m)).Some?
    requires StageMatches(root, m, tree.files.Keys, EmptyDirsIn(tree))
    requires IsPruned(pruned, mounted, root, skip, InventoryOf(m).value, Failing(mounted, env.dirFails))
    ensures HasTheManifest(pruned, root, skip, env.stage, m, tree)
  {
    hide Visible, Mounted, IsPruned, StageMatches;
    forall f
      ensures Under(root, f) && f in m.files.value && !Generated(f[|root|..]) ==>
                f in pruned.files && f[|root|..] in tree.files && pruned.files[f] == tree.files[f[|root|..]]
      ensures ListedFile(pruned, root, skip, f) ==> f in m.files.value
    {
      RestoreEndsWithTheManifest(staged, root, skip, m, tree, mounted, pruned, Failing(mounted, env.dirFails), EmptyDirsIn(tree), f);
    }
  }

  lemma ManifestOutside(root: Path, skip: Path -> bool, stage: Path, m: SnapshotManifest, tree: Tree, a: Fs, b: Fs)
    requires m.files.Some? && HasTheManifest(a, root, skip, stage, m, tree) && SameOutside(stage, b, a)
    ensures HasTheManifest(b, root, skip, stage, m, tree)
  {
    hide Visible;
  }

  lemma StageIsBelow(fs: Fs, root: Path, stage: Path)
    requires WellFormed(fs) && stage in fs.dirs && Under(root, stage)
    ensures root in fs.dirs
  {
    if root != stage {
      AncestorsAreDirs(fs, root, stage);
    }
  }

  class Restorer {
    const target: SnapshotTarget

    constructor (target: SnapshotTarget)
      ensures this.target == target
    {
      this.target := target;
    }

    /** Mounts the export back and prunes by the old listing. */
    method Rollback(ghost prior: Fs, root: Path, skip: Path -> bool, env: Environment, tree: Tree, inventory: Inventory)
      returns (ok: bool)
      requires WellFormed(target.fs) && WellFormed(prior) && Reasonable(env, root)
      requires Exported(prior, root, env.dropped, tree) && Recorded(prior, root, skip, inventory)
      modifies target
      ensures WellFormed(target.fs)
      ensures ok <==> env.mount(root, tree, old(target.fs)).Success?
                      && !NewFileFails(env.mount(root, tree, old(target.fs)).after, prior, root, skip, env.backFileFails)
      ensures ok ==> Undone(root, skip, env, target.fs, prior, old(target.fs))
    {
      ghost var broken := target.fs;
      var back := env.mount(root, tree, target.fs);
      target.fs := back.after;
      if back.Failed? {
        return false;
      }
      SameStaleFiles(back.after, root, skip, inventory, env.backFileFails);
      NewFilesAreStale(back.after, prior, root, skip, inventory, env.backFileFails);
      ok := target.Prune(root, skip, AllReadable(), Some(inventory), env.backFileFails, env.backDirFails);
      if ok {
        var failing := Failing(back.after, env.backDirFails);
        PrunedAsSeen(target.fs, back.after, root, skip, AllReadable(), inventory, failing);
        forall f
          ensures ListedFile(target.fs, root, skip, f) ==> ListedFile(prior, root, skip, f)
          ensures ListedFile(prior, root, skip, f) ==>
                    (HoldsFile(target.fs, f, prior.files[f]) <==> !env.dropped(f) || HoldsFile(broken, f, prior.files[f]))
        {
          RollbackRestoresTheFiles(prior, broken, root, skip, env.dropped, tree, inventory, back.after, target.fs, failing, f);
        }
      }
    }

    /** The stage goes, whatever happened before, unless its deletion fails. */
    method RemoveStage(env: Environment)
      requires WellFormed(target.fs) && env.stage != []
      modifies target
      ensures WellFormed(target.fs) && SameOutside(env.stage, target.fs, old(target.fs))
      ensures !env.stageStays ==> forall f :: f in target.fs.files ==> !Under(env.stage, f)
    {
      if !env.stageStays {
        RemoveTreeKeepsShape(target.fs, env.stage);
        target.fs := RemoveTree(target.fs, env.stage);
      }
    }

    /** Mounts the export into the stage and compares it with the manifest. */
    method Stage(root: Path, m: SnapshotManifest, tree: Tree, env: Environment) returns (failure: Option<Failure>)
      requires WellFormed(target.fs) && Reasonable(env, root) && WellFormed(tree)
      requires InventoryFits(root, m)
      requires forall p :: p in target.fs.files.Keys + target.fs.dirs ==> !Under(env.stage, p)
      modifies target
      ensures WellFormed(target.fs) && SameOutside(env.stage, target.fs, old(target.fs))
      ensures failure == if !Stages(old(target.fs), env, tree) then Some(StagingFailed)
                         else if !StageMatches(root, m, tree.files.Keys, EmptyDirsIn(tree)) then Some(InventoryMismatch) else None
      ensures failure.None? ==> target.fs == Staged(old(target.fs), env, tree) && env.stage in target.fs.dirs
    {
      if exists i :: 0 <= i <= |env.stage| && env.stage[..i] in target.fs.files {
        return Some(StagingFailed);
      }
      MakeDirShape(target.fs, env.stage);
      target.fs := MakeDir(target.fs, env.stage);
      ghost var made := target.fs;
      var staged := env.mount(env.stage, tree, target.fs);
      target.fs := staged.after;
      if staged.Failed? {
        return Some(StagingFailed);
      }
      assert !Carried(env.stage, tree, env.stage) by {
        RootIsDir(tree);
      }
      var none := (p: Path) => false;
      var actual := ListTree(target.fs, env.stage, none, AllReadable());
      StageShowsTheExport(made, env.stage, tree, target.fs, actual, none, AllReadable());
      var files := Below(env.stage, set f | f in actual.files);
      var emptyDirs := Below(env.stage, set d | d in actual.emptyDirs);
      if !StageMatches(root, m, files, emptyDirs) {
        return Some(InventoryMismatch);
      }
      return None;
    }

    /** `importVerifiedBinary`; `broken` is the workspace as a failed restore has left it. */
    method ImportVerified(root: Path, skip: Path -> bool, m: SnapshotManifest, tree: Tree, env: Environment)
      returns (result: Result<(), Failure>, ghost broken: Fs)
      requires WellFormed(target.fs) && Reasonable(env, root) && WellFormed(tree)
      requires forall p :: p in target.fs.files.Keys + target.fs.dirs ==> !Under(env.stage, p)
      modifies target
      ensures result == Err(InventoryMissing) <==> m.files.None?
      ensures result == Err(InventoryEscapes) <==> m.files.Some? && !InventoryFits(root, m)
      ensures result == Err(StagingFailed) <==> InventoryFits(root, m) && !Stages(old(target.fs), env, tree)
      ensures result == Err(InventoryMismatch) <==>
                InventoryFits(root, m) && Stages(old(target.fs), env, tree)
                && !StageMatches(root, m, tree.files.Keys, EmptyDirsIn(tree))
      ensures result.Ok? <==>
                InventoryFits(root, m) && Stages(old(target.fs), env, tree)
                && StageMatches(root, m, tree.files.Keys, EmptyDirsIn(tree))
                && Replaces(Staged(old(target.fs), env, tree), root, skip, env, tree, InventoryOf(m).value)
      ensures result.Err? && result.error in {RolledBack, RollbackFailed} ==>
                (result == Err(RolledBack) <==> Returns(Staged(old(target.fs), env, tree), broken, root, skip, env))
      ensures result.Ok? ==> m.files.Some? && HasTheManifest(target.fs, root, skip, env.stage, m, tree)
      ensures result.Err? && result.error !in {RolledBack, RollbackFailed} ==>
                SameFiles(root, skip, env.stage, target.fs, old(target.fs))
      ensures result == Err(RolledBack) ==> Undone(root, skip, env, target.fs, old(target.fs), broken)
      ensures !env.stageStays ==> forall f :: f in target.fs.files ==> !Under(env.stage, f)
    {
      broken := target.fs;
      if m.files.None? {
        return Err(InventoryMissing), broken;
      }
      if Relative(root, m.files.value).None? || Relative(root, EmptyDirsOf(m)).None? {
        return Err(InventoryEscapes), broken;
      }
      var failure := Stage(root, m, tree, env);
      ghost var staged := target.fs;
      if failure.Some? {
        RemoveStage(env);
        SameOutsideTwice(env.stage, target.fs, staged, old(target.fs));
        OutsideIsSameFiles(root, skip, env.stage, target.fs, old(target.fs));
        return Err(failure.value), broken;
      }
      StageIsBelow(staged, root, env.stage);
      var beforeData := env.take(target.fs);
      var before := ListTree(target.fs, root, skip, AllReadable());
      var inventory := Inventory(set f | f in before.files, set d | d in before.dirs);
      RecordedAsSeen(staged, root, skip, before);
      var mounted := env.mount(root, tree, target.fs);
      target.fs := mounted.after;
      var ok := mounted.Success?;
      if ok {
        SameStaleFiles(mounted.after, root, skip, InventoryOf(m).value, env.fileFails);
        ok := target.Prune(root, skip, AllReadable(), InventoryOf(m), env.fileFails, env.dirFails);
      }
      if ok {
        PrunedAsSeen(target.fs, mounted.after, root, skip, AllReadable(), InventoryOf(m).value, Failing(mounted.after, env.dirFails));
        ManifestIsThere(staged, root, skip, m, tree, mounted.after, target.fs, env);
        ghost var pruned := target.fs;
        RemoveStage(env);
        ManifestOutside(root, skip, env.stage, m, tree, pruned, target.fs);
        return Ok(()), broken;
      }
      broken := target.fs;
      var undone := Rollback(staged, root, skip, env, beforeData, inventory);
      ghost var restored := target.fs;
      RemoveStage(env);
      if !undone {
        return Err(RollbackFailed), broken;
      }
      UndoneOutside(root, skip, env, target.fs, restored, staged, old(target.fs), broken);
      return Err(RolledBack), broken;
    }
  }
}
