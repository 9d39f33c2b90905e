/** Listing a file tree and deleting what a snapshot does not know. Paths are sequences of names. */
module SnapshotTree {
  import opened Text

  type Path = seq<string>

  datatype Fs = Fs(files: map<Path, string>, dirs: set<Path>)

  predicate Under(ancestor: Path, p: Path)
  {
    |ancestor| <= |p| && p[..|ancestor|] == ancestor
  }

  function Parent(p: Path): Path
    requires p != []
  {
    p[..|p| - 1]
  }

  /** Everything but the root lies in a directory, and nothing is both a file and a directory. */
  predicate WellFormed(fs: Fs)
  {
    && [] in fs.dirs && fs.files.Keys !! fs.dirs
    && (forall p :: p in fs.files && p != [] ==> Parent(p) in fs.dirs)
    && (forall p :: p in fs.dirs && p != [] ==> Parent(p) in fs.dirs)
  }

  lemma {:induction false} AncestorsAreDirs(fs: Fs, ancestor: Path, p: Path)
    requires WellFormed(fs) && (p in fs.files || p in fs.dirs) && Under(ancestor, p) && ancestor != p
    ensures ancestor in fs.dirs
    decreases |p|
  {
    assert Parent(p) in fs.dirs;
    if ancestor != Parent(p) {
      assert Under(ancestor, Parent(p)) by {
        assert Parent(p)[..|ancestor|] == p[..|ancestor|];
      }
      AncestorsAreDirs(fs, ancestor, Parent(p));
    } else {
      assert |ancestor| == |p| - 1;
    }
  }

  function Children(fs: Fs, dir: Path): set<Path>
  {
    set p | p in fs.files.Keys + fs.dirs && p != [] && Parent(p) == dir
  }

  // ----- What is listed -----

  /** Strictly below the root, with no skipped directory on the way and not skipped itself. */
  ghost predicate Visible(root: Path, skip: Path -> bool, p: Path)
  {
    Under(root, p) && |root| < |p| && forall i {:trigger p[..i]} :: |root| < i <= |p| ==> !skip(p[..i])
  }

  ghost predicate ListedFile(fs: Fs, root: Path, skip: Path -> bool, p: Path)
  {
    p in fs.files && Visible(root, skip, p)
  }

  /** An empty root lists itself. */
  ghost predicate ListedDir(fs: Fs, root: Path, skip: Path -> bool, p: Path)
  {
    p in fs.dirs && (Visible(root, skip, p) || (p == root && Children(fs, root) == {}))
  }

  ghost predicate ListedEmptyDir(fs: Fs, root: Path, skip: Path -> bool, p: Path)
  {
    p in fs.dirs && (Visible(root, skip, p) || p == root) && Children(fs, p) == {}
  }

  datatype Listing = Listing(files: seq<Path>, dirs: seq<Path>, emptyDirs: seq<Path>)

  /** What is not seen: what is skipped, and what lies in a directory that cannot be read. */
  function Unseen(skip: Path -> bool, readable: Path -> bool): Path -> bool
  {
    (p: Path) => skip(p) || (p != [] && !readable(Parent(p)))
  }

  /** A directory that cannot be read is listed by the one above it, but not as empty. */
  ghost predicate Lists(listing: Listing, fs: Fs, root: Path, unseen: Path -> bool, readable: Path -> bool)
  {
    && (forall p {:trigger p in listing.files} {:trigger ListedFile(fs, root, unseen, p)} ::
          p in listing.files <==> ListedFile(fs, root, unseen, p))
    && (forall p {:trigger p in listing.dirs} {:trigger ListedDir(fs, root, unseen, p)} ::
          p in listing.dirs <==> ListedDir(fs, root, unseen, p) && (p == root ==> readable(root)))
    && (forall p {:trigger p in listing.emptyDirs} {:trigger ListedEmptyDir(fs, root, unseen, p)} ::
          p in listing.emptyDirs <==> ListedEmptyDir(fs, root, unseen, p) && readable(p))
  }

  /** Below `dir` or `dir` itself: shrinks on the way down. */
  function Subtree(fs: Fs, dir: Path): set<Path>
  {
    set p | p in fs.dirs && Under(dir, p)
  }

  lemma ChildIsSmaller(fs: Fs, dir: Path, child: Path)
    requires dir in fs.dirs && child in fs.dirs && child != [] && Parent(child) == dir
    ensures |Subtree(fs, child)| < |Subtree(fs, dir)|
  {
    forall p | p in Subtree(fs, child)
      ensures p in Subtree(fs, dir)
    {
      assert p[..|dir|] == p[..|child|][..|dir|];
    }
    assert dir in Subtree(fs, dir) && dir !in Subtree(fs, child);
    Shrinks(Subtree(fs, child), Subtree(fs, dir));
  }

  lemma Shrinks<T>(a: set<T>, b: set<T>)
    requires a < b
    ensures |a| < |b|
  {
    var rest := b - a;
    assert b == a + rest;
    assert rest != {};
  }

  /** The child of `dir` a path goes through. */
  function Head(dir: Path, p: Path): Path
    requires |dir| < |p|
  {
    p[..|dir| + 1]
  }

  lemma VisibleThrough(dir: Path, skip: Path -> bool, c: Path, p: Path)
    requires |c| == |dir| + 1 && c[..|dir|] == dir && Under(c, p)
    ensures Visible(dir, skip, p) <==> !skip(c) && (p == c || Visible(c, skip, p))
    ensures Head(dir, p) == c
  {
    assert p[..|dir|] == c[..|dir|];
    assert p[..|dir| + 1] == c;
    if !skip(c) && (p == c || Visible(c, skip, p)) {
      forall i | |dir| < i <= |p|
        ensures !skip(p[..i])
      {
        if i == |dir| + 1 {
        } else if p == c {
        } else {
          assert |c| < i;
        }
      }
    }
    if Visible(dir, skip, p) && p == c {
      assert p[..|p|] == c;
    }
  }

  /** Whatever lies strictly below a directory goes through one of its children. */
  lemma HeadIsChild(fs: Fs, dir: Path, p: Path)
    requires WellFormed(fs) && (p in fs.files || p in fs.dirs) && Under(dir, p) && |dir| < |p|
    ensures Head(dir, p) in Children(fs, dir) && Under(Head(dir, p), p)
    ensures |p| > |dir| + 1 ==> Head(dir, p) in fs.dirs
  {
    var c := Head(dir, p);
    assert Parent(c) == p[..|dir|];
    if c != p {
      AncestorsAreDirs(fs, c, p);
    }
  }

  /** What the children handled so far contribute. */
  ghost predicate ListsSome(listing: Listing, fs: Fs, dir: Path, skip: Path -> bool, readable: Path -> bool, done: set<Path>)
  {
    && (forall p {:trigger p in listing.files} :: p in listing.files <==> ListedFile(fs, dir, skip, p) && Head(dir, p) in done)
    && (forall p {:trigger p in listing.dirs} ::
          p in listing.dirs <==> p in fs.dirs && Visible(dir, skip, p) && Head(dir, p) in done)
    && (forall p {:trigger p in listing.emptyDirs} ::
          p in listing.emptyDirs
          <==> p in fs.dirs && Visible(dir, skip, p) && Children(fs, p) == {} && readable(p) && Head(dir, p) in done)
  }

  lemma SkippedAdds(listing: Listing, fs: Fs, dir: Path, skip: Path -> bool, readable: Path -> bool, done: set<Path>, c: Path)
    requires WellFormed(fs) && c in Children(fs, dir) && skip(c) && ListsSome(listing, fs, dir, skip, readable, done)
    ensures ListsSome(listing, fs, dir, skip, readable, done + {c})
  {
    forall p | Visible(dir, skip, p)
      ensures Head(dir, p) != c
    {
      assert !skip(p[..|dir| + 1]);
    }
  }

  lemma FileAdds(listing: Listing, fs: Fs, dir: Path, skip: Path -> bool, readable: Path -> bool, done: set<Path>, c: Path)
    requires WellFormed(fs) && c in Children(fs, dir) && c in fs.files && !skip(c) && ListsSome(listing, fs, dir, skip, readable, done)
    ensures ListsSome(listing.(files := listing.files + [c]), fs, dir, skip, readable, done + {c})
  {
    VisibleThrough(dir, skip, c, c);
    forall p | Visible(dir, skip, p) && (p in fs.files || p in fs.dirs) && Head(dir, p) == c
      ensures p == c
    {
      HeadIsChild(fs, dir, p);
    }
  }

  lemma DirAdds(listing: Listing, inner: Listing, fs: Fs, dir: Path, skip: Path -> bool, readable: Path -> bool, done: set<Path>, c: Path)
    requires WellFormed(fs) && c in Children(fs, dir) && c in fs.dirs && !skip(c)
    requires ListsSome(listing, fs, dir, skip, readable, done) && Lists(inner, fs, c, skip, readable)
    ensures ListsSome(Joined(listing, inner, c), fs, dir, skip, readable, done + {c})
  {
    hide Children;
    ChildShape(fs, dir, c);
    var all := Joined(listing, inner, c);
    forall p | Visible(dir, skip, p) && Head(dir, p) == c
      ensures p == c || Visible(c, skip, p)
    {
      assert Under(c, p);
      VisibleThrough(dir, skip, c, p);
    }
    forall p | p == c || Visible(c, skip, p)
      ensures Visible(dir, skip, p) && Head(dir, p) == c
    {
      VisibleThrough(dir, skip, c, p);
    }
    forall p
      ensures p in all.files <==> ListedFile(fs, dir, skip, p) && Head(dir, p) in done + {c}
      ensures p in all.dirs <==> p in fs.dirs && Visible(dir, skip, p) && Head(dir, p) in done + {c}
      ensures p in all.emptyDirs
              <==> p in fs.dirs && Visible(dir, skip, p) && Children(fs, p) == {} && readable(p) && Head(dir, p) in done + {c}
    {
      JoinedHas(listing, inner, c, p);
      assert p in inner.files <==> ListedFile(fs, c, skip, p);
      assert p in inner.dirs <==> ListedDir(fs, c, skip, p) && (p == c ==> readable(c));
      assert p in inner.emptyDirs <==> ListedEmptyDir(fs, c, skip, p) && readable(p);
    }
  }

  lemma ChildShape(fs: Fs, dir: Path, c: Path)
    requires c in Children(fs, dir)
    ensures |c| == |dir| + 1 && c[..|dir|] == dir
  {
  }

  function Joined(listing: Listing, inner: Listing, c: Path): Listing
  {
    Listing(listing.files + inner.files, listing.dirs + [c] + inner.dirs, listing.emptyDirs + inner.emptyDirs)
  }

  lemma JoinedHas(listing: Listing, inner: Listing, c: Path, p: Path)
    ensures var all := Joined(listing, inner, c);
      && (p in all.files <==> p in listing.files || p in inner.files)
      && (p in all.dirs <==> p in listing.dirs || p == c || p in inner.dirs)
      && (p in all.emptyDirs <==> p in listing.emptyDirs || p in inner.emptyDirs)
  {
  }

  lemma AllChildrenList(listing: Listing, fs: Fs, dir: Path, skip: Path -> bool, readable: Path -> bool)
    requires WellFormed(fs) && Children(fs, dir) != {} && ListsSome(listing, fs, dir, skip, readable, Children(fs, dir))
    ensures Lists(listing, fs, dir, skip, readable)
  {
    hide Children;
    forall p | Visible(dir, skip, p) && (p in fs.files || p in fs.dirs)
      ensures Head(dir, p) in Children(fs, dir)
    {
      HeadIsChild(fs, dir, p);
    }
  }

  lemma NoChildrenList(fs: Fs, dir: Path, skip: Path -> bool, readable: Path -> bool)
    requires WellFormed(fs) && dir in fs.dirs && Children(fs, dir) == {} && readable(dir)
    ensures Lists(Listing([], [dir], [dir]), fs, dir, skip, readable)
  {
    hide Children;
    forall p | Visible(dir, skip, p)
      ensures p !in fs.files && p !in fs.dirs
    {
      if p in fs.files || p in fs.dirs {
        HeadIsChild(fs, dir, p);
      }
    }
  }

  /** The walk of the tree, in whatever order a directory lists its entries. */
  method Visit(fs: Fs, dir: Path, skip: Path -> bool, readable: Path -> bool) returns (listing: Listing)
    requires WellFormed(fs) && dir in fs.dirs
    ensures Lists(listing, fs, dir, Unseen(skip, readable), readable)
    decreases |Subtree(fs, dir)|
  {
    if !readable(dir) {
      UnreadListsNothing(fs, dir, skip, readable);
      return Listing([], [], []);
    }
    ghost var unseen := Unseen(skip, readable);
    var entries := Children(fs, dir);
    if entries == {} {
      NoChildrenList(fs, dir, unseen, readable);
      return Listing([], [dir], [dir]);
    }
    listing := Listing([], [], []);
    ghost var done: set<Path> := {};
    while entries != {}
      invariant entries <= Children(fs, dir) && done == Children(fs, dir) - entries
      invariant ListsSome(listing, fs, dir, unseen, readable, done)
      decreases |entries|
    {
      var path :| path in entries;
      assert unseen(path) == skip(path);
      if skip(path) {
        SkippedAdds(listing, fs, dir, unseen, readable, done, path);
      } else if path in fs.dirs {
        ChildIsSmaller(fs, dir, path);
        var inner := Visit(fs, path, skip, readable);
        DirAdds(listing, inner, fs, dir, unseen, readable, done, path);
        listing := Joined(listing, inner, path);
      } else {
        FileAdds(listing, fs, dir, unseen, readable, done, path);
        listing := listing.(files := listing.files + [path]);
      }
      entries := entries - {path};
      done := done + {path};
    }
    AllChildrenList(listing, fs, dir, unseen, readable);
  }

  lemma UnreadListsNothing(fs: Fs, dir: Path, skip: Path -> bool, readable: Path -> bool)
    requires !readable(dir)
    ensures Lists(Listing([], [], []), fs, dir, Unseen(skip, readable), readable)
  {
    forall p | Under(dir, p) && |dir| < |p|
      ensures !Visible(dir, Unseen(skip, readable), p)
    {
      assert Parent(p[..|dir| + 1]) == dir;
      assert Unseen(skip, readable)(p[..|dir| + 1]);
    }
  }

  /** A root that does not exist cannot be read either. */
  method ListTree(fs: Fs, root: Path, skip: Path -> bool, readable: Path -> bool) returns (listing: Listing)
    requires WellFormed(fs)
    ensures Lists(listing, fs, root, Unseen(skip, readable), readable)
  {
    if root !in fs.dirs {
      forall p | Visible(root, Unseen(skip, readable), p)
        ensures p !in fs.files && p !in fs.dirs
      {
        if p in fs.files || p in fs.dirs {
          AncestorsAreDirs(fs, root, p);
        }
      }
      return Listing([], [], []);
    }
    listing := Visit(fs, root, skip, readable);
  }

  /** With everything readable nothing but what is skipped stays unseen. */
  lemma AllSeen(root: Path, skip: Path -> bool, readable: Path -> bool, p: Path)
    requires forall d :: readable(d)
    ensures Visible(root, Unseen(skip, readable), p) <==> Visible(root, skip, p)
  {
    if Visible(root, Unseen(skip, readable), p) {
      forall i | |root| < i <= |p|
        ensures !skip(p[..i])
      {
        assert !Unseen(skip, readable)(p[..i]);
      }
    }
  }

  // ----- Deleting -----

  function RemoveFile(fs: Fs, file: Path): Fs
  {
    fs.(files := fs.files - {file})
  }

  /** `rm` with `recursive`: the path and everything under it. */
  function RemoveTree(fs: Fs, dir: Path): Fs
  {
    Fs(map p | p in fs.files && !Under(dir, p) :: fs.files[p], set p | p in fs.dirs && !Under(dir, p))
  }

  /** What a snapshot says it holds. */
  datatype Inventory = Inventory(files: set<Path>, emptyDirs: set<Path>)

  /** The listed empty directories, and the directories above the files, but not those above the empty directories. */
  predicate Desired(inventory: Inventory, dir: Path)
  {
    dir in inventory.emptyDirs || exists f :: f in inventory.files && 0 < |dir| < |f| && Under(dir, f)
  }

  ghost predicate StaleDir(fs: Fs, root: Path, skip: Path -> bool, inventory: Inventory, dir: Path)
  {
    ListedDir(fs, root, skip, dir) && dir != root && !Desired(inventory, dir)
  }

  ghost predicate BelowStale(fs: Fs, root: Path, skip: Path -> bool, inventory: Inventory, failing: set<Path>, p: Path)
  {
    exists d :: d in fs.dirs && d !in failing && StaleDir(fs, root, skip, inventory, d) && Under(d, p)
  }

  /** What is left when every stale file is deleted, and every stale directory whose deletion does not fail. */
  ghost predicate IsPruned(after: Fs, fs: Fs, root: Path, skip: Path -> bool, inventory: Inventory, failing: set<Path>)
  {
    && (forall f {:trigger f in after.files} {:trigger f in fs.files} ::
          f in after.files
          <==> f in fs.files && (f in inventory.files || !Visible(root, skip, f))
               && !BelowStale(fs, root, skip, inventory, failing, f))
    && (forall f :: f in after.files ==> f in fs.files && after.files[f] == fs.files[f])
    && (forall d {:trigger d in after.dirs} {:trigger d in fs.dirs} ::
          d in after.dirs <==> d in fs.dirs && !BelowStale(fs, root, skip, inventory, failing, d))
  }

  /** No file of the inventory is deleted, not even through a directory above it. */
  lemma PruneKeepsTheInventory(after: Fs, fs: Fs, root: Path, skip: Path -> bool, inventory: Inventory,
                               failing: set<Path>, f: Path)
    requires WellFormed(fs) && IsPruned(after, fs, root, skip, inventory, failing)
    requires f in inventory.files && f in fs.files
    ensures f in after.files && after.files[f] == fs.files[f]
  {
    hide Children;
    forall d | d in fs.dirs && d != [] && Under(d, f)
      ensures Desired(inventory, d)
    {
      assert d != f;
    }
  }

  /** No other file is left, except what is skipped or lies outside. */
  lemma PruneLeavesNothingElse(after: Fs, fs: Fs, root: Path, skip: Path -> bool, inventory: Inventory,
                               failing: set<Path>, f: Path)
    requires IsPruned(after, fs, root, skip, inventory, failing) && ListedFile(after, root, skip, f)
    ensures f in inventory.files && f in fs.files
  {
  }

  /** A listed empty directory survives exactly when no listed directory above it is stale: the directories above an
      empty directory are wanted only for the sake of some file. */
  lemma EmptyDirSurvives(after: Fs, fs: Fs, root: Path, skip: Path -> bool, inventory: Inventory, dir: Path)
    requires WellFormed(fs) && IsPruned(after, fs, root, skip, inventory, {})
    requires dir in inventory.emptyDirs && dir in fs.dirs && Visible(root, skip, dir)
    ensures dir in after.dirs <==>
            forall i :: |root| < i < |dir| ==>
              dir[..i] in inventory.emptyDirs || exists f :: f in inventory.files && i < |f| && Under(dir[..i], f)
  {
    hide Children;
    if dir in after.dirs {
      forall i | |root| < i < |dir|
        ensures dir[..i] in inventory.emptyDirs || exists f :: f in inventory.files && i < |f| && Under(dir[..i], f)
      {
        var d := dir[..i];
        AncestorsAreDirs(fs, d, dir);
        VisiblePrefix(root, skip, dir, i);
        assert Under(d, dir);
        assert !StaleDir(fs, root, skip, inventory, d);
      }
    }
    if d :| d in fs.dirs && StaleDir(fs, root, skip, inventory, d) && Under(d, dir) {
      assert d != dir && |root| < |d| < |dir| && dir[..|d|] == d;
    }
  }

  lemma VisiblePrefix(root: Path, skip: Path -> bool, p: Path, i: nat)
    requires Visible(root, skip, p) && |root| < i <= |p|
    ensures Visible(root, skip, p[..i])
  {
    assert p[..i][..|root|] == p[..|root|];
    forall j | |root| < j <= i
      ensures !skip(p[..i][..j])
    {
      assert p[..i][..j] == p[..j];
    }
  }

  /** The simplest case of an empty directory that is lost: its parent holds no file of the snapshot. */
  lemma NestedEmptyDirIsLost(fs: Fs, after: Fs, a: string, b: string)
    requires fs == Fs(map[], {[], [a], [a, b]})
    requires IsPruned(after, fs, [], (p: Path) => false, Inventory({}, {[a, b]}), {})
    ensures [a, b] in fs.dirs && [a, b] !in after.dirs
  {
    var skip, inventory := (p: Path) => false, Inventory({}, {[a, b]});
    assert Visible([], skip, [a]);
    assert StaleDir(fs, [], skip, inventory, [a]);
    assert Under([a], [a, b]);
  }

  lemma RemoveTreeKeepsShape(fs: Fs, dir: Path)
    requires WellFormed(fs) && dir != []
    ensures WellFormed(RemoveTree(fs, dir))
  {
    forall p | p != [] && Under(dir, Parent(p))
      ensures Under(dir, p)
    {
      assert p[..|dir|] == Parent(p)[..|dir|];
    }
  }

  function Failing(fs: Fs, fails: Path -> bool): set<Path>
  {
    set d | d in fs.dirs && fails(d)
  }

  predicate Removed(dirs: seq<Path>, root: Path, inventory: Inventory, fails: Path -> bool, p: Path)
  {
    exists d :: d in dirs && d != root && !Desired(inventory, d) && !fails(d) && Under(d, p)
  }

  lemma RemovedNext(dirs: seq<Path>, dir: Path, root: Path, inventory: Inventory, fails: Path -> bool)
    ensures forall p :: Removed(dirs + [dir], root, inventory, fails, p)
                        <==> Removed(dirs, root, inventory, fails, p)
                             || (dir != root && !Desired(inventory, dir) && !fails(dir) && Under(dir, p))
  {
    hide Desired, Under;
  }

  lemma PrunedAfterAll(fs: Fs, listing: Listing, root: Path, skip: Path -> bool, readable: Path -> bool, inventory: Inventory, fails: Path -> bool)
    requires Lists(listing, fs, root, skip, readable)
    ensures forall p :: Removed(listing.dirs, root, inventory, fails, p)
                        <==> BelowStale(fs, root, skip, inventory, Failing(fs, fails), p)
  {
    hide Desired, Under, Visible, Children;
    forall p
      ensures Removed(listing.dirs, root, inventory, fails, p)
              <==> BelowStale(fs, root, skip, inventory, Failing(fs, fails), p)
    {
      if d :| d in listing.dirs && d != root && !Desired(inventory, d) && !fails(d) && Under(d, p) {
        assert StaleDir(fs, root, skip, inventory, d);
      }
    }
  }

  lemma PrunedAsSeen(after: Fs, fs: Fs, root: Path, skip: Path -> bool, readable: Path -> bool, inventory: Inventory,
                     failing: set<Path>)
    requires (forall d :: readable(d)) && IsPruned(after, fs, root, Unseen(skip, readable), inventory, failing)
    ensures IsPruned(after, fs, root, skip, inventory, failing)
  {
    hide Desired, Under, Visible, Children, Unseen;
    forall p
      ensures Visible(root, Unseen(skip, readable), p) <==> Visible(root, skip, p)
    {
      AllSeen(root, skip, readable, p);
    }
    forall p
      ensures BelowStale(fs, root, Unseen(skip, readable), inventory, failing, p)
              <==> BelowStale(fs, root, skip, inventory, failing, p)
    {
      assert forall d :: StaleDir(fs, root, Unseen(skip, readable), inventory, d) <==> StaleDir(fs, root, skip, inventory, d);
    }
  }

  /** What was not seen when the inventory was taken is deleted by it, once it can be seen. */
  lemma UnreadFilesAreLost(after: Fs, fs: Fs, prior: Fs, root: Path, skip: Path -> bool, readable: Path -> bool, listing: Listing,
                           inventory: Inventory, failing: set<Path>, f: Path)
    requires Lists(listing, prior, root, Unseen(skip, readable), readable) && inventory.files == set p | p in listing.files
    requires IsPruned(after, fs, root, skip, inventory, failing) && Visible(root, skip, f)
    ensures f in after.files ==> forall i :: |root| <= i < |f| ==> readable(f[..i])
  {
    if f in after.files {
      assert f in inventory.files;
      assert ListedFile(prior, root, Unseen(skip, readable), f);
      forall i | |root| <= i < |f|
        ensures readable(f[..i])
      {
        assert !Unseen(skip, readable)(f[..i + 1]);
        assert Parent(f[..i + 1]) == f[..i];
      }
    }
  }

  /** A listed file that the inventory does not have cannot be deleted. */
  ghost predicate StaleFileFails(fs: Fs, root: Path, skip: Path -> bool, inventory: Inventory, fails: Path -> bool)
  {
    exists f :: ListedFile(fs, root, skip, f) && f !in inventory.files && fails(f)
  }

  ghost predicate OnlyStaleFilesGone(after: Fs, fs: Fs, root: Path, skip: Path -> bool, inventory: Inventory)
  {
    && (forall f :: f in after.files ==> f in fs.files && after.files[f] == fs.files[f])
    && (forall f :: f in fs.files && (f in inventory.files || !ListedFile(fs, root, skip, f)) ==> f in after.files)
  }

  class SnapshotTarget {
    var fs: Fs

    constructor (fs: Fs)
      ensures this.fs == fs
    {
      this.fs := fs;
    }

    /** Deletes the listed files the inventory does not have; the first deletion that fails ends it. */
    method RemoveStaleFiles(files: seq<Path>, inventory: Inventory, fails: Path -> bool) returns (ok: bool)
      requires WellFormed(fs)
      modifies this
      ensures WellFormed(fs) && fs.dirs == old(fs).dirs
      ensures forall f :: f in fs.files ==> f in old(fs).files && fs.files[f] == old(fs).files[f]
      ensures ok <==> forall f :: f in files && f !in inventory.files ==> !fails(f)
      ensures ok ==> forall f :: f in fs.files <==> f in old(fs).files && (f in files ==> f in inventory.files)
      ensures forall f :: f in old(fs).files && (f in inventory.files || f !in files || fails(f)) ==> f in fs.files
    {
      var i := 0;
      while i < |files|
        invariant 0 <= i <= |files| && WellFormed(fs) && fs.dirs == old(fs).dirs
        invariant forall f :: f in fs.files ==> f in old(fs).files && fs.files[f] == old(fs).files[f]
        invariant forall f :: f in fs.files <==> f in old(fs).files && (f in files[..i] ==> f in inventory.files)
        invariant forall f :: f in files[..i] && f !in inventory.files ==> !fails(f)
      {
        if files[i] !in inventory.files {
          if fails(files[i]) {
            assert files[i] in files;
            return false;
          }
          fs := RemoveFile(fs, files[i]);
        }
        assert files[..i + 1] == files[..i] + [files[i]];
        i := i + 1;
      }
      assert files[..|files|] == files;
      return true;
    }

    /** Deletes the listed directories that are not wanted, with all they hold; a failure is passed over. */
    method RemoveStaleDirs(dirs: seq<Path>, root: Path, inventory: Inventory, fails: Path -> bool)
      requires WellFormed(fs) && forall d :: d in dirs ==> d != root ==> d != []
      modifies this
      ensures WellFormed(fs)
      ensures forall f :: f in fs.files ==> f in old(fs).files && fs.files[f] == old(fs).files[f]
      ensures forall f :: f in fs.files <==> f in old(fs).files && !Removed(dirs, root, inventory, fails, f)
      ensures forall d :: d in fs.dirs <==> d in old(fs).dirs && !Removed(dirs, root, inventory, fails, d)
    {
      var i := 0;
      while i < |dirs|
        invariant 0 <= i <= |dirs| && WellFormed(fs)
        invariant forall f :: f in fs.files ==> f in old(fs).files && fs.files[f] == old(fs).files[f]
        invariant forall f :: f in fs.files <==> f in old(fs).files && !Removed(dirs[..i], root, inventory, fails, f)
        invariant forall d :: d in fs.dirs <==> d in old(fs).dirs && !Removed(dirs[..i], root, inventory, fails, d)
      {
        var dir := dirs[i];
        assert dir in dirs;
        assert dirs[..i + 1] == dirs[..i] + [dir];
        RemovedNext(dirs[..i], dir, root, inventory, fails);
        if dir != root && !Desired(inventory, dir) && !fails(dir) {
          RemoveTreeKeepsShape(fs, dir);
          fs := RemoveTree(fs, dir);
        }
        i := i + 1;
      }
      assert dirs[..|dirs|] == dirs;
    }

    /** `removeStaleSnapshotPaths`: it fails exactly when a listed file that the inventory does not have cannot be deleted, and
        even then it has deleted only such files. */
    method Prune(root: Path, skip: Path -> bool, readable: Path -> bool, inventory: Option<Inventory>,
                 fileFails: Path -> bool, dirFails: Path -> bool) returns (ok: bool)
      requires WellFormed(fs)
      modifies this
      ensures WellFormed(fs)
      ensures inventory.None? ==> ok && fs == old(fs)
      ensures ok <==> inventory.None? || !StaleFileFails(old(fs), root, Unseen(skip, readable), inventory.value, fileFails)
      ensures !ok ==> fs.dirs == old(fs).dirs && OnlyStaleFilesGone(fs, old(fs), root, Unseen(skip, readable), inventory.value)
      ensures ok && inventory.Some? ==>
                IsPruned(fs, old(fs), root, Unseen(skip, readable), inventory.value, Failing(old(fs), dirFails))
    {
      if inventory.None? {
        return true;
      }
      var listing := ListTree(fs, root, skip, readable);
      ok := RemoveStaleFiles(listing.files, inventory.value, fileFails);
      if !ok {
        return;
      }
      assert !StaleFileFails(old(fs), root, Unseen(skip, readable), inventory.value, fileFails);
      forall d | d in listing.dirs && d != root
        ensures d != []
      {
        assert ListedDir(old(fs), root, Unseen(skip, readable), d);
      }
      RemoveStaleDirs(listing.dirs, root, inventory.value, dirFails);
      PrunedAfterAll(old(fs), listing, root, Unseen(skip, readable), readable, inventory.value, dirFails);
    }
  }
}
