/** The two filters of a workspace without instance scope and extra prefixes: what the listing skips, and what the export is
    told to exclude. The root of the workspace is the root of the file system. */
module SnapshotFilters {
  import opened Text
  import opened SnapshotTree
  import opened RestoreStaging

  const EXCLUDED_DIRS: set<string> :=
    {"node_modules", "dist", ".succinix-terminal", ".succinix-control", ".succinix-userland"}

  const EXCLUDED_FILES: set<string> :=
    {"host.js", "lifo-core.js", "cmd.json", "host-epoch.json", "succinix.engine.json", "rpc-error.json"}

  const ASSETS: Path := ["usr", "lib", "succinix"]

  predicate StartsWith(s: string, start: string)
  {
    start <= s
  }

  predicate EndsWith(s: string, end: string)
  {
    |end| <= |s| && s[|s| - |end|..] == end
  }

  predicate IsIdCharacter(c: char)
  {
    'A' <= c <= 'Z' || 'a' <= c <= 'z' || '0' <= c <= '9' || c == '.' || c == '_' || c == '-'
  }

  /** `result-*.json`, or the same with `ack-`, as the globs have it. */
  predicate LooksLikeReply(name: string)
  {
    EndsWith(name, ".json")
    && ((StartsWith(name, "result-") && |name| >= 12) || (StartsWith(name, "ack-") && |name| >= 9))
  }

  /** The same as the expression of the listing has it: at least one character, and only those of request ids. */
  predicate IsReplyName(name: string)
  {
    EndsWith(name, ".json")
    && ((StartsWith(name, "result-") && |name| > 12 && forall i :: 7 <= i < |name| - 5 ==> IsIdCharacter(name[i]))
        || (StartsWith(name, "ack-") && |name| > 9 && forall i :: 4 <= i < |name| - 5 ==> IsIdCharacter(name[i])))
  }

  function Last(p: Path): string
    requires p != []
  {
    p[|p| - 1]
  }

  predicate SystemName(includeGit: bool, name: string)
  {
    name in EXCLUDED_DIRS || (name == ".git" && !includeGit)
  }

  /** `isExcludedPath` */
  predicate IsExcluded(includeGit: bool, p: Path)
  {
    p != []
    && (ASSETS <= p || (exists i :: 0 <= i < |p| && SystemName(includeGit, p[i])) || Last(p) in EXCLUDED_FILES
        || (|p| == 1 && IsReplyName(p[0])))
  }

  /** One of the exclude patterns names the path; a pattern that ends in any depth names its directory as well. */
  predicate IsNamed(includeGit: bool, p: Path)
  {
    p != []
    && (SystemName(includeGit, Last(p)) || Last(p) in EXCLUDED_FILES || LooksLikeReply(Last(p))
        || (|p| >= 3 && p[|p| - 3..] == ASSETS))
  }

  /** An export leaves out what is named, with all that lies below. */
  predicate IsDropped(includeGit: bool, p: Path)
  {
    exists i :: 0 < i <= |p| && IsNamed(includeGit, p[..i])
  }

  function Skip(includeGit: bool): Path -> bool
  {
    (p: Path) => IsExcluded(includeGit, p)
  }

  function Dropped(includeGit: bool): Path -> bool
  {
    (p: Path) => IsDropped(includeGit, p)
  }

  /** Named by the patterns, which know no root, but not skipped: a reply file below the root, or one at the root with
      another name than a reply has, or the runtime assets of some other directory. */
  predicate NamedOnly(p: Path)
  {
    p != []
    && ((LooksLikeReply(Last(p)) && (|p| > 1 || !IsReplyName(Last(p)))) || (|p| > 3 && p[|p| - 3..] == ASSETS))
  }

  lemma ReplyNamesLookLikeReplies(name: string)
    ensures IsReplyName(name) ==> LooksLikeReply(name)
  {
  }

  /** Letters, digits, `-`, `.` and `_`, by their codes. */
  predicate IsIdCode(code: int)
  {
    65 <= code < 91 || 97 <= code < 123 || 48 <= code < 58 || code == 45 || code == 46 || code == 95
  }

  /** A reply with the name `middle`: a result or an acknowledgement. */
  predicate IsReplyOf(name: string, middle: string)
  {
    name == "result-" + middle + ".json" || name == "ack-" + middle + ".json"
  }

  predicate IsRequestId(id: string)
  {
    id != "" && forall i :: 0 <= i < |id| ==> IsIdCode(id[i] as int)
  }

  lemma ReplyMiddle(name: string) returns (middle: string)
    requires LooksLikeReply(name)
    ensures IsReplyOf(name, middle) && (IsReplyName(name) ==> IsRequestId(middle))
  {
    assert StartsWith(name, "result-") ==> name[0] == 'r';
    assert StartsWith(name, "ack-") ==> name[0] == 'a';
    var n, k := |name| - 5, if StartsWith(name, "result-") then 7 else 4;
    middle := name[k..n];
    assert name == name[..k] + middle + name[n..];
  }

  lemma MiddleOfReply(name: string, middle: string)
    requires IsReplyOf(name, middle)
    ensures LooksLikeReply(name) && (IsRequestId(middle) ==> IsReplyName(name))
  {
    var k := if name == "result-" + middle + ".json" then 7 else 4;
    assert name[|name| - 5..] == ".json";
    assert forall i :: k <= i < |name| - 5 ==> name[i] == middle[i - k];
  }

  /** The globs name every file of that form; the listing skips exactly those whose middle is a request id. */
  lemma ReplyNames(name: string)
    ensures LooksLikeReply(name) <==> exists middle :: IsReplyOf(name, middle)
    ensures IsReplyName(name) <==> exists id :: IsReplyOf(name, id) && IsRequestId(id)
  {
    hide IsReplyOf, IsRequestId, LooksLikeReply, IsReplyName;
    ReplyNamesLookLikeReplies(name);
    if LooksLikeReply(name) {
      var _ := ReplyMiddle(name);
    }
    forall middle | IsReplyOf(name, middle)
      ensures LooksLikeReply(name) && (IsRequestId(middle) ==> IsReplyName(name))
    {
      MiddleOfReply(name, middle);
    }
  }

  /** What is skipped is dropped too. */
  lemma ExcludedIsDropped(includeGit: bool, p: Path)
    requires IsExcluded(includeGit, p)
    ensures IsDropped(includeGit, p)
  {
    hide LooksLikeReply, IsReplyName, EXCLUDED_DIRS, EXCLUDED_FILES;
    if ASSETS <= p {
      assert p[..3][0..] == ASSETS;
      assert IsNamed(includeGit, p[..3]);
    } else if i :| 0 <= i < |p| && SystemName(includeGit, p[i]) {
      assert Last(p[..i + 1]) == p[i];
      assert IsNamed(includeGit, p[..i + 1]);
    } else {
      ReplyNamesLookLikeReplies(Last(p));
      assert p[..|p|] == p;
      assert IsNamed(includeGit, p[..|p|]);
    }
  }

  lemma DroppedBelow(includeGit: bool, p: Path, i: nat)
    requires i <= |p| && IsDropped(includeGit, p[..i])
    ensures IsDropped(includeGit, p)
  {
    var j :| 0 < j <= i && IsNamed(includeGit, p[..i][..j]);
    assert p[..i][..j] == p[..j];
  }

  /** Nothing that is skipped is exported. */
  lemma HiddenIsDropped(includeGit: bool, p: Path)
    requires p != [] && !Visible([], Skip(includeGit), p)
    ensures IsDropped(includeGit, p)
  {
    hide IsExcluded, IsDropped;
    var i :| 0 < i <= |p| && Skip(includeGit)(p[..i]);
    ExcludedIsDropped(includeGit, p[..i]);
    DroppedBelow(includeGit, p, i);
  }

  /** For a listed path the filters differ exactly when a part of it is named only by the patterns. */
  lemma FiltersDifferOn(includeGit: bool, p: Path)
    requires p != [] && Visible([], Skip(includeGit), p)
    ensures IsDropped(includeGit, p) <==> exists i :: 0 < i <= |p| && NamedOnly(p[..i])
  {
    hide LooksLikeReply, IsReplyName, EXCLUDED_DIRS, EXCLUDED_FILES;
    forall i | 0 < i <= |p|
      ensures IsNamed(includeGit, p[..i]) <==> NamedOnly(p[..i])
    {
      NamedOrSkipped(includeGit, p[..i]);
      assert !Skip(includeGit)(p[..i]);
    }
  }

  lemma NamedOrSkipped(includeGit: bool, q: Path)
    requires q != [] && !IsExcluded(includeGit, q)
    ensures IsNamed(includeGit, q) <==> NamedOnly(q)
  {
    hide LooksLikeReply, IsReplyName, EXCLUDED_DIRS, EXCLUDED_FILES;
    assert !SystemName(includeGit, q[|q| - 1]);
    assert |q| == 3 ==> q[|q| - 3..] == q;
  }

  /** The files of a workspace can be restored from a saved snapshot exactly when no listed file, generated ones aside, has a
      part named only by the patterns. */
  lemma FilesSurviveASnapshot(prior: Fs, includeGit: bool)
    requires WellFormed(prior)
    ensures (forall f :: f in prior.files && StrictlyBelow([], f) && !Generated(f[0..]) ==>
               SameFileFilter([], Skip(includeGit), Dropped(includeGit), f))
       <==> forall f, i :: f in prior.files && !Generated(f) && Visible([], Skip(includeGit), f) && 0 < i <= |f| ==> !NamedOnly(f[..i])
  {
    hide Generated, NamedOnly, IsDropped, IsExcluded, Visible;
    forall f | f in prior.files
      ensures StrictlyBelow([], f) && f[0..] == f
      ensures SameFileFilter([], Skip(includeGit), Dropped(includeGit), f)
              <==> (Visible([], Skip(includeGit), f) ==> forall i :: 0 < i <= |f| ==> !NamedOnly(f[..i]))
    {
      assert f != [];
      if Visible([], Skip(includeGit), f) {
        FiltersDifferOn(includeGit, f);
      } else {
        HiddenIsDropped(includeGit, f);
      }
    }
  }

  // ----- A file that is named like a reply -----

  const REPLY_BELOW_THE_ROOT: Path := ["src", "result-1.json"]

  function WithReply(): Fs
  {
    Fs(map[REPLY_BELOW_THE_ROOT := "x"], {[], ["src"]})
  }

  lemma ReplyIsListedAndDropped(includeGit: bool)
    ensures Visible([], Skip(includeGit), REPLY_BELOW_THE_ROOT) && IsDropped(includeGit, REPLY_BELOW_THE_ROOT)
    ensures !Generated(REPLY_BELOW_THE_ROOT)
  {
    var p, name := REPLY_BELOW_THE_ROOT, "result-1.json";
    assert p[..1] == ["src"] && p[..2] == p;
    assert Last(p) == name && LooksLikeReply(name) by {
      assert name[|name| - 5..] == ".json" && "result-" <= name;
    }
    assert IsNamed(includeGit, p[..2]);
    assert "src"[0] == 's' && name[0] == 'r';
    assert !SystemName(includeGit, p[0]) && !SystemName(includeGit, p[1]);
    assert !(ASSETS <= p);
    assert !IsExcluded(includeGit, p[..1]) && !IsExcluded(includeGit, p[..2]) by {
      assert !IsReplyName("src");
    }
  }

  /** The save lists the file and the export drops it: the snapshot can never be restored. */
  lemma SnapshotWithReplyIsRefused(includeGit: bool, tree: Tree, m: SnapshotManifest)
    requires Exported(WithReply(), [], Dropped(includeGit), tree) && RecordedBySave(WithReply(), [], Skip(includeGit), m)
    ensures Relative([], m.files.value).Some? && Relative([], EmptyDirsOf(m)).Some?
    ensures !StageMatches([], m, tree.files.Keys, EmptyDirsIn(tree))
  {
    hide StageMatches, Exported, RecordedBySave, Relative, Visible, Skip, Dropped;
    var f := REPLY_BELOW_THE_ROOT;
    assert WellFormed(WithReply()) by {
      assert Parent(f) == ["src"] && Parent(["src"]) == [];
    }
    SavedSnapshotPassesTheStage(WithReply(), [], Skip(includeGit), Dropped(includeGit), tree, m);
    ReplyIsListedAndDropped(includeGit);
    assert f[0..] == f;
    assert f in WithReply().files && StrictlyBelow([], f);
    assert !SameFileFilter([], Skip(includeGit), Dropped(includeGit), f) by {
      IsDroppedIs(includeGit, f);
    }
  }

  lemma IsDroppedIs(includeGit: bool, p: Path)
    ensures Dropped(includeGit)(p) == IsDropped(includeGit, p)
  {
  }

  /** A restore that has deleted the file and then fails does not bring it back. */
  lemma RollbackLosesTheReply(includeGit: bool, prior: Fs, broken: Fs, tree: Tree, inventory: Inventory, remounted: Fs,
                              pruned: Fs, failing: set<Path>)
    requires WellFormed(prior) && REPLY_BELOW_THE_ROOT in prior.files && REPLY_BELOW_THE_ROOT !in broken.files
    requires Exported(prior, [], Dropped(includeGit), tree) && Recorded(prior, [], Skip(includeGit), inventory)
    requires Mounted(broken, [], tree, remounted)
    requires IsPruned(pruned, remounted, [], Skip(includeGit), inventory, failing)
    ensures !HoldsFile(pruned, REPLY_BELOW_THE_ROOT, prior.files[REPLY_BELOW_THE_ROOT])
  {
    hide Exported, Recorded, Mounted, IsPruned, Visible, Skip, Dropped, WellFormed;
    ReplyIsListedAndDropped(includeGit);
    IsDroppedIs(includeGit, REPLY_BELOW_THE_ROOT);
    RollbackRestoresTheFiles(prior, broken, [], Skip(includeGit), Dropped(includeGit), tree, inventory, remounted, pruned, failing,
                             REPLY_BELOW_THE_ROOT);
  }

  const OTHER: Path := ["src", "a"]

  /** The restore of an empty snapshot deletes the one file and then fails on the other. */
  function Prior(): Fs
  {
    Fs(map[REPLY_BELOW_THE_ROOT := "x", OTHER := "y"], {[], ["src"]})
  }

  function Broken(): Fs
  {
    Fs(map[OTHER := "y"], {[], ["src"]})
  }

  lemma FromTheRoot()
    ensures forall p: Path {:trigger [] + p} :: [] + p == p
    ensures forall p: Path {:trigger p[0..]} :: p[0..] == p
  {
  }

  lemma BothWellFormed()
    ensures WellFormed(Prior()) && WellFormed(Broken())
  {
    assert Parent(OTHER) == ["src"] && Parent(REPLY_BELOW_THE_ROOT) == ["src"] && Parent(["src"]) == [];
    assert OTHER[1] == "a" && REPLY_BELOW_THE_ROOT[1] == "result-1.json";
  }

  lemma OtherIsListedAndKept(includeGit: bool)
    ensures Visible([], Skip(includeGit), OTHER) && !IsDropped(includeGit, OTHER)
    ensures Visible([], Skip(includeGit), ["src"]) && !IsDropped(includeGit, ["src"])
  {
    assert OTHER[..1] == ["src"] && OTHER[..2] == OTHER && ["src"][..1] == ["src"];
    assert "src"[0] == 's' && "a"[0] == 'a' && |"a"| == 1;
    assert !SystemName(includeGit, "src") && !SystemName(includeGit, "a");
    assert !IsReplyName("src") && !LooksLikeReply("src") && !LooksLikeReply("a");
    assert !(ASSETS <= OTHER) && !(ASSETS <= ["src"]);
    assert !IsExcluded(includeGit, ["src"]) && !IsExcluded(includeGit, OTHER);
    assert !IsNamed(includeGit, ["src"]) && !IsNamed(includeGit, OTHER);
  }

  lemma TheBackupLacksTheReply(includeGit: bool)
    ensures Exported(Prior(), [], Dropped(includeGit), Broken())
  {
    hide IsDropped;
    BothWellFormed();
    OtherIsListedAndKept(includeGit);
    ReplyIsListedAndDropped(includeGit);
    forall f | f in Prior().files
      ensures f == OTHER || f == REPLY_BELOW_THE_ROOT
    {
    }
    FromTheRoot();
    forall d | d in Prior().dirs && StrictlyBelow([], d)
      ensures d == ["src"]
    {
    }
  }

  lemma MountingItChangesNothing()
    ensures Mounted(Broken(), [], Broken(), Broken())
  {
    BothWellFormed();
    FromTheRoot();
  }

  lemma TheListingHasBoth(includeGit: bool)
    ensures Recorded(Prior(), [], Skip(includeGit), Inventory({REPLY_BELOW_THE_ROOT, OTHER}, {["src"]}))
  {
    hide Skip;
    OtherIsListedAndKept(includeGit);
    ReplyIsListedAndDropped(includeGit);
    assert !Visible([], Skip(includeGit), []);
    assert Parent(["src"]) == [] && ["src"] in Children(Prior(), []);
  }

  lemma PruningItChangesNothing(includeGit: bool)
    ensures IsPruned(Broken(), Broken(), [], Skip(includeGit), Inventory({REPLY_BELOW_THE_ROOT, OTHER}, {["src"]}), {})
  {
    hide Skip, Visible;
    var inventory := Inventory({REPLY_BELOW_THE_ROOT, OTHER}, {["src"]});
    forall d | d in Broken().dirs
      ensures !StaleDir(Broken(), [], Skip(includeGit), inventory, d)
    {
      assert d == [] || d == ["src"];
      assert d != [] ==> Desired(inventory, d);
    }
  }

  /** So after this rollback, which reports success, the file is gone. */
  lemma TheReplyIsGone(includeGit: bool)
    ensures REPLY_BELOW_THE_ROOT in Prior().files && REPLY_BELOW_THE_ROOT !in Broken().files
    ensures WellFormed(Prior()) && Exported(Prior(), [], Dropped(includeGit), Broken())
    ensures Mounted(Broken(), [], Broken(), Broken())
    ensures var inventory := Inventory({REPLY_BELOW_THE_ROOT, OTHER}, {["src"]});
      Recorded(Prior(), [], Skip(includeGit), inventory)
      && IsPruned(Broken(), Broken(), [], Skip(includeGit), inventory, {})
  {
    hide Exported, Recorded, Mounted, IsPruned, WellFormed, Skip, Dropped;
    BothWellFormed();
    TheBackupLacksTheReply(includeGit);
    MountingItChangesNothing();
    TheListingHasBoth(includeGit);
    PruningItChangesNothing(includeGit);
    assert OTHER[1] == "a" && REPLY_BELOW_THE_ROOT[1] == "result-1.json";
  }
}
