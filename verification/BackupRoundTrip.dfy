/** Push, collect and restore together: what comes back, and exactly what an interruption or a lagging manifest hides. */
module BackupRoundTrip {
  import opened Options
  import opened BackupIndex
  import V = BackupVersions
  import opened BackupStore
  import opened BackupScan
  import opened BackupPlace
  import opened BackupRun
  import opened BackupRestore
  import opened BackupGc

  function PathsOf(files: seq<File>): set<string> {
    set f | f in files :: f.path
  }

  // ----- where the content of a file is found -----

  /** The archive that holds a file's content according to an index in which the content occurs: that of its own
      current line, or that of the first line with the content. */
  ghost function HomeArchive(lines: seq<IndexLine>, f: File): string
    requires Occurs(lines, f.Sha())
  {
    if CurrentFor(lines, f) then Latest(lines)[f.path].archive else FirstLine(lines, f.Sha()).archive
  }

  lemma HomeIsNamed(lines: seq<IndexLine>, f: File)
    requires Occurs(lines, f.Sha())
    ensures exists e :: e in lines && e.archive == HomeArchive(lines, f)
  {
    LatestMembers(lines);
    if CurrentFor(lines, f) {
      assert Latest(lines)[f.path] in lines;
    } else {
      assert FirstLine(lines, f.Sha()) in lines;
    }
  }

  /** In an intact remote a line can be restored exactly when the manifest lists its archive. */
  lemma RestorableExactly(r: Remote, e: IndexLine)
    requires Intact(r) && e in r.Lines()
    ensures Restorable(r, e) <==> ListedRight(r.Listed(), r.archives, e.archive)
  {
    assert Stored(r.archives, e);
  }

  /** After a push, content known before is named at its home. */
  lemma HomeAfter(before: Remote, after: Remote, f: File)
    requires Homed(before, after, false, f) && Occurs(before.Lines(), f.Sha())
    ensures Latest(after.Lines())[f.path].archive == HomeArchive(before.Lines(), f)
  {
    var e := Latest(after.Lines())[f.path];
    if !CurrentFor(before.Lines(), f) {
      FirstWithIsFirst(before.Lines(), f.Sha(), (e.archive, e.member));
    }
  }

  // ----- push, then restore -----

  /** The tree already holds the file, and the index does not claim another size for it. */
  predicate AlreadyHas(dest: Tree, lines: seq<IndexLine>, f: File) {
    f.path in dest && dest[f.path] == f.content
    && (f.path in Latest(lines) && Latest(lines)[f.path].sha256 == f.Sha() ==> Latest(lines)[f.path].size == |f.content|)
  }

  /** Content known before the push must have its archive listed rightly; new content always has. */
  ghost predicate HomeListed(before: Remote, f: File) {
    Occurs(before.Lines(), f.Sha()) ==> ListedRight(before.Listed(), before.archives, HomeArchive(before.Lines(), f))
  }

  lemma RestorableAfterPush(before: Remote, after: Remote, f: File)
    requires Intact(after) && Homed(before, after, false, f) && OldListingKept(before, after.Listed(), after.archives)
    ensures Restorable(after, Latest(after.Lines())[f.path]) <==> HomeListed(before, f)
  {
    var e := Latest(after.Lines())[f.path];
    LatestMembers(after.Lines());
    LatestMembers(before.Lines());
    RestorableExactly(after, e);
    if Occurs(before.Lines(), f.Sha()) {
      HomeAfter(before, after, f);
      HomeIsNamed(before.Lines(), f);
      var x :| x in before.Lines() && x.archive == HomeArchive(before.Lines(), f);
    } else {
      assert !CurrentFor(before.Lines(), f);
    }
  }

  lemma ThereAfterPush(before: Remote, after: Remote, f: File, dest: Tree)
    requires Homed(before, after, false, f)
    ensures AlreadyThere(dest, Latest(after.Lines())[f.path]) <==> AlreadyHas(dest, before.Lines(), f)
  {
    LatestMembers(after.Lines());
  }

  ghost predicate Recovers(before: Remote, files: seq<File>, dest: Tree) {
    forall f | f in files && !AlreadyHas(dest, before.Lines(), f) :: HomeListed(before, f)
  }

  lemma OutstandingAfterPush(before: Remote, after: Remote, files: seq<File>, dest: Tree)
    requires Intact(after) && AllHomed(before, after, false, files) &&
      OldListingKept(before, after.Listed(), after.archives)
    ensures (forall e | Outstanding(Latest(after.Lines()), p => p in PathsOf(files), dest, e) :: Restorable(after, e))
      <==> Recovers(before, files, dest)
  {
    var latest := Latest(after.Lines());
    LatestMembers(after.Lines());
    forall f | f in files
      ensures f.path in latest
      ensures Outstanding(latest, p => p in PathsOf(files), dest, latest[f.path]) <==>
        !AlreadyHas(dest, before.Lines(), f)
      ensures Restorable(after, latest[f.path]) <==> HomeListed(before, f)
    {
      assert f.path in PathsOf(files) && Homed(before, after, false, f);
      ThereAfterPush(before, after, f, dest);
      RestorableAfterPush(before, after, f);
    }
  }

  /** Pushing a mutable tree and restoring it gives back every byte of every file.  The push fails exactly on a taken
      name, and the restore exactly when the manifest did not list the archive of content known before. */
  method PushThenRestore(store: RemoteStore, files: seq<File>, cap: nat, nameOf: seq<Digest> -> string, dest: Tree)
    returns (pushed: bool, restored: bool, dest': Tree)
    requires DistinctPaths(files) && Intact(store.View())
    modifies store
    ensures pushed <==> Completes(old(store.View()), files, false, cap, nameOf)
    ensures restored <==> pushed && Recovers(old(store.View()), files, dest)
    ensures restored ==> forall f | f in files :: f.path in dest' && dest'[f.path] == f.content
    ensures forall p | p !in PathsOf(files) :: SameAt(dest, dest', p)
    ensures forall f | f in files :: SameAt(dest, dest', f.path) || (f.path in dest' && dest'[f.path] == f.content)
  {
    ghost var before := store.View();
    restored, dest' := false, dest;
    pushed := Push(store, files, false, cap, nameOf);
    if pushed {
      var r := store.View();
      var paths := PathsOf(files);
      restored, dest' := Restore(r, r.Lines(), p => p in paths, dest);
      OutstandingAfterPush(before, r, files, dest);
      forall f | f in files ensures CurrentFor(r.Lines(), f) && f.path in paths {
        assert f.path in paths;
      }
    }
  }

  /** A complete manifest hides nothing, whatever the tree holds. */
  lemma ListingRecovers(before: Remote, files: seq<File>, dest: Tree)
    requires Listing(before)
    ensures Recovers(before, files, dest)
  {
    forall f | f in files && Occurs(before.Lines(), f.Sha()) ensures HomeListed(before, f) {
      HomeIsNamed(before.Lines(), f);
    }
  }

  /** Restoring a retained state after a collection gives exactly what restoring it before would have given. */
  method CollectThenRestore(store: RemoteStore, objects: map<string, V.RemoteObject>, keepDaily: nat, keepMonthly: nat,
      monthOf: nat -> nat, isArchive: string -> bool, b: nat, selected: string -> bool, dest: Tree)
    returns (outcome: Outcome, ok: bool, dest': Tree)
    requires Intact(store.View()) && Listing(store.View())
    requires b in Boundaries(store.View().Lines(), objects, keepDaily, keepMonthly, monthOf) &&
      1 <= b <= |store.View().Lines()|
    modifies store
    ensures outcome == Applied ==> ok && Restored(Latest(old(store.View()).Lines()[..b]), selected, dest, dest')
  {
    var all := store.View().Lines();
    var keep;
    outcome, keep := Gc(store, objects, keepDaily, keepMonthly, monthOf, isArchive, true);
    ok, dest' := false, dest;
    if outcome == Applied {
      var r := store.View();
      var kept := DropLines(all[..b], keep);
      var state := r.Lines()[..|kept|];
      forall e | Outstanding(Latest(state), selected, dest, e) ensures Restorable(r, e) {
        IntactRestores(r, state, e);
      }
      ok, dest' := Restore(r, state, selected, dest);
    }
  }

  // ----- interruption between index and manifest -----

  /** The remote an interruption between the index and the manifest of a push from `before` leaves. */
  ghost predicate Lagging(before: Remote, lag: Remote, files: seq<File>) {
    && Intact(before) && Listing(before) && Intact(lag) && lag.manifest == before.manifest
    && Grows(before.archives, lag.archives)
    && AllCurrent(lag.Lines(), files)
    && (forall f | f in files && Occurs(before.Lines(), f.Sha()) ::
        Latest(lag.Lines())[f.path].archive == HomeArchive(before.Lines(), f))
  }

  /** The file can be restored from the lagging remote: its content was known before the push, or the archive it went
      to happened to be listed already. */
  ghost predicate Visible(before: Remote, lag: Remote, f: File)
    requires f.path in Latest(lag.Lines())
  {
    Occurs(before.Lines(), f.Sha()) || ListedRight(before.Listed(), lag.archives, Latest(lag.Lines())[f.path].archive)
  }

  /** Every other file is hidden, although the index names its content and the content is stored. */
  lemma LagHidesExactly(before: Remote, lag: Remote, files: seq<File>, f: File)
    requires Lagging(before, lag, files) && f in files
    ensures CurrentFor(lag.Lines(), f) && (Restorable(lag, Latest(lag.Lines())[f.path]) <==> Visible(before, lag, f))
  {
    assert CurrentFor(lag.Lines(), f);
    LatestMembers(lag.Lines());
    RestorableExactly(lag, Latest(lag.Lines())[f.path]);
    if Occurs(before.Lines(), f.Sha()) {
      HomeIsNamed(before.Lines(), f);
    }
  }

  lemma SavedLags(before: Remote, after: Remote, files: seq<File>)
    requires Intact(before) && Listing(before) && Intact(after) && Pushed(before, after, files, false)
    ensures Lagging(before, after.(manifest := before.manifest), files)
  {
    var lag := after.(manifest := before.manifest);
    assert lag.Lines() == after.Lines();
    forall e | e in lag.Lines() ensures Stored(lag.archives, e) {
      assert Stored(after.archives, e);
    }
    forall f | f in files ensures CurrentFor(lag.Lines(), f) {
      assert Homed(before, after, false, f);
    }
    forall f | f in files && Occurs(before.Lines(), f.Sha())
      ensures Latest(lag.Lines())[f.path].archive == HomeArchive(before.Lines(), f)
    {
      HomeAfter(before, after, f);
    }
  }

  /** Every push that writes passes through a lagging remote: the last state but one. */
  method PushThroughLag(store: RemoteStore, files: seq<File>, cap: nat,
      nameOf: seq<Digest> -> string) returns (ok: bool)
    requires DistinctPaths(files) && Intact(store.View()) && Listing(store.View())
    modifies store
    ensures ok <==> Completes(old(store.View()), files, false, cap, nameOf)
    ensures ok ==> AllCurrent(store.View().Lines(), files)
    ensures ok && store.View() != old(store.View()) ==>
      |store.trace| >= 2 && Lagging(old(store.View()), store.trace[|store.trace| - 2], files)
  {
    ghost var before := store.View();
    ok := Push(store, files, false, cap, nameOf);
    if ok {
      SavedLags(before, store.View(), files);
      assert AllCurrent(store.View().Lines(), files);
    }
  }

  /** Pushing the same files from there changes nothing at all, so hidden files stay hidden: a restore into an empty tree
      succeeds if and only if every file is visible. */
  method PushAgain(store: RemoteStore, ghost before: Remote, files: seq<File>, immutable: bool, cap: nat,
      nameOf: seq<Digest> -> string)
    returns (ok: bool, restored: bool)
    requires DistinctPaths(files) && Lagging(before, store.View(), files)
    modifies store
    ensures ok && store.View() == old(store.View())
    ensures restored <==> forall f | f in files && f.path in Latest(store.View().Lines()) ::
      Visible(before, store.View(), f)
  {
    KnownCompletes(store.View(), files, immutable, cap, nameOf);
    ok := Push(store, files, immutable, cap, nameOf);
    var r := store.View();
    var paths := PathsOf(files);
    var dest';
    restored, dest' := Restore(r, r.Lines(), p => p in paths, map[]);
    OutstandingInLag(before, r, files);
  }

  lemma OutstandingInLag(before: Remote, lag: Remote, files: seq<File>)
    requires Lagging(before, lag, files)
    ensures (forall e | Outstanding(Latest(lag.Lines()), p => p in PathsOf(files), map[], e) :: Restorable(lag, e))
      <==> forall f | f in files && f.path in Latest(lag.Lines()) :: Visible(before, lag, f)
  {
    var latest := Latest(lag.Lines());
    LatestMembers(lag.Lines());
    forall f | f in files
      ensures f.path in latest && Outstanding(latest, p => p in PathsOf(files), map[], latest[f.path])
      ensures Restorable(lag, latest[f.path]) <==> Visible(before, lag, f)
    {
      assert f.path in PathsOf(files);
      LagHidesExactly(before, lag, files, f);
    }
  }

  // ----- a hidden file -----

  const EMPTY := Remote(None, None, map[])

  lemma OneSegment(f: File, cap: nat)
    ensures Fresh([f], [], false) == [f] && SegmentsOf([f], cap) == [[f]]
  {
    assert [f][..0] == [];
    assert Fresh([], [], false) == [];
    assert !Occurs([], f.Sha()) && !Queued([], f.Sha());
    assert CutUp([], cap) == Cut([], []);
    assert [] + [f] == [f] && [] + [[f]] == [[f]];
  }

  lemma EmptyIsFine()
    ensures EMPTY.Lines() == [] && Intact(EMPTY) && Listing(EMPTY)
  {
  }

  /** One file pushed into an empty remote: the push completes, and interrupted before its last write it leaves the
      file in the index, stored, and impossible to restore. */
  method HiddenFile(store: RemoteStore, f: File, cap: nat, nameOf: seq<Digest> -> string) returns (ok: bool)
    requires store.View() == EMPTY
    modifies store
    ensures ok && |store.trace| >= 2
    ensures var lag := store.trace[|store.trace| - 2];
      Intact(lag) && CurrentFor(lag.Lines(), f) && !Restorable(lag, Latest(lag.Lines())[f.path])
  {
    EmptyIsFine();
    OneSegment(f, cap);
    ghost var before := store.View();
    ok := PushThroughLag(store, [f], cap, nameOf);
    assert f in [f];
    assert CurrentFor(store.View().Lines(), f) && !CurrentFor(before.Lines(), f);
    ghost var lag := store.trace[|store.trace| - 2];
    LagHidesExactly(before, lag, [f], f);
  }

  // ----- collecting a lagging remote -----

  /** A current line whose archive is not listed makes the kept archives broken. */
  lemma HiddenBreaks(r: Remote, boundaries: set<int>, keep: set<string>, e: IndexLine)
    requires KeepsNeeded(r.Lines(), boundaries, keep) && |r.Lines()| in boundaries && r.Lines() != []
    requires e.path in Latest(r.Lines()) && Latest(r.Lines())[e.path] == e &&
      !ListedRight(r.Listed(), r.archives, e.archive)
    ensures Broken(r, keep)
  {
    var lines := r.Lines();
    assert lines[..|lines|] == lines;
    assert NeededAt(lines, |lines|, e.archive);
    assert Needed(lines, boundaries, e.archive);
    assert e.archive in keep;
  }

  /** No collection is applied while a file is hidden. */
  method CollectHidden(store: RemoteStore, ghost before: Remote, files: seq<File>, f: File,
      objects: map<string, V.RemoteObject>, keepDaily: nat, keepMonthly: nat, monthOf: nat -> nat,
      isArchive: string -> bool, apply: bool)
    returns (outcome: Outcome)
    requires Lagging(before, store.View(), files) && f in files
    requires f.path in Latest(store.View().Lines()) ==> !Visible(before, store.View(), f)
    modifies store
    ensures outcome != Applied && store.View() == old(store.View())
  {
    ghost var r := store.View();
    LagHidesExactly(before, r, files, f);
    ghost var e := Latest(r.Lines())[f.path];
    LatestMembers(r.Lines());
    RestorableExactly(r, e);
    ghost var boundaries := Boundaries(r.Lines(), objects, keepDaily, keepMonthly, monthOf);
    BoundariesAreRetained(r.Lines(), objects, keepDaily, keepMonthly, monthOf);
    var keep;
    outcome, keep := Gc(store, objects, keepDaily, keepMonthly, monthOf, isArchive, apply);
    HiddenBreaks(r, boundaries, keep, e);
  }
}
