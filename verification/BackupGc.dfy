/** Garbage collection: drop the archives no retained state needs, index and manifest first, deletions last. */
module BackupGc {
  import opened Options
  import opened BackupIndex
  import V = BackupVersions
  import R = BackupRetention
  import opened BackupStore
  import opened BackupPlace
  import opened NameOrder

  datatype Outcome = Planned | Applied | Refused

  function ArchivesOf(lines: seq<IndexLine>): seq<string> {
    seq(|lines|, i requires 0 <= i < |lines| => lines[i].archive)
  }

  /** Line counts at which the states retained by the counts end. */
  ghost function Boundaries(lines: seq<IndexLine>, objects: map<string, V.RemoteObject>, keepDaily: nat,
      keepMonthly: nat, monthOf: nat -> nat): set<int> {
    var versions := V.Versions(ArchivesOf(lines), objects);
    set i | 0 <= i < |versions| && R.Wanted(versions, keepDaily, keepMonthly, monthOf, i) :: versions[i].lines as int
  }

  lemma BoundariesAreRetained(lines: seq<IndexLine>, objects: map<string, V.RemoteObject>, keepDaily: nat,
      keepMonthly: nat, monthOf: nat -> nat)
    ensures Boundaries(lines, objects, keepDaily, keepMonthly, monthOf)
         == V.RetainedLines(V.Versions(ArchivesOf(lines), objects), keepDaily, keepMonthly, monthOf)
    ensures lines != [] ==> |lines| in Boundaries(lines, objects, keepDaily, keepMonthly, monthOf)
    ensures forall b | b in Boundaries(lines, objects, keepDaily, keepMonthly, monthOf) :: 1 <= b <= |lines|
  {
    if lines != [] {
      var versions := V.Versions(ArchivesOf(lines), objects);
      V.VersionsAscend(ArchivesOf(lines), objects);
      V.LatestIsRetained(ArchivesOf(lines), objects, keepDaily, keepMonthly, monthOf);
      forall i | 0 <= i < |versions|
        ensures versions[i].lines as int in V.RetainedLines(versions, keepDaily, keepMonthly, monthOf) <==>
          R.Wanted(versions, keepDaily, keepMonthly, monthOf, i)
      {
        R.RetainedExactly(versions, keepDaily, keepMonthly, monthOf, i);
      }
      R.RetainedAreStates(versions, keepDaily, keepMonthly, monthOf);
    }
  }

  /** `keep` is exactly what the retained states need. */
  ghost predicate KeepsNeeded(lines: seq<IndexLine>, boundaries: set<int>, keep: set<string>) {
    forall archive :: archive in keep <==> Needed(lines, boundaries, archive)
  }

  // ----- states during a collection -----

  /** The remote holds the reduced index, at least the kept part of the old manifest, and every kept archive. */
  ghost predicate Collecting(before: Remote, keep: set<string>, during: Remote) {
    && during.Lines() == Kept(before.Lines(), keep)
    && (forall name | name in keep && name in before.archives ::
      name in during.archives && during.archives[name] == before.archives[name])
    && (forall name | name in keep && name in before.Listed() ::
      name in during.Listed() && during.Listed()[name] == before.Listed()[name])
  }

  /** Intact, and with as complete a manifest as before. */
  ghost predicate Safe(before: Remote, during: Remote) {
    Intact(during) && (Listing(before) ==> Listing(during))
  }

  lemma CollectingIntact(before: Remote, keep: set<string>, during: Remote)
    requires Intact(before) && Collecting(before, keep, during)
    ensures Safe(before, during)
  {
    KeptElements(before.Lines(), keep);
    forall e | e in during.Lines() ensures Stored(during.archives, e) {
      assert e in before.Lines() && e.archive in keep;
    }
    if Listing(before) {
      forall e | e in during.Lines() ensures ListedRight(during.Listed(), during.archives, e.archive) {
        assert e in before.Lines() && e.archive in keep;
      }
    }
  }

  /** Delete archives one by one, none of them kept. */
  method DeleteAll(store: RemoteStore, names: seq<string>, ghost before: Remote, ghost keep: set<string>)
    requires Collecting(before, keep, store.View()) && forall name | name in names :: name !in keep
    modifies store
    ensures Collecting(before, keep, store.View()) && store.index == old(store.index) &&
      store.manifest == old(store.manifest)
    ensures old(store.trace) <= store.trace
    ensures forall i | |old(store.trace)| <= i < |store.trace| :: Collecting(before, keep, store.trace[i])
    ensures forall name :: name in store.archives <==> name in old(store.archives) && name !in names
  {
    for n := 0 to |names|
      invariant Collecting(before, keep, store.View()) && store.index == old(store.index) &&
        store.manifest == old(store.manifest)
      invariant old(store.trace) <= store.trace
      invariant forall i | |old(store.trace)| <= i < |store.trace| :: Collecting(before, keep, store.trace[i])
      invariant forall name :: name in store.archives <==> name in old(store.archives) && name !in names[..n]
    {
      assert names[n] in names;
      assert names[..n + 1] == names[..n] + [names[n]];
      store.DeleteArchive(names[n]);
    }
    assert names[..|names|] == names;
  }

  // ----- the plan -----

  /** The whole current state survives whenever the last line is a retained boundary. */
  lemma LatestSurvives(lines: seq<IndexLine>, boundaries: set<int>, keep: set<string>)
    requires KeepsNeeded(lines, boundaries, keep) && (lines == [] || |lines| in boundaries)
    ensures Latest(Kept(lines, keep)) == Latest(lines)
  {
    if lines != [] {
      assert lines[..|lines|] == lines;
      CollectionKeepsRetained(lines, boundaries, keep, |lines|);
      var kept := Kept(lines, keep);
      assert kept[..|kept|] == kept;
    }
  }

  method Retain(lines: seq<IndexLine>, objects: map<string, V.RemoteObject>, keepDaily: nat, keepMonthly: nat,
      monthOf: nat -> nat)
    returns (boundaries: set<int>)
    ensures boundaries == Boundaries(lines, objects, keepDaily, keepMonthly, monthOf)
    ensures lines != [] ==> |lines| in boundaries
    ensures forall b | b in boundaries :: 1 <= b <= |lines|
  {
    var versions := V.DeriveVersions(ArchivesOf(lines), objects);
    boundaries := V.RetainedLines(versions, keepDaily, keepMonthly, monthOf);
    BoundariesAreRetained(lines, objects, keepDaily, keepMonthly, monthOf);
  }

  method DropLines(lines: seq<IndexLine>, keep: set<string>) returns (kept: seq<IndexLine>)
    ensures kept == Kept(lines, keep)
  {
    kept := [];
    for n := 0 to |lines|
      invariant kept == Kept(lines[..n], keep)
    {
      assert lines[..n + 1][..n] == lines[..n];
      if lines[n].archive in keep {
        kept := kept + [lines[n]];
      }
    }
    assert lines[..|lines|] == lines;
  }

  // ----- the collection -----

  /** The manifest's listing without the archives that go. */
  function ListedIn(r: Remote, keep: set<string>): map<string, Meta> {
    map name | name in r.Listed() && name in keep :: r.Listed()[name]
  }

  function Doomed(r: Remote, keep: set<string>): set<string> {
    r.Listed().Keys - keep
  }

  lemma NothingDoomed(r: Remote, keep: set<string>)
    ensures Doomed(r, keep) == {} ==> ListedIn(r, keep) == r.Listed()
  {
    if Doomed(r, keep) == {} {
      forall name | name in r.Listed() ensures name in keep {
        assert name !in Doomed(r, keep);
      }
    }
  }

  /** Archives nobody lists and nobody needs, left by an interrupted run. */
  function Orphans(r: Remote, keep: set<string>, isArchive: string -> bool): set<string> {
    set name | name in r.archives && isArchive(name) && name !in r.Listed() && name !in keep
  }

  /** Every listed archive, and every other object that looks like one, is kept. */
  ghost predicate AllNeeded(r: Remote, keep: set<string>, isArchive: string -> bool) {
    && (forall name | name in r.Listed() :: name in keep)
    && (forall name | name in r.archives && isArchive(name) :: name in r.Listed() || name in keep)
  }

  lemma NothingGoes(r: Remote, keep: set<string>, isArchive: string -> bool)
    ensures Doomed(r, keep) == {} && Orphans(r, keep, isArchive) == {} <==> AllNeeded(r, keep, isArchive)
  {
    if Doomed(r, keep) == {} && Orphans(r, keep, isArchive) == {} {
      forall name | name in r.Listed() ensures name in keep {
        assert name !in Doomed(r, keep);
      }
      forall name | name in r.archives && isArchive(name) ensures name in r.Listed() || name in keep {
        assert name !in Orphans(r, keep, isArchive);
      }
    }
  }

  /** A kept archive that is absent, unlisted or different from the manifest. */
  predicate Broken(r: Remote, keep: set<string>) {
    exists name | name in keep ::
      name !in r.archives || name !in r.Listed() || r.Listed()[name].sha256 != ArchiveSha256(r.archives[name])
  }

  lemma ListingIsNotBroken(r: Remote, boundaries: set<int>, keep: set<string>)
    requires Listing(r) && KeepsNeeded(r.Lines(), boundaries, keep)
    ensures !Broken(r, keep)
  {
    var lines := r.Lines();
    forall name | name in keep ensures ListedRight(r.Listed(), r.archives, name) {
      var b :| b in boundaries && 1 <= b <= |lines| && NeededAt(lines, b, name);
      var p :| p in Latest(lines[..b]) && Latest(lines[..b])[p].archive == name;
      LatestMembers(lines[..b]);
      assert Latest(lines[..b])[p] in lines;
    }
  }

  /** Every retained state reads the same from the new index. */
  ghost predicate StatesPreserved(lines: seq<IndexLine>, boundaries: set<int>, keep: set<string>,
      lines': seq<IndexLine>) {
    forall b | b in boundaries && 1 <= b <= |lines| ::
      |Kept(lines[..b], keep)| <= |lines'| && Latest(lines'[..|Kept(lines[..b], keep)|]) == Latest(lines[..b])
  }

  lemma KeptPreserves(lines: seq<IndexLine>, boundaries: set<int>, keep: set<string>)
    requires KeepsNeeded(lines, boundaries, keep)
    ensures StatesPreserved(lines, boundaries, keep, Kept(lines, keep))
  {
    forall b | b in boundaries && 1 <= b <= |lines|
      ensures |Kept(lines[..b], keep)| <= |Kept(lines, keep)|
      ensures Latest(Kept(lines, keep)[..|Kept(lines[..b], keep)|]) == Latest(lines[..b])
    {
      CollectionKeepsRetained(lines, boundaries, keep, b);
    }
  }

  /** Rewrite index and manifest, then delete. */
  method Rewrite(store: RemoteStore, kept: seq<IndexLine>, keep: set<string>, doomed: seq<string>, orphans: seq<string>)
    requires kept == Kept(store.View().Lines(), keep)
    requires (forall name | name in doomed :: name !in keep) && (forall name | name in orphans :: name !in keep)
    modifies store
    ensures Collecting(old(store.View()), keep, store.View()) && store.index == Some(kept)
    ensures store.View().Listed() == ListedIn(old(store.View()), keep)
    ensures old(store.trace) <= store.trace
    ensures forall i | |old(store.trace)| <= i < |store.trace| :: Collecting(old(store.View()), keep, store.trace[i])
    ensures forall name :: name in store.archives <==>
      name in old(store.archives) && name !in doomed && name !in orphans
  {
    ghost var before := store.View();
    var m := if store.manifest.Some? then store.manifest.value else Manifest(map[], 0, 0);
    store.PutIndex(kept);
    assert Collecting(before, keep, store.View());
    store.PutManifest(m.(archives := ListedIn(store.View(), keep)));
    assert Collecting(before, keep, store.View());
    DeleteAll(store, doomed, before, keep);
    DeleteAll(store, orphans, before, keep);
  }

  /** Perform a plan that has passed its checks. */
  method Collect(store: RemoteStore, lines: seq<IndexLine>, ghost boundaries: set<int>, keep: set<string>,
      doomedSet: set<string>, orphanSet: set<string>)
    requires Intact(store.View()) && lines == store.View().Lines()
    requires KeepsNeeded(lines, boundaries, keep) && (lines == [] || |lines| in boundaries)
    requires doomedSet == Doomed(store.View(), keep) && orphanSet !! keep && (lines == [] ==> doomedSet == {})
    modifies store
    ensures old(store.trace) <= store.trace && Collecting(old(store.View()), keep, store.View())
    ensures forall i | |old(store.trace)| <= i < |store.trace| :: Collecting(old(store.View()), keep, store.trace[i])
    ensures StatesPreserved(lines, boundaries, keep, store.View().Lines())
    ensures store.View().Listed() == ListedIn(old(store.View()), keep)
    ensures forall name :: name in store.archives <==>
      name in old(store.archives) && name !in doomedSet && name !in orphanSet
  {
    ghost var before := store.View();
    var doomed := SortNames(doomedSet);
    var orphans := SortNames(orphanSet);
    KeptPreserves(lines, boundaries, keep);
    if lines == [] {
      NothingDoomed(before, keep);
      DeleteAll(store, orphans, before, keep);
    } else {
      var kept := DropLines(lines, keep);
      LatestSurvives(lines, boundaries, keep);
      if LatestArchives(kept) != LatestArchives(lines) {
        assert false;
      }
      Rewrite(store, kept, keep, doomed, orphans);
    }
  }

  /** Collect.  Every retained state stays as it was, every interruption leaves an intact index (and, if the
      manifest was complete, a complete one), and the guard against changing the latest state never fires. */
  method Gc(store: RemoteStore, objects: map<string, V.RemoteObject>, keepDaily: nat, keepMonthly: nat,
      monthOf: nat -> nat,
      isArchive: string -> bool, apply: bool)
    returns (outcome: Outcome, keep: set<string>)
    requires Intact(store.View())
    modifies store
    ensures KeepsNeeded(old(store.View()).Lines(),
      Boundaries(old(store.View()).Lines(), objects, keepDaily, keepMonthly, monthOf), keep)
    ensures old(store.trace) <= store.trace && Safe(old(store.View()), store.View())
    ensures forall i | |old(store.trace)| <= i < |store.trace| :: Safe(old(store.View()), store.trace[i])
    ensures outcome != Applied ==> store.View() == old(store.View()) && store.trace == old(store.trace)
    ensures outcome == Applied ==>
      && store.View().Lines() == Kept(old(store.View()).Lines(), keep)
      && store.View().Listed() == ListedIn(old(store.View()), keep)
      && StatesPreserved(old(store.View()).Lines(),
        Boundaries(old(store.View()).Lines(), objects, keepDaily, keepMonthly, monthOf), keep, store.View().Lines())
      && forall name :: name in store.archives <==>
        name in old(store.archives) && (name in keep || (name !in old(store.View()).Listed() && !isArchive(name)))
    ensures outcome == Planned <==> !apply || AllNeeded(old(store.View()), keep, isArchive)
    ensures outcome == Refused ==>
      Broken(old(store.View()), keep) || (old(store.View()).Lines() == [] && Doomed(old(store.View()), keep) != {})
    ensures outcome == Applied ==>
      !Broken(old(store.View()), keep) && (old(store.View()).Lines() == [] ==> Doomed(old(store.View()), keep) == {})
    ensures Listing(old(store.View())) && outcome == Refused ==> old(store.View()).Lines() == []
  {
    ghost var before := store.View();
    var lines := store.View().Lines();
    var boundaries := Retain(lines, objects, keepDaily, keepMonthly, monthOf);
    keep := ReachableArchives(lines, boundaries);
    var doomedSet, orphanSet := Doomed(store.View(), keep), Orphans(store.View(), keep, isArchive);
    NothingGoes(before, keep, isArchive);
    if !apply || (doomedSet == {} && orphanSet == {}) {
      return Planned, keep;
    }
    if Listing(before) {
      ListingIsNotBroken(before, boundaries, keep);
    }
    if Broken(store.View(), keep) || (lines == [] && doomedSet != {}) {
      return Refused, keep;
    }
    Collect(store, lines, boundaries, keep, doomedSet, orphanSet);
    forall i | |old(store.trace)| <= i < |store.trace|
      ensures Safe(before, store.trace[i])
    {
      CollectingIntact(before, keep, store.trace[i]);
    }
    CollectingIntact(before, keep, store.View());
    outcome := Applied;
  }
}
