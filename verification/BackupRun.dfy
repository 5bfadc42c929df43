/** A whole push: exactly when it completes, what it makes current, and what every interruption leaves. */
module BackupRun {
  import opened Options
  import opened BackupIndex
  import opened BackupStore
  import opened BackupScan
  import opened BackupPlace
  import opened BackupRefer
  import opened BackupTotals

  // ----- what is current afterwards -----

  /** What is current after appending: the hash of every file's present content. */
  lemma AppendedIsCurrent(files: seq<File>, lines: seq<IndexLine>, entries: seq<IndexLine>, f: File)
    requires DistinctPaths(files) && f in files
    requires forall e | e in entries :: exists g :: g in files && Describes(e, g)
    requires exists e :: e in entries && Describes(e, f)
    ensures f.path in Latest(lines + entries) && Latest(lines + entries)[f.path].sha256 == f.Sha()
  {
    LatestAppend(lines, entries);
    LatestMembers(entries);
    var e :| e in entries && Describes(e, f);
    var current := Latest(entries)[f.path];
    var g :| g in files && Describes(current, g);
    SamePath(files, f, g);
  }

  lemma UntouchedIsCurrent(lines: seq<IndexLine>, entries: seq<IndexLine>, p: string)
    requires p in Latest(lines) && forall e | e in entries :: e.path != p
    ensures p in Latest(lines + entries) && Latest(lines + entries)[p] == Latest(lines)[p]
  {
    LatestAppend(lines, entries);
    LatestMembers(entries);
  }

  lemma CurrentAfter(files: seq<File>, lines: seq<IndexLine>, s: Summary, immutable: bool, r: Scanned,
      entries: seq<IndexLine>, f: File)
    requires DistinctPaths(files) && ScanOf(files, s, immutable, r) && Summarizes(s, lines) && f in files
    requires Covered(r.pending + (r.refs + r.duplicates), entries)
    ensures if Unchanged(s, immutable, f) then f.path in Latest(lines + entries) &&
      Latest(lines + entries)[f.path] == Latest(lines)[f.path]
            else CurrentFor(lines + entries, f)
  {
    var changed := r.pending + (r.refs + r.duplicates);
    forall e | e in entries ensures exists g :: g in files && !Unchanged(s, immutable, g) && Describes(e, g) {
      var g :| g in changed && Describes(e, g);
      assert Recorded(r, g);
    }
    if Unchanged(s, immutable, f) {
      forall e | e in entries ensures e.path != f.path {
        var g :| g in files && !Unchanged(s, immutable, g) && Describes(e, g);
        if g.path == f.path {
          SamePath(files, f, g);
        }
      }
      UntouchedIsCurrent(lines, entries, f.path);
    } else {
      assert Recorded(r, f) && f in changed;
      AppendedIsCurrent(files, lines, entries, f);
    }
  }

  /** Each scanned file is current afterwards; an immutable source leaves known paths as they were. */
  ghost predicate UpToDate(files: seq<File>, immutable: bool, lines: seq<IndexLine>, lines': seq<IndexLine>) {
    forall f | f in files ::
      if immutable && f.path in Latest(lines) then f.path in Latest(lines') &&
        Latest(lines')[f.path] == Latest(lines)[f.path]
      else CurrentFor(lines', f)
  }

  lemma UpToDateAfter(files: seq<File>, lines: seq<IndexLine>, s: Summary, immutable: bool, r: Scanned,
      entries: seq<IndexLine>)
    requires DistinctPaths(files) && ScanOf(files, s, immutable, r) && Summarizes(s, lines)
    requires Covered(r.pending + (r.refs + r.duplicates), entries)
    ensures UpToDate(files, immutable, lines, lines + entries)
  {
    forall f | f in files
      ensures if immutable && f.path in Latest(lines) then f.path in Latest(lines + entries) &&
        Latest(lines + entries)[f.path] == Latest(lines)[f.path]
              else CurrentFor(lines + entries, f)
    {
      CurrentAfter(files, lines, s, immutable, r, entries, f);
    }
  }

  /** Nothing is recorded exactly when no entry is written. */
  lemma NothingRecorded(r: Scanned, entries: seq<IndexLine>)
    requires Covered(r.pending + (r.refs + r.duplicates), entries)
    ensures entries == [] <==> r.pending == [] && r.refs == [] && r.duplicates == []
  {
    var changed := r.pending + (r.refs + r.duplicates);
    if changed != [] {
      assert changed[0] in changed;
      var e :| e in entries && Describes(e, changed[0]);
    }
    if entries != [] {
      assert entries[0] in entries;
      var f :| f in changed && Describes(entries[0], f);
    }
  }

  lemma CurrentScansEmpty(files: seq<File>, lines: seq<IndexLine>, s: Summary, immutable: bool, r: Scanned)
    requires ScanOf(files, s, immutable, r) && Summarizes(s, lines) && forall f | f in files :: CurrentFor(lines, f)
    ensures r.pending == [] && r.refs == [] && r.duplicates == []
  {
    forall f ensures f !in r.pending && f !in r.refs && f !in r.duplicates {
      if f in files {
        assert Unchanged(s, immutable, f);
      }
      assert !Recorded(r, f);
    }
    FirstElement(r.pending);
    FirstElement(r.refs);
    FirstElement(r.duplicates);
  }

  lemma FirstElement<T>(s: seq<T>)
    ensures s == [] || s[0] in s
  {
  }

  // ----- where the content of a file stands -----

  /** After a push: an unchanged file keeps its line, known content is named at its first place in the old index, and
      new content stands in an archive that is listed rightly. */
  ghost predicate Homed(before: Remote, after: Remote, immutable: bool, f: File) {
    f.path in Latest(after.Lines()) &&
    var e := Latest(after.Lines())[f.path];
    if Known(before.Lines(), immutable, f) then e == Latest(before.Lines())[f.path]
    else Describes(e, f) && Sourced(before.Lines(), after.Listed(), after.archives, e)
  }

  ghost predicate AllHomed(before: Remote, after: Remote, immutable: bool, files: seq<File>) {
    forall f | f in files :: Homed(before, after, immutable, f)
  }

  lemma HomedAfter(before: Remote, after: Remote, files: seq<File>, s: Summary, immutable: bool, r: Scanned,
      entries: seq<IndexLine>, f: File)
    requires DistinctPaths(files) && ScanOf(files, s, immutable, r) && Summarizes(s, before.Lines()) && f in files
    requires Covered(r.pending + (r.refs + r.duplicates), entries) && after.Lines() == before.Lines() + entries
    requires AllAppendable(files, before.Lines(), after.Listed(), after.archives, entries)
    ensures Homed(before, after, immutable, f)
  {
    var lines := before.Lines();
    assert Unchanged(s, immutable, f) <==> Known(lines, immutable, f);
    CurrentAfter(files, lines, s, immutable, r, entries, f);
    if !Unchanged(s, immutable, f) {
      assert Recorded(r, f) && f in r.pending + (r.refs + r.duplicates);
      NewestEntry(files, lines, entries, f);
    }
  }

  lemma NewestEntry(files: seq<File>, lines: seq<IndexLine>, entries: seq<IndexLine>, f: File)
    requires DistinctPaths(files) && f in files && exists e :: e in entries && Describes(e, f)
    requires forall e | e in entries :: exists g :: g in files && Describes(e, g)
    ensures f.path in Latest(lines + entries)
    ensures Latest(lines + entries)[f.path] in entries && Describes(Latest(lines + entries)[f.path], f)
  {
    LatestAppend(lines, entries);
    LatestMembers(entries);
    var e :| e in entries && Describes(e, f);
    var newest := Latest(entries)[f.path];
    var g :| g in files && Describes(newest, g);
    SamePath(files, f, g);
  }

  /** Which archives named by the old index are listed rightly does not change. */
  ghost predicate OldListingKept(before: Remote, listed: map<string, Meta>, archives: map<string, Archive>) {
    forall e | e in before.Lines() ::
      ListedRight(listed, archives, e.archive) <==> ListedRight(before.Listed(), before.archives, e.archive)
  }

  /** An archive named by an intact index holds content of that index, so it is no segment of new content. */
  lemma SegmentHoldsLine(before: Remote, segment: seq<File>, e: IndexLine)
    requires Intact(before) && e in before.Lines() && before.archives[e.archive] == ArchiveOf(segment)
    ensures exists g :: g in segment && g.Sha() == e.sha256
  {
    assert Stored(before.archives, e);
    var m :| m in ArchiveOf(segment) && m.name == e.member;
    var k :| 0 <= k < |segment| && m == Member(segment[k].path, segment[k].content);
    assert segment[k] in segment;
  }

  lemma OldNamesApart(before: Remote, now: map<string, Archive>, segments: seq<seq<File>>,
      nameOf: seq<Digest> -> string, i: nat, e: IndexLine)
    requires Intact(before) && e in before.Lines() && Grows(before.archives, now)
    requires i < |segments| && StoredAs(now, segments[i], nameOf) && forall f | f in segments[i] ::
      !Occurs(before.Lines(), f.Sha())
    ensures NameOf(segments[i], nameOf) != e.archive
  {
    assert Stored(before.archives, e);
    if NameOf(segments[i], nameOf) == e.archive {
      SegmentHoldsLine(before, segments[i], e);
      assert Occurs(before.Lines(), e.sha256);
    }
  }

  lemma OldListing(files: seq<File>, before: Remote, segments: seq<seq<File>>, nameOf: seq<Digest> -> string,
      now: Remote,
      entries: seq<IndexLine>, listed: map<string, Meta>)
    requires Intact(before) &&
      PlacedSoFar(files, segments, nameOf, before, before.Listed(), |segments|, now, entries, listed)
    requires forall f | f in Flatten(segments) :: !Occurs(before.Lines(), f.Sha())
    ensures OldListingKept(before, listed, now.archives)
  {
    forall e | e in before.Lines()
      ensures ListedRight(listed, now.archives, e.archive) <==> ListedRight(before.Listed(), before.archives, e.archive)
    {
      assert Stored(before.archives, e);
      forall i | 0 <= i < |segments| ensures NameOf(segments[i], nameOf) != e.archive {
        assert StoredAs(now.archives, segments[i], nameOf);
        FlattenContains(segments, i);
        OldNamesApart(before, now.archives, segments, nameOf, i, e);
      }
      assert SameListing(before.Listed(), listed, e.archive);
    }
  }

  // ----- when a push completes -----

  /** No archive this push would store finds its name taken by other bytes. */
  ghost predicate Completes(r: Remote, files: seq<File>, immutable: bool, cap: nat, nameOf: seq<Digest> -> string) {
    NoConflict(r.archives, SegmentsOf(Fresh(files, r.Lines(), immutable), cap), nameOf)
  }

  /** An interrupted upload completes when rerun exactly if the first run would have. */
  lemma RerunCompletes(before: Remote, during: Remote, files: seq<File>, immutable: bool, cap: nat,
      nameOf: seq<Digest> -> string)
    requires Partly(before, SegmentsOf(Fresh(files, before.Lines(), immutable), cap), nameOf, during)
    ensures Completes(during, files, immutable, cap, nameOf) <==> Completes(before, files, immutable, cap, nameOf)
  {
    var segments := SegmentsOf(Fresh(files, before.Lines(), immutable), cap);
    var n :| 0 <= n <= |segments| && during == before.(archives := Uploaded(before.archives, segments, nameOf, n));
    UploadedConflicts(before.archives, segments, nameOf, n);
  }

  /** Once every file is known, a rerun stores nothing and completes. */
  lemma KnownCompletes(r: Remote, files: seq<File>, immutable: bool, cap: nat, nameOf: seq<Digest> -> string)
    requires forall f | f in files :: Known(r.Lines(), immutable, f)
    ensures Completes(r, files, immutable, cap, nameOf)
  {
    NothingFresh(files, r.Lines(), immutable);
  }

  lemma UpToDateIsKnown(files: seq<File>, immutable: bool, lines: seq<IndexLine>, lines': seq<IndexLine>)
    requires UpToDate(files, immutable, lines, lines')
    ensures forall f | f in files :: Known(lines', immutable, f)
  {
  }

  lemma SavedIntact(before: Remote, during: Remote, entries: seq<IndexLine>, files: seq<File>)
    requires Intact(before) && Grows(before.archives, during.archives)
    requires during.index == Some(before.Lines() + entries) && AllGood(files, during.archives, entries)
    ensures Intact(during)
  {
    forall e | e in during.Lines() ensures Stored(during.archives, e) {
      if e in before.Lines() {
        StoredGrows(before.archives, during.archives, e);
      } else {
        assert e in entries;
      }
    }
  }

  /** Every remote state since the `n`th write is intact. */
  ghost predicate IntactSince(trace: seq<Remote>, n: nat) {
    forall i | n <= i < |trace| :: Intact(trace[i])
  }

  ghost predicate AllCurrent(lines: seq<IndexLine>, files: seq<File>) {
    forall f | f in files :: CurrentFor(lines, f)
  }

  ghost predicate RightTotals(m: Manifest, lines: seq<IndexLine>) {
    m.files == |Latest(lines)| && m.rawBytes == SizeTotal(Latest(lines))
  }

  /** Index and manifest were written last, the manifest after the index and with the index's true totals. */
  ghost predicate Saved(manifest: Option<Manifest>, r: Remote, trace: seq<Remote>) {
    && r.manifest.Some? && RightTotals(r.manifest.value, r.Lines())
    && |trace| >= 2 && trace[|trace| - 2] == r.(manifest := manifest) && trace[|trace| - 1] == r
  }

  /** Every state since the `n`th write completes when rerun, or none does. */
  ghost predicate RerunsAs(ok: bool, trace: seq<Remote>, n: nat, files: seq<File>, immutable: bool, cap: nat,
      nameOf: seq<Digest> -> string) {
    forall i | n <= i < |trace| :: Completes(trace[i], files, immutable, cap, nameOf) <==> ok
  }

  // ----- the push -----

  lemma ScannedAreFiles(files: seq<File>, s: Summary, immutable: bool, r: Scanned)
    requires ScanOf(files, s, immutable, r)
    ensures forall f | f in r.pending || f in r.refs || f in r.duplicates :: f in files
    ensures forall f | f in r.duplicates :: Queued(r.pending, f.Sha())
  {
    forall f | f in r.pending || f in r.refs || f in r.duplicates ensures f in files {
      assert Recorded(r, f);
    }
  }

  /** What the second half of a push starts from. */
  ghost predicate Prepared(files: seq<File>, before: Remote, now: Remote, s: Summary, r: Scanned, immutable: bool,
      entries: seq<IndexLine>, listed: map<string, Meta>)
  {
    && OnlyAdds(before, now) && Summarizes(s, before.Lines()) && ScanOf(files, s, immutable, r)
    && Covered(r.pending + (r.refs + r.duplicates), entries)
    && AllAppendable(files, before.Lines(), listed, now.archives, entries)
    && OldListingKept(before, listed, now.archives)
  }

  lemma ScanSources(files: seq<File>, lines: seq<IndexLine>, s: Summary, immutable: bool, r: Scanned)
    requires ScanOf(files, s, immutable, r) && Summarizes(s, lines)
    ensures forall f | f in r.pending :: f in files && !Occurs(lines, f.Sha())
    ensures forall f | f in r.refs :: f in files && Occurs(lines, f.Sha())
    ensures forall f | f in r.duplicates :: f in files && !Occurs(lines, f.Sha()) && Queued(r.pending, f.Sha())
  {
    ScannedAreFiles(files, s, immutable, r);
  }

  /** All entries of a push: new content, then references, then duplicates. */
  method CollectEntries(store: RemoteStore, files: seq<File>, r: Scanned, cap: nat, nameOf: seq<Digest> -> string,
      ghost s: Summary, ghost immutable: bool)
    returns (ok: bool, entries: seq<IndexLine>, listed: map<string, Meta>)
    requires DistinctPaths(files) && ScanOf(files, s, immutable, r) && Summarizes(s, store.View().Lines()) &&
      Intact(store.View())
    modifies store
    ensures old(store.trace) <= store.trace &&
      Partly(old(store.View()), SegmentsOf(r.pending, cap), nameOf, store.View())
    ensures PartlySince(old(store.View()), SegmentsOf(r.pending, cap), nameOf, store.trace, |old(store.trace)|)
    ensures ok <==> NoConflict(old(store.archives), SegmentsOf(r.pending, cap), nameOf)
    ensures ok ==> Prepared(files, old(store.View()), store.View(), s, r, immutable, entries, listed)
    ensures r.pending == [] ==> store.trace == old(store.trace) && store.View() == old(store.View())
  {
    ghost var before := store.View();
    var lines := store.View().Lines();
    ScanSources(files, lines, s, immutable, r);
    var batches := Segments(r.pending, cap);
    var placed;
    ok, placed, listed := PlaceAll(store, files, batches, nameOf, store.View().Listed());
    if !ok {
      return false, [], listed;
    }
    UploadedMeans(before.archives, batches, nameOf, |batches|);
    assert batches[..|batches|] == batches;
    IntactGrows(before, store.archives);
    PlacedAppendable(files, lines, listed, store.archives, r.pending, placed);
    OldListing(files, before, batches, nameOf, store.View(), placed, listed);
    var others := ReferAll(files, lines, r, placed, store.archives, listed);
    entries := placed + others;
    CoveredAppend(r.pending, placed, r.refs + r.duplicates, others);
    AppendableAppend(files, lines, listed, store.archives, placed, others);
  }

  lemma PartlyIntact(before: Remote, during: Remote, segments: seq<seq<File>>, nameOf: seq<Digest> -> string)
    requires Intact(before) && Partly(before, segments, nameOf, during)
    ensures Intact(during) && OnlyAdds(before, during)
  {
    var n :| 0 <= n <= |segments| && during == before.(archives := Uploaded(before.archives, segments, nameOf, n));
    UploadedMeans(before.archives, segments, nameOf, n);
    IntactGrows(before, during.archives);
  }

  /** First half of a push: scan, upload new content and compute the entries, touching neither index nor manifest. */
  method Upload(store: RemoteStore, files: seq<File>, immutable: bool, cap: nat, nameOf: seq<Digest> -> string)
    returns (ok: bool, s: Summary, r: Scanned, entries: seq<IndexLine>, listed: map<string, Meta>)
    requires DistinctPaths(files) && Intact(store.View())
    modifies store
    ensures OnlyAdds(old(store.View()), store.View()) && old(store.trace) <= store.trace &&
      IntactSince(store.trace, |old(store.trace)|)
    ensures ok <==> Completes(old(store.View()), files, immutable, cap, nameOf)
    ensures RerunsAs(ok, store.trace, |old(store.trace)|, files, immutable, cap, nameOf)
    ensures ok ==> Prepared(files, old(store.View()), store.View(), s, r, immutable, entries, listed)
    ensures ok && entries == [] ==> store.View() == old(store.View()) && store.trace == old(store.trace)
    ensures AllCurrent(old(store.View()).Lines(), files) ==> ok && entries == []
  {
    ghost var before := store.View();
    s := Summarize(store.View().Lines());
    r := Scan(files, s, immutable, store.View().Lines());
    if AllCurrent(before.Lines(), files) {
      CurrentScansEmpty(files, before.Lines(), s, immutable, r);
      assert SegmentsOf([], cap) == [];
    }
    ok, entries, listed := CollectEntries(store, files, r, cap, nameOf, s, immutable);
    ghost var segments := SegmentsOf(r.pending, cap);
    forall i | |old(store.trace)| <= i < |store.trace|
      ensures Intact(store.trace[i]) && (Completes(store.trace[i], files, immutable, cap, nameOf) <==> ok)
    {
      PartlyIntact(before, store.trace[i], segments, nameOf);
      RerunCompletes(before, store.trace[i], files, immutable, cap, nameOf);
    }
    PartlyIntact(before, store.View(), segments, nameOf);
    if ok {
      NothingRecorded(r, entries);
    }
  }

  /** Push a tree.  It completes if and only if no archive name it needs is taken by other bytes.  Whatever moment it is
      interrupted at, every line of the remote index names a present archive holding that member with that hash, and
      pushing the same files again completes as this run would have.  When it completes, each file is current, and
      where its content stands is determined by the index before. */
  method Push(store: RemoteStore, files: seq<File>, immutable: bool, cap: nat,
      nameOf: seq<Digest> -> string) returns (ok: bool)
    requires DistinctPaths(files) && Intact(store.View())
    modifies store
    ensures ok <==> Completes(old(store.View()), files, immutable, cap, nameOf)
    ensures Intact(store.View()) && old(store.trace) <= store.trace && IntactSince(store.trace, |old(store.trace)|)
    ensures RerunsAs(ok, store.trace, |old(store.trace)|, files, immutable, cap, nameOf)
    ensures !ok ==> store.index == old(store.index) && store.manifest == old(store.manifest)
    ensures ok ==> Pushed(old(store.View()), store.View(), files, immutable)
    ensures ok ==> store.View() == old(store.View()) || Saved(old(store.manifest), store.View(), store.trace)
    ensures AllCurrent(old(store.View()).Lines(), files) ==>
      store.trace == old(store.trace) && store.View() == old(store.View())
  {
    ghost var before := store.View();
    var lines := store.View().Lines();
    var s, r, entries, listed;
    ok, s, r, entries, listed := Upload(store, files, immutable, cap, nameOf);
    PartlyOrSame(before, store.View());
    if !ok {
      return;
    }
    if entries == [] {
      UnchangedPush(before, files, s, immutable, r, listed);
      return;
    }
    ghost var uploaded := store.trace;
    FinishPush(store, files, immutable, entries, s, r, listed, before);
    PushReruns(before, store.View(), files, immutable, cap, nameOf, uploaded, store.trace, |old(store.trace)|);
  }

  /** What a completed push leaves. */
  ghost predicate Pushed(before: Remote, after: Remote, files: seq<File>, immutable: bool) {
    && before.Lines() <= after.Lines() && Grows(before.archives, after.archives)
    && UpToDate(files, immutable, before.Lines(), after.Lines()) && AllHomed(before, after, immutable, files)
    && OldListingKept(before, after.Listed(), after.archives) && (Listing(before) ==> Listing(after))
  }

  lemma PartlyOrSame(before: Remote, now: Remote)
    requires Intact(before) && OnlyAdds(before, now)
    ensures Intact(now)
  {
    IntactGrows(before, now.archives);
  }

  lemma UnchangedPush(before: Remote, files: seq<File>, s: Summary, immutable: bool, r: Scanned,
      listed: map<string, Meta>)
    requires DistinctPaths(files) && Prepared(files, before, before, s, r, immutable, [], listed)
    ensures Pushed(before, before, files, immutable)
  {
    var lines := before.Lines();
    assert lines + [] == lines;
    UpToDateAfter(files, lines, s, immutable, r, []);
    forall f | f in files ensures Homed(before, before, immutable, f) {
      HomedAfter(before, before, files, s, immutable, r, [], f);
    }
  }

  /** Entries name archives that are listed when the old index's are. */
  lemma AppendedListing(before: Remote, after: Remote, files: seq<File>, entries: seq<IndexLine>)
    requires Listing(before) && after.Lines() == before.Lines() + entries &&
      OldListingKept(before, after.Listed(), after.archives)
    requires AllAppendable(files, before.Lines(), after.Listed(), after.archives, entries)
    ensures Listing(after)
  {
    forall e | e in after.Lines() ensures ListedRight(after.Listed(), after.archives, e.archive) {
      if e in before.Lines() {
        assert ListedRight(before.Listed(), before.archives, e.archive);
      } else {
        assert e in entries && Appendable(files, before.Lines(), after.Listed(), after.archives, e);
        SourceListed(before, after, e);
      }
    }
  }

  lemma SourceListed(before: Remote, after: Remote, e: IndexLine)
    requires Listing(before) && OldListingKept(before, after.Listed(), after.archives)
    requires Sourced(before.Lines(), after.Listed(), after.archives, e)
    ensures ListedRight(after.Listed(), after.archives, e.archive)
  {
    var lines := before.Lines();
    if Occurs(lines, e.sha256) {
      var i :| 0 <= i < |lines| && lines[i].sha256 == e.sha256 &&
        (e.archive, e.member) == (lines[i].archive, lines[i].member);
      assert lines[i] in lines;
      assert ListedRight(before.Listed(), before.archives, lines[i].archive);
    }
  }

  lemma FinishedPush(before: Remote, after: Remote, files: seq<File>, s: Summary, immutable: bool, r: Scanned,
      entries: seq<IndexLine>)
    requires DistinctPaths(files) &&
      Prepared(files, before, before.(archives := after.archives), s, r, immutable, entries, after.Listed())
    requires after.Lines() == before.Lines() + entries
    ensures Pushed(before, after, files, immutable)
  {
    UpToDateAfter(files, before.Lines(), s, immutable, r, entries);
    forall f | f in files ensures Homed(before, after, immutable, f) {
      HomedAfter(before, after, files, s, immutable, r, entries, f);
    }
    if Listing(before) {
      AppendedListing(before, after, files, entries);
    }
  }

  lemma AppendableIsGood(files: seq<File>, lines: seq<IndexLine>, listed: map<string, Meta>,
      archives: map<string, Archive>, entries: seq<IndexLine>)
    requires AllAppendable(files, lines, listed, archives, entries)
    ensures AllGood(files, archives, entries)
  {
  }

  lemma ReadyToSave(files: seq<File>, before: Remote, now: Remote, s: Summary, r: Scanned, immutable: bool,
      entries: seq<IndexLine>, listed: map<string, Meta>)
    requires Prepared(files, before, now, s, r, immutable, entries, listed)
    ensures now.Lines() == before.Lines() && Summarizes(s, now.Lines())
    ensures var changed := set f | f in r.pending + (r.refs + r.duplicates) :: f.path;
      forall e | e in entries :: e.path in changed
  {
    var items := r.pending + (r.refs + r.duplicates);
    forall e | e in entries ensures exists f :: f in items && f.path == e.path {
      var f :| f in items && Describes(e, f);
    }
  }

  lemma SavedSince(before: Remote, saved: Remote, entries: seq<IndexLine>, files: seq<File>, trace: seq<Remote>,
      trace': seq<Remote>)
    requires Intact(before) && Grows(before.archives, saved.archives)
    requires saved.index == Some(before.Lines() + entries) && AllGood(files, saved.archives, entries)
    requires |trace'| == |trace| + 2 && trace'[|trace|] == saved.(manifest := before.manifest) &&
      trace'[|trace| + 1] == saved
    ensures Intact(saved) && IntactSince(trace', |trace|)
  {
    SavedIntact(before, saved, entries, files);
    SavedIntact(before, saved.(manifest := before.manifest), entries, files);
  }

  lemma WhenSaved(before: Remote, now: Remote, saved: Remote, files: seq<File>, s: Summary, r: Scanned, immutable: bool,
      entries: seq<IndexLine>, trace: seq<Remote>, trace': seq<Remote>)
    requires DistinctPaths(files) && Intact(before)
    requires Prepared(files, before, now, s, r, immutable, entries, saved.Listed())
    requires saved.archives == now.archives && saved.index == Some(before.Lines() + entries)
    requires |trace'| == |trace| + 2 && trace'[|trace|] == saved.(manifest := before.manifest) &&
      trace'[|trace| + 1] == saved
    ensures Intact(saved) && IntactSince(trace', |trace|) && Pushed(before, saved, files, immutable)
  {
    assert before.(archives := saved.archives) == now;
    AppendableIsGood(files, before.Lines(), saved.Listed(), now.archives, entries);
    SavedSince(before, saved, entries, files, trace, trace');
    FinishedPush(before, saved, files, s, immutable, r, entries);
  }

  /** Second half of a push: index, then manifest. */
  method FinishPush(store: RemoteStore, ghost files: seq<File>, ghost immutable: bool, entries: seq<IndexLine>,
      s: Summary, r: Scanned,
      listed: map<string, Meta>, ghost before: Remote)
    requires DistinctPaths(files) && Intact(before) &&
      Prepared(files, before, store.View(), s, r, immutable, entries, listed)
    modifies store
    ensures Intact(store.View()) && old(store.trace) <= store.trace && IntactSince(store.trace, |old(store.trace)|)
    ensures |store.trace| == |old(store.trace)| + 2 && Saved(old(store.manifest), store.View(), store.trace)
    ensures Pushed(before, store.View(), files, immutable)
  {
    var lines := store.View().Lines();
    var changed := set f | f in r.pending + (r.refs + r.duplicates) :: f.path;
    ReadyToSave(files, before, store.View(), s, r, immutable, entries, listed);
    SaveState(store, lines, entries, s, changed, listed);
    WhenSaved(before, old(store.View()), store.View(), files, s, r, immutable, entries, old(store.trace), store.trace);
  }

  /** After the index is written a rerun has nothing to store. */
  lemma PushedCompletes(before: Remote, after: Remote, files: seq<File>, immutable: bool, cap: nat,
      nameOf: seq<Digest> -> string)
    requires Pushed(before, after, files, immutable)
    ensures Completes(after, files, immutable, cap, nameOf)
    ensures Completes(after.(manifest := before.manifest), files, immutable, cap, nameOf)
  {
    UpToDateIsKnown(files, immutable, before.Lines(), after.Lines());
    KnownCompletes(after, files, immutable, cap, nameOf);
    KnownCompletes(after.(manifest := before.manifest), files, immutable, cap, nameOf);
  }

  lemma IntactJoin(trace: seq<Remote>, trace': seq<Remote>, n: nat)
    requires trace <= trace' && n <= |trace| && IntactSince(trace, n) && IntactSince(trace', |trace|)
    ensures IntactSince(trace', n)
  {
    forall i | n <= i < |trace'| ensures Intact(trace'[i]) {
      if i < |trace| {
        assert trace'[i] == trace[i];
      }
    }
  }

  lemma SavedReruns(after: Remote, earlier: Remote, files: seq<File>, immutable: bool, cap: nat,
      nameOf: seq<Digest> -> string,
      trace: seq<Remote>, trace': seq<Remote>, n: nat)
    requires Completes(after, files, immutable, cap, nameOf) && Completes(earlier, files, immutable, cap, nameOf)
    requires trace <= trace' && |trace'| == |trace| + 2 && n <= |trace|
    requires trace'[|trace|] == earlier && trace'[|trace| + 1] == after
    requires RerunsAs(true, trace, n, files, immutable, cap, nameOf)
    ensures RerunsAs(true, trace', n, files, immutable, cap, nameOf)
  {
    forall i | n <= i < |trace'| ensures Completes(trace'[i], files, immutable, cap, nameOf) {
      if i < |trace| {
        assert trace'[i] == trace[i];
      }
    }
  }

  lemma PushReruns(before: Remote, after: Remote, files: seq<File>, immutable: bool, cap: nat,
      nameOf: seq<Digest> -> string,
      trace: seq<Remote>, trace': seq<Remote>, n: nat)
    requires Pushed(before, after, files, immutable) && Saved(before.manifest, after, trace')
    requires trace <= trace' && |trace'| == |trace| + 2 && n <= |trace|
    requires IntactSince(trace, n) && IntactSince(trace', |trace|) &&
      RerunsAs(true, trace, n, files, immutable, cap, nameOf)
    ensures IntactSince(trace', n) && RerunsAs(true, trace', n, files, immutable, cap, nameOf)
  {
    var earlier := after.(manifest := before.manifest);
    PushedCompletes(before, after, files, immutable, cap, nameOf);
    assert trace'[|trace|] == earlier && trace'[|trace| + 1] == after;
    SavedReruns(after, earlier, files, immutable, cap, nameOf, trace, trace', n);
    IntactJoin(trace, trace', n);
  }
}
