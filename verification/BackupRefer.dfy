/** Entries for content that is already stored: at its first place in the index, or placed earlier in the same run. */
module BackupRefer {
  import opened BackupIndex
  import opened BackupStore
  import opened BackupScan
  import opened BackupPlace

  /** First location of each wanted hash; fails exactly when one of them does not occur. */
  method ResolveFirstLocations(lines: seq<IndexLine>, wanted: set<Digest>) returns (ok: bool,
      found: map<Digest, (string, string)>)
    ensures ok <==> forall d | d in wanted :: Occurs(lines, d)
    ensures ok ==> forall d | d in wanted :: d in found && FirstWith(lines, d, found[d])
  {
    found := map[];
    var n := 0;
    while n < |lines| && found.Keys != wanted
      invariant 0 <= n <= |lines| && found.Keys <= wanted
      invariant forall d | d in found :: FirstWith(lines, d, found[d])
      invariant forall d | d in wanted && d !in found :: forall j | 0 <= j < n :: lines[j].sha256 != d
      decreases |lines| - n
    {
      var d := lines[n].sha256;
      if d in wanted && d !in found {
        assert FirstWith(lines, d, (lines[n].archive, lines[n].member));
        found := found[d := (lines[n].archive, lines[n].member)];
      }
      n := n + 1;
    }
    ok := wanted <= found.Keys;
    forall d | d in found ensures Occurs(lines, d) {
      var i :| 0 <= i < |lines| && lines[i].sha256 == d && found[d] == (lines[i].archive, lines[i].member);
      assert lines[i] in lines;
    }
  }

  /** Entries that point at content found elsewhere. */
  ghost predicate Points(e: IndexLine, f: File, at: (string, string)) {
    Describes(e, f) && e.archive == at.0 && e.member == at.1
  }

  method ReferTo(items: seq<File>, locations: map<Digest, (string, string)>) returns (entries: seq<IndexLine>)
    requires forall f | f in items :: f.Sha() in locations
    ensures |entries| == |items|
    ensures forall i | 0 <= i < |items| :: Points(entries[i], items[i], locations[items[i].Sha()])
  {
    entries := [];
    for n := 0 to |items|
      invariant |entries| == n
      invariant forall i | 0 <= i < n :: Points(entries[i], items[i], locations[items[i].Sha()])
    {
      assert items[n] in items;
      var at := locations[items[n].Sha()];
      entries := entries + [EntryOf(items[n], at.0, at.1)];
    }
  }

  /** A reference to a stored line is itself stored. */
  lemma ReferenceIsGood(files: seq<File>, archives: map<string, Archive>, e: IndexLine, f: File, source: IndexLine)
    requires f in files && Points(e, f, (source.archive, source.member)) && source.sha256 == f.Sha() &&
      Stored(archives, source)
    ensures Good(files, archives, e)
  {
  }

  // ----- what a push may append -----

  /** Where an entry's content stands: at its first place in the index, or in an archive of this run, listed rightly. */
  ghost predicate Sourced(lines: seq<IndexLine>, listed: map<string, Meta>, archives: map<string, Archive>,
      e: IndexLine) {
    if Occurs(lines, e.sha256) then FirstWith(lines, e.sha256, (e.archive, e.member)) else ListedRight(listed,
      archives, e.archive)
  }

  ghost predicate Appendable(files: seq<File>, lines: seq<IndexLine>, listed: map<string, Meta>,
      archives: map<string, Archive>, e: IndexLine) {
    Good(files, archives, e) && Sourced(lines, listed, archives, e)
  }

  ghost predicate AllAppendable(files: seq<File>, lines: seq<IndexLine>, listed: map<string, Meta>,
      archives: map<string, Archive>,
      entries: seq<IndexLine>)
  {
    forall e | e in entries :: Appendable(files, lines, listed, archives, e)
  }

  lemma AppendableAppend(files: seq<File>, lines: seq<IndexLine>, listed: map<string, Meta>,
      archives: map<string, Archive>,
      xs: seq<IndexLine>, ys: seq<IndexLine>)
    requires AllAppendable(files, lines, listed, archives, xs) && AllAppendable(files, lines, listed, archives, ys)
    ensures AllAppendable(files, lines, listed, archives, xs + ys)
  {
  }

  /** Entries of newly stored content. */
  lemma PlacedAppendable(files: seq<File>, lines: seq<IndexLine>, listed: map<string, Meta>,
      archives: map<string, Archive>,
      items: seq<File>, entries: seq<IndexLine>)
    requires (forall f | f in items :: !Occurs(lines, f.Sha())) && Covered(items, entries)
    requires AllGood(files, archives, entries) && AllListed(listed, archives, entries)
    ensures AllAppendable(files, lines, listed, archives, entries)
  {
    forall e | e in entries ensures Appendable(files, lines, listed, archives, e) {
      var f :| f in items && Describes(e, f);
    }
  }

  /** A reference to the first place of its content. */
  lemma RefAppendable(files: seq<File>, lines: seq<IndexLine>, listed: map<string, Meta>,
      archives: map<string, Archive>,
      f: File, at: (string, string), e: IndexLine)
    requires f in files && FirstWith(lines, f.Sha(), at) && Points(e, f, at) && forall x | x in lines ::
      Stored(archives, x)
    ensures Appendable(files, lines, listed, archives, e)
  {
    var i :| 0 <= i < |lines| && lines[i].sha256 == f.Sha() && at == (lines[i].archive, lines[i].member)
      && forall j | 0 <= j < i :: lines[j].sha256 != f.Sha();
    assert lines[i] in lines;
    ReferenceIsGood(files, archives, e, f, lines[i]);
  }

  method ReferKnown(files: seq<File>, lines: seq<IndexLine>, refs: seq<File>, ghost archives: map<string, Archive>,
      ghost listed: map<string, Meta>)
    returns (entries: seq<IndexLine>)
    requires (forall f | f in refs :: f in files && Occurs(lines, f.Sha())) && forall x | x in lines ::
      Stored(archives, x)
    ensures Covered(refs, entries) && AllAppendable(files, lines, listed, archives, entries)
  {
    var wanted := set f | f in refs :: f.Sha();
    var ok, found := ResolveFirstLocations(lines, wanted);
    forall f | f in refs ensures f.Sha() in found && FirstWith(lines, f.Sha(), found[f.Sha()]) {
      assert f.Sha() in wanted;
    }
    entries := ReferTo(refs, found);
    CoveredPointwise(refs, entries);
    forall e | e in entries ensures Appendable(files, lines, listed, archives, e) {
      var i :| 0 <= i < |entries| && entries[i] == e;
      assert refs[i] in refs;
      RefAppendable(files, lines, listed, archives, refs[i], found[refs[i].Sha()], e);
    }
  }

  /** Lines that point at stored, rightly hashed content. */
  ghost predicate RightLocations(lines: seq<IndexLine>, locations: map<Digest, (string, string)>) {
    forall d | d in locations :: exists e :: e in lines && e.sha256 == d && locations[d] == (e.archive, e.member)
  }

  /** Where the entries of this run placed each hash. */
  method Placed(entries: seq<IndexLine>) returns (placed: map<Digest, (string, string)>)
    ensures RightLocations(entries, placed)
    ensures forall e | e in entries :: e.sha256 in placed
  {
    placed := map[];
    for n := 0 to |entries|
      invariant RightLocations(entries, placed)
      invariant forall i | 0 <= i < n :: entries[i].sha256 in placed
    {
      assert entries[n] in entries;
      placed := placed[entries[n].sha256 := (entries[n].archive, entries[n].member)];
    }
  }

  lemma DuplicatesPlaced(r: Scanned, placedEntries: seq<IndexLine>, placed: map<Digest, (string, string)>, f: File)
    requires Covered(r.pending, placedEntries) && (forall e | e in placedEntries :: e.sha256 in placed)
    requires Queued(r.pending, f.Sha())
    ensures f.Sha() in placed
  {
    var g :| g in r.pending && g.Sha() == f.Sha();
    var e :| e in placedEntries && Describes(e, g);
  }

  /** A duplicate points where its content was placed in this run. */
  lemma DuplicateAppendable(files: seq<File>, lines: seq<IndexLine>, listed: map<string, Meta>,
      archives: map<string, Archive>,
      placedEntries: seq<IndexLine>, f: File, source: IndexLine, e: IndexLine)
    requires f in files && !Occurs(lines, f.Sha()) && source in placedEntries && source.sha256 == f.Sha()
    requires Points(e, f, (source.archive, source.member))
    requires AllGood(files, archives, placedEntries) && AllListed(listed, archives, placedEntries)
    ensures Appendable(files, lines, listed, archives, e)
  {
    ReferenceIsGood(files, archives, e, f, source);
  }

  lemma DuplicatesAppendable(files: seq<File>, lines: seq<IndexLine>, listed: map<string, Meta>,
      archives: map<string, Archive>,
      placedEntries: seq<IndexLine>, placed: map<Digest, (string, string)>, items: seq<File>, entries: seq<IndexLine>)
    requires forall f | f in items :: f in files && !Occurs(lines, f.Sha()) && f.Sha() in placed
    requires RightLocations(placedEntries, placed) && AllGood(files, archives, placedEntries) &&
      AllListed(listed, archives, placedEntries)
    requires |entries| == |items| && forall i | 0 <= i < |items| :: Points(entries[i], items[i], placed[items[i].Sha()])
    ensures AllAppendable(files, lines, listed, archives, entries)
  {
    forall e | e in entries ensures Appendable(files, lines, listed, archives, e) {
      var i :| 0 <= i < |entries| && entries[i] == e;
      var f := items[i];
      assert f in items;
      var source :| source in placedEntries && source.sha256 == f.Sha() &&
        placed[f.Sha()] == (source.archive, source.member);
      DuplicateAppendable(files, lines, listed, archives, placedEntries, f, source, e);
    }
  }

  method ReferDuplicates(files: seq<File>, ghost lines: seq<IndexLine>, r: Scanned, placedEntries: seq<IndexLine>,
      ghost archives: map<string, Archive>, ghost listed: map<string, Meta>)
    returns (entries: seq<IndexLine>)
    requires forall f | f in r.duplicates :: f in files && !Occurs(lines, f.Sha()) && Queued(r.pending, f.Sha())
    requires Covered(r.pending, placedEntries)
    requires AllGood(files, archives, placedEntries) && AllListed(listed, archives, placedEntries)
    ensures Covered(r.duplicates, entries) && AllAppendable(files, lines, listed, archives, entries)
  {
    var placed := Placed(placedEntries);
    forall f | f in r.duplicates ensures f.Sha() in placed {
      DuplicatesPlaced(r, placedEntries, placed, f);
    }
    entries := ReferTo(r.duplicates, placed);
    CoveredPointwise(r.duplicates, entries);
    DuplicatesAppendable(files, lines, listed, archives, placedEntries, placed, r.duplicates, entries);
  }

  /** Entries for content stored earlier and for duplicates within the run; neither lookup can miss. */
  method ReferAll(files: seq<File>, lines: seq<IndexLine>, r: Scanned, placedEntries: seq<IndexLine>,
      ghost archives: map<string, Archive>, ghost listed: map<string, Meta>)
    returns (entries: seq<IndexLine>)
    requires forall f | f in r.refs :: f in files && Occurs(lines, f.Sha())
    requires forall f | f in r.duplicates :: f in files && !Occurs(lines, f.Sha()) && Queued(r.pending, f.Sha())
    requires forall x | x in lines :: Stored(archives, x)
    requires Covered(r.pending, placedEntries)
    requires AllGood(files, archives, placedEntries) && AllListed(listed, archives, placedEntries)
    ensures Covered(r.refs + r.duplicates, entries) && AllAppendable(files, lines, listed, archives, entries)
  {
    var refs := ReferKnown(files, lines, r.refs, archives, listed);
    var dups := ReferDuplicates(files, lines, r, placedEntries, archives, listed);
    entries := refs + dups;
    CoveredAppend(r.refs, refs, r.duplicates, dups);
    AppendableAppend(files, lines, listed, archives, refs, dups);
  }
}
