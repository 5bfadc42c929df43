/** Storing new content: the greedy cut into archives, their names, and what an interrupted upload leaves. */
module BackupPlace {
  import opened BackupIndex
  import opened BackupStore
  import opened BackupScan

  // ----- segments -----

  function Flatten(batches: seq<seq<File>>): seq<File> {
    if batches == [] then [] else Flatten(batches[..|batches| - 1]) + batches[|batches| - 1]
  }

  function RawBytes(batch: seq<File>): nat {
    if batch == [] then 0 else RawBytes(batch[..|batch| - 1]) + |batch[|batch| - 1].content|
  }

  /** Not empty, and not above the cap unless it is a single file. */
  predicate FitsCap(batch: seq<File>, cap: nat) {
    batch != [] && (RawBytes(batch) <= cap || |batch| == 1)
  }

  lemma RawBytesAppend(batch: seq<File>, f: File)
    ensures RawBytes(batch + [f]) == RawBytes(batch) + |f.content|
  {
    assert (batch + [f])[..|batch|] == batch;
  }

  lemma SingleFits(f: File, cap: nat)
    ensures RawBytes([f]) == |f.content| && FitsCap([f], cap)
  {
    assert [f][..0] == [];
  }

  /** The greedy cut: finished batches and the open one. */
  datatype Cut = Cut(done: seq<seq<File>>, open: seq<File>)

  function CutUp(pending: seq<File>, cap: nat): Cut {
    if pending == [] then Cut([], [])
    else
      var c, f := CutUp(pending[..|pending| - 1], cap), pending[|pending| - 1];
      if c.open != [] && RawBytes(c.open) + |f.content| > cap then Cut(c.done + [c.open], [f]) else Cut(c.done, c.open + [f])
  }

  function SegmentsOf(pending: seq<File>, cap: nat): seq<seq<File>> {
    var c := CutUp(pending, cap);
    if c.open == [] then c.done else c.done + [c.open]
  }

  /** In order, within the cap, and no batch could have taken the next file. */
  ghost predicate IsCut(pending: seq<File>, cap: nat, batches: seq<seq<File>>) {
    && Flatten(batches) == pending
    && (forall b | b in batches :: FitsCap(b, cap))
    && (forall i | 0 < i < |batches| :: NoRoom(batches[i - 1], batches[i], cap))
  }

  ghost predicate NoRoom(batch: seq<File>, next: seq<File>, cap: nat) {
    next != [] && RawBytes(batch) + |next[0].content| > cap
  }

  lemma {:induction false} CutUpIsCut(pending: seq<File>, cap: nat)
    ensures var c := CutUp(pending, cap);
      (c.open == [] ==> pending == [] && c.done == []) && IsCut(pending, cap, SegmentsOf(pending, cap))
  {
    if pending != [] {
      var n := |pending| - 1;
      var c, f := CutUp(pending[..n], cap), pending[n];
      CutUpIsCut(pending[..n], cap);
      assert pending == pending[..n] + [f];
      SingleFits(f, cap);
      RawBytesAppend(c.open, f);
      if c.open == [] {
        assert [] + [f] == [f] && [] + [[f]] == [[f]];
        FlattenAppend([], [f]);
      } else if RawBytes(c.open) + |f.content| > cap {
        StartBatch(c, f, pending[..n], cap);
      } else {
        ExtendBatch(c, f, pending[..n], cap);
      }
    }
  }

  lemma StartBatch(c: Cut, f: File, pending: seq<File>, cap: nat)
    requires c.open != [] && IsCut(pending, cap, c.done + [c.open]) && RawBytes(c.open) + |f.content| > cap
    ensures IsCut(pending + [f], cap, c.done + [c.open] + [[f]])
  {
    FlattenAppend(c.done + [c.open], [f]);
    SingleFits(f, cap);
    var batches, more := c.done + [c.open], c.done + [c.open] + [[f]];
    forall i | 0 < i < |more| ensures NoRoom(more[i - 1], more[i], cap) {
      assert i < |batches| ==> NoRoom(batches[i - 1], batches[i], cap);
    }
  }

  lemma ExtendBatch(c: Cut, f: File, pending: seq<File>, cap: nat)
    requires c.open != [] && IsCut(pending, cap, c.done + [c.open]) && RawBytes(c.open) + |f.content| <= cap
    ensures IsCut(pending + [f], cap, c.done + [c.open + [f]])
  {
    FlattenAppend(c.done, c.open);
    FlattenAppend(c.done, c.open + [f]);
    assert Flatten(c.done) + (c.open + [f]) == Flatten(c.done) + c.open + [f];
    RawBytesAppend(c.open, f);
    var batches, more := c.done + [c.open], c.done + [c.open + [f]];
    forall b | b in more ensures FitsCap(b, cap) {
      assert b in batches || b == c.open + [f];
    }
    forall i | 0 < i < |more| ensures NoRoom(more[i - 1], more[i], cap) {
      assert NoRoom(batches[i - 1], batches[i], cap);
    }
  }

  /** Cut the pending files into archives, in order. */
  method Segments(pending: seq<File>, cap: nat) returns (batches: seq<seq<File>>)
    ensures batches == SegmentsOf(pending, cap) && IsCut(pending, cap, batches)
  {
    batches := [];
    var batch: seq<File> := [];
    var total := 0;
    for n := 0 to |pending|
      invariant Cut(batches, batch) == CutUp(pending[..n], cap) && total == RawBytes(batch)
    {
      var item := pending[n];
      assert pending[..n + 1][..n] == pending[..n];
      if batch != [] && total + |item.content| > cap {
        batches := batches + [batch];
        batch, total := [], 0;
      }
      RawBytesAppend(batch, item);
      assert batch == [] ==> batch + [item] == [item];
      batch := batch + [item];
      total := total + |item.content|;
    }
    assert pending[..|pending|] == pending;
    CutUpIsCut(pending, cap);
    if batch != [] {
      batches := batches + [batch];
    }
  }

  lemma FlattenAppend(batches: seq<seq<File>>, batch: seq<File>)
    ensures Flatten(batches + [batch]) == Flatten(batches) + batch
  {
    assert (batches + [batch])[..|batches|] == batches;
  }

  // ----- placing new content -----

  function ArchiveOf(batch: seq<File>): Archive {
    seq(|batch|, i requires 0 <= i < |batch| => Member(batch[i].path, batch[i].content))
  }

  function EntryOf(f: File, archive: string, member: string): IndexLine {
    IndexLine(f.path, f.Sha(), |f.content|, archive, member)
  }

  function EntriesOf(batch: seq<File>, archive: string): seq<IndexLine> {
    seq(|batch|, i requires 0 <= i < |batch| => EntryOf(batch[i], archive, batch[i].path))
  }

  function Hashes(batch: seq<File>): seq<Digest> {
    seq(|batch|, i requires 0 <= i < |batch| => batch[i].Sha())
  }

  lemma ArchiveHolds(files: seq<File>, batch: seq<File>, f: File)
    requires DistinctPaths(files) && (forall g | g in batch :: g in files) && f in batch
    ensures Has(ArchiveOf(batch), f.path, f.Sha())
  {
    var i :| 0 <= i < |batch| && batch[i] == f;
    assert ArchiveOf(batch)[i] in ArchiveOf(batch);
    forall m | m in ArchiveOf(batch) && m.name == f.path ensures Sha256(m.content) == f.Sha() {
      var j :| 0 <= j < |batch| && m == Member(batch[j].path, batch[j].content);
      SamePath(files, f, batch[j]);
    }
  }

  lemma SamePath(files: seq<File>, f: File, g: File)
    requires DistinctPaths(files) && f in files && g in files && f.path == g.path
    ensures f == g
  {
    var i :| 0 <= i < |files| && files[i] == f;
    var j :| 0 <= j < |files| && files[j] == g;
  }

  /** The manifest lists `name` with the true hash of the stored archive. */
  ghost predicate ListedRight(listed: map<string, Meta>, archives: map<string, Archive>, name: string) {
    name in archives && name in listed && listed[name].sha256 == ArchiveSha256(archives[name])
  }

  /** Archives only grow and nothing listed rightly becomes wrong. */
  ghost predicate Advances(archives: map<string, Archive>, listed: map<string, Meta>, archives': map<string, Archive>,
      listed': map<string, Meta>) {
    && Grows(archives, archives')
    && forall name :: ListedRight(listed, archives, name) ==> ListedRight(listed', archives', name)
  }

  predicate SameListing(listed: map<string, Meta>, listed': map<string, Meta>, name: string) {
    (name in listed <==> name in listed') && (name in listed ==> listed[name] == listed'[name])
  }

  ghost predicate Describes(e: IndexLine, f: File) {
    e.path == f.path && e.sha256 == f.Sha() && e.size == |f.content|
  }

  /** An entry the push may append: it says what some file holds, and the content is stored. */
  ghost predicate Good(files: seq<File>, archives: map<string, Archive>, e: IndexLine) {
    Stored(archives, e) && exists f :: f in files && Describes(e, f)
  }

  ghost predicate AllGood(files: seq<File>, archives: map<string, Archive>, entries: seq<IndexLine>) {
    forall e | e in entries :: Good(files, archives, e)
  }

  ghost predicate AllListed(listed: map<string, Meta>, archives: map<string, Archive>, entries: seq<IndexLine>) {
    forall e | e in entries :: ListedRight(listed, archives, e.archive)
  }

  lemma GoodAdvances(files: seq<File>, archives: map<string, Archive>, archives': map<string, Archive>,
      entries: seq<IndexLine>)
    requires AllGood(files, archives, entries) && Grows(archives, archives')
    ensures AllGood(files, archives', entries)
  {
    forall e | e in entries ensures Good(files, archives', e) {
      StoredGrows(archives, archives', e);
    }
  }

  // ----- names -----

  function NameOf(segment: seq<File>, nameOf: seq<Digest> -> string): string {
    nameOf(Hashes(segment))
  }

  /** No segment's name is taken by other bytes, be it by a stored archive or by another segment. */
  ghost predicate NoConflict(archives: map<string, Archive>, segments: seq<seq<File>>, nameOf: seq<Digest> -> string) {
    && (forall i | 0 <= i < |segments| :: Free(archives, segments[i], nameOf))
    && (forall i, j | 0 <= i < j < |segments| :: Compatible(segments[i], segments[j], nameOf))
  }

  ghost predicate Free(archives: map<string, Archive>, segment: seq<File>, nameOf: seq<Digest> -> string) {
    var name := NameOf(segment, nameOf);
    name in archives ==> archives[name] == ArchiveOf(segment)
  }

  ghost predicate Compatible(a: seq<File>, b: seq<File>, nameOf: seq<Digest> -> string) {
    NameOf(a, nameOf) == NameOf(b, nameOf) ==> ArchiveOf(a) == ArchiveOf(b)
  }

  /** The archives after uploading the first `n` segments; a present name is left alone. */
  ghost function Uploaded(archives: map<string, Archive>, segments: seq<seq<File>>, nameOf: seq<Digest> -> string,
      n: nat): map<string, Archive>
    requires n <= |segments|
  {
    if n == 0 then archives
    else
      var before, name := Uploaded(archives, segments, nameOf, n - 1), NameOf(segments[n - 1], nameOf);
      if name in before then before else before[name := ArchiveOf(segments[n - 1])]
  }

  /** What is stored after `n` uploads was there before or is one of the segments. */
  lemma {:induction false} UploadedMeans(archives: map<string, Archive>, segments: seq<seq<File>>,
      nameOf: seq<Digest> -> string, n: nat)
    requires n <= |segments|
    ensures var now := Uploaded(archives, segments, nameOf, n);
      && Grows(archives, now)
      && (forall i | 0 <= i < n :: NameOf(segments[i], nameOf) in now)
      && (forall name | name in now && name !in archives ::
        exists i | 0 <= i < n :: NameOf(segments[i], nameOf) == name && now[name] == ArchiveOf(segments[i]))
  {
    if n != 0 {
      UploadedMeans(archives, segments, nameOf, n - 1);
    }
  }

  /** An interrupted upload changes nothing about whether the segments conflict. */
  lemma UploadedConflicts(archives: map<string, Archive>, segments: seq<seq<File>>, nameOf: seq<Digest> -> string,
      n: nat)
    requires n <= |segments|
    ensures NoConflict(Uploaded(archives, segments, nameOf, n), segments, nameOf) <==>
      NoConflict(archives, segments, nameOf)
  {
    var now := Uploaded(archives, segments, nameOf, n);
    UploadedMeans(archives, segments, nameOf, n);
    if NoConflict(archives, segments, nameOf) {
      forall j | 0 <= j < |segments| ensures Free(now, segments[j], nameOf) {
        assert Free(archives, segments[j], nameOf);
        var name := NameOf(segments[j], nameOf);
        if name in now && name !in archives {
          var i :| 0 <= i < n && NameOf(segments[i], nameOf) == name && now[name] == ArchiveOf(segments[i]);
          assert i == j || Compatible(segments[i], segments[j], nameOf) || Compatible(segments[j], segments[i], nameOf);
        }
      }
    }
    if NoConflict(now, segments, nameOf) {
      forall j | 0 <= j < |segments| ensures Free(archives, segments[j], nameOf) {
        assert Free(now, segments[j], nameOf);
      }
    }
  }

  /** A failed upload is a conflict. */
  lemma FailureIsConflict(archives: map<string, Archive>, segments: seq<seq<File>>, nameOf: seq<Digest> -> string,
      n: nat)
    requires n < |segments| && !Free(Uploaded(archives, segments, nameOf, n), segments[n], nameOf)
    ensures !NoConflict(archives, segments, nameOf)
  {
    var now, name := Uploaded(archives, segments, nameOf, n), NameOf(segments[n], nameOf);
    UploadedMeans(archives, segments, nameOf, n);
    if name in archives {
      assert !Free(archives, segments[n], nameOf);
    } else {
      var i :| 0 <= i < n && NameOf(segments[i], nameOf) == name && now[name] == ArchiveOf(segments[i]);
      assert !Compatible(segments[i], segments[n], nameOf);
    }
  }

  /** If every segment is stored under its name at the end, none conflicted. */
  lemma SuccessIsNoConflict(archives: map<string, Archive>, segments: seq<seq<File>>, nameOf: seq<Digest> -> string)
    requires var now := Uploaded(archives, segments, nameOf, |segments|);
      forall i | 0 <= i < |segments| :: StoredAs(now, segments[i], nameOf)
    ensures NoConflict(archives, segments, nameOf)
  {
    var now := Uploaded(archives, segments, nameOf, |segments|);
    UploadedMeans(archives, segments, nameOf, |segments|);
    forall i | 0 <= i < |segments| ensures Free(archives, segments[i], nameOf) {
      assert StoredAs(now, segments[i], nameOf);
    }
    forall i, j | 0 <= i < j < |segments| ensures Compatible(segments[i], segments[j], nameOf) {
      assert StoredAs(now, segments[i], nameOf) && StoredAs(now, segments[j], nameOf);
    }
  }

  ghost predicate StoredAs(archives: map<string, Archive>, segment: seq<File>, nameOf: seq<Digest> -> string) {
    NameOf(segment, nameOf) in archives && archives[NameOf(segment, nameOf)] == ArchiveOf(segment)
  }

  /** A state during an upload: the first segments are stored, nothing else moved. */
  ghost predicate Partly(before: Remote, segments: seq<seq<File>>, nameOf: seq<Digest> -> string, during: Remote) {
    exists n | 0 <= n <= |segments| :: during == before.(archives := Uploaded(before.archives, segments, nameOf, n))
  }

  /** States during an upload: index and manifest untouched, archives only added. */
  ghost predicate OnlyAdds(before: Remote, during: Remote) {
    during.index == before.index && during.manifest == before.manifest && Grows(before.archives, during.archives)
  }

  method PlaceBatch(store: RemoteStore, ghost files: seq<File>, batch: seq<File>, nameOf: seq<Digest> -> string,
      listed: map<string, Meta>)
    returns (ok: bool, entries: seq<IndexLine>, listed': map<string, Meta>)
    requires DistinctPaths(files) && forall f | f in batch :: f in files
    modifies store
    ensures OnlyAdds(old(store.View()), store.View())
    ensures old(store.trace) <= store.trace && forall i | |old(store.trace)| <= i < |store.trace| ::
      store.trace[i] == store.View()
    ensures ok ==> Advances(old(store.archives), listed, store.archives, listed')
    ensures ok ==> AllGood(files, store.archives, entries) && AllListed(listed', store.archives, entries)
    ensures ok ==> |entries| == |batch| && forall i | 0 <= i < |batch| :: Describes(entries[i], batch[i])
    ensures ok <==> Free(old(store.archives), batch, nameOf)
    ensures ok ==> StoredAs(store.archives, batch, nameOf)
    ensures forall name | name != NameOf(batch, nameOf) :: SameListing(listed, listed', name)
    ensures store.archives == if NameOf(batch, nameOf) in old(store.archives) then old(store.archives)
                              else old(store.archives)[NameOf(batch, nameOf) := ArchiveOf(batch)]
  {
    var name := NameOf(batch, nameOf);
    var archive := ArchiveOf(batch);
    ok := store.UploadVerified(name, archive);
    listed' := listed[name := Meta(ArchiveSha256(archive), |batch|, RawBytes(batch))];
    entries := EntriesOf(batch, name);
    if ok {
      forall e | e in entries ensures Good(files, store.archives, e) {
        var i :| 0 <= i < |batch| && e == EntryOf(batch[i], name, batch[i].path);
        assert batch[i] in batch;
        ArchiveHolds(files, batch, batch[i]);
        assert Describes(e, batch[i]);
      }
    }
  }

  lemma AdvancesTransitive(a: map<string, Archive>, l: map<string, Meta>, a': map<string, Archive>,
      l': map<string, Meta>,
      a'': map<string, Archive>, l'': map<string, Meta>)
    requires Advances(a, l, a', l') && Advances(a', l', a'', l'')
    ensures Advances(a, l, a'', l'')
  {
  }

  /** Every file of `items` is described by an entry, and every entry describes one of them. */
  ghost predicate Covered(items: seq<File>, entries: seq<IndexLine>) {
    && (forall f | f in items :: exists e :: e in entries && Describes(e, f))
    && (forall e | e in entries :: exists f :: f in items && Describes(e, f))
  }

  lemma CoveredPointwise(items: seq<File>, entries: seq<IndexLine>)
    requires |entries| == |items| && forall i | 0 <= i < |items| :: Describes(entries[i], items[i])
    ensures Covered(items, entries)
  {
    forall f | f in items ensures exists e :: e in entries && Describes(e, f) {
      var i :| 0 <= i < |items| && items[i] == f;
      assert entries[i] in entries;
    }
    forall e | e in entries ensures exists f :: f in items && Describes(e, f) {
      var i :| 0 <= i < |entries| && entries[i] == e;
      assert items[i] in items;
    }
  }

  lemma CoveredAppend(items: seq<File>, entries: seq<IndexLine>, items': seq<File>, entries': seq<IndexLine>)
    requires Covered(items, entries) && Covered(items', entries')
    ensures Covered(items + items', entries + entries')
  {
    forall f | f in items + items' ensures exists e :: e in entries + entries' && Describes(e, f) {
      if f in items {
        var e :| e in entries && Describes(e, f);
        assert e in entries + entries';
      } else {
        var e :| e in entries' && Describes(e, f);
        assert e in entries + entries';
      }
    }
    forall e | e in entries + entries' ensures exists f :: f in items + items' && Describes(e, f) {
      if e in entries {
        var f :| f in items && Describes(e, f);
        assert f in items + items';
      } else {
        var f :| f in items' && Describes(e, f);
        assert f in items + items';
      }
    }
  }

  /** The run after `n` segments: they are stored under their names, described by the entries and listed. */
  ghost predicate PlacedSoFar(files: seq<File>, batches: seq<seq<File>>, nameOf: seq<Digest> -> string, before: Remote,
      listed: map<string, Meta>, n: nat, now: Remote, entries: seq<IndexLine>, listed': map<string, Meta>)
  {
    && n <= |batches| && now == before.(archives := Uploaded(before.archives, batches, nameOf, n))
    && (forall i | 0 <= i < n :: StoredAs(now.archives, batches[i], nameOf))
    && Advances(before.archives, listed, now.archives, listed')
    && Covered(Flatten(batches[..n]), entries) && AllGood(files, now.archives, entries)
    && AllListed(listed', now.archives, entries) && OnlyTheirs(batches, nameOf, n, listed, listed')
  }

  /** Only the names of the first `n` segments were listed anew. */
  ghost predicate OnlyTheirs(batches: seq<seq<File>>, nameOf: seq<Digest> -> string, n: nat, listed: map<string, Meta>,
      listed': map<string, Meta>)
    requires n <= |batches|
  {
    forall name | (forall i | 0 <= i < n :: NameOf(batches[i], nameOf) != name) :: SameListing(listed, listed', name)
  }

  lemma PlacedStep(files: seq<File>, batches: seq<seq<File>>, nameOf: seq<Digest> -> string, before: Remote,
      listed: map<string, Meta>,
      n: nat, now: Remote, entries: seq<IndexLine>, listed': map<string, Meta>,
      next: Remote, placed: seq<IndexLine>, listed'': map<string, Meta>)
    requires n < |batches| && PlacedSoFar(files, batches, nameOf, before, listed, n, now, entries, listed')
    requires next == before.(archives := Uploaded(before.archives, batches, nameOf, n + 1)) &&
      StoredAs(next.archives, batches[n], nameOf)
    requires Advances(now.archives, listed', next.archives, listed'')
    requires AllGood(files, next.archives, placed) && AllListed(listed'', next.archives, placed)
    requires |placed| == |batches[n]| && forall i | 0 <= i < |placed| :: Describes(placed[i], batches[n][i])
    requires forall name | name != NameOf(batches[n], nameOf) :: SameListing(listed', listed'', name)
    ensures PlacedSoFar(files, batches, nameOf, before, listed, n + 1, next, entries + placed, listed'')
  {
    FlattenContains(batches, n);
    CoveredPointwise(batches[n], placed);
    CoveredAppend(Flatten(batches[..n]), entries, batches[n], placed);
    GoodAdvances(files, now.archives, next.archives, entries);
    AdvancesTransitive(before.archives, listed, now.archives, listed', next.archives, listed'');
    OnlyTheirsStep(batches, nameOf, n, listed, listed', listed'');
  }

  lemma OnlyTheirsStep(batches: seq<seq<File>>, nameOf: seq<Digest> -> string, n: nat,
      listed: map<string, Meta>, listed': map<string, Meta>, listed'': map<string, Meta>)
    requires n < |batches| && OnlyTheirs(batches, nameOf, n, listed, listed')
    requires forall name | name != NameOf(batches[n], nameOf) :: SameListing(listed', listed'', name)
    ensures OnlyTheirs(batches, nameOf, n + 1, listed, listed'')
  {
    forall name | forall i | 0 <= i < n + 1 ::
      NameOf(batches[i], nameOf) != name ensures SameListing(listed, listed'', name) {
      assert NameOf(batches[n], nameOf) != name;
      assert SameListing(listed, listed', name) && SameListing(listed', listed'', name);
    }
  }

  lemma PlacedStart(files: seq<File>, batches: seq<seq<File>>, nameOf: seq<Digest> -> string, before: Remote,
      listed: map<string, Meta>)
    ensures PlacedSoFar(files, batches, nameOf, before, listed, 0, before, [], listed)
  {
  }

  lemma PartlyAt(before: Remote, batches: seq<seq<File>>, nameOf: seq<Digest> -> string, n: nat)
    requires n <= |batches|
    ensures Partly(before, batches, nameOf, before.(archives := Uploaded(before.archives, batches, nameOf, n)))
  {
  }

  ghost predicate PartlySince(before: Remote, batches: seq<seq<File>>, nameOf: seq<Digest> -> string,
      trace: seq<Remote>, from: nat) {
    forall i | from <= i < |trace| :: Partly(before, batches, nameOf, trace[i])
  }

  /** Upload all segments.  It succeeds if and only if no name is taken by other bytes, before the run or within it. */
  method PlaceAll(store: RemoteStore, ghost files: seq<File>, batches: seq<seq<File>>, nameOf: seq<Digest> -> string,
      listed: map<string, Meta>)
    returns (ok: bool, entries: seq<IndexLine>, listed': map<string, Meta>)
    requires DistinctPaths(files) && forall f | f in Flatten(batches) :: f in files
    modifies store
    ensures Partly(old(store.View()), batches, nameOf, store.View()) && old(store.trace) <= store.trace
    ensures PartlySince(old(store.View()), batches, nameOf, store.trace, |old(store.trace)|)
    ensures ok <==> NoConflict(old(store.archives), batches, nameOf)
    ensures ok ==> PlacedSoFar(files, batches, nameOf, old(store.View()), listed, |batches|, store.View(), entries, listed')
    ensures batches == [] ==> entries == [] && store.trace == old(store.trace)
  {
    ghost var before := store.View();
    ok, entries, listed' := true, [], listed;
    PlacedStart(files, batches, nameOf, before, listed);
    for n := 0 to |batches|
      invariant PlacedSoFar(files, batches, nameOf, before, listed, n, store.View(), entries, listed')
      invariant old(store.trace) <= store.trace && PartlySince(before, batches, nameOf, store.trace, |old(store.trace)|)
      invariant n == 0 ==> entries == [] && store.trace == old(store.trace)
    {
      FlattenContains(batches, n);
      ghost var now := store.View();
      var good, placed, extended := PlaceBatch(store, files, batches[n], nameOf, listed');
      PartlyAt(before, batches, nameOf, n + 1);
      if !good {
        FailureIsConflict(before.archives, batches, nameOf, n);
        return false, [], listed;
      }
      PlacedStep(files, batches, nameOf, before, listed, n, now, entries, listed', store.View(), placed, extended);
      entries, listed' := entries + placed, extended;
    }
    PartlyAt(before, batches, nameOf, |batches|);
    SuccessIsNoConflict(before.archives, batches, nameOf);
  }

  lemma {:induction false} FlattenContains(batches: seq<seq<File>>, n: nat)
    requires n < |batches|
    ensures Flatten(batches[..n + 1]) == Flatten(batches[..n]) + batches[n]
    ensures forall f | f in batches[n] :: f in Flatten(batches)
    decreases |batches| - n
  {
    assert batches[..n + 1] == batches[..n] + [batches[n]];
    FlattenAppend(batches[..n], batches[n]);
    if n + 1 == |batches| {
      assert batches[..n + 1] == batches;
    } else {
      FlattenGrows(batches, n + 1);
    }
  }

  lemma {:induction false} FlattenGrows(batches: seq<seq<File>>, n: nat)
    requires n <= |batches|
    ensures forall f | f in Flatten(batches[..n]) :: f in Flatten(batches)
    decreases |batches| - n
  {
    if n == |batches| {
      assert batches[..n] == batches;
    } else {
      assert batches[..n + 1] == batches[..n] + [batches[n]];
      FlattenAppend(batches[..n], batches[n]);
      FlattenGrows(batches, n + 1);
    }
  }
}
