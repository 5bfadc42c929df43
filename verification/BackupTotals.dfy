/** The totals of the manifest, kept up to date from the new entries alone, and the write of index and manifest. */
module BackupTotals {
  import opened Options
  import opened BackupIndex
  import opened BackupStore
  import opened BackupScan
  import opened Sums

  ghost predicate Agrees(byPath: map<string, (Digest, nat)>, lines: seq<IndexLine>, paths: set<string>) {
    forall p | p in paths ::
      (p in byPath <==> p in Latest(lines)) && (p in byPath ==> byPath[p].1 == Latest(lines)[p].size)
  }

  function Paths(entries: seq<IndexLine>): set<string> {
    set e | e in entries :: e.path
  }

  ghost function SizeTotal(latest: map<string, IndexLine>): int {
    MapSum(Sizes(latest))
  }

  /** `latest` holds the sizes this run recorded; every other path of `now` is as it was in `base`. */
  ghost predicate Tracks(latest: map<string, nat>, base: map<string, IndexLine>, now: map<string, IndexLine>) {
    && (forall p | p in latest :: p in now && latest[p] == now[p].size)
    && (forall p | p !in latest :: (p in now <==> p in base) && (p in now ==> now[p] == base[p]))
  }

  /** Size last recorded for a path, looking at this run's entries before the summary. */
  function Previous(latest: map<string, nat>, byPath: map<string, (Digest, nat)>, path: string): nat {
    if path in latest then latest[path] else if path in byPath then byPath[path].1 else 0
  }

  lemma LatestStep(lines: seq<IndexLine>, entries: seq<IndexLine>, n: nat)
    requires n < |entries|
    ensures Latest(lines + entries[..n + 1]) == Latest(lines + entries[..n])[entries[n].path := entries[n]]
  {
    assert lines + entries[..n + 1] == lines + entries[..n] + [entries[n]];
    LatestAppendOne(lines + entries[..n], entries[n]);
  }

  lemma TotalsStep(byPath: map<string, (Digest, nat)>, base: map<string, IndexLine>, latest: map<string, nat>,
      now: map<string, IndexLine>, e: IndexLine)
    requires Tracks(latest, base, now)
    requires (e.path in byPath <==> e.path in base) && (e.path in byPath ==> byPath[e.path].1 == base[e.path].size)
    ensures |now[e.path := e]| == |now| + (if e.path in latest || e.path in byPath then 0 else 1)
    ensures SizeTotal(now[e.path := e]) == SizeTotal(now) + e.size - Previous(latest, byPath, e.path)
  {
    UpdateTotals(now, e);
  }

  lemma TracksStep(latest: map<string, nat>, base: map<string, IndexLine>, now: map<string, IndexLine>, e: IndexLine)
    requires Tracks(latest, base, now)
    ensures Tracks(latest[e.path := e.size], base, now[e.path := e])
  {
  }

  /** Incremental totals: only the changed paths of the summary are consulted, yet the result is what
      recomputing over the whole new index would give. */
  method Totals(byPath: map<string, (Digest, nat)>, files: int, rawBytes: int, entries: seq<IndexLine>,
      ghost lines: seq<IndexLine>)
    returns (files': int, rawBytes': int)
    requires Agrees(byPath, lines, Paths(entries))
    requires files == |Latest(lines)| && rawBytes == SizeTotal(Latest(lines))
    ensures files' == |Latest(lines + entries)|
    ensures rawBytes' == SizeTotal(Latest(lines + entries))
  {
    var latest: map<string, nat> := map[];
    ghost var base, now := Latest(lines), Latest(lines);
    files', rawBytes' := files, rawBytes;
    assert lines + entries[..0] == lines;
    for n := 0 to |entries|
      invariant now == Latest(lines + entries[..n]) && Tracks(latest, base, now)
      invariant files' == |now| && rawBytes' == SizeTotal(now)
    {
      var entry := entries[n];
      assert entry in entries && entry.path in Paths(entries);
      LatestStep(lines, entries, n);
      TotalsStep(byPath, base, latest, now, entry);
      TracksStep(latest, base, now, entry);
      if entry.path !in latest && entry.path !in byPath {
        files' := files' + 1;
      }
      rawBytes' := rawBytes' + (entry.size - Previous(latest, byPath, entry.path));
      latest := latest[entry.path := entry.size];
      now := now[entry.path := entry];
    }
    assert entries[..|entries|] == entries;
  }

  lemma UpdateTotals(before: map<string, IndexLine>, e: IndexLine)
    ensures |before[e.path := e]| == |before| + (if e.path in before then 0 else 1)
    ensures SizeTotal(before[e.path := e]) ==
      SizeTotal(before) + e.size - (if e.path in before then before[e.path].size else 0)
  {
    UpdateCount(before, e);
    UpdateSizes(before, e);
    MapSumUpdate(Sizes(before), e.path, e.size);
    assert Get(Sizes(before), e.path) == if e.path in before then before[e.path].size else 0;
  }

  lemma UpdateCount(before: map<string, IndexLine>, e: IndexLine)
    ensures |before[e.path := e]| == |before| + (if e.path in before then 0 else 1)
  {
    var after := before[e.path := e];
    assert after.Keys == before.Keys + {e.path};
    assert |before| == |before.Keys| && |after| == |after.Keys|;
  }

  lemma UpdateSizes(before: map<string, IndexLine>, e: IndexLine)
    ensures Sizes(before[e.path := e]) == Sizes(before)[e.path := e.size as int]
  {
  }

  /** Every entry of the run belongs to a changed path, so the restricted summary is enough. */
  lemma RestrictedAgrees(s: Summary, lines: seq<IndexLine>, changed: set<string>, entries: seq<IndexLine>)
    requires Summarizes(s, lines) && forall e | e in entries :: e.path in changed
    ensures Agrees(map p | p in s.byPath && p in changed :: s.byPath[p], lines, Paths(entries))
  {
  }

  method SaveState(store: RemoteStore, lines: seq<IndexLine>, entries: seq<IndexLine>, s: Summary,
      changed: set<string>, listed: map<string, Meta>)
    requires Summarizes(s, lines) && forall e | e in entries :: e.path in changed
    modifies store
    ensures store.archives == old(store.archives) && store.index == Some(lines + entries)
    ensures store.manifest == Some(Manifest(listed, |Latest(lines + entries)|, SizeTotal(Latest(lines + entries))))
    ensures |store.trace| == |old(store.trace)| + 2 && old(store.trace) <= store.trace
    ensures store.trace[|old(store.trace)|] == old(store.View()).(index := Some(lines + entries))
    ensures store.trace[|old(store.trace)| + 1] == store.View()
  {
    var byPath := map p | p in s.byPath && p in changed :: s.byPath[p];
    RestrictedAgrees(s, lines, changed, entries);
    var files, rawBytes := Totals(byPath, s.files, s.rawBytes, entries, lines);
    store.PutIndex(lines + entries);
    store.PutManifest(Manifest(listed, files, rawBytes));
  }
}
