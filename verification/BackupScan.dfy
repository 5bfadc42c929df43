/** Scanning a tree against the index: what is unchanged, what is new, and what is stored already. */
module BackupScan {
  import opened BackupIndex
  import opened Sums

  datatype File = File(path: string, content: Content)
  {
    function Sha(): Digest {
      Sha256(content)
    }
  }

  ghost predicate DistinctPaths(files: seq<File>) {
    forall i, j | 0 <= i < j < |files| :: files[i].path != files[j].path
  }

  // ----- the summary of an index -----

  function Sizes(latest: map<string, IndexLine>): map<string, int> {
    map p | p in latest :: latest[p].size as int
  }

  /** Current hash and size per path, every hash ever stored, and the totals over current lines. */
  datatype Summary = Summary(byPath: map<string, (Digest, nat)>, hashes: set<Digest>, files: int, rawBytes: int)

  ghost predicate Summarizes(s: Summary, lines: seq<IndexLine>) {
    && s.byPath.Keys == Latest(lines).Keys
    && (forall p | p in s.byPath :: s.byPath[p] == (Latest(lines)[p].sha256, Latest(lines)[p].size))
    && (forall d :: d in s.hashes <==> Occurs(lines, d))
    && s.files == |Latest(lines)| && s.rawBytes == MapSum(Sizes(Latest(lines)))
  }

  method SumSizes(byPath: map<string, (Digest, nat)>) returns (total: int)
    ensures total == MapSum(map p | p in byPath :: byPath[p].1 as int)
  {
    total := 0;
    var rest := byPath.Keys;
    ghost var sizes := map p | p in byPath :: byPath[p].1 as int;
    while rest != {}
      invariant rest <= byPath.Keys
      invariant total + MapSum(map p | p in rest :: byPath[p].1 as int) == MapSum(sizes)
      decreases |rest|
    {
      var p :| p in rest;
      MapSumRemove(map q | q in rest :: byPath[q].1 as int, p);
      assert (map q | q in rest :: byPath[q].1 as int) - {p} == map q | q in rest - {p} :: byPath[q].1 as int;
      total := total + byPath[p].1;
      rest := rest - {p};
    }
  }

  lemma OccursAppend(lines: seq<IndexLine>, e: IndexLine, d: Digest)
    ensures Occurs(lines + [e], d) <==> Occurs(lines, d) || e.sha256 == d
  {
    if Occurs(lines, d) {
      var x :| x in lines && x.sha256 == d;
      assert x in lines + [e];
    }
    if e.sha256 == d {
      assert e in lines + [e];
    }
  }

  method Summarize(lines: seq<IndexLine>) returns (s: Summary)
    ensures Summarizes(s, lines)
  {
    var byPath: map<string, (Digest, nat)> := map[];
    var hashes: set<Digest> := {};
    for n := 0 to |lines|
      invariant byPath.Keys == Latest(lines[..n]).Keys
      invariant forall p | p in byPath :: byPath[p] == (Latest(lines[..n])[p].sha256, Latest(lines[..n])[p].size)
      invariant forall d :: d in hashes <==> Occurs(lines[..n], d)
    {
      assert lines[..n + 1] == lines[..n] + [lines[n]];
      LatestAppendOne(lines[..n], lines[n]);
      forall d ensures Occurs(lines[..n + 1], d) <==> Occurs(lines[..n], d) || lines[n].sha256 == d {
        OccursAppend(lines[..n], lines[n], d);
      }
      hashes := hashes + {lines[n].sha256};
      byPath := byPath[lines[n].path := (lines[n].sha256, lines[n].size)];
    }
    assert lines[..|lines|] == lines;
    var total := SumSizes(byPath);
    assert (map p | p in byPath :: byPath[p].1 as int) == Sizes(Latest(lines));
    s := Summary(byPath, hashes, |byPath|, total);
    assert |byPath| == |byPath.Keys| == |Latest(lines).Keys|;
  }

  // ----- the scan -----

  /** What the index already says about this file, so that nothing is recorded. */
  predicate Unchanged(s: Summary, immutable: bool, f: File) {
    f.path in s.byPath && (immutable || s.byPath[f.path].0 == f.Sha())
  }

  /** Changed files by where their content is: not stored yet, stored earlier, or queued in this run. */
  datatype Scanned = Scanned(pending: seq<File>, refs: seq<File>, duplicates: seq<File>)

  predicate Recorded(r: Scanned, f: File) {
    f in r.pending || f in r.refs || f in r.duplicates
  }

  ghost predicate Queued(pending: seq<File>, d: Digest) {
    exists g :: g in pending && g.Sha() == d
  }

  /** Exactly the changed files are recorded; content stored earlier is referenced, content queued in this run
      is stored once. */
  ghost predicate ScanOf(files: seq<File>, s: Summary, immutable: bool, r: Scanned) {
    && (forall f :: Recorded(r, f) <==> f in files && !Unchanged(s, immutable, f))
    && (forall f | f in r.refs :: f.Sha() in s.hashes)
    && (forall f | f in r.duplicates :: f.Sha() !in s.hashes && Queued(r.pending, f.Sha()))
    && (forall f | f in r.pending :: f.Sha() !in s.hashes)
    && (forall i, j | 0 <= i < j < |r.pending| :: r.pending[i].Sha() != r.pending[j].Sha())
  }

  /** What the index says about a file, without its summary. */
  ghost predicate Known(lines: seq<IndexLine>, immutable: bool, f: File) {
    f.path in Latest(lines) && (immutable || Latest(lines)[f.path].sha256 == f.Sha())
  }

  /** The current line of the file's path has its content. */
  ghost predicate CurrentFor(lines: seq<IndexLine>, f: File) {
    f.path in Latest(lines) && Latest(lines)[f.path].sha256 == f.Sha()
  }

  /** The files whose content has to be stored: changed, not stored earlier, and the first of their content. */
  ghost function Fresh(files: seq<File>, lines: seq<IndexLine>, immutable: bool): seq<File> {
    if files == [] then []
    else
      var f := files[|files| - 1];
      var before := Fresh(files[..|files| - 1], lines, immutable);
      if Known(lines, immutable, f) || Occurs(lines, f.Sha()) || Queued(before, f.Sha()) then before else before + [f]
  }

  lemma {:induction false} NothingFresh(files: seq<File>, lines: seq<IndexLine>, immutable: bool)
    requires forall f | f in files :: Known(lines, immutable, f)
    ensures Fresh(files, lines, immutable) == []
  {
    if files != [] {
      assert files[|files| - 1] in files;
      NothingFresh(files[..|files| - 1], lines, immutable);
    }
  }

  function ScanStep(r: Scanned, s: Summary, queued: bool, f: File): Scanned {
    if f.Sha() in s.hashes then r.(refs := r.refs + [f])
    else if queued then r.(duplicates := r.duplicates + [f])
    else r.(pending := r.pending + [f])
  }

  lemma QueuedGrows(pending: seq<File>, f: File, d: Digest)
    ensures Queued(pending + [f], d) <==> Queued(pending, d) || f.Sha() == d
  {
    if f.Sha() == d {
      assert f in pending + [f];
    }
    if Queued(pending, d) {
      var g :| g in pending && g.Sha() == d;
      assert g in pending + [f];
    }
  }

  lemma ScanStepKeeps(files: seq<File>, s: Summary, immutable: bool, r: Scanned, f: File)
    requires ScanOf(files, s, immutable, r) && !Unchanged(s, immutable, f)
    ensures ScanOf(files + [f], s, immutable, ScanStep(r, s, Queued(r.pending, f.Sha()), f))
  {
    var r' := ScanStep(r, s, Queued(r.pending, f.Sha()), f);
    forall g ensures Recorded(r', g) <==> g in files + [f] && !Unchanged(s, immutable, g) {
      assert Recorded(r', g) <==> Recorded(r, g) || g == f;
    }
    forall g | g in r'.duplicates ensures g.Sha() !in s.hashes && Queued(r'.pending, g.Sha()) {
      QueuedGrows(r.pending, f, g.Sha());
    }
    forall i, j | 0 <= i < j < |r'.pending| ensures r'.pending[i].Sha() != r'.pending[j].Sha() {
      assert i < |r.pending| && r.pending[i] in r.pending;
    }
  }

  lemma ScanSkipKeeps(files: seq<File>, s: Summary, immutable: bool, r: Scanned, f: File)
    requires ScanOf(files, s, immutable, r) && Unchanged(s, immutable, f)
    ensures ScanOf(files + [f], s, immutable, r)
  {
  }

  /** Classify every file; the pending ones are exactly those whose content has to be stored, in order. */
  method Scan(files: seq<File>, s: Summary, immutable: bool, ghost lines: seq<IndexLine>) returns (r: Scanned)
    requires Summarizes(s, lines)
    ensures ScanOf(files, s, immutable, r) && r.pending == Fresh(files, lines, immutable)
  {
    r := Scanned([], [], []);
    var queued: set<Digest> := {};
    for n := 0 to |files|
      invariant ScanOf(files[..n], s, immutable, r) && r.pending == Fresh(files[..n], lines, immutable)
      invariant forall d :: d in queued <==> Queued(r.pending, d)
    {
      var f := files[n];
      assert files[..n + 1] == files[..n] + [f] && files[..n + 1][..n] == files[..n];
      assert Unchanged(s, immutable, f) <==> Known(lines, immutable, f);
      if Unchanged(s, immutable, f) {
        ScanSkipKeeps(files[..n], s, immutable, r, f);
      } else {
        ScanStepKeeps(files[..n], s, immutable, r, f);
        forall d ensures Queued(r.pending + [f], d) <==> Queued(r.pending, d) || f.Sha() == d {
          QueuedGrows(r.pending, f, d);
        }
        if f.Sha() in s.hashes {
          r := r.(refs := r.refs + [f]);
        } else if f.Sha() in queued {
          r := r.(duplicates := r.duplicates + [f]);
        } else {
          queued := queued + {f.Sha()};
          r := r.(pending := r.pending + [f]);
        }
      }
    }
    assert files[..|files|] == files;
  }
}
