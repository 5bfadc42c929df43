/** The append-only backup index: which line is current for a path, and what dropping lines keeps. */
module BackupIndex {

  newtype Byte = b: int | 0 <= b < 256
  type Content = seq<Byte>

  /** A collision-free content hash. */
  datatype Digest = Sha256(content: Content)

  /** One index line: at `path` stood content `sha256`, stored as `member` of `archive`. */
  datatype IndexLine = IndexLine(path: string, sha256: Digest, size: nat, archive: string, member: string)

  /** The current line of each path after reading `lines` in order. */
  function Latest(lines: seq<IndexLine>): map<string, IndexLine> {
    if lines == [] then map[]
    else
      var last := lines[|lines| - 1];
      Latest(lines[..|lines| - 1])[last.path := last]
  }

  /** The lines whose archive is kept. */
  function Kept(lines: seq<IndexLine>, keep: set<string>): seq<IndexLine> {
    if lines == [] then []
    else
      var last := lines[|lines| - 1];
      Kept(lines[..|lines| - 1], keep) + (if last.archive in keep then [last] else [])
  }

  lemma LatestAppendOne(lines: seq<IndexLine>, e: IndexLine)
    ensures Latest(lines + [e]) == Latest(lines)[e.path := e]
  {
    assert (lines + [e])[..|lines|] == lines;
  }

  lemma {:induction false} LatestMembers(lines: seq<IndexLine>)
    ensures forall p | p in Latest(lines) :: Latest(lines)[p] in lines && Latest(lines)[p].path == p
    ensures forall e | e in lines :: e.path in Latest(lines)
  {
    if lines != [] {
      LatestMembers(lines[..|lines| - 1]);
      assert lines == lines[..|lines| - 1] + [lines[|lines| - 1]];
    }
  }

  /** Later lines win over earlier ones. */
  lemma {:induction false} LatestAppend(lines: seq<IndexLine>, more: seq<IndexLine>)
    ensures Latest(lines + more) == Latest(lines) + Latest(more)
  {
    if more == [] {
      assert lines + more == lines;
    } else {
      var n := |more| - 1;
      assert (lines + more)[..|lines + more| - 1] == lines + more[..n];
      LatestAppend(lines, more[..n]);
    }
  }

  // ----- where content stands -----

  ghost predicate Occurs(lines: seq<IndexLine>, d: Digest) {
    exists e :: e in lines && e.sha256 == d
  }

  /** The first line with that hash names this archive and member. */
  ghost predicate FirstWith(lines: seq<IndexLine>, d: Digest, location: (string, string)) {
    exists i :: 0 <= i < |lines| && lines[i].sha256 == d && location == (lines[i].archive, lines[i].member)
      && forall j | 0 <= j < i :: lines[j].sha256 != d
  }

  /** The first line with a hash that occurs. */
  ghost function FirstLine(lines: seq<IndexLine>, d: Digest): (e: IndexLine)
    requires Occurs(lines, d)
    ensures e in lines && e.sha256 == d
  {
    if lines[0].sha256 == d then lines[0]
    else
      assert lines == [lines[0]] + lines[1..];
      FirstLine(lines[1..], d)
  }

  lemma {:induction false} FirstWithIsFirst(lines: seq<IndexLine>, d: Digest, location: (string, string))
    requires FirstWith(lines, d, location) && Occurs(lines, d)
    ensures location == (FirstLine(lines, d).archive, FirstLine(lines, d).member)
  {
    var i :| 0 <= i < |lines| && lines[i].sha256 == d && location == (lines[i].archive, lines[i].member)
      && forall j | 0 <= j < i :: lines[j].sha256 != d;
    if lines[0].sha256 != d {
      var rest := lines[1..];
      assert rest[i - 1] in rest && rest[i - 1] == lines[i];
      forall j | 0 <= j < i - 1 ensures rest[j].sha256 != d {
        assert rest[j] == lines[j + 1];
      }
      assert FirstWith(rest, d, location);
      FirstWithIsFirst(rest, d, location);
    }
  }

  // ----- dropping the lines of unneeded archives -----

  /** A path whose current line survives the drop keeps exactly that line. */
  lemma {:induction false} KeptKeepsPath(lines: seq<IndexLine>, keep: set<string>, p: string)
    ensures p !in Latest(lines) ==> p !in Latest(Kept(lines, keep))
    ensures p in Latest(lines) && Latest(lines)[p].archive in keep ==>
      p in Latest(Kept(lines, keep)) && Latest(Kept(lines, keep))[p] == Latest(lines)[p]
  {
    if lines != [] {
      var init, last := lines[..|lines| - 1], lines[|lines| - 1];
      KeptKeepsPath(init, keep, p);
      if last.archive in keep {
        LatestAppendOne(Kept(init, keep), last);
      } else {
        assert Kept(init, keep) + [] == Kept(init, keep);
      }
    }
  }

  /** Dropping lines leaves a state unchanged exactly when every current line is in a kept archive: nothing
      needed may go, nothing else matters. */
  lemma KeptKeepsStateExactly(lines: seq<IndexLine>, keep: set<string>)
    ensures Latest(Kept(lines, keep)) == Latest(lines) <==>
      forall p | p in Latest(lines) :: Latest(lines)[p].archive in keep
  {
    var before, after := Latest(lines), Latest(Kept(lines, keep));
    forall p ensures p !in before ==> p !in after
             ensures p in before && before[p].archive in keep ==> p in after && after[p] == before[p]
    {
      KeptKeepsPath(lines, keep, p);
    }
    LatestMembers(Kept(lines, keep));
    KeptElements(lines, keep);
  }

  /** The rewritten index starts with the rewritten prefix. */
  lemma {:induction false} KeptPrefix(lines: seq<IndexLine>, keep: set<string>, b: nat)
    requires b <= |lines|
    ensures |Kept(lines[..b], keep)| <= |Kept(lines, keep)|
    ensures Kept(lines, keep)[..|Kept(lines[..b], keep)|] == Kept(lines[..b], keep)
    decreases |lines|
  {
    if b == |lines| {
      assert lines[..b] == lines;
    } else {
      var init := lines[..|lines| - 1];
      assert init[..b] == lines[..b];
      KeptPrefix(init, keep, b);
    }
  }

  lemma {:induction false} KeptElements(lines: seq<IndexLine>, keep: set<string>)
    ensures forall e :: e in Kept(lines, keep) <==> e in lines && e.archive in keep
  {
    if lines != [] {
      KeptElements(lines[..|lines| - 1], keep);
      assert lines == lines[..|lines| - 1] + [lines[|lines| - 1]];
    }
  }

  // ----- which archives retained states need -----

  /** Some path of the state after `b` lines currently lives in `archive`. */
  ghost predicate NeededAt(lines: seq<IndexLine>, b: int, archive: string) {
    0 <= b <= |lines| && exists p :: p in Latest(lines[..b]) && Latest(lines[..b])[p].archive == archive
  }

  /** The archives that retained states need. */
  ghost predicate Needed(lines: seq<IndexLine>, boundaries: set<int>, archive: string) {
    exists b :: b in boundaries && 1 <= b <= |lines| && NeededAt(lines, b, archive)
  }

  /** Paths whose current line names `archive`. */
  function PathsIn(latest: map<string, string>, archive: string): set<string> {
    set p | p in latest && latest[p] == archive
  }

  /** The program's (path, archive) view of the current lines. */
  function LatestArchives(lines: seq<IndexLine>): map<string, string> {
    var latest := Latest(lines);
    map p | p in latest :: latest[p].archive
  }

  function Count(refs: map<string, int>, archive: string): int {
    if archive in refs then refs[archive] else 0
  }

  /** Reference counts after one more line. */
  function Recount(refs: map<string, int>, latest: map<string, string>, path: string,
      archive: string): map<string, int> {
    var dropped := if path in latest then refs[latest[path] := Count(refs, latest[path]) - 1] else refs;
    dropped[archive := Count(dropped, archive) + 1]
  }

  ghost predicate Counts(refs: map<string, int>, latest: map<string, string>) {
    forall archive :: Count(refs, archive) == |PathsIn(latest, archive)|
  }

  lemma RecountCounts(refs: map<string, int>, latest: map<string, string>, path: string, archive: string)
    requires Counts(refs, latest)
    ensures Counts(Recount(refs, latest, path, archive), latest[path := archive])
  {
    var refs', latest' := Recount(refs, latest, path, archive), latest[path := archive];
    forall x ensures Count(refs', x) == |PathsIn(latest', x)| {
      assert Count(refs, x) == |PathsIn(latest, x)|;
      if x == archive {
        assert PathsIn(latest', x) == PathsIn(latest, x) + {path};
      } else {
        assert PathsIn(latest', x) == PathsIn(latest, x) - {path};
      }
    }
  }

  lemma LatestArchivesStep(lines: seq<IndexLine>, n: nat)
    requires n < |lines|
    ensures LatestArchives(lines[..n + 1]) == LatestArchives(lines[..n])[lines[n].path := lines[n].archive]
  {
    assert lines[..n + 1] == lines[..n] + [lines[n]];
    LatestAppendOne(lines[..n], lines[n]);
  }

  lemma PositiveIsNeeded(lines: seq<IndexLine>, b: nat, refs: map<string, int>, archive: string)
    requires b <= |lines| && Counts(refs, LatestArchives(lines[..b]))
    ensures 0 < Count(refs, archive) <==> NeededAt(lines, b, archive)
  {
    var latest := LatestArchives(lines[..b]);
    assert Count(refs, archive) == |PathsIn(latest, archive)|;
    if 0 < Count(refs, archive) {
      var p :| p in PathsIn(latest, archive);
      assert p in Latest(lines[..b]) && Latest(lines[..b])[p].archive == archive;
    }
    if NeededAt(lines, b, archive) {
      var p :| p in Latest(lines[..b]) && Latest(lines[..b])[p].archive == archive;
      assert p in PathsIn(latest, archive);
    }
  }

  /** One pass with running reference counts finds exactly the archives that retained states need. */
  method ReachableArchives(lines: seq<IndexLine>, boundaries: set<int>) returns (reachable: set<string>)
    ensures forall archive :: archive in reachable <==> Needed(lines, boundaries, archive)
  {
    var latest: map<string, string> := map[];
    var refs: map<string, int> := map[];
    reachable := {};
    for n := 0 to |lines|
      invariant latest == LatestArchives(lines[..n])
      invariant Counts(refs, latest)
      invariant forall archive :: archive in reachable <==>
        exists b :: b in boundaries && 1 <= b <= n && NeededAt(lines, b, archive)
    {
      var path, archive := lines[n].path, lines[n].archive;
      RecountCounts(refs, latest, path, archive);
      LatestArchivesStep(lines, n);
      refs := Recount(refs, latest, path, archive);
      latest := latest[path := archive];
      if n + 1 in boundaries {
        ghost var before := reachable;
        reachable := reachable + set name | name in refs && refs[name] > 0;
        forall x ensures x in reachable <==> x in before || NeededAt(lines, n + 1, x) {
          PositiveIsNeeded(lines, n + 1, refs, x);
        }
      }
    }
  }

  /** Collection keeps every retained state: after dropping the lines of all other archives, the prefix that
      a retained boundary becomes has the same current lines as before. */
  lemma CollectionKeepsRetained(lines: seq<IndexLine>, boundaries: set<int>, keep: set<string>, b: int)
    requires forall archive :: archive in keep <==> Needed(lines, boundaries, archive)
    requires b in boundaries && 1 <= b <= |lines|
    ensures |Kept(lines[..b], keep)| <= |Kept(lines, keep)|
    ensures Latest(Kept(lines, keep)[..|Kept(lines[..b], keep)|]) == Latest(lines[..b])
  {
    KeptPrefix(lines, keep, b);
    forall p | p in Latest(lines[..b]) ensures Latest(lines[..b])[p].archive in keep {
      assert NeededAt(lines, b, Latest(lines[..b])[p].archive);
    }
    KeptKeepsStateExactly(lines[..b], keep);
  }
}
