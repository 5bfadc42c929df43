/** Which target cells no answered range covers: merged intervals and a bisection against plain subtraction. */
module FlowTargets {
  import opened Sorting
  import opened NameOrder

  datatype Status = Success | Empty | ProviderUnavailable | ProviderError | ExtractionFailed

  /** A coverage range of one subject; its end may lie before its start, and then it covers nothing. */
  datatype CoverageRange = CoverageRange(subject: string, start: int, end: int, status: Status)

  datatype Span = Span(start: int, end: int)

  datatype Cell = Cell(ticker: string, session: int)

  predicate IsAnswered(r: CoverageRange) {
    r.status == Success || r.status == Empty
  }

  predicate Within(day: int, s: Span) {
    s.start <= day <= s.end
  }

  /** Some answered range of the cell's ticker contains its session. */
  ghost predicate Answered(ranges: seq<CoverageRange>, cell: Cell) {
    exists r | r in ranges :: IsAnswered(r) && r.subject == cell.ticker && Within(cell.session, Span(r.start, r.end))
  }

  // ----- merging -----

  /** Spans by start, then by end. */
  predicate SpanLe(a: Span, b: Span) {
    a.start < b.start || (a.start == b.start && a.end <= b.end)
  }

  ghost predicate CoveredBy(spans: seq<Span>, day: int) {
    exists i | 0 <= i < |spans| :: Within(day, spans[i])
  }

  /** Merged intervals: each ends before the next starts. */
  ghost predicate Disjoint(starts: seq<int>, ends: seq<int>) {
    && |starts| == |ends|
    && (forall i, j | 0 <= i < j < |starts| :: ends[i] < starts[j] && starts[i] <= starts[j])
  }

  predicate InInterval(starts: seq<int>, ends: seq<int>, day: int, i: int)
    requires 0 <= i < |starts| == |ends|
  {
    starts[i] <= day <= ends[i]
  }

  ghost predicate InMerged(starts: seq<int>, ends: seq<int>, day: int)
    requires |starts| == |ends|
  {
    exists i | 0 <= i < |starts| :: InInterval(starts, ends, day, i)
  }

  /** The merged intervals cover what the spans cover. */
  ghost predicate SameDays(spans: seq<Span>, starts: seq<int>, ends: seq<int>)
    requires |starts| == |ends|
  {
    forall day :: InMerged(starts, ends, day) <==> CoveredBy(spans, day)
  }

  lemma CoveredByLast(spans: seq<Span>, s: Span, day: int)
    ensures CoveredBy(spans + [s], day) <==> CoveredBy(spans, day) || Within(day, s)
  {
    var more := spans + [s];
    if CoveredBy(spans, day) {
      var i :| 0 <= i < |spans| && Within(day, spans[i]);
      assert Within(day, more[i]);
    }
    if Within(day, s) {
      assert Within(day, more[|spans|]);
    }
  }

  lemma AppendDays(spans: seq<Span>, s: Span, starts: seq<int>, ends: seq<int>)
    requires |starts| == |ends| && SameDays(spans, starts, ends)
    ensures SameDays(spans + [s], starts + [s.start], ends + [s.end])
  {
    var starts', ends' := starts + [s.start], ends + [s.end];
    forall day ensures InMerged(starts', ends', day) <==> CoveredBy(spans + [s], day) {
      CoveredByLast(spans, s, day);
      if InMerged(starts, ends, day) {
        var i :| 0 <= i < |starts| && InInterval(starts, ends, day, i);
        assert InInterval(starts', ends', day, i);
      }
      if Within(day, s) {
        assert InInterval(starts', ends', day, |starts|);
      }
      if InMerged(starts', ends', day) {
        var i :| 0 <= i < |starts'| && InInterval(starts', ends', day, i);
        assert i == |starts| || InInterval(starts, ends, day, i);
      }
    }
  }

  /** Extending the last interval by a span that starts inside it. */
  lemma ExtendDays(spans: seq<Span>, s: Span, starts: seq<int>, ends: seq<int>)
    requires |starts| == |ends| > 0 && SameDays(spans, starts, ends)
    requires starts[|starts| - 1] <= s.start <= ends[|ends| - 1]
    ensures SameDays(spans + [s], starts,
      ends[|ends| - 1 := if s.end > ends[|ends| - 1] then s.end else ends[|ends| - 1]])
  {
    var n := |ends| - 1;
    var ends' := ends[n := if s.end > ends[n] then s.end else ends[n]];
    forall day ensures InMerged(starts, ends', day) <==> CoveredBy(spans + [s], day) {
      CoveredByLast(spans, s, day);
      if InMerged(starts, ends, day) {
        var i :| 0 <= i < |starts| && InInterval(starts, ends, day, i);
        assert InInterval(starts, ends', day, i);
      }
      if Within(day, s) {
        assert InInterval(starts, ends', day, n);
      }
      if InMerged(starts, ends', day) {
        var i :| 0 <= i < |starts| && InInterval(starts, ends', day, i);
        if i < n || day <= ends[n] {
          assert InInterval(starts, ends, day, i);
        }
      }
    }
  }

  /** Merge sorted spans into disjoint intervals that cover the same days. */
  method MergeSorted(spans: seq<Span>) returns (starts: seq<int>, ends: seq<int>)
    requires Sorted(spans, SpanLe)
    ensures Disjoint(starts, ends) && SameDays(spans, starts, ends) && (spans != [] ==> starts != [])
  {
    starts, ends := [], [];
    for n := 0 to |spans|
      invariant Disjoint(starts, ends) && SameDays(spans[..n], starts, ends)
      invariant starts != [] ==> n > 0 && starts[|starts| - 1] <= spans[n - 1].start
      invariant n > 0 ==> starts != []
    {
      var s := spans[n];
      assert spans[..n + 1] == spans[..n] + [s];
      assert n > 0 ==> SpanLe(spans[n - 1], s);
      if starts != [] && s.start <= ends[|ends| - 1] {
        ExtendDays(spans[..n], s, starts, ends);
        assert ends[|ends| - 1 := ends[|ends| - 1]] == ends;
        if s.end > ends[|ends| - 1] {
          ends := ends[|ends| - 1 := s.end];
        }
      } else {
        AppendDays(spans[..n], s, starts, ends);
        AppendDisjoint(starts, ends, s);
        starts, ends := starts + [s.start], ends + [s.end];
      }
    }
    assert spans[..|spans|] == spans;
  }

  lemma AppendDisjoint(starts: seq<int>, ends: seq<int>, s: Span)
    requires Disjoint(starts, ends) && (starts != [] ==> ends[|ends| - 1] < s.start && starts[|starts| - 1] <= s.start)
    ensures Disjoint(starts + [s.start], ends + [s.end])
  {
    var n := |starts|;
    forall i | 0 <= i < n ensures ends[i] < s.start && starts[i] <= s.start {
      assert i == n - 1 || (ends[i] < starts[n - 1] && starts[i] <= starts[n - 1]);
    }
  }

  // ----- by subject -----

  /** The answered spans of one subject, in order of appearance. */
  function SpansOf(ranges: seq<CoverageRange>, subject: string): seq<Span> {
    if ranges == [] then []
    else
      var last := ranges[|ranges| - 1];
      SpansOf(ranges[..|ranges| - 1], subject) + (if IsAnswered(last) && last.subject == subject then [Span(last.start, last.end)] else [])
  }

  lemma {:induction false} SpansCover(ranges: seq<CoverageRange>, cell: Cell)
    ensures CoveredBy(SpansOf(ranges, cell.ticker), cell.session) <==> Answered(ranges, cell)
  {
    if ranges != [] {
      var n := |ranges| - 1;
      var init, last := ranges[..n], ranges[n];
      assert ranges == init + [last];
      SpansCover(init, cell);
      var spans := SpansOf(init, cell.ticker);
      CoveredByLast(spans, Span(last.start, last.end), cell.session);
      assert spans + [] == spans;
    }
  }

  method GroupBySubject(ranges: seq<CoverageRange>) returns (groups: map<string, seq<Span>>)
    ensures forall subject :: SpansOf(ranges, subject) == if subject in groups then groups[subject] else []
    ensures forall subject | subject in groups :: groups[subject] != []
  {
    groups := map[];
    for n := 0 to |ranges|
      invariant forall subject :: SpansOf(ranges[..n], subject) == if subject in groups then groups[subject] else []
      invariant forall subject | subject in groups :: groups[subject] != []
    {
      assert ranges[..n + 1][..n] == ranges[..n];
      var item := ranges[n];
      if IsAnswered(item) {
        var spans := if item.subject in groups then groups[item.subject] else [];
        groups := groups[item.subject := spans + [Span(item.start, item.end)]];
      }
    }
    assert ranges[..|ranges|] == ranges;
  }

  datatype Merged = Merged(starts: seq<int>, ends: seq<int>)

  ghost predicate MergedFor(ranges: seq<CoverageRange>, subject: string, m: Merged) {
    m.starts != [] && Disjoint(m.starts, m.ends) && SameDays(SpansOf(ranges, subject), m.starts, m.ends)
  }

  lemma SortedSpans(spans: seq<Span>, starts: seq<int>, ends: seq<int>)
    requires |starts| == |ends| && SameDays(SortBy(spans, SpanLe), starts, ends)
    ensures SameDays(spans, starts, ends)
  {
    SortByElements(spans, SpanLe);
    var sorted := SortBy(spans, SpanLe);
    forall day ensures CoveredBy(sorted, day) <==> CoveredBy(spans, day) {
      if CoveredBy(sorted, day) {
        var i :| 0 <= i < |sorted| && Within(day, sorted[i]);
        assert sorted[i] in spans;
      }
      if CoveredBy(spans, day) {
        var i :| 0 <= i < |spans| && Within(day, spans[i]);
        assert spans[i] in sorted;
      }
    }
  }

  /** Merge the answered ranges of every subject. */
  method MergedIntervals(ranges: seq<CoverageRange>) returns (merged: map<string, Merged>)
    ensures forall subject :: subject in merged <==> SpansOf(ranges, subject) != []
    ensures forall subject | subject in merged :: MergedFor(ranges, subject, merged[subject])
  {
    var groups := GroupBySubject(ranges);
    merged := map[];
    var rest := groups.Keys;
    while rest != {}
      invariant rest <= groups.Keys && merged.Keys == groups.Keys - rest
      invariant forall subject | subject in merged :: MergedFor(ranges, subject, merged[subject])
      decreases |rest|
    {
      var subject :| subject in rest;
      var spans := groups[subject];
      assert SpansOf(ranges, subject) == spans;
      SortBySorts(spans, SpanLe);
      SortByElements(spans, SpanLe);
      var starts, ends := MergeSorted(SortBy(spans, SpanLe));
      SortedSpans(spans, starts, ends);
      merged := merged[subject := Merged(starts, ends)];
      rest := rest - {subject};
    }
  }

  // ----- looking up -----

  /** Right bisection: how many starts are at or before the day. */
  method BisectRight(starts: seq<int>, day: int) returns (k: nat)
    requires forall i, j | 0 <= i < j < |starts| :: starts[i] <= starts[j]
    ensures k <= |starts| && (forall i | 0 <= i < k :: starts[i] <= day) && forall i | k <= i < |starts| ::
      day < starts[i]
  {
    k := 0;
    var hi := |starts|;
    while k < hi
      invariant k <= hi <= |starts| && (forall i | 0 <= i < k :: starts[i] <= day) && forall i | hi <= i < |starts| ::
        day < starts[i]
    {
      var mid := (k + hi) / 2;
      if day < starts[mid] {
        hi := mid;
      } else {
        k := mid + 1;
      }
    }
  }

  /** The clipped lookup decides membership in the merged intervals, for every day. */
  method IsCovered(m: Merged, day: int) returns (covered: bool)
    requires m.starts != [] && Disjoint(m.starts, m.ends)
    ensures covered <==> InMerged(m.starts, m.ends, day)
  {
    var k: int := BisectRight(m.starts, day);
    var position := k - 1;
    var clipped := if position < 0 then 0 else if position > |m.ends| - 1 then |m.ends| - 1 else position;
    covered := position >= 0 && day <= m.ends[clipped];
    if covered {
      assert InInterval(m.starts, m.ends, day, position);
    }
    if InMerged(m.starts, m.ends, day) {
      var i :| 0 <= i < |m.starts| && InInterval(m.starts, m.ends, day, i);
      assert i < k;
      assert m.starts[position] <= day <= m.ends[i];
      assert i == position;
    }
  }

  // ----- pending cells -----

  predicate CellLe(a: Cell, b: Cell) {
    if a.ticker != b.ticker then NameLe(a.ticker, b.ticker) else a.session <= b.session
  }

  lemma CellOrder()
    ensures TotalPreorder(CellLe)
  {
    forall a, b, c ensures (CellLe(a, b) || CellLe(b, a)) && (CellLe(a, b) && CellLe(b, c) ==> CellLe(a, c)) {
      NameLeTotal(a.ticker, b.ticker);
      NameLeTotal(b.ticker, c.ticker);
      if NameLe(a.ticker, b.ticker) && NameLe(b.ticker, c.ticker) {
        NameLeTransitive(a.ticker, b.ticker, c.ticker);
      }
    }
  }

  ghost predicate NoRepeats(cells: seq<Cell>) {
    forall i, j | 0 <= i < j < |cells| :: cells[i] != cells[j]
  }

  lemma {:induction false} RepeatsCount(cells: seq<Cell>)
    ensures NoRepeats(cells) <==> forall x :: multiset(cells)[x] <= 1
  {
    if cells != [] {
      var n := |cells| - 1;
      var init, last := cells[..n], cells[n];
      assert cells == init + [last];
      RepeatsCount(init);
      assert multiset(cells)[last] == multiset(init)[last] + 1;
      if NoRepeats(cells) {
        forall x ensures multiset(cells)[x] <= 1 {
          assert last !in init;
        }
      }
      if forall x :: multiset(cells)[x] <= 1 {
        forall x ensures multiset(init)[x] <= 1 {
          assert multiset(cells)[x] <= 1;
        }
        assert last !in multiset(init);
        assert last !in init;
      }
    }
  }

  lemma SortKeepsNoRepeats(cells: seq<Cell>)
    requires NoRepeats(cells)
    ensures NoRepeats(SortBy(cells, CellLe))
  {
    SortByPermutes(cells, CellLe);
    RepeatsCount(cells);
    RepeatsCount(SortBy(cells, CellLe));
  }

  /** The distinct cells, in the order of their first appearance. */
  method Distinct(cells: seq<Cell>) returns (distinct: seq<Cell>)
    ensures NoRepeats(distinct) && forall x :: x in distinct <==> x in cells
  {
    distinct := [];
    for n := 0 to |cells|
      invariant NoRepeats(distinct) && forall x :: x in distinct <==> x in cells[..n]
    {
      if cells[n] !in distinct {
        distinct := distinct + [cells[n]];
      }
    }
    assert cells[..|cells|] == cells;
  }

  /** The cells of one part that no merged interval contains. */
  method Uncovered(part: seq<Cell>, m: Merged) returns (kept: seq<Cell>)
    requires m.starts != [] && Disjoint(m.starts, m.ends) && NoRepeats(part)
    ensures NoRepeats(kept) && forall x :: x in kept <==> x in part && !InMerged(m.starts, m.ends, x.session)
  {
    kept := [];
    for n := 0 to |part|
      invariant NoRepeats(kept) && forall x :: x in kept <==> x in part[..n] && !InMerged(m.starts, m.ends, x.session)
    {
      var covered := IsCovered(m, part[n].session);
      if !covered {
        assert part[n] !in part[..n];
        kept := kept + [part[n]];
      }
    }
    assert part[..|part|] == part;
  }

  /** The cells of one ticker, in order. */
  method PartOf(frame: seq<Cell>, ticker: string) returns (part: seq<Cell>)
    requires NoRepeats(frame)
    ensures NoRepeats(part) && forall x :: x in part <==> x in frame && x.ticker == ticker
  {
    part := [];
    for n := 0 to |frame|
      invariant NoRepeats(part) && forall x :: x in part <==> x in frame[..n] && x.ticker == ticker
    {
      if frame[n].ticker == ticker {
        assert frame[n] !in frame[..n];
        part := part + [frame[n]];
      }
    }
    assert frame[..|frame|] == frame;
  }

  lemma JoinNoRepeats(xs: seq<Cell>, ys: seq<Cell>)
    requires NoRepeats(xs) && NoRepeats(ys) && forall x | x in xs :: x !in ys
    ensures NoRepeats(xs + ys)
  {
    var all := xs + ys;
    forall i, j | 0 <= i < j < |all| ensures all[i] != all[j] {
      if i < |xs| <= j {
        assert all[i] in xs && all[j] in ys;
      }
    }
  }

  ghost predicate PendingOf(ranges: seq<CoverageRange>, frame: seq<Cell>, tickers: set<string>, kept: seq<Cell>) {
    NoRepeats(kept) && forall x :: x in kept <==> x in frame && x.ticker in tickers && !Answered(ranges, x)
  }

  /** One ticker's pending cells. */
  method PendingPart(ranges: seq<CoverageRange>, merged: map<string, Merged>, frame: seq<Cell>,
      ticker: string) returns (part: seq<Cell>)
    requires NoRepeats(frame) && forall subject :: subject in merged <==> SpansOf(ranges, subject) != []
    requires forall subject | subject in merged :: MergedFor(ranges, subject, merged[subject])
    ensures PendingOf(ranges, frame, {ticker}, part)
  {
    part := PartOf(frame, ticker);
    forall x | x in frame && x.ticker == ticker ensures CoveredBy(SpansOf(ranges, ticker), x.session) <==>
      Answered(ranges, x) {
      SpansCover(ranges, x);
    }
    if ticker in merged {
      part := Uncovered(part, merged[ticker]);
    }
  }

  /** The pending cells: exactly the target cells outside every answered range of their ticker, each once, in order. */
  method PendingCells(targets: seq<Cell>, ranges: seq<CoverageRange>) returns (pending: seq<Cell>)
    ensures Sorted(pending, CellLe) && NoRepeats(pending)
    ensures forall cell :: cell in pending <==> cell in targets && !Answered(ranges, cell)
  {
    CellOrder();
    var distinct := Distinct(targets);
    var frame := SortBy(distinct, CellLe);
    SortBySorts(distinct, CellLe);
    SortByElements(distinct, CellLe);
    SortKeepsNoRepeats(distinct);
    if frame == [] {
      return frame;
    }
    var merged := MergedIntervals(ranges);
    if merged == map[] {
      forall cell ensures !Answered(ranges, cell) {
        SpansCover(ranges, cell);
        assert cell.ticker !in merged;
      }
      return frame;
    }
    var kept := CollectParts(ranges, merged, frame);
    SortBySorts(kept, CellLe);
    SortByElements(kept, CellLe);
    SortKeepsNoRepeats(kept);
    pending := SortBy(kept, CellLe);
  }

  method CollectParts(ranges: seq<CoverageRange>, merged: map<string, Merged>,
      frame: seq<Cell>) returns (kept: seq<Cell>)
    requires NoRepeats(frame) && forall subject :: subject in merged <==> SpansOf(ranges, subject) != []
    requires forall subject | subject in merged :: MergedFor(ranges, subject, merged[subject])
    ensures NoRepeats(kept) && forall x :: x in kept <==> x in frame && !Answered(ranges, x)
  {
    kept := [];
    var seen: set<string> := {};
    for n := 0 to |frame|
      invariant PendingOf(ranges, frame, seen, kept)
      invariant forall i | 0 <= i < n :: frame[i].ticker in seen
    {
      var ticker := frame[n].ticker;
      if ticker !in seen {
        var part := PendingPart(ranges, merged, frame, ticker);
        JoinNoRepeats(kept, part);
        kept := kept + part;
        seen := seen + {ticker};
      }
    }
  }
}
