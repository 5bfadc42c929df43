/** Cutting off the future commutes with building the events, exactly when cleaning does not merge identifiers. */
module QualityPointInTime {
  import opened Options
  import opened Sorting
  import opened FinancialQuality

  // ----- filters -----

  lemma {:induction false} FilterFilter<T(!new)>(xs: seq<T>, p: T -> bool, q: T -> bool, both: T -> bool)
    requires forall x | x in xs :: both(x) <==> p(x) && q(x)
    ensures Filter(Filter(xs, p), q) == Filter(xs, both)
  {
    if xs != [] {
      assert xs[0] in xs;
      FilterFilter(xs[1..], p, q, both);
    }
  }

  lemma FilterLast<T(!new)>(xs: seq<T>, x: T, p: T -> bool)
    ensures Filter(xs + [x], p) == Filter(xs, p) + (if p(x) then [x] else [])
  {
    FilterAppend(xs, [x], p);
    assert [x][1..] == [];
  }

  /** The last element a filter keeps, and what follows it. */
  lemma {:induction false} LastKept<T(!new)>(xs: seq<T>, p: T -> bool) returns (m: nat)
    requires Filter(xs, p) != []
    ensures var kept := Filter(xs, p);
      m < |xs| && kept[|kept| - 1] == xs[m] && p(xs[m]) && forall i | m < i < |xs| :: !p(xs[i])
  {
    var n := |xs| - 1;
    assert xs == xs[..n] + [xs[n]];
    FilterLast(xs[..n], xs[n], p);
    if p(xs[n]) {
      m := n;
    } else {
      m := LastKept(xs[..n], p);
    }
  }

  // ----- cutting -----

  function RowsBy(t: int): Row -> bool {
    (r: Row) => r.available <= t
  }

  function EventsBy(t: int): Event -> bool {
    (e: Event) => e.available <= t
  }

  /** Rows of one key are contiguous and in order of availability. */
  ghost predicate Orderly(c: Setting, rows: seq<Row>) {
    forall i, j | 0 <= i < j < |rows| && KeyOf(c, rows[i]) == KeyOf(c, rows[j]) ::
      rows[i].available <= rows[j].available && forall m | i < m < j :: KeyOf(c, rows[m]) == KeyOf(c, rows[j])
  }

  lemma OrderlyPrefix(c: Setting, rows: seq<Row>, n: nat)
    requires Orderly(c, rows) && n <= |rows|
    ensures Orderly(c, rows[..n])
  {
  }

  function Updated(c: Setting, state: map<string, Entry>, k: Key, r: Row): map<string, Entry> {
    if KeyOf(c, r) == k then state[c.strip(r.fact) := Entry(r.filing, r.published)] else state
  }

  lemma StateLast(c: Setting, rows: seq<Row>, r: Row, k: Key)
    ensures StateOf(c, rows + [r], k) == Updated(c, StateOf(c, rows, k), k, r)
  {
    assert (rows + [r])[..|rows|] == rows;
  }

  /** Cutting rows of other keys' future does not change a key's state. */
  lemma {:induction false} StateCut(c: Setting, rows: seq<Row>, k: Key, t: int)
    requires forall r | r in rows && KeyOf(c, r) == k :: r.available <= t
    ensures StateOf(c, Filter(rows, RowsBy(t)), k) == StateOf(c, rows, k)
  {
    if rows != [] {
      var n := |rows| - 1;
      var init, last := rows[..n], rows[n];
      StateCut(c, init, k, t);
      StateCutLast(c, init, last, k, t);
      assert rows == init + [last];
    }
  }

  lemma StateCutLast(c: Setting, init: seq<Row>, last: Row, k: Key, t: int)
    requires StateOf(c, Filter(init, RowsBy(t)), k) == StateOf(c, init, k) &&
      (KeyOf(c, last) == k ==> last.available <= t)
    ensures StateOf(c, Filter(init + [last], RowsBy(t)), k) == StateOf(c, init + [last], k)
  {
    var kept := Filter(init, RowsBy(t));
    FilterLast(init, last, RowsBy(t));
    StateLast(c, init, last, k);
    StateLast(c, kept, last, k);
    assert kept + [] == kept;
  }

  predicate Continues(c: Setting, rows: seq<Row>, r: Row) {
    rows != [] && Same(c, rows[|rows| - 1], r)
  }

  /** Between two rows of one run lie only rows of that run. */
  lemma NoGap(c: Setting, rows: seq<Row>, m: nat, i: nat)
    requires Orderly(c, rows) && m <= i < |rows| && Same(c, rows[m], rows[|rows| - 1])
    ensures Same(c, rows[i], rows[|rows| - 1])
  {
    var n := |rows| - 1;
    if m < i < n {
      assert KeyOf(c, rows[i]) == KeyOf(c, rows[n]);
      assert rows[m].available <= rows[i].available && rows[i].available <= rows[n].available;
    }
  }

  /** A row in time continues a run after the cut exactly when it did before. */
  lemma ContinuesCut(c: Setting, rows: seq<Row>, r: Row, t: int)
    requires Orderly(c, rows + [r]) && r.available <= t
    ensures Continues(c, Filter(rows, RowsBy(t)), r) <==> Continues(c, rows, r)
  {
    var all, n := rows + [r], |rows|;
    var kept := Filter(rows, RowsBy(t));
    if Continues(c, rows, r) {
      var last := rows[n - 1];
      assert rows == rows[..n - 1] + [last];
      FilterLast(rows[..n - 1], last, RowsBy(t));
    }
    if Continues(c, kept, r) {
      var m := LastKept(rows, RowsBy(t));
      assert all[m] == rows[m] && all[n] == r && all[n - 1] == rows[n - 1];
      NoGap(c, all, m, n - 1);
    }
  }

  lemma NoneLater(c: Setting, rows: seq<Row>, t: int)
    requires rows != [] && Orderly(c, rows) && rows[|rows| - 1].available <= t
    ensures forall r | r in rows && KeyOf(c, r) == KeyOf(c, rows[|rows| - 1]) :: r.available <= t
  {
    var n := |rows| - 1;
    forall r | r in rows && KeyOf(c, r) == KeyOf(c, rows[n]) ensures r.available <= t {
      var i :| 0 <= i < |rows| && rows[i] == r;
      assert i == n || rows[i].available <= rows[n].available;
    }
  }

  lemma LastSurvives(rows: seq<Row>, t: int)
    requires rows != [] && rows[|rows| - 1].available <= t
    ensures var kept := Filter(rows, RowsBy(t)); kept != [] && kept[|kept| - 1] == rows[|rows| - 1]
  {
    var n := |rows| - 1;
    assert rows == rows[..n] + [rows[n]];
    FilterLast(rows[..n], rows[n], RowsBy(t));
  }

  lemma LastStateCut(c: Setting, rows: seq<Row>, t: int)
    requires rows != [] && Orderly(c, rows) && rows[|rows| - 1].available <= t
    ensures var k := KeyOf(c, rows[|rows| - 1]); StateOf(c, Filter(rows, RowsBy(t)), k) == StateOf(c, rows, k)
  {
    NoneLater(c, rows, t);
    StateCut(c, rows, KeyOf(c, rows[|rows| - 1]), t);
  }

  lemma SameLastSnapshot(c: Setting, rows: seq<Row>, rows': seq<Row>)
    requires rows != [] && rows' != [] && rows[|rows| - 1] == rows'[|rows'| - 1]
    requires StateOf(c, rows, KeyOf(c, rows[|rows| - 1])) == StateOf(c, rows', KeyOf(c, rows[|rows| - 1]))
    ensures LastSnapshot(c, rows) == LastSnapshot(c, rows')
  {
  }

  lemma LastSnapshotCut(c: Setting, rows: seq<Row>, t: int)
    requires rows != [] && rows[|rows| - 1].available <= t
    requires var k := KeyOf(c, rows[|rows| - 1]); StateOf(c, Filter(rows, RowsBy(t)), k) == StateOf(c, rows, k)
    ensures Filter(rows, RowsBy(t)) != [] && LastSnapshot(c, Filter(rows, RowsBy(t))) == LastSnapshot(c, rows)
  {
    LastSurvives(rows, t);
    SameLastSnapshot(c, Filter(rows, RowsBy(t)), rows);
  }

  lemma ClosedCut(c: Setting, rows: seq<Row>, r: Row, t: int)
    requires Orderly(c, rows + [r]) && r.available <= t
    requires Filter(Emitted(c, rows), EventsBy(t)) == Emitted(c, Filter(rows, RowsBy(t)))
    ensures Filter(Closed(c, rows, r), EventsBy(t)) == Closed(c, Filter(rows, RowsBy(t)), r)
  {
    ContinuesCut(c, rows, r, t);
    if Continues(c, rows, r) {
      DropLastEvent(c, rows, t);
    }
  }

  lemma DropLastEvent(c: Setting, rows: seq<Row>, t: int)
    requires rows != [] && rows[|rows| - 1].available <= t
    ensures var out := Emitted(c, rows);
      var kept := Filter(out, EventsBy(t));
      kept != [] && Filter(out[..|out| - 1], EventsBy(t)) == kept[..|kept| - 1]
  {
    var out := Emitted(c, rows);
    var n := |out| - 1;
    assert out == out[..n] + [out[n]] && out[n] == LastSnapshot(c, rows);
    FilterLast(out[..n], out[n], EventsBy(t));
  }

  lemma ClosedLate(c: Setting, rows: seq<Row>, r: Row, t: int)
    requires r.available > t
    ensures Filter(Closed(c, rows, r), EventsBy(t)) == Filter(Emitted(c, rows), EventsBy(t))
  {
    if Continues(c, rows, r) {
      var out := Emitted(c, rows);
      var n := |out| - 1;
      assert out == out[..n] + [out[n]] && out[n] == LastSnapshot(c, rows);
      FilterLast(out[..n], out[n], EventsBy(t));
    }
  }

  /** Over orderly rows, the snapshots of the cut are the cut of the snapshots. */
  lemma {:induction false} EmittedCut(c: Setting, rows: seq<Row>, t: int)
    requires Orderly(c, rows)
    ensures Filter(Emitted(c, rows), EventsBy(t)) == Emitted(c, Filter(rows, RowsBy(t)))
  {
    if rows != [] {
      var n := |rows| - 1;
      var init, r := rows[..n], rows[n];
      assert rows == init + [r];
      OrderlyPrefix(c, rows, n);
      EmittedCut(c, init, t);
      FilterLast(init, r, RowsBy(t));
      FilterLast(Closed(c, init, r), LastSnapshot(c, rows), EventsBy(t));
      if r.available <= t {
        ClosedCut(c, init, r, t);
        LastStateCut(c, rows, t);
        LastSnapshotCut(c, rows, t);
        var kept := Filter(init, RowsBy(t));
        assert (kept + [r])[..|kept|] == kept;
      } else {
        ClosedLate(c, init, r, t);
        var kept := Filter(init, RowsBy(t));
        assert kept + [] == kept;
        var out := Filter(Closed(c, init, r), EventsBy(t));
        assert out + [] == out;
      }
    }
  }

  // ----- the whole builder -----

  /** Cleaning identifiers merges no two of those used. */
  ghost predicate Tidy(c: Setting, ids: set<RawKey>) {
    forall a, b | a in ids && b in ids && UsableKey(c, Clean(c, a)) && Clean(c, a) == Clean(c, b) :: a == b
  }

  function Ids(facts: seq<Row>): set<RawKey> {
    set r | r in facts :: Raw(r)
  }

  lemma UsableRowsSorted(c: Setting, facts: seq<Row>, t: int)
    requires Valid(c)
    ensures Sorted(UsableRows(c, facts, t), c.rowLe)
    ensures forall r :: r in UsableRows(c, facts, t) <==>
      r in facts && r.available <= t && r.fact in c.required && Usable(c, r)
  {
    var inScope, usable := (r: Row) => r.available <= t && r.fact in c.required, (r: Row) => Usable(c, r);
    SortBySorts(Filter(facts, inScope), c.rowLe);
    SortByElements(Filter(facts, inScope), c.rowLe);
    FilterElements(facts, inScope);
    FilterSorted(Scoped(c, facts, t), c.rowLe, usable);
    FilterElements(Scoped(c, facts, t), usable);
  }

  lemma TidyIsOrderly(c: Setting, facts: seq<Row>, t: int)
    requires Valid(c) && Tidy(c, Ids(facts))
    ensures Orderly(c, UsableRows(c, facts, t))
  {
    var rows := UsableRows(c, facts, t);
    UsableRowsSorted(c, facts, t);
    forall i, j | 0 <= i < j < |rows| && KeyOf(c, rows[i]) == KeyOf(c, rows[j])
      ensures rows[i].available <= rows[j].available && forall m | i < m < j :: KeyOf(c, rows[m]) == KeyOf(c, rows[j])
    {
      assert rows[i] in rows && rows[j] in rows;
      assert Raw(rows[i]) == Raw(rows[j]);
      assert c.rowLe(rows[i], rows[j]);
      forall m | i < m < j ensures KeyOf(c, rows[m]) == KeyOf(c, rows[j]) {
        assert c.rowLe(rows[i], rows[m]) && c.rowLe(rows[m], rows[j]);
      }
    }
  }

  /** The rows known at `t` are those known at a later time, cut. */
  lemma UsableRowsCut(c: Setting, facts: seq<Row>, t: int, T: int)
    requires Valid(c) && t <= T
    ensures Filter(UsableRows(c, facts, T), RowsBy(t)) == UsableRows(c, facts, t)
  {
    var late, early := (r: Row) => r.available <= T && r.fact in c.required, (r: Row) => r.available <= t &&
      r.fact in c.required;
    var usable, both := (r: Row) => Usable(c, r), (r: Row) => Usable(c, r) && r.available <= t;
    var scoped := Filter(facts, late);
    FilterFilter(SortBy(scoped, c.rowLe), usable, RowsBy(t), both);
    FilterFilter(SortBy(scoped, c.rowLe), RowsBy(t), usable, both);
    FilterSort(scoped, c.rowLe, RowsBy(t));
    FilterFilter(facts, late, RowsBy(t), early);
  }

  lemma {:induction false} UnresolvedCut(c: Setting, unresolved: seq<Unresolved>, t: int, T: int)
    requires t <= T
    ensures Filter(UnresolvedEvents(c, unresolved, T), EventsBy(t)) == UnresolvedEvents(c, unresolved, t)
  {
    if unresolved != [] {
      UnresolvedCut(c, unresolved[1..], t, T);
      var e := UnresolvedEvent(c, unresolved[0]);
      FilterAppend(if e.available <= T then [e] else [], UnresolvedEvents(c, unresolved[1..], T), EventsBy(t));
      assert [e][1..] == [];
    }
  }

  ghost predicate Commutes(c: Setting, facts: seq<Row>, unresolved: seq<Unresolved>, t: int, T: int) {
    Filter(Events(c, facts, unresolved, T), EventsBy(t)) == Events(c, facts, unresolved, t)
  }

  /** With tidy identifiers, the events built late and cut to `t` are the events built at `t`. */
  lemma TidyCommutes(c: Setting, facts: seq<Row>, unresolved: seq<Unresolved>, t: int, T: int)
    requires Valid(c) && Tidy(c, Ids(facts)) && t <= T
    ensures Commutes(c, facts, unresolved, t, T)
  {
    var rows := UsableRows(c, facts, T);
    var more := UnresolvedEvents(c, unresolved, T);
    TidyIsOrderly(c, facts, T);
    EmittedCut(c, rows, t);
    UsableRowsCut(c, facts, t, T);
    UnresolvedCut(c, unresolved, t, T);
    FilterSort(Emitted(c, rows) + more, c.eventLe, EventsBy(t));
    FilterAppend(Emitted(c, rows), more, EventsBy(t));
  }

  // ----- when identifiers are not tidy -----

  function Fact(k: RawKey, available: int, fact: string): Row {
    Row(k.company, k.period, k.consolidated, available, "", fact, 0, Some(0), "KRW")
  }

  /** Two spellings of one identifier: the second spelling's row is scanned after the first spelling's later row. */
  function TwoSpellings(a: RawKey, b: RawKey, fact: string): seq<Row> {
    [Fact(a, 1, fact), Fact(a, 2, fact), Fact(b, 1, fact)]
  }

  lemma TwoSpellingsSorted(c: Setting, a: RawKey, b: RawKey, fact: string)
    requires Valid(c) && a != b && c.keyLe(a, b)
    ensures Sorted(TwoSpellings(a, b, fact), c.rowLe)
  {
    var rows := TwoSpellings(a, b, fact);
    assert Raw(rows[0]) == a && Raw(rows[1]) == a && Raw(rows[2]) == b;
    assert c.keyLe(a, a);
    assert c.rowLe(rows[0], rows[1]) && c.rowLe(rows[0], rows[2]) && c.rowLe(rows[1], rows[2]);
  }

  lemma TwoSpellingsUsable(c: Setting, a: RawKey, b: RawKey, fact: string)
    requires Valid(c) && a != b && c.keyLe(a, b) && Clean(c, a) == Clean(c, b) && UsableKey(c, Clean(c, a)) &&
      fact in c.required
    ensures UsableRows(c, TwoSpellings(a, b, fact), 2) == TwoSpellings(a, b, fact)
  {
    var rows := TwoSpellings(a, b, fact);
    TwoSpellingsSorted(c, a, b, fact);
    assert forall i | 0 <= i < 3 :: Usable(c, rows[i]) && rows[i].available <= 2;
    KeepAll(rows, (r: Row) => r.available <= 2 && r.fact in c.required);
    SortedIsFixed(rows, c.rowLe);
    KeepAll(rows, (r: Row) => Usable(c, r));
  }

  lemma {:induction false} KeepAll<T(!new)>(xs: seq<T>, p: T -> bool)
    requires forall x | x in xs :: p(x)
    ensures Filter(xs, p) == xs
  {
    if xs != [] {
      assert xs[0] in xs;
      KeepAll(xs[1..], p);
      assert xs == [xs[0]] + xs[1..];
    }
  }

  lemma TwoSpellingsCut(a: RawKey, b: RawKey, fact: string)
    ensures Filter(TwoSpellings(a, b, fact), RowsBy(1)) == [Fact(a, 1, fact), Fact(b, 1, fact)]
  {
    var rows := TwoSpellings(a, b, fact);
    assert rows == [rows[0]] + [rows[1]] + [rows[2]];
    FilterLast([rows[0]] + [rows[1]], rows[2], RowsBy(1));
    FilterLast([rows[0]], rows[1], RowsBy(1));
    FilterLast([], rows[0], RowsBy(1));
    assert [] + [rows[0]] == [rows[0]];
  }

  lemma EmittedOne(c: Setting, rows: seq<Row>, r: Row)
    ensures Emitted(c, rows + [r]) == Closed(c, rows, r) + [LastSnapshot(c, rows + [r])]
  {
    assert (rows + [r])[..|rows|] == rows;
  }

  lemma StartsRun(c: Setting, rows: seq<Row>, r: Row)
    requires !Continues(c, rows, r)
    ensures Emitted(c, rows + [r]) == Emitted(c, rows) + [LastSnapshot(c, rows + [r])]
  {
    EmittedOne(c, rows, r);
  }

  lemma ExtendsRun(c: Setting, rows: seq<Row>, r: Row, out: seq<Event>, e: Event)
    requires Continues(c, rows, r) && Emitted(c, rows) == out + [e]
    ensures Emitted(c, rows + [r]) == out + [LastSnapshot(c, rows + [r])]
  {
    EmittedOne(c, rows, r);
    assert (out + [e])[..|out|] == out;
  }

  /** Scanning both spellings gives three snapshots, two of them for time 1. */
  lemma TwoSpellingsEmitted(c: Setting, a: RawKey, b: RawKey, fact: string)
    requires Clean(c, a) == Clean(c, b)
    ensures |Filter(Emitted(c, TwoSpellings(a, b, fact)), EventsBy(1))| == 2
  {
    var x, y, z := Fact(a, 1, fact), Fact(a, 2, fact), Fact(b, 1, fact);
    EmittedOne(c, [], x);
    StartsRun(c, [x], y);
    StartsRun(c, [x, y], z);
    assert [] + [x] == [x] && [x] + [y] == [x, y] && [x, y] + [z] == [x, y, z];
    var e, f, g := LastSnapshot(c, [x]), LastSnapshot(c, [x, y]), LastSnapshot(c, [x, y, z]);
    FilterLast([e] + [f], g, EventsBy(1));
    FilterLast([e], f, EventsBy(1));
    FilterLast([], e, EventsBy(1));
    assert [] + [e] == [e];
  }

  /** Knowing only time 1 gives one snapshot. */
  lemma OneRunEmitted(c: Setting, a: RawKey, b: RawKey, fact: string)
    requires Clean(c, a) == Clean(c, b)
    ensures |Emitted(c, [Fact(a, 1, fact), Fact(b, 1, fact)])| == 1
  {
    var x, z := Fact(a, 1, fact), Fact(b, 1, fact);
    EmittedOne(c, [], x);
    EmittedOne(c, [x], z);
    assert [] + [x] == [x] && [x] + [z] == [x, z];
  }

  lemma UntidyBreaks(c: Setting, a: RawKey, b: RawKey, fact: string)
    requires Valid(c) && a != b && c.keyLe(a, b) && Clean(c, a) == Clean(c, b) && UsableKey(c, Clean(c, a)) &&
      fact in c.required
    ensures !Commutes(c, TwoSpellings(a, b, fact), [], 1, 2)
  {
    var facts := TwoSpellings(a, b, fact);
    TwoSpellingsUsable(c, a, b, fact);
    UsableRowsCut(c, facts, 1, 2);
    TwoSpellingsCut(a, b, fact);
    TwoSpellingsEmitted(c, a, b, fact);
    OneRunEmitted(c, a, b, fact);
    var late, early := Emitted(c, facts), Emitted(c, UsableRows(c, facts, 1));
    assert late + [] == late && early + [] == early;
    FilterSort(late, c.eventLe, EventsBy(1));
    SortByElements(Filter(late, EventsBy(1)), c.eventLe);
    SortByElements(early, c.eventLe);
  }

  /** Over given identifiers, cutting commutes with building for every table and every pair of times exactly when
      cleaning merges no two of them. */
  lemma CommutesExactly(c: Setting, ids: set<RawKey>)
    requires Valid(c) && c.required != {}
    ensures (forall facts, unresolved, t, T | Ids(facts) <= ids && t <= T :: Commutes(c, facts, unresolved, t, T)) <==>
      Tidy(c, ids)
  {
    if Tidy(c, ids) {
      forall facts, unresolved, t, T | Ids(facts) <= ids && t <= T ensures Commutes(c, facts, unresolved, t, T) {
        TidyCommutes(c, facts, unresolved, t, T);
      }
    } else {
      var a, b :| a in ids && b in ids && UsableKey(c, Clean(c, a)) && Clean(c, a) == Clean(c, b) && a != b;
      var fact :| fact in c.required;
      var x, y := if c.keyLe(a, b) then a else b, if c.keyLe(a, b) then b else a;
      assert c.keyLe(a, b) || c.keyLe(b, a);
      UntidyBreaks(c, x, y, fact);
      var facts := TwoSpellings(x, y, fact);
      assert Ids(facts) <= ids by {
        forall r | r in facts ensures Raw(r) in ids {
          assert Raw(r) == x || Raw(r) == y;
        }
      }
      assert !Commutes(c, facts, [], 1, 2);
    }
  }
}
