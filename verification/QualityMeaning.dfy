/** What the quality events say about the table they are built from. */
module QualityMeaning {
  import opened Sorting
  import opened FinancialQuality
  import opened QualityPointInTime
  import opened QualityEligibility

  /** A row of the table that counts for the key by `at`: known by then, in KRW with a readable amount, of a required
      fact, and with identifiers that clean to a nameable company and a readable period. */
  predicate Counts(c: Setting, r: Row, k: Key, at: int) {
    && r.available <= at && r.unit == "KRW" && r.amount.Some? && r.fact in c.required
    && c.strip(r.company) == k.company && c.strip(r.period) == k.period && r.consolidated == k.consolidated
    && k.company != "" && c.parses(k.period)
  }

  predicate CountsFor(c: Setting, r: Row, k: Key, at: int, f: string) {
    Counts(c, r, k, at) && c.strip(r.fact) == f
  }

  /** Some row of the table reports the fact for the key by `at`. */
  ghost predicate Reported(c: Setting, facts: seq<Row>, k: Key, at: int, f: string) {
    exists r :: r in facts && CountsFor(c, r, k, at, f)
  }

  /** Filing and publication of a fact are those of a row that reports it, and no row that does is available later. */
  ghost predicate Current(c: Setting, facts: seq<Row>, k: Key, at: int, f: string, entry: Entry) {
    exists r :: r in facts && CountsFor(c, r, k, at, f) && entry == Entry(r.filing, r.published)
      && forall s | s in facts && CountsFor(c, s, k, at, f) :: s.available <= r.available
  }

  // ----- rows of the scan and rows of the table -----

  lemma UsableIsCounting(c: Setting, facts: seq<Row>, t: int, k: Key, r: Row)
    requires Valid(c)
    ensures r in UsableRows(c, facts, t) && KeyOf(c, r) == k <==> r in facts && Counts(c, r, k, t)
  {
    UsableRowsSorted(c, facts, t);
  }

  // ----- the state of a key -----

  ghost predicate Has(c: Setting, rows: seq<Row>, k: Key, f: string) {
    exists r :: r in rows && KeyOf(c, r) == k && c.strip(r.fact) == f
  }

  lemma {:induction false} StateKeys(c: Setting, rows: seq<Row>, k: Key, f: string)
    ensures f in StateOf(c, rows, k) <==> Has(c, rows, k, f)
  {
    if rows != [] {
      var n := |rows| - 1;
      assert rows == rows[..n] + [rows[n]] && rows[n] in rows;
      StateKeys(c, rows[..n], k, f);
      StateLast(c, rows[..n], rows[n], k);
    }
  }

  predicate Reports(c: Setting, r: Row, k: Key, f: string) {
    KeyOf(c, r) == k && c.strip(r.fact) == f
  }

  /** The row reports the fact, and no row that does is available later. */
  ghost predicate ReportsLast(c: Setting, rows: seq<Row>, k: Key, f: string, r: Row) {
    r in rows && Reports(c, r, k, f) && forall s | s in rows && Reports(c, s, k, f) :: s.available <= r.available
  }

  lemma NewestReports(c: Setting, rows: seq<Row>, last: Row, k: Key, f: string)
    requires Orderly(c, rows + [last]) && Reports(c, last, k, f)
    ensures ReportsLast(c, rows + [last], k, f, last)
  {
    var all, n := rows + [last], |rows|;
    assert all[n] == last;
    forall s | s in all && Reports(c, s, k, f) ensures s.available <= last.available {
      var i :| 0 <= i < |all| && all[i] == s;
      assert i == n || all[i].available <= all[n].available;
    }
  }

  lemma OthersReport(c: Setting, rows: seq<Row>, last: Row, k: Key, f: string, r: Row)
    requires ReportsLast(c, rows, k, f, r) && !Reports(c, last, k, f)
    ensures ReportsLast(c, rows + [last], k, f, r)
  {
  }

  /** Over orderly rows the entry of a fact is that of the row available last. */
  lemma {:induction false} StateEntry(c: Setting, rows: seq<Row>, k: Key, f: string) returns (r: Row)
    requires Orderly(c, rows) && f in StateOf(c, rows, k)
    ensures ReportsLast(c, rows, k, f, r) && StateOf(c, rows, k)[f] == Entry(r.filing, r.published)
  {
    var n := |rows| - 1;
    var init, last := rows[..n], rows[n];
    assert rows == init + [last];
    StateLast(c, init, last, k);
    if Reports(c, last, k, f) {
      NewestReports(c, init, last, k, f);
      r := last;
    } else {
      OrderlyPrefix(c, rows, n);
      r := StateEntry(c, init, k, f);
      OthersReport(c, init, last, k, f, r);
    }
  }

  // ----- which events there are -----

  ghost predicate HasEvent(events: seq<Event>, k: Key, at: int) {
    exists e :: e in events && IsOf(e, k) && e.available == at
  }

  ghost predicate HasRow(c: Setting, rows: seq<Row>, k: Key, at: int) {
    exists r :: r in rows && KeyOf(c, r) == k && r.available == at
  }

  /** What a following row of the same key and time drops, it brings back. */
  lemma ClosedTimes(c: Setting, rows: seq<Row>, r: Row, k: Key, at: int)
    ensures HasEvent(Closed(c, rows, r), k, at) ==> HasEvent(Emitted(c, rows), k, at)
    ensures HasEvent(Emitted(c, rows), k, at) ==>
      HasEvent(Closed(c, rows, r), k, at) || (KeyOf(c, r) == k && r.available == at)
  {
    var out, closed := Emitted(c, rows), Closed(c, rows, r);
    if Continues(c, rows, r) {
      LastSnapshotSays(c, rows);
      assert out == closed + [LastSnapshot(c, rows)];
    }
    if HasEvent(out, k, at) {
      var e :| e in out && IsOf(e, k) && e.available == at;
      assert e in closed || e == LastSnapshot(c, rows);
    }
  }

  lemma {:induction false} EmittedTimes(c: Setting, rows: seq<Row>, k: Key, at: int)
    ensures HasEvent(Emitted(c, rows), k, at) <==> HasRow(c, rows, k, at)
  {
    if rows != [] {
      var n := |rows| - 1;
      EmittedTimes(c, rows[..n], k, at);
      LastTimes(c, rows[..n], rows[n], k, at);
      assert rows == rows[..n] + [rows[n]];
    }
  }

  lemma LastTimes(c: Setting, rows: seq<Row>, r: Row, k: Key, at: int)
    requires HasEvent(Emitted(c, rows), k, at) <==> HasRow(c, rows, k, at)
    ensures HasEvent(Emitted(c, rows + [r]), k, at) <==> HasRow(c, rows + [r], k, at)
  {
    ClosedTimes(c, rows, r, k, at);
    RowTimes(c, rows, r, k, at);
    EventTimes(c, rows, r, k, at);
  }

  lemma RowTimes(c: Setting, rows: seq<Row>, r: Row, k: Key, at: int)
    ensures HasRow(c, rows + [r], k, at) <==> HasRow(c, rows, k, at) || (KeyOf(c, r) == k && r.available == at)
  {
    if HasRow(c, rows, k, at) {
      var x :| x in rows && KeyOf(c, x) == k && x.available == at;
      assert x in rows + [r];
    }
    assert r in rows + [r];
  }

  lemma EventTimes(c: Setting, rows: seq<Row>, r: Row, k: Key, at: int)
    ensures HasEvent(Emitted(c, rows + [r]), k, at) <==>
      HasEvent(Closed(c, rows, r), k, at) || (KeyOf(c, r) == k && r.available == at)
  {
    EmittedOne(c, rows, r);
    LastSnapshotSays(c, rows + [r]);
    var closed, last := Closed(c, rows, r), LastSnapshot(c, rows + [r]);
    if HasEvent(closed, k, at) {
      var e :| e in closed && IsOf(e, k) && e.available == at;
      assert e in closed + [last];
    }
    assert last in closed + [last];
  }

  /** A key has an event at a time if and only if a row that counts for it becomes available then. */
  lemma EventsExactly(c: Setting, facts: seq<Row>, unresolved: seq<Unresolved>, t: int, k: Key, at: int)
    requires Valid(c)
    ensures HasEvent(Events(c, facts, unresolved, t), k, at) <==>
      exists r :: r in facts && Counts(c, r, k, t) && r.available == at
  {
    var rows := UsableRows(c, facts, t);
    EmittedTimes(c, rows, k, at);
    SortByElements(Emitted(c, rows) + UnresolvedEvents(c, unresolved, t), c.eventLe);
    if HasEvent(Events(c, facts, unresolved, t), k, at) {
      var e :| e in Events(c, facts, unresolved, t) && IsOf(e, k) && e.available == at;
      FromRows(c, facts, unresolved, t, e);
      var r :| r in rows && KeyOf(c, r) == k && r.available == at;
      UsableIsCounting(c, facts, t, k, r);
    }
    if r :| r in facts && Counts(c, r, k, t) && r.available == at {
      UsableIsCounting(c, facts, t, k, r);
      assert HasEvent(Emitted(c, rows), k, at);
      var e :| e in Emitted(c, rows) && IsOf(e, k) && e.available == at;
      assert e in Events(c, facts, unresolved, t);
    }
  }

  // ----- what they say -----

  /** The event describes exactly the facts reported by its time: what is missing, whose filings they are, and when
      the last of them was published. */
  ghost predicate Describes(c: Setting, facts: seq<Row>, k: Key, e: Event, state: map<string, Entry>) {
    && (forall f :: f in state <==> Reported(c, facts, k, e.available, f))
    && (forall f | f in state :: Current(c, facts, k, e.available, f, state[f]))
    && (forall f :: f in e.missing <==> f in c.required && !Reported(c, facts, k, e.available, f))
    && (e.complete <==> e.missing == {}) && (e.reason == "" <==> e.complete)
    && (forall x :: x in e.filings <==> exists f :: f in state && state[f].filing == x)
    && (exists f :: f in state && state[f].published == e.published)
    && (forall f | f in state :: state[f].published <= e.published)
  }

  lemma StateIsReported(c: Setting, facts: seq<Row>, at: int, k: Key, f: string)
    requires Valid(c) && Orderly(c, UsableRows(c, facts, at))
    ensures var state := StateOf(c, UsableRows(c, facts, at), k);
      && (f in state <==> Reported(c, facts, k, at, f))
      && (f in state ==> Current(c, facts, k, at, f, state[f]))
  {
    var rows := UsableRows(c, facts, at);
    forall r ensures r in rows && KeyOf(c, r) == k <==> r in facts && Counts(c, r, k, at) {
      UsableIsCounting(c, facts, at, k, r);
    }
    StateKeys(c, rows, k, f);
    if f in StateOf(c, rows, k) {
      var r := StateEntry(c, rows, k, f);
      assert CountsFor(c, r, k, at, f);
      forall s | s in facts && CountsFor(c, s, k, at, f) ensures s.available <= r.available {
        assert s in rows && Reports(c, s, k, f);
      }
    }
  }

  /** An event is the newest of its key when the future after it is cut off. */
  lemma NewestAtItsTime(c: Setting, facts: seq<Row>, unresolved: seq<Unresolved>, t: int, k: Key, e: Event)
    requires Valid(c) && Tidy(c, Ids(facts)) && e in Events(c, facts, unresolved, t) && IsOf(e, k)
    ensures IsNewest(Emitted(c, UsableRows(c, facts, e.available)), k, e)
  {
    var at := e.available;
    EventsExactly(c, facts, unresolved, t, k, at);
    TidyCommutes(c, facts, unresolved, at, t);
    FilterElements(Events(c, facts, unresolved, t), EventsBy(at));
    assert e in Events(c, facts, unresolved, at);
    FromRows(c, facts, unresolved, at, e);
    var rows := UsableRows(c, facts, at);
    UsableRowsSorted(c, facts, at);
    forall f | f in Emitted(c, rows) && IsOf(f, k) ensures f.available <= at {
      EmittedTimes(c, rows, k, f.available);
      assert HasEvent(Emitted(c, rows), k, f.available);
    }
  }

  lemma SnapshotDescribes(c: Setting, k: Key, at: int, state: map<string, Entry>)
    requires state != map[]
    ensures var e := Snapshot(c, k, at, state);
      && (e.complete <==> e.missing == {}) && (e.reason == "" <==> e.complete)
      && (forall x :: x in e.filings <==> exists f :: f in state && state[f].filing == x)
      && IsLatest(state, e.published)
  {
    SomeLatest(state, state.Keys);
    var f :| f in state.Keys && forall g | g in state.Keys :: state[g].published <= state[f].published;
    assert IsLatest(state, state[f].published);
    LatestIsUnique(state, at, state[f].published);
  }

  /** Every non-empty part of a state has a latest publication. */
  lemma {:induction false} SomeLatest(state: map<string, Entry>, part: set<string>)
    requires part != {} && part <= state.Keys
    ensures exists f :: f in part && forall g | g in part :: state[g].published <= state[f].published
    decreases |part|
  {
    var f :| f in part;
    if part == {f} {
      assert f in part && forall g | g in part :: state[g].published <= state[f].published;
    } else {
      SomeLatest(state, part - {f});
      var h :| h in part - {f} && forall g | g in part - {f} :: state[g].published <= state[h].published;
      var top := if state[f].published <= state[h].published then h else f;
      assert top in part && forall g | g in part :: g == f || g in part - {f};
    }
  }

  /** Over identifiers that cleaning does not merge, every event of a key describes the facts of the table reported for
      that key by the time of the event, and nothing else. */
  lemma EventMeans(c: Setting, facts: seq<Row>, unresolved: seq<Unresolved>, t: int, k: Key, e: Event)
    returns (state: map<string, Entry>)
    requires Valid(c) && Tidy(c, Ids(facts)) && e in Events(c, facts, unresolved, t) && IsOf(e, k)
    ensures Describes(c, facts, k, e, state)
  {
    var at := e.available;
    var rows := UsableRows(c, facts, at);
    state := StateOf(c, rows, k);
    TidyIsOrderly(c, facts, at);
    NewestAtItsTime(c, facts, unresolved, t, k, e);
    NewestSaysState(c, rows, k, e);
    forall f
      ensures f in state <==> Reported(c, facts, k, at, f)
      ensures f in state ==> Current(c, facts, k, at, f, state[f])
    {
      StateIsReported(c, facts, at, k, f);
    }
    SomethingReported(c, facts, unresolved, t, k, e);
    SnapshotDescribes(c, k, at, state);
  }

  lemma SomethingReported(c: Setting, facts: seq<Row>, unresolved: seq<Unresolved>, t: int, k: Key, e: Event)
    requires Valid(c) && e in Events(c, facts, unresolved, t) && IsOf(e, k)
    ensures exists f :: Reported(c, facts, k, e.available, f)
  {
    EventsExactly(c, facts, unresolved, t, k, e.available);
    assert HasEvent(Events(c, facts, unresolved, t), k, e.available);
    var r :| r in facts && Counts(c, r, k, t) && r.available == e.available;
    assert CountsFor(c, r, k, e.available, c.strip(r.fact));
    assert Reported(c, facts, k, e.available, c.strip(r.fact));
  }
}
