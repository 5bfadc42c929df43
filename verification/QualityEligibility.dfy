/** What the events say over time, and which companies are eligible by them. */
module QualityEligibility {
  import opened Sorting
  import opened FinancialQuality
  import opened QualityPointInTime

  // ----- the events of one key -----

  predicate IsOf(e: Event, k: Key) {
    e.company == k.company && e.period == k.period && e.basis == if k.consolidated then Consolidated else Separate
  }

  predicate Complete(c: Setting, rows: seq<Row>, k: Key) {
    c.required <= StateOf(c, rows, k).Keys
  }

  lemma StateGrows(c: Setting, rows: seq<Row>, r: Row, k: Key)
    ensures StateOf(c, rows, k).Keys <= StateOf(c, rows + [r], k).Keys
  {
    StateLast(c, rows, r, k);
  }

  /** A snapshot of key `k` at `at` that reflects `state`. */
  predicate Says(c: Setting, e: Event, k: Key, at: int, state: map<string, Entry>) {
    IsOf(e, k) && e.available == at && (e.complete <==> c.required <= state.Keys) &&
    e.missing == c.required - state.Keys
  }

  lemma DescribeSays(c: Setting, k: Key, at: int, state: map<string, Entry>, published: int)
    ensures Says(c, Describe(c, k, at, state, published), k, at, state)
  {
    var missing := c.required - state.Keys;
    if missing == {} {
      forall f | f in c.required ensures f in state.Keys {
        assert f !in missing;
      }
    }
  }

  lemma LastSnapshotSays(c: Setting, rows: seq<Row>)
    requires rows != []
    ensures var last := rows[|rows| - 1];
      Says(c, LastSnapshot(c, rows), KeyOf(c, last), last.available, StateOf(c, rows, KeyOf(c, last)))
  {
    var last := rows[|rows| - 1];
    var state := StateOf(c, rows, KeyOf(c, last));
    DescribeSays(c, KeyOf(c, last), last.available, state, LatestPublished(state, last.available));
  }

  ghost predicate EventOf(c: Setting, rows: seq<Row>, e: Event, m: int)
    requires 0 <= m < |rows|
  {
    IsOf(e, KeyOf(c, rows[m])) && e.available == rows[m].available &&
    (e.complete ==> Complete(c, rows, KeyOf(c, rows[m])))
  }

  /** Every snapshot belongs to some row, and says complete only when that row's key is. */
  lemma {:induction false} EventHasRow(c: Setting, rows: seq<Row>, e: Event)
    requires e in Emitted(c, rows)
    ensures exists m | 0 <= m < |rows| :: EventOf(c, rows, e, m)
  {
    if rows != [] {
      var n := |rows| - 1;
      var init, r := rows[..n], rows[n];
      assert rows == init + [r];
      LastSnapshotSays(c, rows);
      if e == LastSnapshot(c, rows) {
        assert EventOf(c, rows, e, n);
      } else {
        EventHasRow(c, init, e);
        var m :| 0 <= m < |init| && EventOf(c, init, e, m);
        StateGrows(c, init, r, KeyOf(c, rows[m]));
        assert EventOf(c, rows, e, m);
      }
    }
  }

  /** A row that starts a run is newer than every snapshot of its key before it. */
  lemma RunIsNewer(c: Setting, rows: seq<Row>, r: Row, e: Event)
    requires Orderly(c, rows + [r]) && !Continues(c, rows, r) && e in Emitted(c, rows) && IsOf(e, KeyOf(c, r))
    ensures e.available < r.available
  {
    EventHasRow(c, rows, e);
    var m :| 0 <= m < |rows| && EventOf(c, rows, e, m);
    RowIsNewer(c, rows, r, m);
  }

  lemma RowIsNewer(c: Setting, rows: seq<Row>, r: Row, m: nat)
    requires Orderly(c, rows + [r]) && !Continues(c, rows, r) && m < |rows| && KeyOf(c, rows[m]) == KeyOf(c, r)
    ensures rows[m].available < r.available
  {
    var all, n := rows + [r], |rows|;
    assert all[m] == rows[m] && all[n] == r && all[n - 1] == rows[n - 1];
    assert all[m].available <= all[n].available;
    if all[m].available == all[n].available {
      NoGap(c, all, m, n - 1);
    }
  }

  lemma OrderlyWithoutLast(c: Setting, rows: seq<Row>, r: Row)
    requires Orderly(c, rows + [r]) && rows != []
    ensures Orderly(c, rows[..|rows| - 1] + [rows[|rows| - 1]])
  {
    var n := |rows|;
    OrderlyPrefix(c, rows + [r], n);
    assert (rows + [r])[..n] == rows && rows == rows[..n - 1] + [rows[n - 1]];
  }

  /** Closed snapshots of a row's key are strictly older than the row. */
  lemma {:induction false} ClosedIsOlder(c: Setting, rows: seq<Row>, r: Row, e: Event)
    requires Orderly(c, rows + [r]) && e in Closed(c, rows, r) && IsOf(e, KeyOf(c, r))
    ensures e.available < r.available
    decreases |rows|
  {
    if Continues(c, rows, r) {
      var n := |rows| - 1;
      OrderlyWithoutLast(c, rows, r);
      DroppedLast(c, rows, r);
      ClosedIsOlder(c, rows[..n], rows[n], e);
    } else {
      RunIsNewer(c, rows, r, e);
    }
  }

  lemma DroppedLast(c: Setting, rows: seq<Row>, r: Row)
    requires Continues(c, rows, r)
    ensures Closed(c, rows, r) == Closed(c, rows[..|rows| - 1], rows[|rows| - 1])
  {
  }

  lemma LastAdvances(c: Setting, rows: seq<Row>, r: Row, e: Event)
    requires Orderly(c, rows + [r]) && e in Closed(c, rows, r) && IsOf(e, KeyOf(c, r))
    ensures e.available < r.available == LastSnapshot(c, rows + [r]).available
    ensures e.complete ==> LastSnapshot(c, rows + [r]).complete
  {
    LastSnapshotSays(c, rows + [r]);
    ClosedIsOlder(c, rows, r, e);
    EventHasRow(c, rows, e);
    var m :| 0 <= m < |rows| && EventOf(c, rows, e, m);
    StateGrows(c, rows, r, KeyOf(c, rows[m]));
  }

  /** Of two snapshots of one key the later in the list is strictly newer, and is complete if the earlier is. */
  lemma {:induction false} EmittedAdvances(c: Setting, rows: seq<Row>, i: nat, j: nat, k: Key)
    requires Orderly(c, rows) && i < j < |Emitted(c, rows)| && IsOf(Emitted(c, rows)[i], k) &&
      IsOf(Emitted(c, rows)[j], k)
    ensures Emitted(c, rows)[i].available < Emitted(c, rows)[j].available
    ensures Emitted(c, rows)[i].complete ==> Emitted(c, rows)[j].complete
    decreases |rows|
  {
    var n := |rows| - 1;
    var init, r := rows[..n], rows[n];
    assert rows == init + [r];
    OrderlyPrefix(c, rows, n);
    var out := Emitted(c, rows);
    if j == |out| - 1 {
      LastSnapshotSays(c, rows);
      assert out[i] in Closed(c, init, r);
      LastAdvances(c, init, r, out[i]);
    } else {
      EmittedAdvances(c, init, i, j, k);
    }
  }

  lemma EmittedNeverReverts(c: Setting, rows: seq<Row>, e: Event, f: Event, k: Key)
    requires Orderly(c, rows) && e in Emitted(c, rows) && f in Emitted(c, rows)
    requires IsOf(e, k) && IsOf(f, k) && e.available <= f.available && e.complete
    ensures f.complete
  {
    var out := Emitted(c, rows);
    var i :| 0 <= i < |out| && out[i] == e;
    var j :| 0 <= j < |out| && out[j] == f;
    if i < j {
      EmittedAdvances(c, rows, i, j, k);
    } else if j < i {
      EmittedAdvances(c, rows, j, i, k);
    }
  }

  /** Completeness of one company, period and basis never reverts as time advances. */
  lemma TidyNeverReverts(c: Setting, facts: seq<Row>, unresolved: seq<Unresolved>, t: int, e: Event, f: Event, k: Key)
    requires Valid(c) && Tidy(c, Ids(facts)) && e in Events(c, facts, unresolved, t) &&
      f in Events(c, facts, unresolved, t)
    requires IsOf(e, k) && IsOf(f, k) && e.available <= f.available && e.complete
    ensures f.complete
  {
    TidyIsOrderly(c, facts, t);
    FromRows(c, facts, unresolved, t, e);
    FromRows(c, facts, unresolved, t, f);
    EmittedNeverReverts(c, UsableRows(c, facts, t), e, f, k);
  }

  lemma {:induction false} UnresolvedAreUnknown(c: Setting, unresolved: seq<Unresolved>, t: int, e: Event)
    requires e in UnresolvedEvents(c, unresolved, t)
    ensures e.basis == Unknown && !e.complete
  {
    if e !in UnresolvedEvents(c, unresolved[1..], t) {
      assert e == UnresolvedEvent(c, unresolved[0]);
    } else {
      UnresolvedAreUnknown(c, unresolved[1..], t, e);
    }
  }

  lemma FromRows(c: Setting, facts: seq<Row>, unresolved: seq<Unresolved>, t: int, e: Event)
    requires e in Events(c, facts, unresolved, t)
    ensures e.basis != Unknown ==> e in Emitted(c, UsableRows(c, facts, t))
  {
    SortByElements(Emitted(c, UsableRows(c, facts, t)) + UnresolvedEvents(c, unresolved, t), c.eventLe);
    if e in UnresolvedEvents(c, unresolved, t) {
      UnresolvedAreUnknown(c, unresolved, t, e);
    }
  }

  ghost predicate IsNewest(events: seq<Event>, k: Key, e: Event) {
    e in events && IsOf(e, k) && forall f | f in events && IsOf(f, k) :: f.available <= e.available
  }

  /** The newest snapshot of a key names exactly the required facts not yet reported. */
  lemma {:induction false} NewestSaysState(c: Setting, rows: seq<Row>, k: Key, e: Event)
    requires Orderly(c, rows) && IsNewest(Emitted(c, rows), k, e)
    ensures e.missing == c.required - StateOf(c, rows, k).Keys && (e.complete <==> Complete(c, rows, k))
    ensures e == Snapshot(c, k, e.available, StateOf(c, rows, k))
    decreases |rows|
  {
    var n := |rows| - 1;
    var init, r := rows[..n], rows[n];
    assert rows == init + [r];
    OrderlyPrefix(c, rows, n);
    LastSnapshotSays(c, rows);
    var last := LastSnapshot(c, rows);
    assert last in Emitted(c, rows);
    if IsOf(last, k) {
      if e in Closed(c, init, r) {
        ClosedIsOlder(c, init, r, e);
      }
    } else {
      assert e in Closed(c, init, r);
      StateLast(c, init, r, k);
      OtherKeysStay(c, init, r, k);
      NewestSaysState(c, init, k, e);
    }
  }

  /** What a following row closes is no snapshot of another key. */
  lemma OtherKeysStay(c: Setting, rows: seq<Row>, r: Row, k: Key)
    requires KeyOf(c, r) != k
    ensures forall f | f in Emitted(c, rows) && IsOf(f, k) :: f in Closed(c, rows, r)
    ensures forall f | f in Closed(c, rows, r) :: f in Emitted(c, rows)
  {
    if Continues(c, rows, r) {
      LastSnapshotSays(c, rows);
      var out := Emitted(c, rows);
      assert out == out[..|out| - 1] + [LastSnapshot(c, rows)];
    }
  }

  // ----- eligibility -----

  /** Which periods can be read, how recent they are, and which accounting bases count. */
  datatype Policy = Policy(parses: string -> bool, rank: string -> int, preference: seq<Basis>)

  /** The events about one company known at `t`. */
  function About(p: Policy, company: string, t: int): Event -> bool {
    (e: Event) => e.company == company && e.available <= t && p.parses(e.period)
  }

  predicate FirstLatest(p: Policy, rows: seq<Event>, i: int)
    requires 0 <= i < |rows|
  {
    (forall j | 0 <= j < |rows| :: p.rank(rows[j].period) <= p.rank(rows[i].period)) && forall j | 0 <= j < i ::
      p.rank(rows[j].period) < p.rank(rows[i].period)
  }

  predicate InPeriod(e: Event, period: string, basis: Basis) {
    e.period == period && e.basis == basis
  }

  /** The newest row of a period and basis, the first of several equally new ones. */
  predicate FirstNewest(rows: seq<Event>, period: string, basis: Basis, i: int)
    requires 0 <= i < |rows|
  {
    && InPeriod(rows[i], period, basis)
    && (forall j | 0 <= j < |rows| && InPeriod(rows[j], period, basis) :: rows[j].available <= rows[i].available)
    && (forall j | 0 <= j < i && InPeriod(rows[j], period, basis) :: rows[j].available < rows[i].available)
  }

  /** The latest period's newest event of some preferred basis is complete. */
  ghost predicate Qualifies(p: Policy, rows: seq<Event>) {
    exists i | 0 <= i < |rows| :: FirstLatest(p, rows, i) && QualifiesIn(p, rows, rows[i].period)
  }

  ghost predicate QualifiesIn(p: Policy, rows: seq<Event>, period: string) {
    exists j | 0 <= j < |rows| ::
      rows[j].basis in p.preference && FirstNewest(rows, period, rows[j].basis, j) && rows[j].complete
  }

  ghost function EligibleAt(p: Policy, events: seq<Event>, t: int, companies: set<string>): set<string> {
    set company | company in companies && company != "" && Qualifies(p, Filter(events, About(p, company, t)))
  }

  method LatestPeriod(p: Policy, rows: seq<Event>) returns (i: nat)
    requires rows != []
    ensures i < |rows| && FirstLatest(p, rows, i)
  {
    i := 0;
    for n := 1 to |rows|
      invariant i < n && FirstLatest(p, rows[..n], i)
    {
      if p.rank(rows[n].period) > p.rank(rows[i].period) {
        i := n;
      }
      assert forall j | 0 <= j < n :: rows[..n][j] == rows[j];
    }
    assert rows[..|rows|] == rows;
  }

  ghost predicate NewestByBasis(rows: seq<Event>, period: string, newest: map<Basis, Event>) {
    && (forall basis | basis in newest :: HasNewest(rows, period, basis, newest[basis]))
    && (forall j | 0 <= j < |rows| && rows[j].period == period :: rows[j].basis in newest)
  }

  lemma KeepNewest(rows: seq<Event>, e: Event, period: string, basis: Basis, j: nat)
    requires j < |rows| && FirstNewest(rows, period, basis, j) &&
      (InPeriod(e, period, basis) ==> e.available <= rows[j].available)
    ensures FirstNewest(rows + [e], period, basis, j)
  {
  }

  lemma TakeNewest(rows: seq<Event>, e: Event, period: string, basis: Basis)
    requires InPeriod(e, period, basis) && forall j | 0 <= j < |rows| && InPeriod(rows[j], period, basis) ::
      rows[j].available < e.available
    ensures FirstNewest(rows + [e], period, basis, |rows|)
  {
  }

  /** `e` is the newest row of its basis so far. */
  predicate Replaces(e: Event, period: string, newest: map<Basis, Event>) {
    e.period == period && (e.basis !in newest || newest[e.basis].available < e.available)
  }

  ghost predicate HasNewest(rows: seq<Event>, period: string, basis: Basis, e: Event) {
    exists j | 0 <= j < |rows| :: FirstNewest(rows, period, basis, j) && rows[j] == e
  }

  lemma NewestReplaced(rows: seq<Event>, e: Event, period: string, newest: map<Basis, Event>)
    requires NewestByBasis(rows, period, newest) && Replaces(e, period, newest)
    ensures HasNewest(rows + [e], period, e.basis, e)
  {
    if e.basis in newest {
      assert HasNewest(rows, period, e.basis, newest[e.basis]);
    }
    TakeNewest(rows, e, period, e.basis);
    assert (rows + [e])[|rows|] == e;
  }

  lemma NewestKept(rows: seq<Event>, e: Event, period: string, newest: map<Basis, Event>, basis: Basis)
    requires NewestByBasis(rows, period, newest) && basis in newest &&
      !(basis == e.basis && Replaces(e, period, newest))
    ensures HasNewest(rows + [e], period, basis, newest[basis])
  {
    assert HasNewest(rows, period, basis, newest[basis]);
    var j :| 0 <= j < |rows| && FirstNewest(rows, period, basis, j) && rows[j] == newest[basis];
    KeepNewest(rows, e, period, basis, j);
    assert (rows + [e])[j] == rows[j];
  }

  lemma NewestStep(rows: seq<Event>, e: Event, period: string, newest: map<Basis, Event>)
    requires NewestByBasis(rows, period, newest)
    ensures NewestByBasis(rows + [e], period, if Replaces(e, period, newest) then newest[e.basis := e] else newest)
  {
    var more, next := rows + [e], if Replaces(e, period, newest) then newest[e.basis := e] else newest;
    forall basis | basis in next ensures HasNewest(more, period, basis, next[basis]) {
      if basis == e.basis && Replaces(e, period, newest) {
        NewestReplaced(rows, e, period, newest);
      } else {
        NewestKept(rows, e, period, newest, basis);
      }
    }
    forall j | 0 <= j < |more| && more[j].period == period ensures more[j].basis in next {
      assert j < |rows| ==> more[j] == rows[j];
    }
  }

  method LatestByBasis(rows: seq<Event>, period: string) returns (newest: map<Basis, Event>)
    ensures NewestByBasis(rows, period, newest)
  {
    newest := map[];
    for n := 0 to |rows|
      invariant NewestByBasis(rows[..n], period, newest)
    {
      NewestStep(rows[..n], rows[n], period, newest);
      assert rows[..n + 1] == rows[..n] + [rows[n]];
      if Replaces(rows[n], period, newest) {
        newest := newest[rows[n].basis := rows[n]];
      }
    }
    assert rows[..|rows|] == rows;
  }

  predicate SomePreferred(p: Policy, newest: map<Basis, Event>) {
    exists basis | basis in p.preference :: basis in newest && newest[basis].complete
  }

  lemma QualifiesInExactly(p: Policy, rows: seq<Event>, period: string, newest: map<Basis, Event>)
    requires NewestByBasis(rows, period, newest)
    ensures QualifiesIn(p, rows, period) <==> SomePreferred(p, newest)
  {
    if QualifiesIn(p, rows, period) {
      var j :| 0 <= j < |rows| && rows[j].basis in p.preference && FirstNewest(rows, period, rows[j].basis, j) &&
        rows[j].complete;
      var basis := rows[j].basis;
      assert HasNewest(rows, period, basis, newest[basis]);
      var m :| 0 <= m < |rows| && FirstNewest(rows, period, basis, m) && rows[m] == newest[basis];
      assert m == j;
    }
    if SomePreferred(p, newest) {
      var basis :| basis in p.preference && basis in newest && newest[basis].complete;
      assert HasNewest(rows, period, basis, newest[basis]);
    }
  }

  lemma QualifiesExactly(p: Policy, rows: seq<Event>, i: nat)
    requires i < |rows| && FirstLatest(p, rows, i)
    ensures Qualifies(p, rows) <==> QualifiesIn(p, rows, rows[i].period)
  {
    if Qualifies(p, rows) {
      var h :| 0 <= h < |rows| && FirstLatest(p, rows, h) && QualifiesIn(p, rows, rows[h].period);
      assert h == i;
    }
  }

  method CheckCompany(p: Policy, rows: seq<Event>) returns (ok: bool)
    ensures ok <==> Qualifies(p, rows)
  {
    if rows == [] {
      return false;
    }
    var i := LatestPeriod(p, rows);
    var newest := LatestByBasis(rows, rows[i].period);
    QualifiesExactly(p, rows, i);
    QualifiesInExactly(p, rows, rows[i].period, newest);
    ok := SomePreferred(p, newest);
  }

  /** The eligible companies: those whose latest readable period is complete on a preferred basis. */
  method Eligible(p: Policy, events: seq<Event>, t: int, companies: set<string>) returns (eligible: set<string>)
    ensures eligible == EligibleAt(p, events, t, companies)
  {
    eligible := {};
    var rest := companies;
    while rest != {}
      invariant rest <= companies
      invariant eligible == EligibleAt(p, events, t, companies - rest)
      decreases |rest|
    {
      var company :| company in rest;
      var ok := CheckCompany(p, Filter(events, About(p, company, t)));
      if company != "" && ok {
        eligible := eligible + {company};
      }
      rest := rest - {company};
    }
    assert companies - rest == companies;
  }

  /** Eligibility at `t` is the same from the events built at `t` and from those built at any later time. */
  lemma TidyEligibility(c: Setting, p: Policy, facts: seq<Row>, unresolved: seq<Unresolved>, t: int, T: int,
      companies: set<string>)
    requires Valid(c) && Tidy(c, Ids(facts)) && t <= T
    ensures EligibleAt(p, Events(c, facts, unresolved, T), t, companies) == EligibleAt(p,
      Events(c, facts, unresolved, t), t, companies)
  {
    TidyCommutes(c, facts, unresolved, t, T);
    forall company | company in companies
      ensures Filter(Events(c, facts, unresolved, T), About(p, company, t)) == Filter(Events(c, facts, unresolved, t),
        About(p, company, t))
    {
      FilterFilter(Events(c, facts, unresolved, T), EventsBy(t), About(p, company, t), About(p, company, t));
    }
  }
}
