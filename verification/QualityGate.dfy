/** Which companies pass the quality gate, in terms of the table the events are built from. */
module QualityGate {
  import opened Sorting
  import opened FinancialQuality
  import opened QualityPointInTime
  import opened QualityEligibility
  import opened QualityMeaning

  /** Table, unresolved filings and time: what the gate decides from. */
  datatype Case = Case(c: Setting, p: Policy, facts: seq<Row>, unresolved: seq<Unresolved>, t: int)

  ghost function EventsOf(x: Case): seq<Event> {
    Events(x.c, x.facts, x.unresolved, x.t)
  }

  predicate IsAbout(u: Unresolved, company: string, period: string, t: int) {
    u.company == company && u.period == period && u.available <= t
  }

  ghost predicate CountedIn(x: Case, k: Key) {
    exists r :: r in x.facts && Counts(x.c, r, k, x.t)
  }

  ghost predicate UnresolvedIn(x: Case, company: string, period: string) {
    exists u :: u in x.unresolved && IsAbout(u, company, period, x.t)
  }

  /** Something is known of the company's period: a row that counts, or an unresolved filing. */
  ghost predicate Mentions(x: Case, company: string, period: string) {
    CountedIn(x, Key(company, period, true)) || CountedIn(x, Key(company, period, false)) ||
    UnresolvedIn(x, company, period)
  }

  /** The latest readable period of which something is known. */
  ghost predicate LatestFor(x: Case, company: string, period: string) {
    Mentions(x, company, period) && x.p.parses(period) &&
    forall other: string | Mentions(x, company, other) && x.p.parses(other) :: x.p.rank(other) <= x.p.rank(period)
  }

  /** Rows that count report every required fact of the key. */
  ghost predicate FullyReported(x: Case, k: Key) {
    CountedIn(x, k) && forall f | f in x.c.required :: Reported(x.c, x.facts, k, x.t, f)
  }

  /** Different readable periods have different ranks. */
  ghost predicate Ranks(p: Policy) {
    forall a: string, b: string | p.parses(a) && p.parses(b) && p.rank(a) == p.rank(b) :: a == b
  }

  // ----- events and the table -----

  lemma {:induction false} UnresolvedMembers(c: Setting, unresolved: seq<Unresolved>, t: int, e: Event)
    ensures e in UnresolvedEvents(c, unresolved, t) <==>
      exists u :: u in unresolved && u.available <= t && e == UnresolvedEvent(c, u)
  {
    if unresolved != [] {
      var u, rest := unresolved[0], unresolved[1..];
      UnresolvedMembers(c, rest, t, e);
      assert unresolved == [u] + rest;
    }
  }

  lemma EventMembers(x: Case, e: Event)
    ensures e in EventsOf(x) <==>
      e in Emitted(x.c, UsableRows(x.c, x.facts, x.t)) || e in UnresolvedEvents(x.c, x.unresolved, x.t)
  {
    SortByElements(Emitted(x.c, UsableRows(x.c, x.facts, x.t)) + UnresolvedEvents(x.c, x.unresolved, x.t), x.c.eventLe);
  }

  ghost predicate HasEventOf(x: Case, k: Key) {
    exists e :: e in EventsOf(x) && IsOf(e, k)
  }

  lemma KeyEvents(x: Case, k: Key)
    requires Valid(x.c)
    ensures HasEventOf(x, k) <==> CountedIn(x, k)
  {
    if HasEventOf(x, k) {
      var e :| e in EventsOf(x) && IsOf(e, k);
      EventsExactly(x.c, x.facts, x.unresolved, x.t, k, e.available);
      assert HasEvent(EventsOf(x), k, e.available);
    }
    if CountedIn(x, k) {
      var r :| r in x.facts && Counts(x.c, r, k, x.t);
      EventsExactly(x.c, x.facts, x.unresolved, x.t, k, r.available);
      assert HasEvent(EventsOf(x), k, r.available);
    }
  }

  /** Known in time, and of a key or unresolved. */
  lemma EventKinds(x: Case, e: Event)
    requires Valid(x.c) && e in EventsOf(x)
    ensures e.available <= x.t
    ensures e.basis == Unknown ==> !e.complete && UnresolvedIn(x, e.company, e.period)
    ensures e.basis != Unknown ==> IsOf(e, Key(e.company, e.period, e.basis == Consolidated))
  {
    EventMembers(x, e);
    UnresolvedMembers(x.c, x.unresolved, x.t, e);
    if e in Emitted(x.c, UsableRows(x.c, x.facts, x.t)) {
      var rows := UsableRows(x.c, x.facts, x.t);
      EventHasRow(x.c, rows, e);
      var m :| 0 <= m < |rows| && EventOf(x.c, rows, e, m);
      UsableRowsSorted(x.c, x.facts, x.t);
      assert rows[m] in rows;
    } else {
      var u :| u in x.unresolved && u.available <= x.t && e == UnresolvedEvent(x.c, u);
      assert IsAbout(u, e.company, e.period, x.t);
    }
  }

  /** Something is known of a period exactly when there is an event of it. */
  lemma PeriodEvents(x: Case, company: string, period: string)
    requires Valid(x.c)
    ensures (exists e :: e in EventsOf(x) && e.company == company && e.period == period) <==>
      Mentions(x, company, period)
  {
    KeyEvents(x, Key(company, period, true));
    KeyEvents(x, Key(company, period, false));
    if e :| e in EventsOf(x) && e.company == company && e.period == period {
      EventKinds(x, e);
      if e.basis != Unknown {
        assert HasEventOf(x, Key(company, period, e.basis == Consolidated));
      }
    }
    if UnresolvedIn(x, company, period) {
      var u :| u in x.unresolved && IsAbout(u, company, period, x.t);
      UnresolvedMembers(x.c, x.unresolved, x.t, UnresolvedEvent(x.c, u));
      EventMembers(x, UnresolvedEvent(x.c, u));
      assert UnresolvedEvent(x.c, u) in EventsOf(x);
    }
  }

  // ----- the newest event of a key -----

  ghost predicate NewestOf(x: Case, k: Key, e: Event) {
    e in EventsOf(x) && IsOf(e, k) && forall f | f in EventsOf(x) && IsOf(f, k) :: f.available <= e.available
  }

  /** What is reported by the time was reported by the newest event. */
  lemma ReportedByNewest(x: Case, k: Key, e: Event, f: string)
    requires Valid(x.c) && NewestOf(x, k, e)
    ensures Reported(x.c, x.facts, k, x.t, f) <==> Reported(x.c, x.facts, k, e.available, f)
  {
    EventKinds(x, e);
    if Reported(x.c, x.facts, k, x.t, f) {
      var r :| r in x.facts && CountsFor(x.c, r, k, x.t, f);
      EventsExactly(x.c, x.facts, x.unresolved, x.t, k, r.available);
      assert HasEvent(EventsOf(x), k, r.available);
      assert CountsFor(x.c, r, k, e.available, f);
    }
    if Reported(x.c, x.facts, k, e.available, f) {
      var r :| r in x.facts && CountsFor(x.c, r, k, e.available, f);
      assert CountsFor(x.c, r, k, x.t, f);
    }
  }

  /** The newest event of a key is complete exactly when every required fact is reported. */
  lemma NewestIsFull(x: Case, k: Key, e: Event)
    requires Valid(x.c) && Tidy(x.c, Ids(x.facts)) && NewestOf(x, k, e)
    ensures e.complete <==> FullyReported(x, k)
  {
    var state := EventMeans(x.c, x.facts, x.unresolved, x.t, k, e);
    KeyEvents(x, k);
    forall f | f in x.c.required ensures f in e.missing <==> !Reported(x.c, x.facts, k, x.t, f) {
      ReportedByNewest(x, k, e, f);
    }
    if !e.complete {
      var f :| f in e.missing;
      assert f in x.c.required;
    }
  }

  // ----- the gate -----

  ghost function RowsOf(x: Case, company: string): seq<Event> {
    Filter(EventsOf(x), About(x.p, company, x.t))
  }

  lemma RowMembers(x: Case, company: string, e: Event)
    requires Valid(x.c)
    ensures e in RowsOf(x, company) <==> e in EventsOf(x) && e.company == company && x.p.parses(e.period)
  {
    FilterElements(EventsOf(x), About(x.p, company, x.t));
    if e in EventsOf(x) {
      EventKinds(x, e);
    }
  }

  lemma {:induction false} SomeLatestRow(p: Policy, rows: seq<Event>) returns (i: nat)
    requires rows != []
    ensures i < |rows| && FirstLatest(p, rows, i)
  {
    var n := |rows| - 1;
    if n == 0 {
      i := 0;
    } else {
      i := SomeLatestRow(p, rows[..n]);
      assert forall j | 0 <= j < n :: rows[..n][j] == rows[j];
      if p.rank(rows[i].period) < p.rank(rows[n].period) {
        i := n;
      }
    }
  }

  lemma {:induction false} SomeNewestRow(rows: seq<Event>, period: string, basis: Basis) returns (i: nat)
    requires exists e :: e in rows && InPeriod(e, period, basis)
    ensures i < |rows| && FirstNewest(rows, period, basis, i)
  {
    var n := |rows| - 1;
    var init := rows[..n];
    assert rows == init + [rows[n]];
    if exists e :: e in init && InPeriod(e, period, basis) {
      i := SomeNewestRow(init, period, basis);
      assert forall j | 0 <= j < n :: init[j] == rows[j];
      if InPeriod(rows[n], period, basis) && rows[i].available < rows[n].available {
        i := n;
      }
    } else {
      i := n;
      forall j | 0 <= j < n ensures !InPeriod(rows[j], period, basis) {
        assert init[j] == rows[j] && init[j] in init;
      }
    }
  }

  function KeyFor(company: string, period: string, basis: Basis): Key {
    Key(company, period, basis == Consolidated)
  }

  /** The first newest row of a period and basis is the newest event of the key. */
  lemma NewestRow(x: Case, company: string, period: string, basis: Basis, j: nat)
    requires Valid(x.c) && basis != Unknown && x.p.parses(period)
    requires j < |RowsOf(x, company)| && FirstNewest(RowsOf(x, company), period, basis, j)
    ensures NewestOf(x, KeyFor(company, period, basis), RowsOf(x, company)[j])
  {
    var rows, k := RowsOf(x, company), KeyFor(company, period, basis);
    assert rows[j] in rows;
    RowMembers(x, company, rows[j]);
    forall f | f in EventsOf(x) && IsOf(f, k) ensures f.available <= rows[j].available {
      RowMembers(x, company, f);
      var m :| 0 <= m < |rows| && rows[m] == f;
      assert InPeriod(rows[m], period, basis);
    }
  }

  /** The company's latest period of which anything is known has every required fact reported on a preferred basis. */
  ghost predicate Passes(x: Case, company: string, period: string, basis: Basis) {
    LatestFor(x, company, period) && basis in x.p.preference && basis != Unknown &&
    FullyReported(x, KeyFor(company, period, basis))
  }

  lemma LatestRow(x: Case, company: string, i: nat)
    requires Valid(x.c) && i < |RowsOf(x, company)| && FirstLatest(x.p, RowsOf(x, company), i)
    ensures LatestFor(x, company, RowsOf(x, company)[i].period)
  {
    var rows := RowsOf(x, company);
    var period := rows[i].period;
    assert rows[i] in rows;
    RowMembers(x, company, rows[i]);
    PeriodEvents(x, company, period);
    forall other: string | Mentions(x, company, other) && x.p.parses(other) ensures x.p.rank(other) <= x.p.rank(period) {
      PeriodEvents(x, company, other);
      var e :| e in EventsOf(x) && e.company == company && e.period == other;
      RowMembers(x, company, e);
      var m :| 0 <= m < |rows| && rows[m] == e;
    }
  }

  lemma QualifiedPasses(x: Case, company: string) returns (period: string, basis: Basis)
    requires Valid(x.c) && Tidy(x.c, Ids(x.facts)) && Qualifies(x.p, RowsOf(x, company))
    ensures Passes(x, company, period, basis)
  {
    var rows := RowsOf(x, company);
    var i :| 0 <= i < |rows| && FirstLatest(x.p, rows, i) && QualifiesIn(x.p, rows, rows[i].period);
    period := rows[i].period;
    LatestRow(x, company, i);
    var j :| 0 <= j < |rows| && rows[j].basis in x.p.preference && FirstNewest(rows, period, rows[j].basis, j) &&
      rows[j].complete;
    basis := rows[j].basis;
    assert rows[j] in rows;
    RowMembers(x, company, rows[j]);
    EventKinds(x, rows[j]);
    NewestRow(x, company, period, basis, j);
    NewestIsFull(x, KeyFor(company, period, basis), rows[j]);
  }

  lemma PassingQualifies(x: Case, company: string, period: string, basis: Basis)
    requires Valid(x.c) && Tidy(x.c, Ids(x.facts)) && Ranks(x.p) && Passes(x, company, period, basis)
    ensures Qualifies(x.p, RowsOf(x, company))
  {
    var rows, k := RowsOf(x, company), KeyFor(company, period, basis);
    KeyEvents(x, k);
    var e :| e in EventsOf(x) && IsOf(e, k);
    RowMembers(x, company, e);
    assert InPeriod(e, period, basis);
    var j := SomeNewestRow(rows, period, basis);
    NewestRow(x, company, period, basis, j);
    NewestIsFull(x, k, rows[j]);
    var i := SomeLatestRow(x.p, rows);
    LatestRow(x, company, i);
    assert rows[i].period == period;
    assert rows[j].basis == basis && QualifiesIn(x.p, rows, period);
  }

  ghost predicate PassesSomehow(x: Case, company: string) {
    exists period, basis :: Passes(x, company, period, basis)
  }

  lemma QualifiesExactlyIf(x: Case, company: string)
    requires Valid(x.c) && Tidy(x.c, Ids(x.facts)) && Ranks(x.p)
    ensures Qualifies(x.p, RowsOf(x, company)) <==> PassesSomehow(x, company)
  {
    if Qualifies(x.p, RowsOf(x, company)) {
      var period, basis := QualifiedPasses(x, company);
    }
    if PassesSomehow(x, company) {
      var period, basis :| Passes(x, company, period, basis);
      PassingQualifies(x, company, period, basis);
    }
  }

  lemma EligibleQualifies(x: Case, companies: set<string>, company: string)
    ensures company in EligibleAt(x.p, EventsOf(x), x.t, companies) <==>
      company in companies && company != "" && Qualifies(x.p, RowsOf(x, company))
  {
  }

  /** Over identifiers that cleaning does not merge, a company is eligible if and only if it passes: in its latest
      readable period of which anything is known, rows of the table report every required fact on a preferred basis. */
  lemma EligibleExactly(x: Case, companies: set<string>, company: string)
    requires Valid(x.c) && Tidy(x.c, Ids(x.facts)) && Ranks(x.p)
    ensures company in EligibleAt(x.p, EventsOf(x), x.t, companies) <==>
      company in companies && company != "" && PassesSomehow(x, company)
  {
    EligibleQualifies(x, companies, company);
    QualifiesExactlyIf(x, company);
  }
}
