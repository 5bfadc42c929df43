/** Exactly when completeness never reverts, newest events are current and eligibility does not look ahead. */
module QualityExactness {
  import opened Sorting
  import opened NameOrder
  import opened FinancialQuality
  import opened QualityPointInTime
  import opened QualityEligibility

  // ----- the properties of one table -----

  /** Every later event of a company, period and basis is complete once an earlier one is. */
  ghost predicate NeverReverts(c: Setting, facts: seq<Row>, unresolved: seq<Unresolved>, t: int) {
    var events := Events(c, facts, unresolved, t);
    forall e, f, k | e in events && f in events && IsOf(e, k) && IsOf(f, k) && e.available <= f.available && e.complete ::
      f.complete
  }

  /** The newest event of a key names exactly the required facts not yet reported. */
  ghost predicate NewestIsCurrent(c: Setting, facts: seq<Row>, t: int) {
    var rows := UsableRows(c, facts, t);
    forall k, e | IsNewest(Emitted(c, rows), k, e) :: e.missing == c.required - StateOf(c, rows, k).Keys
  }

  /** Eligibility at `t` is the same from events built at `t` and at `T`. */
  ghost predicate SameEligible(c: Setting, p: Policy, facts: seq<Row>, unresolved: seq<Unresolved>, t: int, T: int,
      companies: set<string>) {
    EligibleAt(p, Events(c, facts, unresolved, T), t, companies) == EligibleAt(p, Events(c, facts, unresolved, t), t,
      companies)
  }

  /** Required facts are spelled cleanly. */
  ghost predicate CleanFacts(c: Setting) {
    forall f | f in c.required :: c.strip(f) == f
  }

  // ----- a single required fact -----

  lemma OneFact(required: set<string>, f: string)
    requires |required| <= 1 && f in required
    ensures required == {f}
  {
    assert |required - {f}| == 0;
  }

  lemma OneFactLast(c: Setting, rows: seq<Row>)
    requires CleanFacts(c) && |c.required| <= 1 && rows != [] && rows[|rows| - 1].fact in c.required
    ensures LastSnapshot(c, rows).complete && LastSnapshot(c, rows).missing == {}
  {
    var n := |rows| - 1;
    assert rows == rows[..n] + [rows[n]];
    LastSnapshotSays(c, rows);
    StateLast(c, rows[..n], rows[n], KeyOf(c, rows[n]));
    OneFact(c.required, rows[n].fact);
  }

  lemma EarlierSnapshot(c: Setting, rows: seq<Row>, e: Event)
    requires e in Emitted(c, rows) && e != LastSnapshot(c, rows)
    ensures e in Emitted(c, rows[..|rows| - 1])
  {
  }

  /** With one required fact every snapshot is complete. */
  lemma {:induction false} OneFactCompletes(c: Setting, rows: seq<Row>, e: Event)
    requires CleanFacts(c) && |c.required| <= 1 && (forall r | r in rows :: r.fact in c.required) &&
      e in Emitted(c, rows)
    ensures e.complete && e.missing == {}
  {
    var n := |rows| - 1;
    assert rows[n] in rows;
    if e == LastSnapshot(c, rows) {
      OneFactLast(c, rows);
    } else {
      EarlierSnapshot(c, rows, e);
      OneFactCompletes(c, rows[..n], e);
    }
  }

  lemma OneFactIsFine(c: Setting, facts: seq<Row>, unresolved: seq<Unresolved>, t: int)
    requires Valid(c) && CleanFacts(c) && |c.required| <= 1
    ensures NeverReverts(c, facts, unresolved, t) && NewestIsCurrent(c, facts, t)
  {
    var rows := UsableRows(c, facts, t);
    UsableRowsSorted(c, facts, t);
    forall f, k | f in Events(c, facts, unresolved, t) && IsOf(f, k) ensures f.complete {
      FromRows(c, facts, unresolved, t, f);
      OneFactCompletes(c, rows, f);
    }
    forall k, e | IsNewest(Emitted(c, rows), k, e) ensures e.missing == c.required - StateOf(c, rows, k).Keys {
      OneFactCompletes(c, rows, e);
      EventHasRow(c, rows, e);
      var m :| 0 <= m < |rows| && EventOf(c, rows, e, m);
      assert KeyOf(c, rows[m]) == k;
    }
  }

  // ----- tidy identifiers -----

  lemma TidyIsFine(c: Setting, facts: seq<Row>, unresolved: seq<Unresolved>, t: int)
    requires Valid(c) && Tidy(c, Ids(facts))
    ensures NeverReverts(c, facts, unresolved, t) && NewestIsCurrent(c, facts, t)
  {
    var events, rows := Events(c, facts, unresolved, t), UsableRows(c, facts, t);
    forall e, f, k | e in events && f in events && IsOf(e, k) && IsOf(f, k) && e.available <= f.available && e.complete
      ensures f.complete
    {
      TidyNeverReverts(c, facts, unresolved, t, e, f, k);
    }
    TidyIsOrderly(c, facts, t);
    forall k, e | IsNewest(Emitted(c, rows), k, e) ensures e.missing == c.required - StateOf(c, rows, k).Keys {
      NewestSaysState(c, rows, k, e);
    }
  }

  lemma TidySubset(c: Setting, ids: set<RawKey>, some: set<RawKey>)
    requires Tidy(c, ids) && some <= ids
    ensures Tidy(c, some)
  {
  }

  // ----- two spellings -----

  function OnTime(b: RawKey, facts: seq<string>): (rows: seq<Row>)
    ensures |rows| == |facts| && forall i | 0 <= i < |rows| :: rows[i] == Fact(b, 1, facts[i])
  {
    seq(|facts|, i requires 0 <= i < |facts| => Fact(b, 1, facts[i]))
  }

  /** One spelling reports fact `g` at time 2, the other all other facts at time 1. */
  function LateFact(a: RawKey, b: RawKey, g: string, others: seq<string>): seq<Row> {
    [Fact(a, 2, g)] + OnTime(b, others)
  }

  /** Two spellings of one usable identifier, the first sorted first, and at least two required facts. */
  ghost predicate Spellings(c: Setting, a: RawKey, b: RawKey, g: string, others: seq<string>) {
    && Valid(c) && CleanFacts(c) && a != b && c.keyLe(a, b) && Clean(c, a) == Clean(c, b) && UsableKey(c, Clean(c, a))
    && g in c.required && others != [] && forall f :: f in others <==> f in c.required && f != g
  }

  ghost predicate Reports(rows: seq<Row>, b: RawKey, others: seq<string>) {
    && rows != []
    && (forall r | r in rows :: exists f :: f in others && r == Fact(b, 1, f))
    && (forall f | f in others :: Fact(b, 1, f) in rows)
  }

  /** The rows as scanned: the late row first, then the others in some order. */
  lemma LateFactScanned(c: Setting, a: RawKey, b: RawKey, g: string, others: seq<string>) returns (ys: seq<Row>)
    requires Spellings(c, a, b, g, others)
    ensures UsableRows(c, LateFact(a, b, g, others), 2) == [Fact(a, 2, g)] + ys && Reports(ys, b, others)
  {
    var x, rest := Fact(a, 2, g), OnTime(b, others);
    var table := LateFact(a, b, g, others);
    ys := SortBy(rest, c.rowLe);
    SortByElements(rest, c.rowLe);
    OnTimeReports(b, others);
    forall y | y in ys ensures c.rowLe(x, y) {
      var f :| f in others && y == Fact(b, 1, f);
      assert Raw(x) == a && Raw(y) == b;
    }
    KeepAll(table, (r: Row) => r.available <= 2 && r.fact in c.required);
    assert table[1..] == rest;
    assert SortBy(table, c.rowLe) == [x] + ys;
    forall r | r in [x] + ys ensures Usable(c, r) {
      assert Raw(r) == a || Raw(r) == b;
    }
    KeepAll([x] + ys, (r: Row) => Usable(c, r));
  }

  lemma OnTimeReports(b: RawKey, others: seq<string>)
    requires others != []
    ensures Reports(OnTime(b, others), b, others)
  {
    var rows := OnTime(b, others);
    forall r | r in rows ensures exists f :: f in others && r == Fact(b, 1, f) {
      var i :| 0 <= i < |rows| && rows[i] == r;
      assert others[i] in others;
    }
    forall f | f in others ensures Fact(b, 1, f) in rows {
      var i :| 0 <= i < |others| && others[i] == f;
      assert rows[i] == Fact(b, 1, f);
    }
  }

  ghost predicate AllOf(c: Setting, rows: seq<Row>, k: Key, at: int) {
    forall r | r in rows :: KeyOf(c, r) == k && r.available == at
  }

  /** A run of rows of one key and time adds one snapshot. */
  lemma {:induction false} RunAddsOne(c: Setting, rows: seq<Row>, ys: seq<Row>, k: Key, at: int)
    requires ys != [] && AllOf(c, ys, k, at) && (rows != [] ==> rows[|rows| - 1].available != at)
    ensures Emitted(c, rows + ys) == Emitted(c, rows) + [LastSnapshot(c, rows + ys)]
    decreases |ys|
  {
    var n := |ys| - 1;
    var init, y := ys[..n], ys[n];
    assert y in ys;
    assert rows + ys == (rows + init) + [y];
    if init == [] {
      assert rows + init == rows;
      StartsRun(c, rows, y);
    } else {
      RunAddsOne(c, rows, init, k, at);
      assert (rows + init)[|rows + init| - 1] == init[n - 1] && init[n - 1] in ys;
      ExtendsRun(c, rows + init, y, Emitted(c, rows), LastSnapshot(c, rows + init));
    }
  }

  /** The state after rows of one key holds exactly the facts they report. */
  lemma {:induction false} StateHolds(c: Setting, rows: seq<Row>, k: Key, f: string)
    requires forall r | r in rows :: KeyOf(c, r) == k && c.strip(r.fact) == r.fact
    ensures f in StateOf(c, rows, k).Keys <==> exists r :: r in rows && r.fact == f
  {
    if rows != [] {
      var n := |rows| - 1;
      assert rows == rows[..n] + [rows[n]] && rows[n] in rows;
      StateHolds(c, rows[..n], k, f);
      StateLast(c, rows[..n], rows[n], k);
    }
  }

  /** What the two snapshots of the table say: incomplete at time 2, complete at time 1. */
  ghost predicate Reverting(c: Setting, k: Key, late: Event, early: Event) {
    && IsOf(late, k) && late.available == 2 && !late.complete && late.missing != {}
    && IsOf(early, k) && early.available == 1 && early.complete
  }

  lemma LateFactEmits(c: Setting, a: RawKey, b: RawKey, g: string, others: seq<string>) returns (late: Event,
      early: Event)
    requires Spellings(c, a, b, g, others)
    ensures Emitted(c, UsableRows(c, LateFact(a, b, g, others), 2)) == [late, early] &&
      Reverting(c, Clean(c, a), late, early)
    ensures Complete(c, UsableRows(c, LateFact(a, b, g, others), 2), Clean(c, a))
  {
    var k, x := Clean(c, a), Fact(a, 2, g);
    var ys := LateFactScanned(c, a, b, g, others);
    var rows := [x] + ys;
    late, early := LastSnapshot(c, [x]), LastSnapshot(c, rows);
    EmittedOne(c, [], x);
    assert [] + [x] == [x];
    ReportsClean(c, ys, a, b, g, others);
    RunAddsOne(c, [x], ys, k, 1);
    LastSnapshotSays(c, [x]);
    LastSnapshotSays(c, rows);
    assert rows[|rows| - 1] in ys;
    OnlyLateFact(c, k, x, g, others);
    AllReported(c, k, rows, ys, b, g, others);
  }

  lemma ReportsClean(c: Setting, ys: seq<Row>, a: RawKey, b: RawKey, g: string, others: seq<string>)
    requires Spellings(c, a, b, g, others) && Reports(ys, b, others)
    ensures AllOf(c, ys, Clean(c, a), 1) && KeyOf(c, Fact(a, 2, g)) == Clean(c, a)
    ensures forall r | r in [Fact(a, 2, g)] + ys :: KeyOf(c, r) == Clean(c, a) && c.strip(r.fact) == r.fact
  {
    forall r | r in ys ensures KeyOf(c, r) == Clean(c, a) && r.available == 1 && c.strip(r.fact) == r.fact {
      var f :| f in others && r == Fact(b, 1, f);
      assert Raw(r) == b;
    }
    assert Raw(Fact(a, 2, g)) == a;
  }

  lemma OnlyLateFact(c: Setting, k: Key, x: Row, g: string, others: seq<string>)
    requires KeyOf(c, x) == k && x.fact == g && c.strip(g) == g && others != [] && forall f | f in others ::
      f in c.required && f != g
    ensures !Complete(c, [x], k) && c.required - StateOf(c, [x], k).Keys != {}
  {
    var f := others[0];
    assert f in others;
    StateHolds(c, [x], k, f);
    assert f in c.required - StateOf(c, [x], k).Keys;
  }

  lemma AllReported(c: Setting, k: Key, rows: seq<Row>, ys: seq<Row>, b: RawKey, g: string, others: seq<string>)
    requires rows != [] && rows[0].fact == g && rows[1..] == ys && Reports(ys, b, others)
    requires forall r | r in rows :: KeyOf(c, r) == k && c.strip(r.fact) == r.fact
    requires forall f :: f in others <==> f in c.required && f != g
    ensures Complete(c, rows, k)
  {
    forall f | f in c.required ensures f in StateOf(c, rows, k).Keys {
      StateHolds(c, rows, k, f);
      if f == g {
        assert rows[0] in rows;
      } else {
        assert Fact(b, 1, f) in ys;
        assert Fact(b, 1, f) in rows;
      }
    }
  }

  /** On that table completeness reverts, and the newest event is not current. */
  lemma SpellingsRevert(c: Setting, a: RawKey, b: RawKey, g: string, others: seq<string>)
    requires Spellings(c, a, b, g, others)
    ensures !NeverReverts(c, LateFact(a, b, g, others), [], 2) && !NewestIsCurrent(c, LateFact(a, b, g, others), 2)
  {
    var facts, k := LateFact(a, b, g, others), Clean(c, a);
    var rows := UsableRows(c, facts, 2);
    var late, early := LateFactEmits(c, a, b, g, others);
    assert [late, early] + [] == [late, early];
    SortByElements([late, early], c.eventLe);
    assert late in Events(c, facts, [], 2) && early in Events(c, facts, [], 2);
    assert IsNewest(Emitted(c, rows), k, late);
    NothingMissing(c, rows, k);
  }

  lemma NothingMissing(c: Setting, rows: seq<Row>, k: Key)
    requires Complete(c, rows, k)
    ensures c.required - StateOf(c, rows, k).Keys == {}
  {
  }

  // ----- looking ahead -----

  /** The policy reads every period the builder reads, and prefers both bases. */
  ghost predicate Prefers(c: Setting, p: Policy) {
    (forall period :: c.parses(period) ==> p.parses(period)) && Consolidated in p.preference && Separate in p.preference
  }

  lemma QualifiesAlone(p: Policy, e: Event)
    requires e.basis in p.preference
    ensures Qualifies(p, [e]) <==> e.complete
  {
    assert FirstLatest(p, [e], 0) && FirstNewest([e], e.period, e.basis, 0);
    if e.complete {
      assert QualifiesIn(p, [e], [e][0].period);
    }
  }

  /** Before the late fact, only an incomplete snapshot is known. */
  lemma LateFactBefore(c: Setting, a: RawKey, b: RawKey, g: string, others: seq<string>) returns (e: Event)
    requires Spellings(c, a, b, g, others)
    ensures Emitted(c, UsableRows(c, LateFact(a, b, g, others), 1)) == [e]
    ensures IsOf(e, Clean(c, a)) && e.available == 1 && !e.complete
  {
    var k, x := Clean(c, a), Fact(a, 2, g);
    var ys := LateFactScanned(c, a, b, g, others);
    ReportsClean(c, ys, a, b, g, others);
    UsableRowsCut(c, LateFact(a, b, g, others), 1, 2);
    FilterAppend([x], ys, RowsBy(1));
    assert [x][1..] == [];
    KeepAll(ys, RowsBy(1));
    assert UsableRows(c, LateFact(a, b, g, others), 1) == ys;
    e := LastSnapshot(c, ys);
    RunAddsOne(c, [], ys, k, 1);
    assert [] + ys == ys && [] + [e] == [e];
    LastSnapshotSays(c, ys);
    assert ys[|ys| - 1] in ys;
    NeverReported(c, k, ys, b, g, others);
  }

  lemma NeverReported(c: Setting, k: Key, ys: seq<Row>, b: RawKey, g: string, others: seq<string>)
    requires Reports(ys, b, others) && g in c.required && g !in others
    requires forall r | r in ys :: KeyOf(c, r) == k && c.strip(r.fact) == r.fact
    ensures !Complete(c, ys, k)
  {
    StateHolds(c, ys, k, g);
    forall r | r in ys ensures r.fact != g {
      var f :| f in others && r == Fact(b, 1, f);
    }
  }

  lemma OneEvent(p: Policy, events: seq<Event>, company: string, e: Event)
    requires events == [e] && e.company == company && e.available <= 1 && p.parses(e.period)
    ensures Filter(events, About(p, company, 1)) == [e]
  {
    assert [e][1..] == [];
  }

  /** On that table eligibility at time 1 looks ahead: the company is eligible from events built at 2, not at 1. */
  lemma SpellingsLookAhead(c: Setting, p: Policy, a: RawKey, b: RawKey, g: string, others: seq<string>)
    requires Spellings(c, a, b, g, others) && Prefers(c, p)
    ensures !SameEligible(c, p, LateFact(a, b, g, others), [], 1, 2, {Clean(c, a).company})
  {
    var facts, company := LateFact(a, b, g, others), Clean(c, a).company;
    var late, early := LateFactEmits(c, a, b, g, others);
    var e := LateFactBefore(c, a, b, g, others);
    assert [late, early] + [] == [late, early] && [e] + [] == [e];
    SortedIsFixed([e], c.eventLe);
    OneEvent(p, [e], company, e);
    QualifiesAlone(p, e);
    FilterSort([late, early], c.eventLe, About(p, company, 1));
    FilterAppend([late], [early], About(p, company, 1));
    assert [late] + [early] == [late, early] && [late][1..] == [] && [early][1..] == [];
    SortedIsFixed([early], c.eventLe);
    QualifiesAlone(p, early);
    assert company in EligibleAt(p, Events(c, facts, [], 2), 1, {company});
    assert company !in EligibleAt(p, Events(c, facts, [], 1), 1, {company});
  }

  // ----- required facts that cleaning changes -----

  /** Cleaning twice is cleaning once. */
  ghost predicate CleansOnce(c: Setting) {
    forall x :: c.strip(c.strip(x)) == c.strip(x)
  }

  lemma {:induction false} FactsAreClean(c: Setting, rows: seq<Row>, k: Key, f: string)
    requires CleansOnce(c) && f in StateOf(c, rows, k)
    ensures c.strip(f) == f
  {
    var n := |rows| - 1;
    if f in StateOf(c, rows[..n], k) {
      FactsAreClean(c, rows[..n], k, f);
    } else {
      assert f == c.strip(rows[n].fact);
    }
  }

  lemma UncleanIncomplete(c: Setting, rows: seq<Row>)
    requires CleansOnce(c) && !CleanFacts(c) && rows != []
    ensures !LastSnapshot(c, rows).complete
  {
    var f :| f in c.required && c.strip(f) != f;
    var k := KeyOf(c, rows[|rows| - 1]);
    LastSnapshotSays(c, rows);
    if f in StateOf(c, rows, k) {
      FactsAreClean(c, rows, k, f);
    }
  }

  /** With such a fact nothing is ever complete. */
  lemma {:induction false} UncleanNeverCompletes(c: Setting, rows: seq<Row>, e: Event)
    requires CleansOnce(c) && !CleanFacts(c) && e in Emitted(c, rows)
    ensures !e.complete
  {
    if e == LastSnapshot(c, rows) {
      UncleanIncomplete(c, rows);
    } else {
      EarlierSnapshot(c, rows, e);
      UncleanNeverCompletes(c, rows[..|rows| - 1], e);
    }
  }

  lemma UncleanEvents(c: Setting, facts: seq<Row>, unresolved: seq<Unresolved>, t: int)
    requires CleansOnce(c) && !CleanFacts(c)
    ensures forall e | e in Events(c, facts, unresolved, t) :: !e.complete
  {
    var rows := UsableRows(c, facts, t);
    SortByElements(Emitted(c, rows) + UnresolvedEvents(c, unresolved, t), c.eventLe);
    forall e | e in Events(c, facts, unresolved, t) ensures !e.complete {
      if e in Emitted(c, rows) {
        UncleanNeverCompletes(c, rows, e);
      } else {
        UnresolvedAreUnknown(c, unresolved, t, e);
      }
    }
  }

  lemma NoneEligible(p: Policy, events: seq<Event>, t: int, companies: set<string>)
    requires forall e | e in events :: !e.complete
    ensures EligibleAt(p, events, t, companies) == {}
  {
    forall company | company in companies ensures !Qualifies(p, Filter(events, About(p, company, t))) {
      var rows := Filter(events, About(p, company, t));
      FilterElements(events, About(p, company, t));
      assert forall j | 0 <= j < |rows| :: rows[j] in rows;
    }
  }

  lemma UncleanEligibility(c: Setting, p: Policy, facts: seq<Row>, unresolved: seq<Unresolved>, t: int, T: int,
      companies: set<string>)
    requires CleansOnce(c) && !CleanFacts(c)
    ensures SameEligible(c, p, facts, unresolved, t, T, companies)
  {
    UncleanEvents(c, facts, unresolved, t);
    UncleanEvents(c, facts, unresolved, T);
    NoneEligible(p, Events(c, facts, unresolved, t), t, companies);
    NoneEligible(p, Events(c, facts, unresolved, T), t, companies);
  }

  // ----- exactly -----

  lemma OthersExist(c: Setting, g: string) returns (others: seq<string>)
    requires g in c.required && |c.required| > 1
    ensures others != [] && forall f :: f in others <==> f in c.required && f != g
  {
    others := Ascending(c.required - {g});
    assert |c.required - {g}| > 0;
    var f :| f in c.required - {g};
    assert f in others;
  }

  /** Not tidy: two spellings, in sort order. */
  lemma UntidySpellings(c: Setting, ids: set<RawKey>) returns (a: RawKey, b: RawKey, g: string, others: seq<string>)
    requires Valid(c) && CleanFacts(c) && |c.required| > 1 && !Tidy(c, ids)
    ensures Spellings(c, a, b, g, others) && Ids(LateFact(a, b, g, others)) <= ids
  {
    var v, w :| v in ids && w in ids && UsableKey(c, Clean(c, v)) && Clean(c, v) == Clean(c, w) && v != w;
    assert c.keyLe(v, w) || c.keyLe(w, v);
    a, b := if c.keyLe(v, w) then v else w, if c.keyLe(v, w) then w else v;
    g :| g in c.required;
    others := OthersExist(c, g);
    forall r | r in LateFact(a, b, g, others) ensures Raw(r) in ids {
      assert Raw(r) == a || Raw(r) == b;
    }
  }

  /** Over given identifiers completeness never reverts, for every table and time, if and only if cleaning merges no
      two of them, or at most one fact is required, or cleaning changes a required fact, which then never arrives. */
  lemma NeverRevertsExactly(c: Setting, ids: set<RawKey>)
    requires Valid(c) && CleansOnce(c)
    ensures (forall facts, unresolved, t | Ids(facts) <= ids :: NeverReverts(c, facts, unresolved, t))
      <==> Tidy(c, ids) || |c.required| <= 1 || !CleanFacts(c)
  {
    if Tidy(c, ids) || |c.required| <= 1 || !CleanFacts(c) {
      forall facts, unresolved, t | Ids(facts) <= ids ensures NeverReverts(c, facts, unresolved, t) {
        if !CleanFacts(c) {
          UncleanEvents(c, facts, unresolved, t);
        } else if |c.required| <= 1 {
          OneFactIsFine(c, facts, unresolved, t);
        } else {
          TidySubset(c, ids, Ids(facts));
          TidyIsFine(c, facts, unresolved, t);
        }
      }
    } else {
      var a, b, g, others := UntidySpellings(c, ids);
      SpellingsRevert(c, a, b, g, others);
    }
  }

  /** With cleanly spelled required facts the newest event of a key is current, for every table and time, if and only
      if cleaning merges no two identifiers or at most one fact is required. */
  lemma NewestIsCurrentExactly(c: Setting, ids: set<RawKey>)
    requires Valid(c) && CleanFacts(c)
    ensures (forall facts, t | Ids(facts) <= ids :: NewestIsCurrent(c, facts, t)) <==> Tidy(c, ids) || |c.required| <= 1
  {
    if Tidy(c, ids) || |c.required| <= 1 {
      forall facts, t | Ids(facts) <= ids ensures NewestIsCurrent(c, facts, t) {
        if |c.required| <= 1 {
          OneFactIsFine(c, facts, [], t);
        } else {
          TidySubset(c, ids, Ids(facts));
          TidyIsFine(c, facts, [], t);
        }
      }
    } else {
      var a, b, g, others := UntidySpellings(c, ids);
      SpellingsRevert(c, a, b, g, others);
    }
  }

  /** When at least two facts are required, eligibility never looks ahead, for any table and times, if and only if
      cleaning merges no two identifiers or changes a required fact. */
  lemma EligibilityExactly(c: Setting, p: Policy, ids: set<RawKey>)
    requires Valid(c) && CleansOnce(c) && |c.required| > 1 && Prefers(c, p)
    ensures (forall facts, unresolved, t, T, companies | Ids(facts) <= ids && t <= T ::
        SameEligible(c, p, facts, unresolved, t, T, companies)) <==> Tidy(c, ids) || !CleanFacts(c)
  {
    if Tidy(c, ids) || !CleanFacts(c) {
      forall facts, unresolved, t, T, companies | Ids(facts) <= ids && t <= T
        ensures SameEligible(c, p, facts, unresolved, t, T, companies)
      {
        if !CleanFacts(c) {
          UncleanEligibility(c, p, facts, unresolved, t, T, companies);
        } else {
          TidySubset(c, ids, Ids(facts));
          TidyEligibility(c, p, facts, unresolved, t, T, companies);
        }
      }
    } else {
      var a, b, g, others := UntidySpellings(c, ids);
      SpellingsLookAhead(c, p, a, b, g, others);
    }
  }
}
