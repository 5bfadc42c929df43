/** Dividend filings and their corrections: which decision stands for each dividend, and why the others do not. */
module Dividends {
  import opened Options
  import opened Rounding
  import opened Sorting
  import opened NameOrder

  datatype Decision = Decision(company: string, record: int, received: int, receipt: string, kind: string,
      correction: bool)

  // ----- orders -----

  /** Strictly earlier receipt: by day, then by receipt number. */
  predicate Earlier(a: Decision, b: Decision) {
    a.received < b.received || (a.received == b.received && a.receipt != b.receipt && NameLe(a.receipt, b.receipt))
  }

  predicate SameReceipt(a: Decision, b: Decision) {
    a.received == b.received && a.receipt == b.receipt
  }

  predicate CompanyFirst(a: Decision, b: Decision) {
    if a.company != b.company then NameLe(a.company, b.company) else a.record <= b.record
  }

  /** Order of processing: receipt, company, record date. */
  predicate ByReceipt(a: Decision, b: Decision) {
    Earlier(a, b) || (SameReceipt(a, b) && CompanyFirst(a, b))
  }

  /** Order of the results: company, record date, receipt. */
  predicate ByCompany(a: Decision, b: Decision) {
    if a.company != b.company then NameLe(a.company, b.company)
    else if a.record != b.record then a.record < b.record
    else Earlier(a, b) || SameReceipt(a, b)
  }

  lemma EarlierOrder(a: Decision, b: Decision, c: Decision)
    ensures Earlier(a, b) || Earlier(b, a) || SameReceipt(a, b)
    ensures !(Earlier(a, b) && Earlier(b, a)) && !(Earlier(a, b) && SameReceipt(a, b))
    ensures Earlier(a, b) && Earlier(b, c) ==> Earlier(a, c)
  {
    NameLeTotal(a.receipt, b.receipt);
    NameLeTotal(b.receipt, c.receipt);
    if NameLe(a.receipt, b.receipt) && NameLe(b.receipt, c.receipt) {
      NameLeTransitive(a.receipt, b.receipt, c.receipt);
    }
  }

  lemma CompanyOrder(a: string, b: string, c: string)
    ensures NameLe(a, b) || NameLe(b, a)
    ensures NameLe(a, b) && NameLe(b, a) ==> a == b
    ensures NameLe(a, b) && NameLe(b, c) ==> NameLe(a, c)
  {
    NameLeTotal(a, b);
    if NameLe(a, b) && NameLe(b, c) {
      NameLeTransitive(a, b, c);
    }
  }

  lemma ByReceiptOrders()
    ensures TotalPreorder(ByReceipt)
  {
    forall a, b, c ensures (ByReceipt(a, b) || ByReceipt(b, a)) && (ByReceipt(a, b) && ByReceipt(b, c) ==> ByReceipt(a, c)) {
      EarlierOrder(a, b, c);
      EarlierOrder(b, c, a);
      CompanyOrder(a.company, b.company, c.company);
    }
  }

  lemma ByCompanyOrders()
    ensures TotalPreorder(ByCompany)
  {
    forall a, b, c ensures (ByCompany(a, b) || ByCompany(b, a)) && (ByCompany(a, b) && ByCompany(b, c) ==> ByCompany(a, c)) {
      EarlierOrder(a, b, c);
      EarlierOrder(b, c, a);
      CompanyOrder(a.company, b.company, c.company);
    }
  }

  // ----- the rule -----

  /** `d`, a correction, may replace this earlier decision. */
  predicate MayReplace(d: Decision, earlier: Decision, window: int) {
    d.company == earlier.company && d.kind == earlier.kind && Earlier(earlier, d) &&
      Abs(earlier.record - d.record) <= window
  }

  predicate SameDividend(a: Decision, b: Decision) {
    a.company == b.company && a.record == b.record
  }

  /** The latest received decision that `d` may replace, the first of several. */
  function Match(kept: seq<Decision>, d: Decision, window: int): (m: Option<nat>)
    ensures m.Some? ==> m.value < |kept| && MayReplace(d, kept[m.value], window)
  {
    if kept == [] then None
    else
      var last := |kept| - 1;
      var m := Match(kept[..last], d, window);
      if MayReplace(d, kept[last], window) && (m.None? || Earlier(kept[m.value], kept[last])) then Some(last) else m
  }

  lemma {:induction false} MatchIsLatest(kept: seq<Decision>, d: Decision, window: int)
    ensures var m := Match(kept, d, window);
      forall i | 0 <= i < |kept| && MayReplace(d, kept[i], window) :: m.Some? && !Earlier(kept[m.value], kept[i])
  {
    if kept != [] {
      var last := |kept| - 1;
      MatchIsLatest(kept[..last], d, window);
      var m, n := Match(kept, d, window), Match(kept[..last], d, window);
      forall i | 0 <= i < |kept| && MayReplace(d, kept[i], window) ensures m.Some? && !Earlier(kept[m.value], kept[i]) {
        if i < last {
          assert kept[..last][i] == kept[i] && n.Some? && !Earlier(kept[n.value], kept[i]);
          EarlierOrder(kept[n.value], kept[last], kept[i]);
        }
        EarlierOrder(kept[last], kept[last], kept[last]);
      }
    }
  }

  /** The first kept decision about the same dividend. */
  function Twin(kept: seq<Decision>, d: Decision): (m: Option<nat>)
    ensures m.Some? ==> m.value < |kept| && SameDividend(kept[m.value], d)
    ensures m.None? ==> forall i | 0 <= i < |kept| :: !SameDividend(kept[i], d)
  {
    if kept == [] then None
    else
      var last := |kept| - 1;
      var m := Twin(kept[..last], d);
      if m.Some? then m else if SameDividend(kept[last], d) then Some(last) else None
  }

  datatype State = State(kept: seq<Decision>, superseded: seq<Decision>)

  function Pop(xs: seq<Decision>, i: nat): seq<Decision>
    requires i < |xs|
  {
    xs[..i] + xs[i + 1..]
  }

  function Supersede(s: State, at: Option<nat>): State
    requires at.Some? ==> at.value < |s.kept|
  {
    if at.None? then s else State(Pop(s.kept, at.value), s.superseded + [s.kept[at.value]])
  }

  function Corrected(s: State, d: Decision, window: int): State {
    if d.correction then Supersede(s, Match(s.kept, d, window)) else s
  }

  function Take(s: State, d: Decision, window: int): State {
    var s1 := Corrected(s, d, window);
    var s2 := Supersede(s1, Twin(s1.kept, d));
    State(s2.kept + [d], s2.superseded)
  }

  function Resolve(ordered: seq<Decision>, window: int): State {
    if ordered == [] then State([], []) else Take(Resolve(ordered[..|ordered| - 1], window), ordered[|ordered| - 1],
      window)
  }

  function Kept(decisions: seq<Decision>, window: int): seq<Decision> {
    SortBy(Resolve(SortBy(decisions, ByReceipt), window).kept, ByCompany)
  }

  function Superseded(decisions: seq<Decision>, window: int): seq<Decision> {
    SortBy(Resolve(SortBy(decisions, ByReceipt), window).superseded, ByCompany)
  }

  // ----- the loops -----

  method FindMatch(kept: seq<Decision>, d: Decision, window: int) returns (m: Option<nat>)
    ensures m == Match(kept, d, window)
  {
    m := None;
    for n := 0 to |kept|
      invariant m == Match(kept[..n], d, window)
    {
      assert kept[..n + 1][..n] == kept[..n];
      if MayReplace(d, kept[n], window) && (m.None? || Earlier(kept[m.value], kept[n])) {
        m := Some(n);
      }
    }
    assert kept[..|kept|] == kept;
  }

  method FindTwin(kept: seq<Decision>, d: Decision) returns (m: Option<nat>)
    ensures m == Twin(kept, d)
  {
    for n := 0 to |kept|
      invariant Twin(kept[..n], d).None?
    {
      assert kept[..n + 1][..n] == kept[..n];
      if SameDividend(kept[n], d) {
        TwinStays(kept, d, n + 1);
        return Some(n);
      }
    }
    assert kept[..|kept|] == kept;
    m := None;
  }

  lemma {:induction false} TwinStays(kept: seq<Decision>, d: Decision, n: nat)
    requires n <= |kept| && Twin(kept[..n], d).Some?
    ensures Twin(kept, d) == Twin(kept[..n], d)
  {
    if n == |kept| {
      assert kept[..n] == kept;
    } else {
      TwinStays(kept[..|kept| - 1], d, n);
      assert kept[..|kept| - 1][..n] == kept[..n];
    }
  }

  /** Take one decision: drop what it corrects, drop its twin, keep it. */
  method TakeDecision(kept: seq<Decision>, superseded: seq<Decision>, d: Decision,
      window: int) returns (kept': seq<Decision>, superseded': seq<Decision>)
    ensures State(kept', superseded') == Take(State(kept, superseded), d, window)
  {
    kept', superseded' := kept, superseded;
    if d.correction {
      var m := FindMatch(kept', d, window);
      if m.Some? {
        superseded' := superseded' + [kept'[m.value]];
        kept' := kept'[..m.value] + kept'[m.value + 1..];
      }
    }
    assert State(kept', superseded') == Corrected(State(kept, superseded), d, window);
    var same := FindTwin(kept', d);
    if same.Some? {
      superseded' := superseded' + [kept'[same.value]];
      kept' := kept'[..same.value] + kept'[same.value + 1..];
    }
    kept' := kept' + [d];
  }

  method ResolveDecisions(decisions: seq<Decision>, window: int) returns (kept: seq<Decision>,
      superseded: seq<Decision>)
    ensures kept == Kept(decisions, window) && superseded == Superseded(decisions, window)
  {
    var ordered := SortBy(decisions, ByReceipt);
    kept, superseded := [], [];
    for n := 0 to |ordered|
      invariant State(kept, superseded) == Resolve(ordered[..n], window)
    {
      assert ordered[..n + 1][..n] == ordered[..n];
      kept, superseded := TakeDecision(kept, superseded, ordered[n], window);
    }
    assert ordered[..|ordered|] == ordered;
    kept, superseded := SortBy(kept, ByCompany), SortBy(superseded, ByCompany);
  }

  // ----- what every step keeps -----

  lemma PopElements(xs: seq<Decision>, i: nat)
    requires i < |xs|
    ensures multiset(Pop(xs, i)) + multiset{xs[i]} == multiset(xs)
  {
    assert xs == xs[..i] + [xs[i]] + xs[i + 1..];
  }

  function All(s: State): multiset<Decision> {
    multiset(s.kept) + multiset(s.superseded)
  }

  lemma SupersedeKeepsAll(s: State, at: Option<nat>)
    requires at.Some? ==> at.value < |s.kept|
    ensures All(Supersede(s, at)) == All(s)
  {
    if at.Some? {
      PopElements(s.kept, at.value);
    }
  }

  function Add(m: multiset<Decision>, d: Decision): multiset<Decision> {
    m + multiset{d}
  }

  lemma TakeKeepsAll(s: State, d: Decision, window: int)
    ensures All(Take(s, d, window)) == Add(All(s), d)
  {
    var s1 := Corrected(s, d, window);
    SupersedeKeepsAll(s, if d.correction then Match(s.kept, d, window) else None);
    SupersedeKeepsAll(s1, Twin(s1.kept, d));
  }

  lemma LastAdds(ordered: seq<Decision>)
    requires ordered != []
    ensures multiset(ordered) == Add(multiset(ordered[..|ordered| - 1]), ordered[|ordered| - 1])
  {
    assert ordered == ordered[..|ordered| - 1] + [ordered[|ordered| - 1]];
  }

  lemma {:induction false} ResolvePartitions(ordered: seq<Decision>, window: int)
    ensures All(Resolve(ordered, window)) == multiset(ordered)
  {
    if ordered != [] {
      var init, last := ordered[..|ordered| - 1], ordered[|ordered| - 1];
      var before := Resolve(init, window);
      ResolvePartitions(init, window);
      TakeKeepsAll(before, last, window);
      LastAdds(ordered);
    }
  }

  lemma ResolveElements(ordered: seq<Decision>, window: int)
    ensures forall x | x in Resolve(ordered, window).kept || x in Resolve(ordered, window).superseded :: x in ordered
  {
    ResolvePartitions(ordered, window);
    forall x | x in Resolve(ordered, window).kept || x in Resolve(ordered, window).superseded ensures x in ordered {
      assert x in All(Resolve(ordered, window));
    }
  }

  ghost predicate OnePerDividend(kept: seq<Decision>) {
    forall i, j | 0 <= i < j < |kept| :: !SameDividend(kept[i], kept[j])
  }

  lemma PopOnePer(kept: seq<Decision>, i: nat)
    requires i < |kept| && OnePerDividend(kept)
    ensures OnePerDividend(Pop(kept, i))
    ensures forall j | 0 <= j < |Pop(kept, i)| :: !SameDividend(Pop(kept, i)[j], kept[i])
  {
  }

  lemma TakeOnePer(s: State, d: Decision, window: int)
    requires OnePerDividend(s.kept)
    ensures OnePerDividend(Take(s, d, window).kept)
  {
    var m := if d.correction then Match(s.kept, d, window) else None;
    if m.Some? {
      PopOnePer(s.kept, m.value);
    }
    var s1 := Corrected(s, d, window);
    var twin := Twin(s1.kept, d);
    if twin.Some? {
      PopOnePer(s1.kept, twin.value);
    }
  }

  /** What has been kept and superseded after the decisions `done`, in order. */
  ghost predicate Sound(done: seq<Decision>, s: State, window: int) {
    && OnePerDividend(s.kept)
    && (forall d | d in s.kept :: LatestOfDividend(done, d))
    && (forall x | x in s.superseded :: Replaced(done, x, window))
    && (forall j | 0 <= j < |done| && LastOfCompany(done, j) :: done[j] in s.kept)
  }

  ghost predicate LatestOfDividend(done: seq<Decision>, d: Decision) {
    forall x | x in done && SameDividend(x, d) :: ByReceipt(x, d)
  }

  /** A later decision is about the same dividend, or is a correction that may replace it. */
  ghost predicate Replaced(done: seq<Decision>, x: Decision, window: int) {
    exists i, j | 0 <= i < j < |done| ::
      done[i] == x && (SameDividend(x, done[j]) || (done[j].correction && MayReplace(done[j], x, window)))
  }

  ghost predicate LastOfCompany(done: seq<Decision>, j: int)
    requires 0 <= j < |done|
  {
    forall i | j < i < |done| :: done[i].company != done[j].company
  }

  lemma ReplacedStays(done: seq<Decision>, d: Decision, x: Decision, window: int)
    requires Replaced(done, x, window)
    ensures Replaced(done + [d], x, window)
  {
    var i, j :| 0 <= i < j < |done| && done[i] == x && (SameDividend(x, done[j]) || (done[j].correction && MayReplace(done[j], x, window)));
    var more := done + [d];
    assert more[i] == x && more[j] == done[j];
  }

  lemma ReplacedNow(done: seq<Decision>, d: Decision, x: Decision, window: int)
    requires x in done && (SameDividend(x, d) || (d.correction && MayReplace(d, x, window)))
    ensures Replaced(done + [d], x, window)
  {
    var i :| 0 <= i < |done| && done[i] == x;
    var more, n := done + [d], |done|;
    assert more[i] == x && more[n] == d;
  }

  /** One elimination: what leaves is explained, and everyone of another company stays. */
  ghost predicate Eliminates(done: seq<Decision>, d: Decision, window: int, before: State, after: State) {
    && (forall x | x in after.kept :: x in before.kept)
    && (forall x | x in before.kept && x.company != d.company :: x in after.kept)
    && (forall x | x in after.superseded :: x in before.superseded || Replaced(done + [d], x, window))
  }

  lemma SupersedeEliminates(done: seq<Decision>, d: Decision, window: int, s: State, at: Option<nat>)
    requires at.Some? ==> at.value < |s.kept| && s.kept[at.value] in done
    requires at.Some? ==> SameDividend(s.kept[at.value], d) || (d.correction && MayReplace(d, s.kept[at.value], window))
    ensures Eliminates(done, d, window, s, Supersede(s, at))
  {
    if at.Some? {
      var i := at.value;
      ReplacedNow(done, d, s.kept[i], window);
      forall x | x in s.kept && x.company != d.company ensures x in Pop(s.kept, i) {
        var j :| 0 <= j < |s.kept| && s.kept[j] == x;
        assert Pop(s.kept, i)[if j < i then j else j - 1] == x;
      }
    }
  }

  lemma TakeEliminates(done: seq<Decision>, d: Decision, window: int, s: State)
    requires forall x | x in s.kept :: x in done
    ensures Eliminates(done, d, window, s,
      State(Take(s, d, window).kept[..|Take(s, d, window).kept| - 1], Take(s, d, window).superseded))
    ensures forall x | x in Take(s, d, window).kept[..|Take(s, d, window).kept| - 1] ::
      !SameDividend(x, d) || !OnePerDividend(s.kept)
  {
    var m := if d.correction then Match(s.kept, d, window) else None;
    SupersedeEliminates(done, d, window, s, m);
    var s1 := Corrected(s, d, window);
    var twin := Twin(s1.kept, d);
    SupersedeEliminates(done, d, window, s1, twin);
    var s2 := Supersede(s1, twin);
    assert Take(s, d, window).kept[..|s2.kept|] == s2.kept;
    if OnePerDividend(s.kept) {
      if m.Some? {
        PopOnePer(s.kept, m.value);
      }
      if twin.Some? {
        PopOnePer(s1.kept, twin.value);
      }
    }
  }

  lemma TakeSound(done: seq<Decision>, d: Decision, s: State, window: int)
    requires Sound(done, s, window) && (forall x | x in s.kept :: x in done) && forall x | x in done :: ByReceipt(x, d)
    requires ByReceipt(d, d)
    ensures Sound(done + [d], Take(s, d, window), window)
  {
    var next := Take(s, d, window);
    var rest := next.kept[..|next.kept| - 1];
    TakeOnePer(s, d, window);
    TakeEliminates(done, d, window, s);
    assert next.kept == rest + [d];
    forall x | x in next.kept ensures LatestOfDividend(done + [d], x) {
      if x in rest {
        assert LatestOfDividend(done, x) && !SameDividend(x, d);
      }
    }
    forall x | x in next.superseded ensures Replaced(done + [d], x, window) {
      if x in s.superseded {
        ReplacedStays(done, d, x, window);
      }
    }
    TakeKeepsLast(done, d, s, rest);
  }

  lemma TakeKeepsLast(done: seq<Decision>, d: Decision, s: State, rest: seq<Decision>)
    requires forall j | 0 <= j < |done| && LastOfCompany(done, j) :: done[j] in s.kept
    requires forall x | x in s.kept && x.company != d.company :: x in rest
    ensures forall j | 0 <= j < |done + [d]| && LastOfCompany(done + [d], j) :: (done + [d])[j] in rest + [d]
  {
    var more := done + [d];
    forall j | 0 <= j < |more| && LastOfCompany(more, j) ensures more[j] in rest + [d] {
      if j < |done| {
        assert more[|done|] == d && more[|done|].company != more[j].company;
        assert LastOfCompany(done, j) by {
          forall i | j < i < |done| ensures done[i].company != done[j].company {
            assert more[i] == done[i];
          }
        }
      }
    }
  }

  lemma LastIsLatest(ordered: seq<Decision>)
    requires ordered != [] && Sorted(ordered, ByReceipt)
    ensures var n := |ordered| - 1;
      (forall x | x in ordered[..n] :: ByReceipt(x, ordered[n])) && ByReceipt(ordered[n], ordered[n]) &&
      Sorted(ordered[..n], ByReceipt)
  {
    var n := |ordered| - 1;
    forall x | x in ordered[..n] ensures ByReceipt(x, ordered[n]) {
      var i :| 0 <= i < n && ordered[i] == x;
      assert ByReceipt(ordered[i], ordered[n]);
    }
    EarlierOrder(ordered[n], ordered[n], ordered[n]);
  }

  lemma {:induction false} ResolveSound(ordered: seq<Decision>, window: int)
    requires Sorted(ordered, ByReceipt)
    ensures Sound(ordered, Resolve(ordered, window), window)
  {
    if ordered != [] {
      var n := |ordered| - 1;
      LastIsLatest(ordered);
      ResolveSound(ordered[..n], window);
      ResolveElements(ordered[..n], window);
      TakeSound(ordered[..n], ordered[n], Resolve(ordered[..n], window), window);
      assert ordered == ordered[..n] + [ordered[n]];
    }
  }

  // ----- the result -----

  /** Kept and superseded partition the input. */
  lemma ResultPartitions(decisions: seq<Decision>, window: int)
    ensures multiset(Kept(decisions, window)) + multiset(Superseded(decisions, window)) == multiset(decisions)
  {
    var ordered := SortBy(decisions, ByReceipt);
    SortByPermutes(decisions, ByReceipt);
    ResolvePartitions(ordered, window);
    SortByPermutes(Resolve(ordered, window).kept, ByCompany);
    SortByPermutes(Resolve(ordered, window).superseded, ByCompany);
  }

  lemma {:induction false} InsertKeepsOnePer(d: Decision, xs: seq<Decision>)
    requires OnePerDividend(xs) && forall i | 0 <= i < |xs| :: !SameDividend(d, xs[i])
    ensures OnePerDividend(Insert(d, xs, ByCompany))
  {
    if xs != [] && !ByCompany(d, xs[0]) {
      InsertKeepsOnePer(d, xs[1..]);
      InsertPermutes(d, xs[1..], ByCompany);
      var rest := Insert(d, xs[1..], ByCompany);
      forall i | 0 <= i < |rest| ensures !SameDividend(xs[0], rest[i]) {
        assert rest[i] in multiset(rest);
        assert rest[i] == d || rest[i] in xs[1..];
      }
    }
  }

  lemma {:induction false} SortKeepsOnePer(xs: seq<Decision>)
    requires OnePerDividend(xs)
    ensures OnePerDividend(SortBy(xs, ByCompany))
  {
    if xs != [] {
      SortKeepsOnePer(xs[1..]);
      SortByElements(xs[1..], ByCompany);
      var rest := SortBy(xs[1..], ByCompany);
      forall i | 0 <= i < |rest| ensures !SameDividend(xs[0], rest[i]) {
        assert rest[i] in rest && rest[i] in xs[1..];
      }
      InsertKeepsOnePer(xs[0], rest);
    }
  }

  /** At most one decision per company and record date is kept, and it is the latest received for it; each
      superseded decision has a later one that explains it; each company's last decision is kept. */
  lemma ResultIsSound(decisions: seq<Decision>, window: int)
    ensures Sound(SortBy(decisions, ByReceipt), State(Kept(decisions, window), Superseded(decisions, window)), window)
    ensures Sorted(Kept(decisions, window), ByCompany) && Sorted(Superseded(decisions, window), ByCompany)
  {
    var ordered := SortBy(decisions, ByReceipt);
    var s := Resolve(ordered, window);
    ByReceiptOrders();
    ByCompanyOrders();
    SortBySorts(decisions, ByReceipt);
    ResolveSound(ordered, window);
    SortKeepsOnePer(s.kept);
    SortByElements(s.kept, ByCompany);
    SortByElements(s.superseded, ByCompany);
    SortBySorts(s.kept, ByCompany);
    SortBySorts(s.superseded, ByCompany);
  }

  /** With distinct processing keys the result does not depend on the order of the input. */
  lemma ResultOrderFree(decisions: seq<Decision>, permuted: seq<Decision>, window: int)
    requires multiset(decisions) == multiset(permuted) && AntisymmetricOn(decisions, ByReceipt)
    ensures Kept(decisions, window) == Kept(permuted, window) &&
      Superseded(decisions, window) == Superseded(permuted, window)
  {
    ByReceiptOrders();
    SortByOrderFree(decisions, permuted, ByReceipt);
  }
}
