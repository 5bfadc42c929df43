/** Which dividend decisions stand: a decision stands until a later one is about the same dividend, or is a correction
    and replaces it as the latest standing decision it may replace.  The loops keep exactly the standing ones. */
module DividendStanding {
  import opened Options
  import opened Sorting
  import opened Dividends

  // ----- corrections are applied -----

  /** Whatever a processed correction could still replace was passed over for a superseded decision received no
      earlier. */
  ghost predicate Applied(done: seq<Decision>, s: State, window: int) {
    forall d, x | d in done && d.correction && x in s.kept && MayReplace(d, x, window) :: Spared(s, d, x, window)
  }

  ghost predicate Spared(s: State, d: Decision, x: Decision, window: int) {
    exists y :: y in s.superseded && MayReplace(d, y, window) && !Earlier(y, x)
  }

  lemma TakeGrows(s: State, d: Decision, window: int)
    ensures forall y | y in s.superseded :: y in Take(s, d, window).superseded
    ensures forall x | x in Take(s, d, window).kept :: x in s.kept || x == d
  {
  }

  /** The correction that is taken replaces the latest decision it may replace. */
  lemma TakeReplaces(s: State, d: Decision, x: Decision, window: int)
    requires d.correction && x in s.kept && MayReplace(d, x, window)
    ensures Spared(Take(s, d, window), d, x, window)
  {
    var i :| 0 <= i < |s.kept| && s.kept[i] == x;
    MatchIsLatest(s.kept, d, window);
    var y := s.kept[Match(s.kept, d, window).value];
    assert y in Corrected(s, d, window).superseded;
    assert y in Take(s, d, window).superseded;
  }

  lemma TakeApplies(done: seq<Decision>, d: Decision, s: State, window: int)
    requires Applied(done, s, window) && forall x | x in done :: ByReceipt(x, d)
    ensures Applied(done + [d], Take(s, d, window), window)
  {
    var next := Take(s, d, window);
    TakeGrows(s, d, window);
    forall c, x | c in done + [d] && c.correction && x in next.kept && MayReplace(c, x, window)
      ensures Spared(next, c, x, window)
    {
      EarlierOrder(c, x, d);
      EarlierOrder(x, c, d);
      assert x in s.kept;
      if c in done {
        var y :| y in s.superseded && MayReplace(c, y, window) && !Earlier(y, x);
        assert y in next.superseded;
      } else {
        TakeReplaces(s, d, x, window);
      }
    }
  }

  lemma {:induction false} ResolveApplies(ordered: seq<Decision>, window: int)
    requires Sorted(ordered, ByReceipt)
    ensures Applied(ordered, Resolve(ordered, window), window)
  {
    if ordered != [] {
      var n := |ordered| - 1;
      LastIsLatest(ordered);
      ResolveApplies(ordered[..n], window);
      TakeApplies(ordered[..n], ordered[n], Resolve(ordered[..n], window), window);
      assert ordered == ordered[..n] + [ordered[n]];
    }
  }

  /** Take a correction, and a kept decision of the same company and kind received before it, whose record date is
      within the window.  Then such a decision, received no earlier than that one, was superseded. */
  lemma CorrectionsApply(decisions: seq<Decision>, window: int, d: Decision, x: Decision)
    requires d in decisions && d.correction && x in Kept(decisions, window)
    requires x.company == d.company && x.kind == d.kind && Earlier(x, d)
    requires -window <= x.record - d.record <= window
    ensures exists y ::
      && y in Superseded(decisions, window) && !Earlier(y, x)
      && y.company == d.company && y.kind == d.kind && Earlier(y, d) && -window <= y.record - d.record <= window
  {
    var ordered := SortBy(decisions, ByReceipt);
    var s := Resolve(ordered, window);
    ByReceiptOrders();
    SortBySorts(decisions, ByReceipt);
    SortByElements(decisions, ByReceipt);
    ResolveApplies(ordered, window);
    SortByElements(s.kept, ByCompany);
    SortByElements(s.superseded, ByCompany);
    assert Spared(s, d, x, window);
    var y :| y in s.superseded && MayReplace(d, y, window) && !Earlier(y, x);
    assert y in Superseded(decisions, window);
  }

  /** Every superseded decision has another behind it that was received no earlier and is about the same dividend, or
      is a correction of the same company and kind whose record date is within the window. */
  lemma SupersededHasReason(decisions: seq<Decision>, window: int, x: Decision)
    requires x in Superseded(decisions, window)
    ensures exists d ::
      && d in decisions && ByReceipt(x, d) && d.company == x.company
      && (d.record == x.record || (d.correction && d.kind == x.kind && -window <= x.record - d.record <= window))
  {
    var ordered := SortBy(decisions, ByReceipt);
    ResultIsSound(decisions, window);
    ByReceiptOrders();
    SortBySorts(decisions, ByReceipt);
    SortByElements(decisions, ByReceipt);
    assert Replaced(ordered, x, window);
    var i, j :| 0 <= i < j < |ordered| && ordered[i] == x &&
      (SameDividend(x, ordered[j]) || (ordered[j].correction && MayReplace(ordered[j], x, window)));
    var d := ordered[j];
    assert d in ordered && ByReceipt(x, d);
  }

  // ----- exactly the standing decisions are kept -----

  /** The decision at `i` stands after the first `n`. */
  predicate Stands(ordered: seq<Decision>, window: int, i: nat, n: nat)
    requires n <= |ordered|
    decreases n, 0
  {
    i < n && (i == n - 1 || (Stands(ordered, window, i, n - 1) && !Displaced(ordered, window, i, n - 1)))
  }

  /** The decision at `j` displaces the standing one at `i`. */
  predicate Displaced(ordered: seq<Decision>, window: int, i: nat, j: nat)
    requires i < j < |ordered|
    decreases j, 2
  {
    SameDividend(ordered[i], ordered[j]) || (ordered[j].correction && Chosen(ordered, window, i, j))
  }

  /** Of the standing decisions that the one at `j` may replace, that at `i` is the latest, and the first of several
      received together. */
  predicate Chosen(ordered: seq<Decision>, window: int, i: nat, j: nat)
    requires i < j < |ordered|
    decreases j, 1
  {
    MayReplace(ordered[j], ordered[i], window) &&
    forall k: nat | k < j && Stands(ordered, window, k, j) && MayReplace(ordered[j], ordered[k], window) ::
      !Earlier(ordered[i], ordered[k]) && (k < i ==> Earlier(ordered[k], ordered[i]))
  }

  predicate Within(ordered: seq<Decision>, idx: seq<nat>) {
    forall m | 0 <= m < |idx| :: idx[m] < |ordered|
  }

  /** The decisions at given positions. */
  function At(ordered: seq<Decision>, idx: seq<nat>): (r: seq<Decision>)
    requires Within(ordered, idx)
    ensures |r| == |idx| && forall m | 0 <= m < |idx| :: r[m] == ordered[idx[m]]
  {
    seq(|idx|, m requires 0 <= m < |idx| => ordered[idx[m]])
  }

  ghost predicate Ascending(idx: seq<nat>) {
    forall m, n | 0 <= m < n < |idx| :: idx[m] < idx[n]
  }

  /** The positions of the decisions that stand after the first `n`, in order. */
  ghost predicate Positions(ordered: seq<Decision>, window: int, n: nat, idx: seq<nat>)
    requires n <= |ordered|
  {
    Ascending(idx) && forall i: nat :: i in idx <==> Stands(ordered, window, i, n)
  }

  function Without(idx: seq<nat>, m: nat): seq<nat>
    requires m < |idx|
  {
    idx[..m] + idx[m + 1..]
  }

  lemma WithoutOne(idx: seq<nat>, m: nat, i: nat)
    requires m < |idx| && Ascending(idx)
    ensures i in Without(idx, m) <==> i in idx && i != idx[m]
  {
    if i in idx && i != idx[m] {
      var k :| 0 <= k < |idx| && idx[k] == i;
      assert Without(idx, m)[if k < m then k else k - 1] == i;
    }
    if i in Without(idx, m) {
      var k :| 0 <= k < |Without(idx, m)| && Without(idx, m)[k] == i;
      assert i == idx[if k < m then k else k + 1];
    }
  }

  lemma WithoutPops(ordered: seq<Decision>, idx: seq<nat>, m: nat)
    requires m < |idx| && Ascending(idx) && Within(ordered, idx)
    ensures Ascending(Without(idx, m)) && Within(ordered, Without(idx, m))
    ensures At(ordered, Without(idx, m)) == Pop(At(ordered, idx), m)
    ensures forall i: nat :: i in Without(idx, m) <==> i in idx && i != idx[m]
  {
    forall i: nat ensures i in Without(idx, m) <==> i in idx && i != idx[m] {
      WithoutOne(idx, m, i);
    }
  }

  /** Of several received together the match is the first. */
  lemma {:induction false} MatchIsFirst(kept: seq<Decision>, d: Decision, window: int, i: nat)
    requires Match(kept, d, window).Some? && i < Match(kept, d, window).value && MayReplace(d, kept[i], window)
    ensures Earlier(kept[i], kept[Match(kept, d, window).value])
  {
    var last := |kept| - 1;
    var m, n := Match(kept, d, window), Match(kept[..last], d, window);
    if m == n {
      MatchIsFirst(kept[..last], d, window, i);
    } else {
      MatchIsLatest(kept[..last], d, window);
      assert kept[..last][i] == kept[i];
      EarlierOrder(kept[i], kept[n.value], kept[last]);
      if SameReceipt(kept[i], kept[n.value]) {
        SameReceiptEarlier(kept[i], kept[n.value], kept[last]);
      }
    }
  }

  lemma SameReceiptEarlier(a: Decision, b: Decision, c: Decision)
    requires SameReceipt(a, b) && Earlier(b, c)
    ensures Earlier(a, c)
  {
  }

  /** The match of a correction is the chosen position, and no other position is. */
  lemma MatchIsChosen(ordered: seq<Decision>, window: int, n: nat, idx: seq<nat>, i: nat)
    requires n < |ordered| && Positions(ordered, window, n, idx) && Within(ordered, idx) && i in idx
    ensures var m := Match(At(ordered, idx), ordered[n], window);
      i < n && (Chosen(ordered, window, i, n) <==> m.Some? && idx[m.value] == i)
  {
    var kept, d := At(ordered, idx), ordered[n];
    var m := Match(kept, d, window);
    assert Stands(ordered, window, i, n);
    MatchIsLatest(kept, d, window);
    var p :| 0 <= p < |idx| && idx[p] == i;
    assert kept[p] == ordered[i];
    if Chosen(ordered, window, i, n) {
      assert m.Some?;
      var k := idx[m.value];
      assert k in idx && Stands(ordered, window, k, n) && kept[m.value] == ordered[k];
      if p < m.value {
        MatchIsFirst(kept, d, window, p);
      }
    }
    if m.Some? && idx[m.value] == i {
      assert m.value == p;
      forall k: nat | k < n && Stands(ordered, window, k, n) && MayReplace(d, ordered[k], window)
        ensures !Earlier(ordered[i], ordered[k]) && (k < i ==> Earlier(ordered[k], ordered[i]))
      {
        var q :| 0 <= q < |idx| && idx[q] == k;
        assert kept[q] == ordered[k];
        if q < p {
          MatchIsFirst(kept, d, window, q);
        }
      }
    }
  }

  /** Positions left when a correction has replaced its match. */
  lemma AfterCorrection(ordered: seq<Decision>, window: int, n: nat, idx: seq<nat>, s: State) returns (left: seq<nat>)
    requires n < |ordered| && Positions(ordered, window, n, idx) && Within(ordered, idx)
    requires s.kept == At(ordered, idx)
    ensures Ascending(left) && Within(ordered, left)
    ensures Corrected(s, ordered[n], window).kept == At(ordered, left)
    ensures forall i: nat :: i in left <==>
      Stands(ordered, window, i, n) && !(ordered[n].correction && Chosen(ordered, window, i, n))
  {
    var m := if ordered[n].correction then Match(s.kept, ordered[n], window) else None;
    left := idx;
    forall i: nat | i in idx ensures ordered[n].correction && Chosen(ordered, window, i, n) <==>
      m.Some? && idx[m.value] == i
    {
      MatchIsChosen(ordered, window, n, idx, i);
    }
    if m.Some? {
      WithoutPops(ordered, idx, m.value);
      left := Without(idx, m.value);
    }
  }

  /** Positions left when the decision about the same dividend has gone as well. */
  lemma AfterTwin(ordered: seq<Decision>, n: nat, idx: seq<nat>, s: State) returns (left: seq<nat>)
    requires n < |ordered| && Ascending(idx) && Within(ordered, idx) && s.kept == At(ordered, idx)
    requires OnePerDividend(s.kept)
    ensures Ascending(left) && Within(ordered, left)
    ensures Supersede(s, Twin(s.kept, ordered[n])).kept == At(ordered, left)
    ensures forall i: nat :: i in left <==> i in idx && !SameDividend(ordered[i], ordered[n])
  {
    var twin := Twin(s.kept, ordered[n]);
    left := idx;
    forall i: nat | i in idx ensures SameDividend(ordered[i], ordered[n]) <==> twin.Some? && idx[twin.value] == i {
      var p :| 0 <= p < |idx| && idx[p] == i;
      assert s.kept[p] == ordered[i];
      if twin.Some? {
        assert SameDividend(s.kept[twin.value], ordered[n]);
      }
    }
    if twin.Some? {
      WithoutPops(ordered, idx, twin.value);
      left := Without(idx, twin.value);
    }
  }

  lemma CorrectedOnePer(s: State, d: Decision, window: int)
    requires OnePerDividend(s.kept)
    ensures OnePerDividend(Corrected(s, d, window).kept)
  {
    var m := if d.correction then Match(s.kept, d, window) else None;
    if m.Some? {
      PopOnePer(s.kept, m.value);
    }
  }

  lemma TakeStands(ordered: seq<Decision>, window: int, n: nat, idx: seq<nat>, s: State) returns (more: seq<nat>)
    requires n < |ordered| && Positions(ordered, window, n, idx) && Within(ordered, idx)
    requires s.kept == At(ordered, idx) && OnePerDividend(s.kept)
    ensures Positions(ordered, window, n + 1, more) && Within(ordered, more)
    ensures Take(s, ordered[n], window).kept == At(ordered, more)
  {
    var left := AfterCorrection(ordered, window, n, idx, s);
    var s1 := Corrected(s, ordered[n], window);
    CorrectedOnePer(s, ordered[n], window);
    left := AfterTwin(ordered, n, left, s1);
    PositionsGrow(ordered, window, n, left);
    more := left + [n];
  }

  lemma PositionsGrow(ordered: seq<Decision>, window: int, n: nat, left: seq<nat>)
    requires n < |ordered| && Ascending(left)
    requires forall i: nat :: i in left <==> Stands(ordered, window, i, n) && !Displaced(ordered, window, i, n)
    ensures Positions(ordered, window, n + 1, left + [n]) && Within(ordered, left + [n])
  {
    forall m | 0 <= m < |left| ensures left[m] < n {
      assert left[m] in left;
    }
    forall i: nat ensures i in left + [n] <==> Stands(ordered, window, i, n + 1) {
    }
  }

  lemma {:induction false} ResolveStands(ordered: seq<Decision>, window: int, n: nat) returns (idx: seq<nat>)
    requires n <= |ordered|
    ensures Positions(ordered, window, n, idx) && Within(ordered, idx)
    ensures Resolve(ordered[..n], window).kept == At(ordered, idx) && OnePerDividend(At(ordered, idx))
  {
    if n == 0 {
      idx := [];
    } else {
      var before := ResolveStands(ordered, window, n - 1);
      assert ordered[..n][..n - 1] == ordered[..n - 1];
      var s := Resolve(ordered[..n - 1], window);
      TakeOnePer(s, ordered[n - 1], window);
      idx := TakeStands(ordered, window, n - 1, before, s);
    }
  }

  /** The kept decisions are exactly the standing ones, each as often as it stands. */
  lemma KeptExactly(decisions: seq<Decision>, window: int) returns (idx: seq<nat>)
    ensures var ordered := SortBy(decisions, ByReceipt);
      && Positions(ordered, window, |ordered|, idx) && Within(ordered, idx)
      && multiset(Kept(decisions, window)) == multiset(At(ordered, idx))
  {
    var ordered := SortBy(decisions, ByReceipt);
    idx := ResolveStands(ordered, window, |ordered|);
    assert ordered[..|ordered|] == ordered;
    SortByPermutes(Resolve(ordered, window).kept, ByCompany);
  }
}
