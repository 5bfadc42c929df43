/** What the states of a backup and their retention mean: where a state ends, and which states are kept, by counting
    the later ones. */
module BackupRetention {
  import opened BackupVersions

  // ----- where states end -----

  predicate Present(archives: seq<string>, objects: map<string, RemoteObject>, i: int) {
    0 <= i < |archives| && archives[i] in objects
  }

  function DayAt(archives: seq<string>, objects: map<string, RemoteObject>, i: int): nat
    requires Present(archives, objects, i)
  {
    objects[archives[i]].modified / 86400
  }

  /** Line `p` names an archive uploaded on a later day than every present archive named before it, and there is one. */
  ghost predicate StartsDay(archives: seq<string>, objects: map<string, RemoteObject>, p: int) {
    && Present(archives, objects, p)
    && (exists i | 0 <= i < p :: Present(archives, objects, i))
    && (forall i | 0 <= i < p && Present(archives, objects, i) :: DayAt(archives, objects, i) < DayAt(archives, objects, p))
  }

  /** The state holds `lines` lines and is dated by the newest of the present archives they name. */
  ghost predicate Dates(archives: seq<string>, objects: map<string, RemoteObject>, v: IndexVersion) {
    && (v.uploadedAt.None? <==> forall i | 0 <= i < v.lines :: !Present(archives, objects, i))
    && (v.uploadedAt.Some? ==>
        && (exists i | 0 <= i < v.lines :: Present(archives, objects, i) && objects[archives[i]].modified == v.uploadedAt.value)
        && (forall i | 0 <= i < v.lines && Present(archives, objects, i) ::
             objects[archives[i]].modified <= v.uploadedAt.value))
    && (v.day.Some? <==> v.uploadedAt.Some?) && (v.day.Some? ==> v.day.value == v.uploadedAt.value / 86400)
  }

  lemma OpensIsStarts(archives: seq<string>, objects: map<string, RemoteObject>, p: nat)
    requires p < |archives|
    ensures OpensDay(archives, objects, p) <==> StartsDay(archives, objects, p)
  {
    var before := archives[..p];
    NewestIsMax(before, objects);
    if OpensDay(archives, objects, p) {
      var x :| x in before && x in objects;
      var k :| 0 <= k < |before| && before[k] == x;
      assert Present(archives, objects, k);
      forall i | 0 <= i < p && Present(archives, objects, i)
        ensures DayAt(archives, objects, i) < DayAt(archives, objects, p)
      {
        assert archives[i] in before;
        DayMonotone(objects[archives[i]].modified, Newest(before, objects).value);
      }
    }
    if StartsDay(archives, objects, p) {
      var i :| 0 <= i < p && Present(archives, objects, i);
      assert archives[i] in before;
      var x :| x in before && x in objects && objects[x].modified == Newest(before, objects).value;
      var k :| 0 <= k < |before| && before[k] == x;
      assert Present(archives, objects, k);
    }
  }

  lemma StateDates(archives: seq<string>, objects: map<string, RemoteObject>, number: nat, p: nat)
    requires p <= |archives|
    ensures Dates(archives, objects, StateAt(archives, objects, number, p))
  {
    var before := archives[..p];
    var newest := Newest(before, objects);
    NewestIsMax(before, objects);
    forall i | 0 <= i < p && Present(archives, objects, i)
      ensures newest.Some? && objects[archives[i]].modified <= newest.value
    {
      assert archives[i] in before;
    }
    if newest.Some? {
      var x :| x in before && x in objects && objects[x].modified == newest.value;
      var k :| 0 <= k < |before| && before[k] == x;
      assert Present(archives, objects, k);
    }
  }

  lemma {:induction false} ClosedExactly(archives: seq<string>, objects: map<string, RemoteObject>, n: nat, p: nat)
    requires n <= |archives|
    ensures (exists v :: v in Closed(archives, objects, n) && v.lines == p) <==>
      p < n && StartsDay(archives, objects, p)
    ensures forall v | v in Closed(archives, objects, n) :: Dates(archives, objects, v)
  {
    if n != 0 {
      var before := Closed(archives, objects, n - 1);
      ClosedExactly(archives, objects, n - 1, p);
      OpensIsStarts(archives, objects, n - 1);
      if OpensDay(archives, objects, n - 1) {
        var v := StateAt(archives, objects, |before| + 1, n - 1);
        StateDates(archives, objects, |before| + 1, n - 1);
        var closed := Closed(archives, objects, n);
        assert closed == before + [v] && closed[|before|] == v;
      }
    }
  }

  /** A state ends at the end of the index and before every line that starts a day, and nowhere else. */
  lemma StatesExactly(archives: seq<string>, objects: map<string, RemoteObject>, p: nat)
    requires archives != []
    ensures (exists v :: v in Versions(archives, objects) && v.lines == p) <==>
      p == |archives| || (p < |archives| && StartsDay(archives, objects, p))
    ensures forall v | v in Versions(archives, objects) :: Dates(archives, objects, v)
  {
    var closed := Closed(archives, objects, |archives|);
    ClosedExactly(archives, objects, |archives|, p);
    StateDates(archives, objects, |closed| + 1, |archives|);
    var last := StateAt(archives, objects, |closed| + 1, |archives|);
    assert last in Versions(archives, objects);
  }

  // ----- which states are kept -----

  predicate HasDay(versions: seq<IndexVersion>, i: int) {
    0 <= i < |versions| && versions[i].day.Some?
  }

  function MonthAt(versions: seq<IndexVersion>, monthOf: nat -> nat, i: int): nat
    requires HasDay(versions, i)
  {
    monthOf(versions[i].day.value)
  }

  /** The dated states after `i` and before `n`. */
  function DatedAfter(versions: seq<IndexVersion>, i: int, n: int): set<int> {
    set j | i < j < n && HasDay(versions, j)
  }

  /** The months after `m` in which some state is dated. */
  function MonthsAfter(versions: seq<IndexVersion>, monthOf: nat -> nat, m: nat): set<nat> {
    set j | 0 <= j < |versions| && HasDay(versions, j) && m < MonthAt(versions, monthOf, j) ::
      MonthAt(versions, monthOf, j)
  }

  /** The last dated state of its month. */
  ghost predicate EndsMonth(versions: seq<IndexVersion>, monthOf: nat -> nat, i: int) {
    HasDay(versions, i) &&
    forall j | i < j < |versions| && HasDay(versions, j) ::
      MonthAt(versions, monthOf, j) != MonthAt(versions, monthOf, i)
  }

  ghost predicate WantedMonthly(versions: seq<IndexVersion>, keepMonthly: nat, monthOf: nat -> nat, i: int) {
    EndsMonth(versions, monthOf, i) && |MonthsAfter(versions, monthOf, MonthAt(versions, monthOf, i))| < keepMonthly
  }

  /** The latest state, a dated state with fewer than `keepDaily` dated ones after it, or the last of its month with
      fewer than `keepMonthly` later months. */
  ghost predicate Wanted(versions: seq<IndexVersion>, keepDaily: nat, keepMonthly: nat, monthOf: nat -> nat, i: int) {
    0 <= i < |versions| &&
    (|| i == |versions| - 1
     || (HasDay(versions, i) && |DatedAfter(versions, i, |versions|)| < keepDaily)
     || WantedMonthly(versions, keepMonthly, monthOf, i))
  }

  // ----- the dated list -----

  lemma DatedStep(versions: seq<IndexVersion>, n: nat)
    requires n < |versions|
    ensures Dated(versions[..n + 1]) == Dated(versions[..n]) + (if HasDay(versions, n) then [versions[n]] else [])
  {
    assert versions[..n + 1][..n] == versions[..n];
  }

  lemma {:induction false} DatedCount(versions: seq<IndexVersion>, i: nat, n: nat)
    requires i < n <= |versions|
    ensures |Dated(versions[..n])| == |Dated(versions[..i + 1])| + |DatedAfter(versions, i, n)|
  {
    if n == i + 1 {
      assert DatedAfter(versions, i, n) == {};
    } else {
      DatedCount(versions, i, n - 1);
      DatedStep(versions, n - 1);
      var before := DatedAfter(versions, i, n - 1);
      assert DatedAfter(versions, i, n) == if HasDay(versions, n - 1) then before + {n - 1} else before;
    }
  }

  lemma {:induction false} DatedPrefix(versions: seq<IndexVersion>, i: nat, n: nat)
    requires i <= n <= |versions|
    ensures Dated(versions[..i]) <= Dated(versions[..n])
  {
    if i < n {
      DatedPrefix(versions, i, n - 1);
      DatedStep(versions, n - 1);
    }
  }

  /** The place of a dated state in the dated list leaves as many behind as there are dated states after it. */
  lemma DatedPlace(versions: seq<IndexVersion>, i: nat) returns (q: nat)
    requires HasDay(versions, i)
    ensures q < |Dated(versions)| && Dated(versions)[q] == versions[i]
    ensures |Dated(versions)| - 1 - q == |DatedAfter(versions, i, |versions|)|
  {
    var n := |versions|;
    assert versions[..n] == versions;
    q := |Dated(versions[..i])|;
    DatedStep(versions, i);
    DatedPrefix(versions, i + 1, n);
    DatedCount(versions, i, n);
  }

  // ----- the month ends -----

  ghost predicate LastOfMonth(versions: seq<IndexVersion>, monthOf: nat -> nat, n: int, m: nat, v: IndexVersion) {
    exists j | 0 <= j < n :: IsLastOfMonth(versions, monthOf, n, m, j) && versions[j] == v
  }

  ghost predicate IsLastOfMonth(versions: seq<IndexVersion>, monthOf: nat -> nat, n: int, m: nat, j: int) {
    HasDay(versions, j) && MonthAt(versions, monthOf, j) == m &&
    forall k | j < k < n && HasDay(versions, k) :: MonthAt(versions, monthOf, k) != m
  }

  ghost predicate HasMonth(versions: seq<IndexVersion>, monthOf: nat -> nat, n: int, m: nat) {
    exists j | 0 <= j < n :: HasDay(versions, j) && MonthAt(versions, monthOf, j) == m
  }

  lemma HasMonthStep(versions: seq<IndexVersion>, monthOf: nat -> nat, n: nat, m: nat)
    requires n < |versions|
    ensures HasMonth(versions, monthOf, n + 1, m) <==>
      HasMonth(versions, monthOf, n, m) || (HasDay(versions, n) && MonthAt(versions, monthOf, n) == m)
  {
  }

  lemma {:induction false} MonthEndsMean(versions: seq<IndexVersion>, monthOf: nat -> nat, n: nat, m: nat)
    requires n <= |versions| && forall v | v in Dated(versions[..n]) :: v.day.Some?
    ensures var months := MonthEnds(Dated(versions[..n]), monthOf);
      && (m in months <==> HasMonth(versions, monthOf, n, m))
      && (m in months ==> LastOfMonth(versions, monthOf, n, m, months[m]))
  {
    if n != 0 {
      var k := n - 1;
      var before, dated := Dated(versions[..k]), Dated(versions[..n]);
      DatedStep(versions, k);
      DatedMembers(versions[..k]);
      MonthEndsMean(versions, monthOf, k, m);
      HasMonthStep(versions, monthOf, k, m);
      if HasDay(versions, k) {
        assert dated[..|dated| - 1] == before && dated[|dated| - 1] == versions[k];
        MonthTaken(versions, monthOf, k, m);
      } else {
        assert dated == before;
        if HasMonth(versions, monthOf, k, m) {
          LastStays(versions, monthOf, k, m, MonthEnds(before, monthOf)[m]);
        }
      }
    }
  }

  lemma LastStays(versions: seq<IndexVersion>, monthOf: nat -> nat, n: nat, m: nat, v: IndexVersion)
    requires LastOfMonth(versions, monthOf, n, m, v)
    requires n < |versions| && (HasDay(versions, n) ==> MonthAt(versions, monthOf, n) != m)
    ensures LastOfMonth(versions, monthOf, n + 1, m, v)
  {
    var j :| 0 <= j < n && IsLastOfMonth(versions, monthOf, n, m, j) && versions[j] == v;
    assert IsLastOfMonth(versions, monthOf, n + 1, m, j);
  }

  lemma MonthTaken(versions: seq<IndexVersion>, monthOf: nat -> nat, k: nat, m: nat)
    requires HasDay(versions, k) && forall v | v in Dated(versions[..k]) :: v.day.Some?
    requires var months := MonthEnds(Dated(versions[..k]), monthOf);
      m in months ==> LastOfMonth(versions, monthOf, k, m, months[m])
    ensures var months := MonthEnds(Dated(versions[..k]), monthOf)[MonthAt(versions, monthOf, k) := versions[k]];
      m in months ==> LastOfMonth(versions, monthOf, k + 1, m, months[m])
  {
    var months := MonthEnds(Dated(versions[..k]), monthOf);
    if MonthAt(versions, monthOf, k) == m {
      assert IsLastOfMonth(versions, monthOf, k + 1, m, k);
    } else if m in months {
      LastStays(versions, monthOf, k, m, months[m]);
    }
  }

  lemma LastIsEnd(versions: seq<IndexVersion>, monthOf: nat -> nat, m: nat, v: IndexVersion) returns (j: nat)
    requires LastOfMonth(versions, monthOf, |versions|, m, v)
    ensures EndsMonth(versions, monthOf, j) && MonthAt(versions, monthOf, j) == m && versions[j] == v
  {
    var k :| 0 <= k < |versions| && IsLastOfMonth(versions, monthOf, |versions|, m, k) && versions[k] == v;
    j := k;
  }

  lemma MonthsExactly(versions: seq<IndexVersion>, monthOf: nat -> nat, m: nat)
    requires forall v | v in Dated(versions) :: v.day.Some?
    ensures var months := MonthEnds(Dated(versions), monthOf);
      && (m in months <==> HasMonth(versions, monthOf, |versions|, m))
      && (m in months ==> LastOfMonth(versions, monthOf, |versions|, m, months[m]))
  {
    assert versions[..|versions|] == versions;
    MonthEndsMean(versions, monthOf, |versions|, m);
  }

  lemma LaterMonths(versions: seq<IndexVersion>, monthOf: nat -> nat, m: nat)
    requires forall v | v in Dated(versions) :: v.day.Some?
    ensures var months := MonthEnds(Dated(versions), monthOf);
      LaterKeys(months, m) == MonthsAfter(versions, monthOf, m)
  {
    var months := MonthEnds(Dated(versions), monthOf);
    forall m' ensures m' in LaterKeys(months, m) <==> m' in MonthsAfter(versions, monthOf, m) {
      MonthsExactly(versions, monthOf, m');
    }
  }

  // ----- retention -----

  lemma DailyRetained(versions: seq<IndexVersion>, keepDaily: nat, i: nat)
    requires Ascending(versions) && i < |versions|
    ensures var dated := Dated(versions);
      versions[i].number in LastDays(dated, keepDaily) <==>
      HasDay(versions, i) && |DatedAfter(versions, i, |versions|)| < keepDaily
  {
    var dated := Dated(versions);
    DatedMembers(versions);
    if HasDay(versions, i) {
      var q := DatedPlace(versions, i);
    }
    if q :| 0 <= q < |dated| && |dated| - keepDaily <= q && dated[q].number == versions[i].number {
      assert dated[q] in versions;
      var j :| 0 <= j < |versions| && versions[j] == dated[q];
      assert j == i;
      DatedApart(versions, q, i);
    }
  }

  /** Two places of the dated list hold different states. */
  lemma DatedApart(versions: seq<IndexVersion>, q: nat, i: nat)
    requires Ascending(versions) && HasDay(versions, i) && q < |Dated(versions)| && Dated(versions)[q] == versions[i]
    ensures |Dated(versions)| - 1 - q == |DatedAfter(versions, i, |versions|)|
  {
    var p := DatedPlace(versions, i);
    DatedAscends(versions, if p < q then p else q, if p < q then q else p);
  }

  lemma {:induction false} DatedAscends(versions: seq<IndexVersion>, p: nat, q: nat)
    requires Ascending(versions) && p <= q < |Dated(versions)|
    ensures p < q ==> Dated(versions)[p].number < Dated(versions)[q].number
  {
    var n := |versions| - 1;
    var init := versions[..n];
    if q < |Dated(init)| {
      DatedAscends(init, p, q);
    } else if p < q {
      DatedMembers(init);
      var x := Dated(init)[p];
      assert x in init;
      var j :| 0 <= j < n && init[j] == x;
      assert versions[j] == x && Dated(versions)[q] == versions[n];
    }
  }

  /** What the month ends hold of a month that has a dated state. */
  lemma MonthEnd(versions: seq<IndexVersion>, monthOf: nat -> nat, m: nat) returns (j: nat)
    requires forall v | v in Dated(versions) :: v.day.Some?
    requires m in MonthEnds(Dated(versions), monthOf)
    ensures var months := MonthEnds(Dated(versions), monthOf);
      && EndsMonth(versions, monthOf, j) && MonthAt(versions, monthOf, j) == m && versions[j] == months[m]
      && LaterKeys(months, m) == MonthsAfter(versions, monthOf, m)
  {
    MonthsExactly(versions, monthOf, m);
    LaterMonths(versions, monthOf, m);
    j := LastIsEnd(versions, monthOf, m, MonthEnds(Dated(versions), monthOf)[m]);
  }

  lemma MonthlyRetained(versions: seq<IndexVersion>, keepMonthly: nat, monthOf: nat -> nat, i: nat)
    requires Ascending(versions) && i < |versions| && forall v | v in Dated(versions) :: v.day.Some?
    ensures versions[i].number in LastMonths(MonthEnds(Dated(versions), monthOf), keepMonthly) <==>
      WantedMonthly(versions, keepMonthly, monthOf, i)
  {
    var months := MonthEnds(Dated(versions), monthOf);
    if WantedMonthly(versions, keepMonthly, monthOf, i) {
      WantedIsListed(versions, keepMonthly, monthOf, i);
    }
    if m :| m in months && |LaterKeys(months, m)| < keepMonthly && months[m].number == versions[i].number {
      ListedIsWanted(versions, keepMonthly, monthOf, i, m);
    }
  }

  lemma ListedIsWanted(versions: seq<IndexVersion>, keepMonthly: nat, monthOf: nat -> nat, i: nat, m: nat)
    requires Ascending(versions) && i < |versions| && forall v | v in Dated(versions) :: v.day.Some?
    requires var months := MonthEnds(Dated(versions), monthOf);
      m in months && |LaterKeys(months, m)| < keepMonthly && months[m].number == versions[i].number
    ensures WantedMonthly(versions, keepMonthly, monthOf, i)
  {
    var j := MonthEnd(versions, monthOf, m);
    assert j + 1 == versions[j].number == versions[i].number == i + 1;
  }

  lemma WantedIsListed(versions: seq<IndexVersion>, keepMonthly: nat, monthOf: nat -> nat, i: nat)
    requires i < |versions| && forall v | v in Dated(versions) :: v.day.Some?
    requires WantedMonthly(versions, keepMonthly, monthOf, i)
    ensures versions[i].number in LastMonths(MonthEnds(Dated(versions), monthOf), keepMonthly)
  {
    var m := MonthAt(versions, monthOf, i);
    assert HasMonth(versions, monthOf, |versions|, m);
    MonthsExactly(versions, monthOf, m);
    var j := MonthEnd(versions, monthOf, m);
    OneEnd(versions, monthOf, i, j);
  }

  lemma OneEnd(versions: seq<IndexVersion>, monthOf: nat -> nat, i: nat, j: nat)
    requires EndsMonth(versions, monthOf, i) && EndsMonth(versions, monthOf, j)
    requires MonthAt(versions, monthOf, i) == MonthAt(versions, monthOf, j)
    ensures i == j
  {
  }

  /** A state is retained if and only if it is wanted. */
  lemma RetainedExactly(versions: seq<IndexVersion>, keepDaily: nat, keepMonthly: nat, monthOf: nat -> nat, i: nat)
    requires Ascending(versions) && i < |versions|
    ensures versions[i].lines as int in RetainedLines(versions, keepDaily, keepMonthly, monthOf) <==>
      Wanted(versions, keepDaily, keepMonthly, monthOf, i)
  {
    DatedMembers(versions);
    DailyRetained(versions, keepDaily, i);
    MonthlyRetained(versions, keepMonthly, monthOf, i);
    var keep := RetainedNumbers(versions, keepDaily, keepMonthly, monthOf);
    assert versions[i].number in keep <==> Wanted(versions, keepDaily, keepMonthly, monthOf, i);
    assert versions[i] in versions;
  }

  lemma RetainedAreStates(versions: seq<IndexVersion>, keepDaily: nat, keepMonthly: nat, monthOf: nat -> nat)
    ensures forall b | b in RetainedLines(versions, keepDaily, keepMonthly, monthOf) ::
      exists i :: 0 <= i < |versions| && versions[i].lines as int == b
  {
  }
}
