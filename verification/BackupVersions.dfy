/** The states a backup can be restored to: cuts of the index by the upload days of the archives it names. */
module BackupVersions {
  import opened Options

  /** Size and upload instant (seconds since the epoch, UTC). */
  datatype RemoteObject = RemoteObject(size: nat, modified: nat)

  datatype IndexVersion = IndexVersion(number: nat, lines: nat, day: Option<nat>, uploadedAt: Option<nat>)

  function DayOf(instant: nat): nat {
    instant / 86400
  }

  function DayOption(instant: Option<nat>): Option<nat> {
    match instant
    case None => None
    case Some(i) => Some(DayOf(i))
  }

  // ----- what a state is -----

  /** Upload instant of the newest present archive named so far. */
  function Newest(archives: seq<string>, objects: map<string, RemoteObject>): Option<nat> {
    if archives == [] then None
    else
      var before, last := Newest(archives[..|archives| - 1], objects), archives[|archives| - 1];
      if last !in objects then before
      else if before.Some? && objects[last].modified <= before.value then before
      else Some(objects[last].modified)
  }

  /** Position `p` opens a new day: its archive was uploaded on a later day than everything before it. */
  predicate OpensDay(archives: seq<string>, objects: map<string, RemoteObject>, p: nat)
    requires p < |archives|
  {
    var newest := Newest(archives[..p], objects);
    archives[p] in objects && newest.Some? && DayOf(newest.value) < DayOf(objects[archives[p]].modified)
  }

  function StateAt(archives: seq<string>, objects: map<string, RemoteObject>, number: nat, p: nat): IndexVersion
    requires p <= |archives|
  {
    var newest := Newest(archives[..p], objects);
    IndexVersion(number, p, DayOption(newest), newest)
  }

  /** The states closed by the first `p` positions. */
  function Closed(archives: seq<string>, objects: map<string, RemoteObject>, p: nat): seq<IndexVersion>
    requires p <= |archives|
  {
    if p == 0 then []
    else
      var before := Closed(archives, objects, p - 1);
      if OpensDay(archives, objects, p - 1) then before + [StateAt(archives, objects, |before| + 1, p - 1)] else before
  }

  function Versions(archives: seq<string>, objects: map<string, RemoteObject>): seq<IndexVersion> {
    var closed := Closed(archives, objects, |archives|);
    if archives == [] then closed else closed + [StateAt(archives, objects, |closed| + 1, |archives|)]
  }

  lemma NewestStep(archives: seq<string>, objects: map<string, RemoteObject>, p: nat)
    requires p < |archives|
    ensures archives[..p + 1][..p] == archives[..p]
    ensures Newest(archives[..p + 1], objects) ==
      (var before := Newest(archives[..p], objects);
       if archives[p] !in objects then before
       else if before.Some? && objects[archives[p]].modified <= before.value then before
       else Some(objects[archives[p]].modified))
  {
    assert archives[..p + 1][..p] == archives[..p];
  }

  /** The newest upload covers every present archive named so far. */
  lemma {:induction false} NewestIsMax(archives: seq<string>, objects: map<string, RemoteObject>)
    ensures var newest := Newest(archives, objects);
      && (forall x | x in archives && x in objects :: newest.Some? && objects[x].modified <= newest.value)
      && (newest.Some? ==> exists x :: x in archives && x in objects && objects[x].modified == newest.value)
  {
    if archives != [] {
      var init, last := archives[..|archives| - 1], archives[|archives| - 1];
      NewestIsMax(init, objects);
      assert archives == init + [last];
      var newest := Newest(archives, objects);
      if newest.Some? {
        if last in objects && newest == Some(objects[last].modified) {
          assert last in archives;
        } else {
          var x :| x in init && x in objects && objects[x].modified == newest.value;
          assert x in archives;
        }
      }
    }
  }

  /** Only the first naming of an archive can open a day. */
  lemma SeenOpensNothing(archives: seq<string>, objects: map<string, RemoteObject>, p: nat)
    requires p < |archives| && archives[p] in archives[..p]
    ensures !OpensDay(archives, objects, p)
    ensures Newest(archives[..p + 1], objects) == Newest(archives[..p], objects)
  {
    NewestIsMax(archives[..p], objects);
    NewestStep(archives, objects, p);
    if archives[p] in objects {
      DayMonotone(objects[archives[p]].modified, Newest(archives[..p], objects).value);
    }
  }

  lemma DayMonotone(i: nat, j: nat)
    requires i <= j
    ensures DayOf(i) <= DayOf(j)
  {
  }

  // ----- the derivation -----

  method DeriveVersions(archives: seq<string>, objects: map<string, RemoteObject>) returns (versions: seq<IndexVersion>)
    ensures versions == Versions(archives, objects)
  {
    versions := [];
    var seen: set<string> := {};
    var day: Option<nat> := None;
    var newest: Option<nat> := None;
    for position := 0 to |archives|
      invariant versions == Closed(archives, objects, position)
      invariant forall x :: x in seen <==> x in archives[..position]
      invariant newest == Newest(archives[..position], objects) && day == DayOption(newest)
    {
      var archive := archives[position];
      NewestStep(archives, objects, position);
      assert forall x :: x in archives[..position + 1] <==> x in archives[..position] || x == archive;
      if archive in seen {
        SeenOpensNothing(archives, objects, position);
      } else {
        seen := seen + {archive};
        if archive in objects {
          var uploaded := objects[archive].modified;
          if day.Some? && newest.Some? && DayOf(uploaded) > day.value {
            versions := versions + [IndexVersion(|versions| + 1, position, day, newest)];
            day, newest := Some(DayOf(uploaded)), Some(uploaded);
          } else {
            if newest.Some? && newest.value < uploaded {
              DayMonotone(newest.value, uploaded);
            }
            if day.None? {
              day := Some(DayOf(uploaded));
            }
            newest := Some(if newest.Some? && uploaded <= newest.value then newest.value else uploaded);
          }
        }
      }
    }
    if archives != [] {
      versions := versions + [IndexVersion(|versions| + 1, |archives|, day, newest)];
    }
    assert archives[..|archives|] == archives;
  }

  // ----- shape of the states -----

  /** States are numbered from one, end at strictly growing line counts on strictly growing days. */
  ghost predicate Ascending(versions: seq<IndexVersion>) {
    && (forall i | 0 <= i < |versions| :: versions[i].number == i + 1)
    && (forall i, j | 0 <= i < j < |versions| :: versions[i].lines < versions[j].lines)
    && (forall i, j | 0 <= i < j < |versions| ::
          versions[i].day.Some? && versions[j].day.Some? && versions[i].day.value < versions[j].day.value)
  }

  /** Every state so far ended before line `p`, on a day before that of `instant`. */
  ghost predicate EndedBefore(versions: seq<IndexVersion>, p: nat, instant: Option<nat>) {
    forall i | 0 <= i < |versions| ::
      && 1 <= versions[i].lines < p
      && versions[i].day.Some? && instant.Some? && versions[i].day.value < DayOf(instant.value)
  }

  lemma AppendAscends(versions: seq<IndexVersion>, v: IndexVersion)
    requires Ascending(versions) && v.number == |versions| + 1 && v.day == DayOption(v.uploadedAt)
    requires EndedBefore(versions, v.lines, v.uploadedAt)
    ensures Ascending(versions + [v])
  {
    var more, n := versions + [v], |versions|;
    forall i | 0 <= i < n
      ensures more[i] == versions[i] && more[i].lines < v.lines
      ensures more[i].day.Some? && v.day.Some? && more[i].day.value < v.day.value
    {
      assert 1 <= versions[i].lines < v.lines;
    }
    assert more[n] == v;
  }

  lemma LaterStillEnded(versions: seq<IndexVersion>, p: nat, instant: Option<nat>, p': nat, instant': Option<nat>)
    requires EndedBefore(versions, p, instant) && p <= p' &&
      (instant.Some? ==> instant'.Some? && instant.value <= instant'.value)
    ensures EndedBefore(versions, p', instant')
  {
    if instant.Some? {
      DayMonotone(instant.value, instant'.value);
    }
    forall i | 0 <= i < |versions|
      ensures 1 <= versions[i].lines < p' && versions[i].day.Some? && instant'.Some? &&
        versions[i].day.value < DayOf(instant'.value)
    {
      assert 1 <= versions[i].lines < p;
    }
  }

  lemma {:induction false} ClosedAscends(archives: seq<string>, objects: map<string, RemoteObject>, p: nat)
    requires p <= |archives|
    ensures Ascending(Closed(archives, objects, p))
    ensures EndedBefore(Closed(archives, objects, p), p, Newest(archives[..p], objects))
  {
    if p != 0 {
      var before, v := Closed(archives, objects, p - 1), StateAt(archives, objects,
        |Closed(archives, objects, p - 1)| + 1, p - 1);
      var newest, newest' := Newest(archives[..p - 1], objects), Newest(archives[..p], objects);
      ClosedAscends(archives, objects, p - 1);
      NewestStep(archives, objects, p - 1);
      LaterStillEnded(before, p - 1, newest, p, newest');
      if OpensDay(archives, objects, p - 1) {
        assert p != 1 by { assert archives[..0] == []; }
        AppendAscends(before, v);
      }
    }
  }

  /** The derived states ascend and the last one is the whole index. */
  lemma VersionsAscend(archives: seq<string>, objects: map<string, RemoteObject>)
    requires archives != []
    ensures var versions := Versions(archives, objects);
      && versions != [] && Ascending(versions)
      && versions[|versions| - 1].lines == |archives|
      && (forall v | v in versions :: 1 <= v.lines <= |archives|)
  {
    ClosedAscends(archives, objects, |archives|);
    var closed := Closed(archives, objects, |archives|);
    AppendAscends(closed, StateAt(archives, objects, |closed| + 1, |archives|));
  }

  // ----- retention -----

  /** The dated states, oldest first. */
  function Dated(versions: seq<IndexVersion>): seq<IndexVersion> {
    if versions == [] then []
    else
      Dated(versions[..|versions| - 1]) +
      (if versions[|versions| - 1].day.Some? then [versions[|versions| - 1]] else [])
  }

  /** Last dated state of each month. */
  function MonthEnds(dated: seq<IndexVersion>, monthOf: nat -> nat): map<nat, IndexVersion>
    requires forall v | v in dated :: v.day.Some?
  {
    if dated == [] then map[]
    else
      var last := dated[|dated| - 1];
      MonthEnds(dated[..|dated| - 1], monthOf)[monthOf(last.day.value) := last]
  }

  lemma {:induction false} DatedMembers(versions: seq<IndexVersion>)
    ensures forall v | v in Dated(versions) :: v in versions && v.day.Some?
  {
    if versions != [] {
      DatedMembers(versions[..|versions| - 1]);
    }
  }

  function LastDays(dated: seq<IndexVersion>, keepDaily: nat): set<nat> {
    set i | 0 <= i < |dated| && |dated| - keepDaily <= i :: dated[i].number
  }

  function LaterKeys(months: map<nat, IndexVersion>, m: nat): set<nat> {
    set m' | m' in months && m < m'
  }

  function LastMonths(months: map<nat, IndexVersion>, keepMonthly: nat): set<nat> {
    set m | m in months && |LaterKeys(months, m)| < keepMonthly :: months[m].number
  }

  /** Numbers of the retained states: the latest, the last `keepDaily` dated ones, and the last state of each
      of the last `keepMonthly` months. */
  function RetainedNumbers(versions: seq<IndexVersion>, keepDaily: nat, keepMonthly: nat, monthOf: nat -> nat): set<nat>
    requires versions != []
  {
    DatedMembers(versions);
    var dated := Dated(versions);
    var months := MonthEnds(dated, monthOf);
    {versions[|versions| - 1].number} + LastDays(dated, keepDaily) + LastMonths(months, keepMonthly)
  }

  /** Line counts at which the retained states end. */
  function RetainedLines(versions: seq<IndexVersion>, keepDaily: nat, keepMonthly: nat, monthOf: nat -> nat): set<int> {
    if versions == [] then {}
    else
      var keep := RetainedNumbers(versions, keepDaily, keepMonthly, monthOf);
      set v | v in versions && v.number in keep :: v.lines as int
  }

  /** Whatever the retention counts, the latest state is retained. */
  lemma LatestIsRetained(archives: seq<string>, objects: map<string, RemoteObject>, keepDaily: nat, keepMonthly: nat,
      monthOf: nat -> nat)
    requires archives != []
    ensures |archives| in RetainedLines(Versions(archives, objects), keepDaily, keepMonthly, monthOf)
    ensures forall b | b in RetainedLines(Versions(archives, objects), keepDaily, keepMonthly, monthOf) ::
      1 <= b <= |archives|
  {
    VersionsAscend(archives, objects);
    var versions := Versions(archives, objects);
    var last := versions[|versions| - 1];
    assert last in versions && last.number in RetainedNumbers(versions, keepDaily, keepMonthly, monthOf);
  }
}
