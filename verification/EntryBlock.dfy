/** Which sessions an instrument's exchange actions block from entry, and for what reason. */
module EntryBlock {
  import opened Options
  import opened Sorting

  datatype Kind =
    | DelistingDecided | LiquidationTrading | AdministrativeDesignated | AdministrativeReleased
    | TradingHalted | TradingResumed

  /** One action, usable from the date `effective` on; `start` and `end` state its window when the exchange fixed one. */
  datatype Action = Action(effective: int, stamp: string, receipt: string, kind: Kind, cancellation: bool,
      start: Option<int>, end: Option<int>)

  // ----- what the actions mean -----

  /** The actions of one instrument in order, the session dates, and the longest life of an open notice. */
  datatype Record = Record(actions: seq<Action>, sessions: seq<int>, max: nat)

  ghost predicate Ascending(dates: seq<int>) {
    forall i, j | 0 <= i < j < |dates| :: dates[i] < dates[j]
  }

  ghost predicate InOrder(actions: seq<Action>) {
    forall i, j | 0 <= i < j < |actions| :: actions[i].effective <= actions[j].effective
  }

  ghost predicate Valid(c: Record) {
    Ascending(c.sessions) && InOrder(c.actions)
  }

  /** The first session on or after a date. */
  function FirstSession(sessions: seq<int>, d: int): (i: nat)
    ensures i <= |sessions| && (i < |sessions| ==> d <= sessions[i]) && forall t | 0 <= t < i :: sessions[t] < d
  {
    if sessions == [] || d <= sessions[0] then 0 else 1 + FirstSession(sessions[1..], d)
  }

  /** The session at which action `j` takes effect. */
  function At(c: Record, j: nat): nat
    requires j < |c.actions|
  {
    FirstSession(c.sessions, c.actions[j].effective)
  }

  predicate IsNotice(a: Action) {
    !a.cancellation && (a.kind == DelistingDecided || a.kind == LiquidationTrading)
  }

  /** A notice without a stated end. */
  predicate IsOpen(a: Action) {
    IsNotice(a) && a.end.None?
  }

  predicate IsBounded(a: Action) {
    IsNotice(a) && a.end.Some?
  }

  /** No cancellation, of whatever kind, follows `j` among the first `k` actions. */
  ghost predicate Standing(c: Record, k: nat, j: nat)
    requires k <= |c.actions|
  {
    forall x | j < x < k :: !c.actions[x].cancellation
  }

  /** Some open notice took effect at session `t` or at most `max` sessions before. */
  ghost predicate Recent(c: Record, k: nat, t: int)
    requires k <= |c.actions|
  {
    exists m | 0 <= m < k :: IsOpen(c.actions[m]) && At(c, m) <= t <= At(c, m) + c.max
  }

  ghost predicate RecentThrough(c: Record, k: nat, from: int, i: int)
    requires k <= |c.actions|
  {
    forall t | from <= t < i :: Recent(c, k, t)
  }

  /** An open notice of that kind stands, and no session from its own up to (not including) `i` was without a recent notice. */
  ghost predicate Alive(c: Record, k: nat, kind: Kind, i: int)
    requires k <= |c.actions|
  {
    exists j | 0 <= j < k :: AliveAs(c, k, kind, i, j)
  }

  ghost predicate AliveAs(c: Record, k: nat, kind: Kind, i: int, j: nat)
    requires j < k <= |c.actions|
  {
    IsOpen(c.actions[j]) && c.actions[j].kind == kind && Standing(c, k, j) && RecentThrough(c, k, At(c, j), i)
  }

  /** The last administrative action that is not a cancellation designates. */
  ghost predicate Administrative(c: Record, k: nat)
    requires k <= |c.actions|
  {
    exists j | 0 <= j < k ::
      && c.actions[j].kind == AdministrativeDesignated && !c.actions[j].cancellation
      && forall x | j < x < k :: c.actions[x].kind == AdministrativeReleased ==> c.actions[x].cancellation
  }

  /** A standing notice with a stated end covers the date. */
  ghost predicate Covers(c: Record, k: nat, date: int, j: nat)
    requires j < k <= |c.actions|
  {
    IsBounded(c.actions[j]) && Standing(c, k, j) && date <= c.actions[j].end.value
  }

  ghost predicate Covered(c: Record, k: nat, date: int)
    requires k <= |c.actions|
  {
    exists j | 0 <= j < k :: Covers(c, k, date, j)
  }

  /** A covering notice's stated window has begun. */
  ghost predicate CoveredInside(c: Record, k: nat, date: int)
    requires k <= |c.actions|
  {
    exists j | 0 <= j < k :: Covers(c, k, date, j) && c.actions[j].start.Some? && c.actions[j].start.value <= date
  }

  /** How many actions are in effect on a date. */
  function InEffect(actions: seq<Action>, date: int): (k: nat)
    ensures k <= |actions| && (forall x | 0 <= x < k :: actions[x].effective <= date) &&
      (k < |actions| ==> date < actions[k].effective)
  {
    if actions == [] || date < actions[0].effective then 0 else 1 + InEffect(actions[1..], date)
  }

  /** Why entries are blocked at session `i`, if they are. */
  ghost function Reason(c: Record, blockAdministrative: bool, i: nat): Option<Kind>
    requires i < |c.sessions|
  {
    var k := InEffect(c.actions, c.sessions[i]);
    if CoveredInside(c, k, c.sessions[i]) then Some(LiquidationTrading)
    else if Covered(c, k, c.sessions[i]) then Some(DelistingDecided)
    else if Alive(c, k, DelistingDecided, i + 1) then Some(DelistingDecided)
    else if Alive(c, k, LiquidationTrading, i + 1) then Some(LiquidationTrading)
    else if Administrative(c, k) && blockAdministrative then Some(AdministrativeDesignated)
    else None
  }

  // ----- the machine -----

  datatype Window = Window(since: nat, start: Option<int>, end: int)

  datatype State = State(delisting: bool, liquidation: bool, administrative: bool, lastNotice: int,
      bounded: seq<Window>)

  function ApplyAction(s: State, a: Action, i: nat): State {
    if a.cancellation then s.(delisting := false, liquidation := false, bounded := [])
    else match a.kind
      case DelistingDecided =>
        if a.end.Some? then s.(bounded := s.bounded + [Window(i, a.start, a.end.value)]) else s.(delisting := true,
          lastNotice := i)
      case LiquidationTrading =>
        if a.end.Some? then s.(bounded := s.bounded + [Window(i, a.start, a.end.value)]) else s.(liquidation := true,
          lastNotice := i)
      case AdministrativeDesignated => s.(administrative := true)
      case AdministrativeReleased => s.(administrative := false)
      case TradingHalted => s
      case TradingResumed => s
  }

  function Lapse(s: State, i: int, max: nat): State {
    if (s.delisting || s.liquidation) && i - s.lastNotice > max then s.(delisting := false, liquidation := false) else s
  }

  predicate Covering(w: Window, date: int, i: nat) {
    w.since <= i && date <= w.end
  }

  function StateReason(s: State, blockAdministrative: bool, date: int, i: nat): Option<Kind> {
    if exists w | w in s.bounded :: Covering(w, date, i) then
      if exists w | w in s.bounded ::
        Covering(w, date, i) && w.start.Some? && w.start.value <= date then Some(LiquidationTrading)
      else Some(DelistingDecided)
    else if s.delisting then Some(DelistingDecided)
    else if s.liquidation then Some(LiquidationTrading)
    else if s.administrative && blockAdministrative then Some(AdministrativeDesignated)
    else None
  }

  // ----- how the state tracks the meaning -----

  ghost predicate LastNoticeIs(c: Record, k: nat, last: int)
    requires k <= |c.actions|
  {
    && (forall m | 0 <= m < k && IsOpen(c.actions[m]) :: At(c, m) <= last)
    && (last == -1 || exists m | 0 <= m < k :: IsOpen(c.actions[m]) && At(c, m) == last)
  }

  ghost predicate IsWindow(c: Record, k: nat, w: Window, j: nat)
    requires j < k <= |c.actions|
  {
    IsBounded(c.actions[j]) && Standing(c, k, j) && w == Window(At(c, j), c.actions[j].start, c.actions[j].end.value)
  }

  ghost predicate WindowsAre(c: Record, k: nat, bounded: seq<Window>)
    requires k <= |c.actions|
  {
    forall w :: w in bounded <==> exists j | 0 <= j < k :: IsWindow(c, k, w, j)
  }

  /** The state after the first `k` actions, before session `i` has been checked for a lapse. */
  ghost predicate Tracks(c: Record, k: nat, i: nat, s: State)
    requires k <= |c.actions|
  {
    && (s.delisting <==> Alive(c, k, DelistingDecided, i))
    && (s.liquidation <==> Alive(c, k, LiquidationTrading, i))
    && (s.administrative <==> Administrative(c, k))
    && LastNoticeIs(c, k, s.lastNotice) && WindowsAre(c, k, s.bounded)
  }

  lemma RecentKeeps(c: Record, k: nat, t: int)
    requires k < |c.actions| && t < At(c, k)
    ensures Recent(c, k, t) <==> Recent(c, k + 1, t)
  {
    if Recent(c, k, t) {
      var m :| 0 <= m < k && IsOpen(c.actions[m]) && At(c, m) <= t <= At(c, m) + c.max;
      assert m < k + 1;
    }
  }

  lemma AliveKeeps(c: Record, k: nat, kind: Kind, j: nat)
    requires k < |c.actions| && j < k
    ensures AliveAs(c, k + 1, kind, At(c, k), j) <==> !c.actions[k].cancellation && AliveAs(c, k, kind, At(c, k), j)
  {
    var n := k + 1;
    forall t | t < At(c, k) ensures Recent(c, k, t) <==> Recent(c, n, t) {
      RecentKeeps(c, k, t);
    }
    assert RecentThrough(c, k, At(c, j), At(c, k)) <==> RecentThrough(c, n, At(c, j), At(c, k));
    assert Standing(c, n, j) <==> Standing(c, k, j) && !c.actions[k].cancellation;
  }

  /** One action: open notices of its kind come alive, a cancellation ends all. */
  lemma ActionAlive(c: Record, k: nat, kind: Kind)
    requires k < |c.actions|
    ensures Alive(c, k + 1, kind, At(c, k)) <==>
      if c.actions[k].cancellation then false else Alive(c, k, kind, At(c, k)) || (IsOpen(c.actions[k]) && c.actions[k].kind == kind)
  {
    var n := k + 1;
    forall j | 0 <= j < k
      ensures AliveAs(c, n, kind, At(c, k), j) <==> !c.actions[k].cancellation && AliveAs(c, k, kind, At(c, k), j)
    {
      AliveKeeps(c, k, kind, j);
    }
    assert AliveAs(c, n, kind, At(c, k), k) <==> IsOpen(c.actions[k]) && c.actions[k].kind == kind;
    if Alive(c, k, kind, At(c, k)) {
      var j :| 0 <= j < k && AliveAs(c, k, kind, At(c, k), j);
      assert AliveAs(c, n, kind, At(c, k), j) <==> !c.actions[k].cancellation;
    }
  }

  lemma ActionAdministrative(c: Record, k: nat)
    requires k < |c.actions|
    ensures Administrative(c, k + 1) <==>
      if c.actions[k].cancellation then Administrative(c, k)
      else c.actions[k].kind == AdministrativeDesignated || (Administrative(c, k) && c.actions[k].kind != AdministrativeReleased)
  {
  }

  lemma ActionLast(c: Record, k: nat, last: int)
    requires Valid(c) && k < |c.actions| && LastNoticeIs(c, k, last)
    ensures LastNoticeIs(c, k + 1, if IsOpen(c.actions[k]) then At(c, k) else last)
  {
    forall m | 0 <= m < k ensures At(c, m) <= At(c, k) {
      SessionsInOrder(c.sessions, c.actions[m].effective, c.actions[k].effective);
    }
    if last != -1 {
      var m :| 0 <= m < k && IsOpen(c.actions[m]) && At(c, m) == last;
      assert m < k + 1;
    }
  }

  lemma SessionsInOrder(sessions: seq<int>, d: int, e: int)
    requires d <= e
    ensures FirstSession(sessions, d) <= FirstSession(sessions, e)
  {
  }

  lemma ActionWindows(c: Record, k: nat, bounded: seq<Window>)
    requires k < |c.actions| && WindowsAre(c, k, bounded)
    ensures var a := c.actions[k];
      WindowsAre(c, k + 1, if a.cancellation then [] else if IsBounded(a) then bounded + [Window(At(c, k), a.start,
        a.end.value)] else bounded)
  {
    var n := k + 1;
    var a := c.actions[k];
    forall w, j | 0 <= j < k ensures IsWindow(c, n, w, j) <==> !a.cancellation && IsWindow(c, k, w, j) {
      assert Standing(c, n, j) <==> Standing(c, k, j) && !a.cancellation;
    }
    forall w | w in bounded ensures !a.cancellation ==> exists j | 0 <= j < n :: IsWindow(c, n, w, j) {
      var j :| 0 <= j < k && IsWindow(c, k, w, j);
      assert IsWindow(c, n, w, j) <==> !a.cancellation;
    }
    if IsBounded(a) {
      assert IsWindow(c, n, Window(At(c, k), a.start, a.end.value), k);
    }
  }

  lemma ActionTracks(c: Record, k: nat, s: State)
    requires Valid(c) && k < |c.actions| && Tracks(c, k, At(c, k), s)
    ensures Tracks(c, k + 1, At(c, k), ApplyAction(s, c.actions[k], At(c, k)))
  {
    ActionAlive(c, k, DelistingDecided);
    ActionAlive(c, k, LiquidationTrading);
    ActionAdministrative(c, k);
    ActionLast(c, k, s.lastNotice);
    ActionWindows(c, k, s.bounded);
  }

  lemma LastIsRecent(c: Record, k: nat, last: int, i: nat)
    requires k <= |c.actions| && LastNoticeIs(c, k, last) && last <= i && last != -1
    ensures Recent(c, k, i) <==> i - last <= c.max
  {
    var m :| 0 <= m < k && IsOpen(c.actions[m]) && At(c, m) == last;
  }

  lemma AliveNext(c: Record, k: nat, kind: Kind, i: nat)
    requires k <= |c.actions| && forall m | 0 <= m < k :: At(c, m) <= i
    ensures Alive(c, k, kind, i + 1) <==> Alive(c, k, kind, i) && Recent(c, k, i)
  {
    var n := i + 1;
    forall j | 0 <= j < k ensures AliveAs(c, k, kind, n, j) <==> AliveAs(c, k, kind, i, j) && Recent(c, k, i) {
      assert RecentThrough(c, k, At(c, j), n) <==> RecentThrough(c, k, At(c, j), i) && Recent(c, k, i);
    }
    if Alive(c, k, kind, i) {
      var j :| 0 <= j < k && AliveAs(c, k, kind, i, j);
      assert AliveAs(c, k, kind, n, j) <==> Recent(c, k, i);
    }
  }

  /** Checking session `i` for a lapse brings the state to the next session. */
  lemma LapseTracks(c: Record, k: nat, i: nat, s: State)
    requires k <= |c.actions| && Tracks(c, k, i, s) && forall m | 0 <= m < k :: At(c, m) <= i
    ensures Tracks(c, k, i + 1, Lapse(s, i, c.max))
  {
    AliveNext(c, k, DelistingDecided, i);
    AliveNext(c, k, LiquidationTrading, i);
    if s.delisting || s.liquidation {
      assert s.lastNotice != -1;
      LastIsRecent(c, k, s.lastNotice, i);
    }
  }

  lemma WindowsCover(c: Record, k: nat, i: nat, bounded: seq<Window>, date: int)
    requires k <= |c.actions| && WindowsAre(c, k, bounded) && forall m | 0 <= m < k :: At(c, m) <= i
    ensures (exists w | w in bounded :: Covering(w, date, i)) <==> Covered(c, k, date)
    ensures (exists w | w in bounded :: Covering(w, date, i) && w.start.Some? && w.start.value <= date) <==>
      CoveredInside(c, k, date)
  {
    forall w | w in bounded
      ensures Covering(w, date, i) ==> Covered(c, k, date)
      ensures Covering(w, date, i) && w.start.Some? && w.start.value <= date ==> CoveredInside(c, k, date)
    {
      var j :| 0 <= j < k && IsWindow(c, k, w, j);
      assert Covering(w, date, i) <==> Covers(c, k, date, j);
    }
    forall j | 0 <= j < k && Covers(c, k, date, j)
      ensures exists w :: w in bounded && Covering(w, date, i) && w.start == c.actions[j].start
    {
      var w := Window(At(c, j), c.actions[j].start, c.actions[j].end.value);
      assert IsWindow(c, k, w, j);
      assert w in bounded;
    }
  }

  /** A state that tracks the actions in effect gives the reason. */
  lemma TracksReason(c: Record, i: nat, s: State, blockAdministrative: bool)
    requires Valid(c) && i < |c.sessions| && Tracks(c, InEffect(c.actions, c.sessions[i]), i + 1, s)
    ensures StateReason(s, blockAdministrative, c.sessions[i], i) == Reason(c, blockAdministrative, i)
  {
    var k := InEffect(c.actions, c.sessions[i]);
    forall m | 0 <= m < k ensures At(c, m) <= i {
      InEffectBy(c, m, i);
    }
    WindowsCover(c, k, i, s.bounded, c.sessions[i]);
  }

  lemma InEffectBy(c: Record, m: nat, i: nat)
    requires m < |c.actions| && i < |c.sessions| && c.actions[m].effective <= c.sessions[i]
    ensures At(c, m) <= i
  {
  }

  // ----- the scan -----

  datatype Block = Block(session: int, reason: Kind)

  /** The blocked sessions among the first `n`, in order. */
  ghost function Blocks(c: Record, blockAdministrative: bool, n: nat): seq<Block>
    requires n <= |c.sessions|
  {
    if n == 0 then []
    else
      Extend(Blocks(c, blockAdministrative, n - 1), c.sessions[n - 1], Reason(c, blockAdministrative, n - 1))
  }

  /** Actions not in effect at session `i - 1` take effect no earlier than `i`. */
  ghost predicate Boundary(c: Record, k: nat, i: nat)
    requires k <= |c.actions|
  {
    forall m | k <= m < |c.actions| :: i <= At(c, m)
  }

  lemma BoundaryAt(c: Record, k: nat, i: nat)
    requires Valid(c) && i < |c.sessions| && k == InEffect(c.actions, c.sessions[i])
    ensures Boundary(c, k, i + 1)
  {
    forall m | k <= m < |c.actions| ensures i + 1 <= At(c, m) {
      assert c.sessions[i] < c.actions[m].effective;
      AfterAll(c.sessions, c.actions[m].effective, i);
    }
  }

  lemma AfterAll(sessions: seq<int>, d: int, i: nat)
    requires Ascending(sessions) && i < |sessions| && sessions[i] < d
    ensures i < FirstSession(sessions, d)
  {
  }

  lemma InEffectUnique(actions: seq<Action>, date: int, k: nat)
    requires InOrder(actions) && k <= |actions| && (forall x | 0 <= x < k :: actions[x].effective <= date) &&
      (k < |actions| ==> date < actions[k].effective)
    ensures InEffect(actions, date) == k
  {
  }

  lemma NoneAtStart(c: Record)
    ensures Tracks(c, 0, 0, State(false, false, false, -1, []))
  {
  }

  /** Take in the actions that take effect at session `i`. */
  method Absorb(c: Record, i: nat, s: State, position: nat) returns (s': State, position': nat)
    requires Valid(c) && i < |c.sessions| && Ready(c, position, i, s)
    ensures position' == InEffect(c.actions, c.sessions[i]) && Tracks(c, position', i, s')
  {
    s', position' := s, position;
    while position' < |c.actions| && c.actions[position'].effective <= c.sessions[i]
      invariant position <= position' <= |c.actions| && Tracks(c, position', i, s') && Effective(c, position', i)
    {
      InEffectBy(c, position', i);
      assert At(c, position') == i;
      ActionTracks(c, position', s');
      s' := ApplyAction(s', c.actions[position'], i);
      position' := position' + 1;
    }
    InEffectUnique(c.actions, c.sessions[i], position');
  }

  /** All of the first `k` actions are in effect at session `i`, if there is one. */
  ghost predicate Effective(c: Record, k: nat, i: nat)
    requires k <= |c.actions|
  {
    i < |c.sessions| ==> forall x | 0 <= x < k :: c.actions[x].effective <= c.sessions[i]
  }

  /** Ready to take in the actions of session `i`. */
  ghost predicate Ready(c: Record, k: nat, i: nat, s: State) {
    k <= |c.actions| && Tracks(c, k, i, s) && Boundary(c, k, i) && Effective(c, k, i)
  }

  /** The lapse check gives the session's reason and makes ready for the next one. */
  lemma SessionStep(c: Record, i: nat, k: nat, s: State, blockAdministrative: bool)
    requires Valid(c) && i < |c.sessions| && k == InEffect(c.actions, c.sessions[i]) && Tracks(c, k, i, s)
    ensures Ready(c, k, i + 1, Lapse(s, i, c.max))
    ensures StateReason(Lapse(s, i, c.max), blockAdministrative, c.sessions[i], i) == Reason(c, blockAdministrative, i)
  {
    forall m | 0 <= m < k ensures At(c, m) <= i {
      InEffectBy(c, m, i);
    }
    LapseTracks(c, k, i, s);
    TracksReason(c, i, Lapse(s, i, c.max), blockAdministrative);
    BoundaryAt(c, k, i);
    assert i + 1 < |c.sessions| ==> c.sessions[i] < c.sessions[i + 1];
  }

  lemma ReadyAtStart(c: Record)
    ensures Ready(c, 0, 0, State(false, false, false, -1, []))
  {
    NoneAtStart(c);
  }

  function Extend(blocks: seq<Block>, session: int, reason: Option<Kind>): seq<Block> {
    match reason
    case None => blocks
    case Some(kind) => blocks + [Block(session, kind)]
  }

  /** The scan before session `i`: ready for it, with the blocks of the sessions so far. */
  ghost predicate Scanned(c: Record, blockAdministrative: bool, i: nat, s: State, position: nat, blocks: seq<Block>)
    requires i <= |c.sessions|
  {
    Ready(c, position, i, s) && blocks == Blocks(c, blockAdministrative, i)
  }

  /** One session: take in its actions, let old notices lapse, and record the reason. */
  method CheckSession(c: Record, blockAdministrative: bool, i: nat, s: State, position: nat, blocks: seq<Block>)
    returns (s': State, position': nat, blocks': seq<Block>)
    requires Valid(c) && i < |c.sessions| && Scanned(c, blockAdministrative, i, s, position, blocks)
    ensures Scanned(c, blockAdministrative, i + 1, s', position', blocks')
  {
    s', position' := Absorb(c, i, s, position);
    SessionStep(c, i, position', s', blockAdministrative);
    s' := Lapse(s', i, c.max);
    blocks' := Extend(blocks, c.sessions[i], StateReason(s', blockAdministrative, c.sessions[i], i));
  }

  /** Scan the sessions once, carrying the state; the blocked sessions and reasons are exactly those the actions mean. */
  method ScanSessions(c: Record, blockAdministrative: bool) returns (blocks: seq<Block>)
    requires Valid(c)
    ensures blocks == Blocks(c, blockAdministrative, |c.sessions|)
  {
    var s := State(false, false, false, -1, []);
    var position: nat := 0;
    blocks := [];
    ReadyAtStart(c);
    for i := 0 to |c.sessions|
      invariant Scanned(c, blockAdministrative, i, s, position, blocks)
    {
      s, position, blocks := CheckSession(c, blockAdministrative, i, s, position, blocks);
    }
  }

  /** Sort an instrument's actions and scan. */
  method EntryBlocks(actions: seq<Action>, sessions: seq<int>, max: nat, blockAdministrative: bool,
      leq: (Action, Action) -> bool) returns (blocks: seq<Block>)
    requires Ascending(sessions) && TotalPreorder(leq) && forall a, b :: leq(a, b) ==> a.effective <= b.effective
    ensures var c := Record(SortBy(actions, leq), sessions, max); blocks == Blocks(c, blockAdministrative, |sessions|)
  {
    SortBySorts(actions, leq);
    blocks := ScanSessions(Record(SortBy(actions, leq), sessions, max), blockAdministrative);
  }

  // ----- consequences -----

  /** A standing open notice took effect at most `max` sessions ago. */
  ghost predicate RecentlyNoticed(c: Record, k: nat, i: nat)
    requires k <= |c.actions|
  {
    exists j | 0 <= j < k :: IsOpen(c.actions[j]) && Standing(c, k, j) && At(c, j) <= i <= At(c, j) + c.max
  }

  /** Whatever the lapses on the way: open notices block a session exactly when one that stands is recent. */
  lemma OpenNoticesBlockExactly(c: Record, k: nat, i: nat)
    requires Valid(c) && k <= |c.actions| && forall m | 0 <= m < k :: At(c, m) <= i
    ensures Alive(c, k, DelistingDecided, i + 1) || Alive(c, k, LiquidationTrading, i + 1) <==> RecentlyNoticed(c, k, i)
  {
    if RecentlyNoticed(c, k, i) {
      var j :| 0 <= j < k && IsOpen(c.actions[j]) && Standing(c, k, j) && At(c, j) <= i <= At(c, j) + c.max;
      forall t | At(c, j) <= t < i + 1 ensures Recent(c, k, t) {
        assert IsOpen(c.actions[j]) && At(c, j) <= t <= At(c, j) + c.max;
      }
      assert AliveAs(c, k, c.actions[j].kind, i + 1, j);
    }
    if Alive(c, k, DelistingDecided, i + 1) {
      AliveIsRecent(c, k, DelistingDecided, i);
    }
    if Alive(c, k, LiquidationTrading, i + 1) {
      AliveIsRecent(c, k, LiquidationTrading, i);
    }
  }

  lemma AliveIsRecent(c: Record, k: nat, kind: Kind, i: nat)
    requires Valid(c) && k <= |c.actions| && (forall m | 0 <= m < k :: At(c, m) <= i) && Alive(c, k, kind, i + 1)
    ensures RecentlyNoticed(c, k, i)
  {
    var j :| 0 <= j < k && AliveAs(c, k, kind, i + 1, j);
    assert Recent(c, k, i);
    var m :| 0 <= m < k && IsOpen(c.actions[m]) && At(c, m) <= i <= At(c, m) + c.max;
    if m < j {
      SessionsInOrder(c.sessions, c.actions[m].effective, c.actions[j].effective);
      assert At(c, j) <= i <= At(c, j) + c.max;
    } else {
      assert Standing(c, k, m);
    }
  }

  /** A session is blocked exactly when a standing notice's stated window covers it, a standing open notice is
      recent, or a designation is active and such blocks are enabled. */
  lemma BlockedExactly(c: Record, blockAdministrative: bool, i: nat)
    requires Valid(c) && i < |c.sessions|
    ensures var k := InEffect(c.actions, c.sessions[i]);
      Reason(c, blockAdministrative, i).Some? <==>
        Covered(c, k, c.sessions[i]) || RecentlyNoticed(c, k, i) || (Administrative(c, k) && blockAdministrative)
  {
    var k := InEffect(c.actions, c.sessions[i]);
    forall m | 0 <= m < k ensures At(c, m) <= i {
      InEffectBy(c, m, i);
    }
    OpenNoticesBlockExactly(c, k, i);
    assert CoveredInside(c, k, c.sessions[i]) ==> Covered(c, k, c.sessions[i]);
  }

  /** An open notice of that kind stands among the first `k` actions. */
  ghost predicate Noticed(c: Record, k: nat, kind: Kind)
    requires k <= |c.actions|
  {
    exists j | 0 <= j < k :: IsOpen(c.actions[j]) && c.actions[j].kind == kind && Standing(c, k, j)
  }

  /** The reason given.  A covering window is liquidation trading once its stated start is reached.  A recent standing
      delisting notice gives its own kind; open notices of one kind alone give that kind; a designation gives its kind
      only when nothing else blocks. */
  lemma ReasonExactly(c: Record, blockAdministrative: bool, i: nat)
    requires Valid(c) && i < |c.sessions|
    ensures var k, date, reason := InEffect(c.actions, c.sessions[i]), c.sessions[i], Reason(c, blockAdministrative, i);
      && (Covered(c, k, date) ==>
          reason == Some(if CoveredInside(c, k, date) then LiquidationTrading else DelistingDecided))
      && (!Covered(c, k, date) && RecentlyNoticed(c, k, i) ==>
          && (NoticedRecently(c, k, i, DelistingDecided) || !Noticed(c, k, LiquidationTrading) ==>
               reason == Some(DelistingDecided))
          && (!Noticed(c, k, DelistingDecided) ==> reason == Some(LiquidationTrading)))
      && (reason == Some(AdministrativeDesignated) <==>
          !Covered(c, k, date) && !RecentlyNoticed(c, k, i) && Administrative(c, k) && blockAdministrative)
  {
    var k := InEffect(c.actions, c.sessions[i]);
    forall m | 0 <= m < k ensures At(c, m) <= i {
      InEffectBy(c, m, i);
    }
    OpenNoticesBlockExactly(c, k, i);
    AliveIsNoticed(c, k, i + 1, DelistingDecided);
    AliveIsNoticed(c, k, i + 1, LiquidationTrading);
    if NoticedRecently(c, k, i, DelistingDecided) {
      RecentIsAlive(c, k, i, DelistingDecided);
    }
  }

  lemma AliveIsNoticed(c: Record, k: nat, i: int, kind: Kind)
    requires k <= |c.actions|
    ensures Alive(c, k, kind, i) ==> Noticed(c, k, kind)
  {
  }

  ghost predicate NoticedRecently(c: Record, k: nat, i: int, kind: Kind)
    requires k <= |c.actions|
  {
    exists j | 0 <= j < k ::
      IsOpen(c.actions[j]) && c.actions[j].kind == kind && Standing(c, k, j) && At(c, j) <= i <= At(c, j) + c.max
  }

  lemma RecentIsAlive(c: Record, k: nat, i: int, kind: Kind)
    requires k <= |c.actions| && NoticedRecently(c, k, i, kind)
    ensures Alive(c, k, kind, i + 1)
  {
    var j :| 0 <= j < k && IsOpen(c.actions[j]) && c.actions[j].kind == kind && Standing(c, k, j) &&
      At(c, j) <= i <= At(c, j) + c.max;
    forall t | At(c, j) <= t < i + 1 ensures Recent(c, k, t) {
      assert IsOpen(c.actions[j]) && At(c, j) <= t <= At(c, j) + c.max;
    }
    assert AliveAs(c, k, kind, i + 1, j);
  }

  // ----- no look-ahead -----

  /** The two records have the same first `k` actions, taking effect at the same sessions. */
  ghost predicate Agree(c: Record, d: Record, k: nat) {
    && k <= |c.actions| && k <= |d.actions| && c.max == d.max
    && forall m | 0 <= m < k :: c.actions[m] == d.actions[m] && At(c, m) == At(d, m)
  }

  lemma RecentAgrees(c: Record, d: Record, k: nat, t: int)
    requires Agree(c, d, k) && Recent(c, k, t)
    ensures Recent(d, k, t)
  {
    var m :| 0 <= m < k && IsOpen(c.actions[m]) && At(c, m) <= t <= At(c, m) + c.max;
    assert IsOpen(d.actions[m]) && At(d, m) <= t <= At(d, m) + d.max;
  }

  lemma AliveAgrees(c: Record, d: Record, k: nat, kind: Kind, i: int)
    requires Agree(c, d, k) && Alive(c, k, kind, i)
    ensures Alive(d, k, kind, i)
  {
    var j :| 0 <= j < k && AliveAs(c, k, kind, i, j);
    forall t | At(d, j) <= t < i ensures Recent(d, k, t) {
      assert Recent(c, k, t);
      RecentAgrees(c, d, k, t);
    }
    assert AliveAs(d, k, kind, i, j);
  }

  lemma CoveredAgrees(c: Record, d: Record, k: nat, date: int)
    requires Agree(c, d, k)
    ensures Covered(c, k, date) ==> Covered(d, k, date)
    ensures CoveredInside(c, k, date) ==> CoveredInside(d, k, date)
  {
    forall j | 0 <= j < k ensures Covers(c, k, date, j) ==> Covers(d, k, date, j) {
    }
  }

  lemma AdministrativeAgrees(c: Record, d: Record, k: nat)
    requires Agree(c, d, k) && Administrative(c, k)
    ensures Administrative(d, k)
  {
  }

  lemma FirstSessionAgrees(sessions: seq<int>, sessions': seq<int>, date: int, i: nat)
    requires i < |sessions| && i < |sessions'| && sessions[..i + 1] == sessions'[..i + 1] && date <= sessions[i]
    ensures FirstSession(sessions, date) == FirstSession(sessions', date)
  {
    assert forall t | 0 <= t < i + 1 :: sessions[t] == sessions[..i + 1][t] && sessions'[t] == sessions'[..i + 1][t];
  }

  lemma AliveSame(c: Record, d: Record, k: nat, kind: Kind, i: int)
    requires Agree(c, d, k)
    ensures Alive(c, k, kind, i) <==> Alive(d, k, kind, i)
  {
    if Alive(c, k, kind, i) {
      AliveAgrees(c, d, k, kind, i);
    }
    if Alive(d, k, kind, i) {
      AliveAgrees(d, c, k, kind, i);
    }
  }

  lemma AdministrativeSame(c: Record, d: Record, k: nat)
    requires Agree(c, d, k)
    ensures Administrative(c, k) <==> Administrative(d, k)
  {
    if Administrative(c, k) {
      AdministrativeAgrees(c, d, k);
    }
    if Administrative(d, k) {
      AdministrativeAgrees(d, c, k);
    }
  }

  lemma AgreeReason(c: Record, d: Record, blockAdministrative: bool, i: nat)
    requires i < |c.sessions| && i < |d.sessions| && c.sessions[i] == d.sessions[i]
    requires InEffect(c.actions, c.sessions[i]) == InEffect(d.actions, d.sessions[i]) &&
      Agree(c, d, InEffect(c.actions, c.sessions[i]))
    ensures Reason(c, blockAdministrative, i) == Reason(d, blockAdministrative, i)
  {
    var k, date := InEffect(c.actions, c.sessions[i]), c.sessions[i];
    CoveredAgrees(c, d, k, date);
    CoveredAgrees(d, c, k, date);
    AliveSame(c, d, k, DelistingDecided, i + 1);
    AliveSame(c, d, k, LiquidationTrading, i + 1);
    AdministrativeSame(c, d, k);
  }

  /** The actions in effect on a date are the ones a filter by that date keeps. */
  lemma {:induction false} InEffectFilter(actions: seq<Action>, date: int)
    requires InOrder(actions)
    ensures actions[..InEffect(actions, date)] == Filter(actions, (a: Action) => a.effective <= date)
  {
    var keep := (a: Action) => a.effective <= date;
    if actions != [] {
      InEffectFilter(actions[1..], date);
      if keep(actions[0]) {
        var k := InEffect(actions[1..], date);
        assert actions[..k + 1] == [actions[0]] + actions[1..][..k];
      } else {
        NoneKept(actions, date);
      }
    }
  }

  lemma {:induction false} NoneKept(actions: seq<Action>, date: int)
    requires forall a | a in actions :: date < a.effective
    ensures Filter(actions, (a: Action) => a.effective <= date) == []
  {
    if actions != [] {
      NoneKept(actions[1..], date);
    }
  }

  /** The verdict at a session depends only on the sessions so far and the actions in effect by its date: any
      later actions and sessions may be added, removed or changed. */
  lemma NoLookAhead(actions: seq<Action>, actions': seq<Action>, sessions: seq<int>, sessions': seq<int>, max: nat,
      leq: (Action, Action) -> bool, blockAdministrative: bool, i: nat)
    requires TotalPreorder(leq) && forall a, b :: leq(a, b) ==> a.effective <= b.effective
    requires i < |sessions| && i < |sessions'| && sessions[..i + 1] == sessions'[..i + 1]
    requires Filter(actions, (a: Action) => a.effective <= sessions[i]) == Filter(actions',
      (a: Action) => a.effective <= sessions[i])
    ensures Reason(Record(SortBy(actions, leq), sessions, max), blockAdministrative, i)
         == Reason(Record(SortBy(actions', leq), sessions', max), blockAdministrative, i)
  {
    var c, d := Record(SortBy(actions, leq), sessions, max), Record(SortBy(actions', leq), sessions', max);
    var date := sessions[i];
    assert sessions[..i + 1][i] == sessions'[..i + 1][i];
    SortBySorts(actions, leq);
    SortBySorts(actions', leq);
    FilterSort(actions, leq, (a: Action) => a.effective <= date);
    FilterSort(actions', leq, (a: Action) => a.effective <= date);
    InEffectFilter(c.actions, date);
    InEffectFilter(d.actions, date);
    var k := InEffect(c.actions, date);
    assert c.actions[..k] == d.actions[..InEffect(d.actions, date)];
    forall m | 0 <= m < k ensures c.actions[m] == d.actions[m] && At(c, m) == At(d, m) {
      assert c.actions[m] == c.actions[..k][m];
      FirstSessionAgrees(sessions, sessions', c.actions[m].effective, i);
    }
    AgreeReason(c, d, blockAdministrative, i);
  }
}
