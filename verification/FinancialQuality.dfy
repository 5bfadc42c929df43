/** Event-time completeness of financial facts: one snapshot per availability transition. */
module FinancialQuality {
  import opened Options
  import opened Sorting

  /** A reported fact; a missing identifier is the empty string, an unreadable amount is `None`. */
  datatype Row = Row(company: string, period: string, consolidated: bool, available: int, filing: string, fact: string,
      published: int, amount: Option<int>, unit: string)

  /** Identifiers as reported, and as cleaned. */
  datatype RawKey = RawKey(company: string, period: string, consolidated: bool)
  datatype Key = Key(company: string, period: string, consolidated: bool)

  datatype Basis = Consolidated | Separate | Unknown

  datatype Unresolved = Unresolved(company: string, period: string, filing: string, reason: string, available: int,
      published: int)

  datatype Event = Event(company: string, period: string, basis: Basis, available: int, complete: bool, reason: string,
    missing: set<string>, filings: set<string>, published: int)

  /** What the builder is configured with: the required facts, cleaning and parsing of identifiers, and the sort orders. */
  datatype Setting = Setting(required: set<string>, strip: string -> string, parses: string -> bool,
    keyLe: (RawKey, RawKey) -> bool, rowLe: (Row, Row) -> bool, eventLe: (Event, Event) -> bool)

  function Raw(r: Row): RawKey {
    RawKey(r.company, r.period, r.consolidated)
  }

  function Clean(c: Setting, k: RawKey): Key {
    Key(c.strip(k.company), c.strip(k.period), k.consolidated)
  }

  function KeyOf(c: Setting, r: Row): Key {
    Clean(c, Raw(r))
  }

  predicate UsableKey(c: Setting, k: Key) {
    k.company != "" && c.parses(k.period)
  }

  predicate Usable(c: Setting, r: Row) {
    UsableKey(c, KeyOf(c, r)) && r.amount.Some? && r.unit == "KRW"
  }

  /** Rows are sorted by the identifiers as reported, then by availability, then by any further columns. */
  ghost predicate Valid(c: Setting) {
    && TotalPreorder(c.keyLe) && Antisymmetric(c.keyLe) && TotalPreorder(c.rowLe) && TotalPreorder(c.eventLe)
    && (forall a, b :: c.rowLe(a, b) ==> c.keyLe(Raw(a), Raw(b)) && (Raw(a) == Raw(b) ==> a.available <= b.available))
    && (forall a, b :: c.keyLe(Raw(a), Raw(b)) && (Raw(a) == Raw(b) ==> a.available < b.available) ==> c.rowLe(a, b))
  }

  // ----- the meaning of the scan -----

  datatype Entry = Entry(filing: string, published: int)

  /** The facts of one key after reading `rows`: later rows replace earlier ones. */
  function StateOf(c: Setting, rows: seq<Row>, k: Key): map<string, Entry> {
    if rows == [] then map[]
    else
      var last := rows[|rows| - 1];
      var before := StateOf(c, rows[..|rows| - 1], k);
      if KeyOf(c, last) == k then before[c.strip(last.fact) := Entry(last.filing, last.published)] else before
  }

  ghost predicate IsLatest(state: map<string, Entry>, published: int) {
    (exists f :: f in state && state[f].published == published) && forall f | f in state ::
      state[f].published <= published
  }

  ghost function LatestPublished(state: map<string, Entry>, at: int): int {
    if exists p :: IsLatest(state, p) then (var p :| IsLatest(state, p); p) else at
  }

  ghost function Snapshot(c: Setting, k: Key, at: int, state: map<string, Entry>): Event {
    Describe(c, k, at, state, LatestPublished(state, at))
  }

  function Describe(c: Setting, k: Key, at: int, state: map<string, Entry>, published: int): Event {
    var missing := c.required - state.Keys;
    Event(k.company, k.period, if k.consolidated then Consolidated else Separate, at, missing == {},
      if missing == {} then "" else "missing_required_facts",
      missing, set f | f in state :: state[f].filing, published)
  }

  predicate Same(c: Setting, a: Row, b: Row) {
    KeyOf(c, a) == KeyOf(c, b) && a.available == b.available
  }

  ghost function LastSnapshot(c: Setting, rows: seq<Row>): Event
    requires rows != []
  {
    var last := rows[|rows| - 1];
    Snapshot(c, KeyOf(c, last), last.available, StateOf(c, rows, KeyOf(c, last)))
  }

  /** One snapshot per run of rows with the same key and availability, taken at the end of the run. */
  ghost function Emitted(c: Setting, rows: seq<Row>): (out: seq<Event>)
    ensures rows != [] ==> out != []
    decreases |rows|, 0
  {
    if rows == [] then []
    else
      var init := rows[..|rows| - 1];
      Closed(c, init, rows[|rows| - 1]) + [LastSnapshot(c, rows)]
  }

  /** The snapshots of `rows` that are final once `next` follows. */
  ghost function Closed(c: Setting, rows: seq<Row>, next: Row): seq<Event>
    decreases |rows|, 1
  {
    var out := Emitted(c, rows);
    if rows != [] && Same(c, rows[|rows| - 1], next) then out[..|out| - 1] else out
  }

  function Scoped(c: Setting, facts: seq<Row>, t: int): seq<Row> {
    SortBy(Filter(facts, (r: Row) => r.available <= t && r.fact in c.required), c.rowLe)
  }

  function UsableRows(c: Setting, facts: seq<Row>, t: int): seq<Row> {
    Filter(Scoped(c, facts, t), (r: Row) => Usable(c, r))
  }

  function UnresolvedEvent(c: Setting, u: Unresolved): Event {
    Event(u.company, u.period, Unknown, u.available, false, u.reason, c.required, {u.filing}, u.published)
  }

  function UnresolvedEvents(c: Setting, unresolved: seq<Unresolved>, t: int): seq<Event> {
    if unresolved == [] then []
    else (if unresolved[0].available <= t then [UnresolvedEvent(c, unresolved[0])] else []) + UnresolvedEvents(c,
      unresolved[1..], t)
  }

  /** All events known at `t`. */
  ghost function Events(c: Setting, facts: seq<Row>, unresolved: seq<Unresolved>, t: int): seq<Event> {
    SortBy(Emitted(c, UsableRows(c, facts, t)) + UnresolvedEvents(c, unresolved, t), c.eventLe)
  }

  // ----- the builder -----

  lemma LatestIsUnique(state: map<string, Entry>, at: int, p: int)
    requires IsLatest(state, p)
    ensures LatestPublished(state, at) == p
  {
    var q := LatestPublished(state, at);
    assert IsLatest(state, q);
    var f :| f in state && state[f].published == p;
    var g :| g in state && state[g].published == q;
    assert state[f].published <= q && state[g].published <= p;
  }

  method MaxPublished(state: map<string, Entry>, at: int) returns (published: int)
    requires state != map[]
    ensures published == LatestPublished(state, at)
  {
    var first :| first in state;
    published := state[first].published;
    var rest := state.Keys - {first};
    while rest != {}
      invariant rest <= state.Keys && first !in rest
      invariant exists f :: f in state && f !in rest && state[f].published == published
      invariant forall f | f in state && f !in rest :: state[f].published <= published
      decreases |rest|
    {
      var f :| f in rest;
      rest := rest - {f};
      if state[f].published > published {
        published := state[f].published;
      }
    }
    assert IsLatest(state, published);
    LatestIsUnique(state, at, published);
  }

  /** The states held are those of `rows`; a key not held has none. */
  ghost predicate Knows(c: Setting, rows: seq<Row>, states: map<Key, map<string, Entry>>) {
    forall k :: StateOf(c, rows, k) == if k in states then states[k] else map[]
  }

  /** Everything but the open snapshot is recorded. */
  ghost predicate Recorded(c: Setting, rows: seq<Row>, records: seq<Event>, active: Option<(Key, int)>) {
    if rows == [] then active.None? && records == []
    else
      && active == Some((KeyOf(c, rows[|rows| - 1]), rows[|rows| - 1].available))
      && records + [LastSnapshot(c, rows)] == Emitted(c, rows)
  }

  lemma StateNonEmpty(c: Setting, rows: seq<Row>)
    requires rows != []
    ensures StateOf(c, rows, KeyOf(c, rows[|rows| - 1])) != map[]
  {
    var last := rows[|rows| - 1];
    assert c.strip(last.fact) in StateOf(c, rows, KeyOf(c, last));
  }

  /** Record the open snapshot, if there is one. */
  method Emit(c: Setting, records: seq<Event>, active: Option<(Key, int)>, states: map<Key, map<string, Entry>>,
      ghost rows: seq<Row>) returns (records': seq<Event>)
    requires Knows(c, rows, states) && Recorded(c, rows, records, active)
    ensures records' == Emitted(c, rows)
  {
    if active.None? {
      return records;
    }
    StateNonEmpty(c, rows);
    assert KeyOf(c, rows[|rows| - 1]) in states;
    var state := states[active.value.0];
    var published := MaxPublished(state, active.value.1);
    records' := records + [Describe(c, active.value.0, active.value.1, state, published)];
  }

  function Learn(c: Setting, states: map<Key, map<string, Entry>>, r: Row): map<Key, map<string, Entry>> {
    var k := KeyOf(c, r);
    var state := if k in states then states[k] else map[];
    states[k := state[c.strip(r.fact) := Entry(r.filing, r.published)]]
  }

  lemma KnowsStep(c: Setting, rows: seq<Row>, r: Row, states: map<Key, map<string, Entry>>)
    requires Knows(c, rows, states)
    ensures Knows(c, rows + [r], Learn(c, states, r))
  {
    assert (rows + [r])[..|rows|] == rows;
  }

  lemma RecordedStep(c: Setting, rows: seq<Row>, r: Row, records: seq<Event>, records': seq<Event>,
      active: Option<(Key, int)>)
    requires Recorded(c, rows, records, active)
    requires records' == if active == Some((KeyOf(c, r), r.available)) then records else Emitted(c, rows)
    ensures Recorded(c, rows + [r], records', Some((KeyOf(c, r), r.available)))
  {
    assert (rows + [r])[..|rows|] == rows;
    if active == Some((KeyOf(c, r), r.available)) {
      var out := Emitted(c, rows);
      assert out[..|out| - 1] == records;
    }
    assert records' == Closed(c, rows, r);
  }

  /** Scan the rows, recording a snapshot whenever key or availability changes. */
  method ScanRows(c: Setting, scoped: seq<Row>) returns (records: seq<Event>)
    ensures records == Emitted(c, Filter(scoped, (r: Row) => Usable(c, r)))
  {
    records := [];
    var active: Option<(Key, int)> := None;
    var states: map<Key, map<string, Entry>> := map[];
    ghost var rows: seq<Row> := [];
    ghost var usable := (r: Row) => Usable(c, r);
    for n := 0 to |scoped|
      invariant rows == Filter(scoped[..n], usable)
      invariant Knows(c, rows, states) && Recorded(c, rows, records, active)
    {
      var row := scoped[n];
      assert scoped[..n + 1] == scoped[..n] + [row];
      FilterAppend(scoped[..n], [row], usable);
      assert [row][1..] == [];
      if Usable(c, row) {
        var key := KeyOf(c, row);
        var emitted := records;
        if active != Some((key, row.available)) {
          emitted := Emit(c, records, active, states, rows);
        }
        RecordedStep(c, rows, row, records, emitted, active);
        KnowsStep(c, rows, row, states);
        records, active := emitted, Some((key, row.available));
        states := Learn(c, states, row);
        rows := rows + [row];
      }
    }
    assert scoped[..|scoped|] == scoped;
    records := Emit(c, records, active, states, rows);
  }

  method Build(c: Setting, facts: seq<Row>, unresolved: seq<Unresolved>, t: int) returns (events: seq<Event>)
    ensures events == Events(c, facts, unresolved, t)
  {
    var records := ScanRows(c, Scoped(c, facts, t));
    events := SortBy(records + UnresolvedEvents(c, unresolved, t), c.eventLe);
  }
}
