/** The net asset value: what marking computes, and why every run's value is the worth of its journal. */
module Nav {
  import opened Options
  import opened Sums
  import opened Accounts
  import opened LedgerInvariants
  import opened Ledgers

  // ----- marking -----

  /** Held quantities times prices. */
  ghost function MarketValue(positions: map<int, int>, price: int -> int): int {
    MapSum(Values(positions, positions.Keys, price))
  }

  function ValueAt(positions: map<int, int>, i: int, price: int -> int): int
    requires i in positions
  {
    positions[i] * price(i)
  }

  ghost function Values(positions: map<int, int>, keys: set<int>, price: int -> int): map<int, int>
    requires keys <= positions.Keys
  {
    map i | i in keys :: ValueAt(positions, i, price)
  }

  ghost function NavOf(a: Account, price: int -> int, inversePrice: int): int {
    a.cash + a.receivable + MarketValue(a.positions, price) + a.margin + a.inverseUnits * inversePrice - a.taxPayable
  }

  datatype Mark = Mark(session: int, cash: int, receivable: int, marketValue: int, nav: int, externalFlow: int,
      margin: int, inverseValue: int, taxPayable: int) {
    predicate Adds() {
      nav == cash + receivable + marketValue + margin + inverseValue - taxPayable
    }
  }

  lemma ValuesWithout(positions: map<int, int>, keys: set<int>, price: int -> int, i: int)
    requires i in keys && keys <= positions.Keys
    ensures MapSum(Values(positions, keys, price)) == ValueAt(positions, i,
      price) + MapSum(Values(positions, keys - {i}, price))
  {
    MapSumRemove(Values(positions, keys, price), i);
    assert Values(positions, keys, price) - {i} == Values(positions, keys - {i}, price);
  }

  lemma SomeElement(keys: set<int>)
    ensures keys == {} || exists i :: i in keys
  {
    if forall i: int :: i !in keys {
      assert keys == {};
    }
  }

  method SumPositions(positions: map<int, int>, price: int -> int) returns (total: int)
    ensures total == MarketValue(positions, price)
  {
    total := 0;
    var rest := positions.Keys;
    while rest != {}
      invariant rest <= positions.Keys
      invariant total + MapSum(Values(positions, rest, price)) == MarketValue(positions, price)
      decreases |rest|
    {
      SomeElement(rest);
      var i :| i in rest;
      ValuesWithout(positions, rest, price, i);
      total := total + ValueAt(positions, i, price);
      rest := rest - {i};
    }
    assert Values(positions, rest, price) == map[];
  }

  /** Mark the ledger.  It is refused exactly when a held instrument is missing or held inverse units have no usable price. */
  method MarkLedger(ledger: Ledger, session: int, price: int -> int, present: set<int>,
      inversePrice: Option<int>) returns (mark: Option<Mark>)
    ensures mark.Some? <==> ledger.positions.Keys <= present && (ledger.inverseUnits > 0 ==> inversePrice.Some? && inversePrice.value >= 0)
    ensures mark.Some? && ledger.inverseUnits >= 0 ==>
      forall px | inversePrice == Some(px) || ledger.inverseUnits == 0 ::
        mark.value.nav == NavOf(ledger.View(), price, px)
    ensures mark.Some? ==> mark.value.Adds() && mark.value.marketValue == MarketValue(ledger.positions, price) && mark.value.cash == ledger.cash
  {
    if !(ledger.positions.Keys <= present) {
      return None;
    }
    var marketValue := SumPositions(ledger.positions, price);
    var inverseValue := 0;
    if ledger.inverseUnits > 0 {
      if inversePrice.None? || inversePrice.value < 0 {
        return None;
      }
      inverseValue := ledger.inverseUnits * inversePrice.value;
    }
    var nav := ledger.cash + ledger.receivable + marketValue + ledger.margin + inverseValue - ledger.taxPayable;
    mark := Some(Mark(session, ledger.cash, ledger.receivable, marketValue, nav, ledger.externalFlow, ledger.margin,
      inverseValue, ledger.taxPayable));
  }

  // ----- what a journal is worth -----

  predicate IsShareLine(e: Entry) {
    e.kind in {BOUGHT, SOLD, CASH_IN_LIEU, EXIT_PROCEEDS} && e.instrument.Some?
  }

  /** What one line adds to the value at the given marks: its money on whatever fund, and its quantity at the mark. */
  function Worth(e: Entry, price: int -> int, inversePrice: int): int {
    e.krw + (if IsShareLine(e) then e.quantity * price(e.instrument.value) else 0) + Delta(e,
      InverseHolding) * inversePrice
  }

  function JournalWorth(journal: seq<Entry>, price: int -> int, inversePrice: int): int {
    if journal == [] then 0
    else JournalWorth(journal[..|journal| - 1], price, inversePrice) + Worth(journal[|journal| - 1], price,
      inversePrice)
  }

  ghost predicate Within(journal: seq<Entry>, instruments: set<int>) {
    forall e | e in journal && IsShareLine(e) :: e.instrument.value in instruments
  }

  ghost function ShareValues(journal: seq<Entry>, instruments: set<int>, price: int -> int): map<int, int> {
    map i | i in instruments :: JournalSum(journal, Shares(i)) * price(i)
  }

  function MoneyOf(journal: seq<Entry>): int {
    JournalSum(journal, Money(CASH)) + JournalSum(journal, Money(MARGIN)) + JournalSum(journal, Money(PAYABLE))
  }

  /** Adding one line moves one instrument's value by its quantity at the mark. */
  lemma ShareValuesStep(journal: seq<Entry>, e: Entry, instruments: set<int>, price: int -> int)
    requires IsShareLine(e) ==> e.instrument.value in instruments
    ensures MapSum(ShareValues(journal + [e], instruments, price)) ==
      MapSum(ShareValues(journal, instruments,
        price)) + (if IsShareLine(e) then e.quantity * price(e.instrument.value) else 0)
  {
    var before, after := ShareValues(journal, instruments, price), ShareValues(journal + [e], instruments, price);
    assert (journal + [e])[..|journal|] == journal;
    if IsShareLine(e) {
      var i := e.instrument.value;
      Distribute(JournalSum(journal, Shares(i)), e.quantity, price(i));
      assert after == before[i := before[i] + e.quantity * price(i)];
      MapSumUpdate(before, i, before[i] + e.quantity * price(i));
    } else {
      assert after == before;
    }
  }

  lemma Distribute(a: int, b: int, p: int)
    ensures (a + b) * p == a * p + b * p
  {
  }

  /** The worth of a journal is its money, its shares at the marks and its inverse units at their price. */
  lemma {:induction false} WorthSplits(journal: seq<Entry>, instruments: set<int>, price: int -> int, inversePrice: int)
    requires Within(journal, instruments)
    ensures JournalWorth(journal, price, inversePrice) ==
      MoneyOf(journal) + MapSum(ShareValues(journal, instruments, price)) + JournalSum(journal,
        InverseHolding) * inversePrice
  {
    if journal == [] {
      ZeroValues(ShareValues([], instruments, price));
    } else {
      var init, e := journal[..|journal| - 1], journal[|journal| - 1];
      assert journal == init + [e];
      WorthSplits(init, instruments, price, inversePrice);
      ShareValuesStep(init, e, instruments, price);
      Distribute(JournalSum(init, InverseHolding), Delta(e, InverseHolding), inversePrice);
    }
  }

  lemma {:induction false} ZeroValues(m: map<int, int>)
    requires forall i | i in m :: m[i] == 0
    ensures MapSum(m) == 0
    decreases |m|
  {
    var keys := m.Keys;
    if keys == {} {
      assert m == map[];
    } else {
      SomeElement(keys);
      var i :| i in keys;
      MapSumRemove(m, i);
      ZeroValues(m - {i});
    }
  }

  /** Instruments held at zero do not count. */
  lemma {:induction false} PadZeros(m: map<int, int>, wide: map<int, int>)
    requires m.Keys <= wide.Keys && (forall i | i in m :: wide[i] == m[i]) && forall i | i in wide && i !in m ::
      wide[i] == 0
    ensures MapSum(wide) == MapSum(m)
    decreases |m|
  {
    var keys := m.Keys;
    if keys == {} {
      assert m == map[];
      ZeroValues(wide);
    } else {
      SomeElement(keys);
      var i :| i in keys;
      MapSumRemove(m, i);
      MapSumRemove(wide, i);
      PadZeros(m - {i}, wide - {i});
    }
  }

  function Instruments(a: Account): set<int> {
    a.positions.Keys + set e | e in a.journal && IsShareLine(e) :: e.instrument.value
  }

  lemma SharesMatch(a: Account, price: int -> int)
    requires Reconciled(a)
    ensures MapSum(ShareValues(a.journal, Instruments(a), price)) == MarketValue(a.positions, price)
  {
    var held, wide := Values(a.positions, a.positions.Keys, price), ShareValues(a.journal, Instruments(a), price);
    forall i | i in wide ensures wide[i] == Get(a.positions, i) * price(i) {
      assert Balance(a, Shares(i)) == JournalSum(a.journal, Shares(i));
    }
    PadZeros(held, wide);
  }

  /** For a reconciled account, at any marks whatever: its value is what it opened with, what it is owed, and the
      worth of its journal. */
  lemma NavIsJournal(a: Account, price: int -> int, inversePrice: int)
    requires Reconciled(a)
    ensures NavOf(a, price, inversePrice) == a.initialCash + a.receivable + JournalWorth(a.journal, price, inversePrice)
  {
    WorthSplits(a.journal, Instruments(a), price, inversePrice);
    SharesMatch(a, price);
    assert Balance(a, Money(CASH)) == JournalSum(a.journal, Money(CASH));
    assert Balance(a, Money(MARGIN)) == JournalSum(a.journal, Money(MARGIN));
    assert Balance(a, Money(PAYABLE)) == JournalSum(a.journal, Money(PAYABLE));
    assert Balance(a, InverseHolding) == JournalSum(a.journal, InverseHolding);
  }

  /** Over every run of operations from opening: value is opening cash, dividends owed, and the journal's worth. */
  lemma EveryRunIsValued(initialCash: nat, ops: seq<Op>, b: Account, price: int -> int, inversePrice: int)
    requires RunsTo(Opened(initialCash), ops, b)
    ensures NavOf(b, price, inversePrice) == initialCash + b.receivable + JournalWorth(b.journal, price, inversePrice)
  {
    EveryRunReconciles(initialCash, ops, b);
    RunKeepsBooks(Opened(initialCash), ops, b);
    NavIsJournal(b, price, inversePrice);
  }

  // ----- what moves value -----

  lemma {:induction false} WorthAppend(j: seq<Entry>, es: seq<Entry>, price: int -> int, inversePrice: int)
    ensures JournalWorth(j + es, price, inversePrice) == JournalWorth(j, price, inversePrice) + JournalWorth(es, price,
      inversePrice)
  {
    if es == [] {
      assert j + es == j;
    } else {
      assert (j + es)[..|j + es| - 1] == j + es[..|es| - 1];
      WorthAppend(j, es[..|es| - 1], price, inversePrice);
    }
  }

  /** From one reconciled account to the next, value moves by what is newly owed and the worth of the new lines. */
  lemma NavMoves(a: Account, b: Account, es: seq<Entry>, price: int -> int, inversePrice: int)
    requires Reconciled(a) && Reconciled(b) && b.initialCash == a.initialCash && b.journal == a.journal + es
    ensures NavOf(b, price, inversePrice) - NavOf(a, price, inversePrice) ==
      b.receivable - a.receivable + JournalWorth(es, price, inversePrice)
  {
    NavIsJournal(a, price, inversePrice);
    NavIsJournal(b, price, inversePrice);
    WorthAppend(a.journal, es, price, inversePrice);
  }

  lemma BooksReconcile(a: Account, b: Account)
    requires Reconciled(a) && Books(a, b)
    ensures Reconciled(b)
  {
    forall m: Measure ensures Balance(b, m) == JournalSum(b.journal, m) {
      assert Balance(a, m) == JournalSum(a.journal, m);
    }
  }

  /** Every accepted operation moves value by what is newly owed and the worth of the lines it books. */
  lemma OperationMovesNav(a: Account, op: Op, price: int -> int, inversePrice: int)
    requires Reconciled(a) && Accepts(a, op)
    ensures a.journal <= Apply(a, op).journal
    ensures var b := Apply(a, op);
      NavOf(b, price, inversePrice) - NavOf(a, price, inversePrice) ==
        b.receivable - a.receivable + JournalWorth(b.journal[|a.journal|..], price, inversePrice)
  {
    var b := Apply(a, op);
    ApplyBooks(a, op);
    BooksReconcile(a, b);
    assert b.journal == a.journal + b.journal[|a.journal|..];
    NavMoves(a, b, b.journal[|a.journal|..], price, inversePrice);
  }

  lemma WorthOfOne(e: Entry, price: int -> int, inversePrice: int)
    ensures JournalWorth([e], price, inversePrice) == Worth(e, price, inversePrice)
  {
    assert [e][..0] == [];
  }

  lemma WorthOfTwo(e: Entry, f: Entry, price: int -> int, inversePrice: int)
    ensures JournalWorth([e, f], price, inversePrice) == Worth(e, price, inversePrice) + Worth(f, price, inversePrice)
  {
    WorthOfOne(e, price, inversePrice);
    assert [e, f][..1] == [e];
  }

  /** A purchase moves value by the distance from its price to the mark, less its commission. */
  lemma BuyMovesNav(a: Account, s: int, i: int, q: int, p: int, c: int, price: int -> int, inversePrice: int)
    requires Reconciled(a) && Accepts(a, Buy(s, i, q, p, c))
    ensures NavOf(Bought(a, s, i, q, p, c), price, inversePrice) == NavOf(a, price,
      inversePrice) + (price(i) - p) * q - c
  {
    var b := Bought(a, s, i, q, p, c);
    var e, f := ShareLine(s, BOUGHT, i, -(q * p), q), ShareLine(s, COMMISSION, i, -c, 0);
    ApplyBooks(a, Buy(s, i, q, p, c));
    BooksReconcile(a, b);
    NavMoves(a, b, [e, f], price, inversePrice);
    WorthOfTwo(e, f, price, inversePrice);
    assert (price(i) - p) * q == q * price(i) - q * p;
  }
}
