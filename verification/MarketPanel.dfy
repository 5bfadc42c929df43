/** The column expressions of the market panel, and when they say the same as the rules for one price. */
module MarketPanel {
  import opened Options
  import opened Rounding
  import opened MarketRules
  import opened PriceLimits

  // ----- column expressions -----

  /** One row: the columns an expression reads; `None` is a missing value. */
  datatype Row = Row(session: int, market: Market, price: Option<int>, tick: Option<int>)

  datatype Condition = SessionFrom(date: int) | SessionFromIn(date: int, market: Market) | PriceFrom(price: int)

  datatype Expr = Missing | Constant(value: int) | WidthOf(ratio: Ratio) | When(condition: Condition, yes: Expr,
      no: Expr)

  /** A comparison with a missing value does not hold. */
  predicate Holds(c: Condition, row: Row) {
    match c
    case SessionFrom(date) => date <= row.session
    case SessionFromIn(date, market) => date <= row.session && row.market == market
    case PriceFrom(price) => row.price.Some? && price <= row.price.value
  }

  function Eval(e: Expr, row: Row): Option<int> {
    match e
    case Missing => None
    case Constant(value) => Some(value)
    case WidthOf(ratio) =>
      if row.price.Some? && row.tick.Some? && row.tick.value > 0 &&
        ratio.Valid() then Some(Width(row.price.value, ratio, row.tick.value)) else None
    case When(condition, yes, no) => if Holds(condition, row) then Eval(yes, row) else Eval(no, row)
  }

  // ----- building the override chains -----

  /** The tick a band chain gives: a missing price takes the first band. */
  function ChainTick(bands: seq<Step<int>>, price: Option<int>): int
    requires bands != []
  {
    if price.None? then bands[0].value
    else
      match InForce(bands[1..], price.value)
      case None => bands[0].value
      case Some(tick) => tick
  }

  method BandExpr(bands: seq<Step<int>>) returns (e: Expr)
    requires bands != []
    ensures forall row :: Eval(e, row) == Some(ChainTick(bands, row.price))
  {
    e := Constant(bands[0].value);
    var rest := bands[1..];
    for n := 0 to |rest|
      invariant forall row :: Eval(e, row) == Some(ChainTick([bands[0]] + rest[..n], row.price))
    {
      var next := When(PriceFrom(rest[n].from), Constant(rest[n].value), e);
      forall row ensures Eval(next, row) == Some(ChainTick([bands[0]] + rest[..n + 1], row.price)) {
        ChainStep(bands[0], rest, n, row.price);
        assert Eval(e, row) == Some(ChainTick([bands[0]] + rest[..n], row.price));
      }
      e := next;
    }
    assert [bands[0]] + rest[..|rest|] == bands;
  }

  lemma ChainStep(first: Step<int>, rest: seq<Step<int>>, n: nat, price: Option<int>)
    requires n < |rest|
    ensures ChainTick([first] + rest[..n + 1], price) ==
      if price.Some? && rest[n].from <= price.value then rest[n].value else ChainTick([first] + rest[..n], price)
  {
    assert ([first] + rest[..n + 1])[1..] == rest[..n + 1];
    assert ([first] + rest[..n])[1..] == rest[..n];
    assert rest[..n + 1][..n] == rest[..n];
  }

  function PanelTick(ticks: seq<Step<Tables>>, row: Row): Option<int>
    requires forall i | 0 <= i < |ticks| :: ticks[i].value.kospi != [] && ticks[i].value.kosdaq != []
  {
    if ticks == [] then None
    else
      var last := ticks[|ticks| - 1];
      if last.from <= row.session then Some(ChainTick(last.value.Of(row.market), row.price))
      else PanelTick(ticks[..|ticks| - 1], row)
  }

  /** Regime after regime, market after market, each overriding what came before. */
  method TickExpr(ticks: seq<Step<Tables>>) returns (e: Expr)
    requires forall i | 0 <= i < |ticks| :: ticks[i].value.kospi != [] && ticks[i].value.kosdaq != []
    ensures forall row :: Eval(e, row) == PanelTick(ticks, row)
  {
    e := Missing;
    for n := 0 to |ticks|
      invariant forall row :: Eval(e, row) == PanelTick(ticks[..n], row)
    {
      var kospi := BandExpr(ticks[n].value.kospi);
      var kosdaq := BandExpr(ticks[n].value.kosdaq);
      var first := When(SessionFromIn(ticks[n].from, KOSPI), kospi, e);
      var second := When(SessionFromIn(ticks[n].from, KOSDAQ), kosdaq, first);
      assert ticks[..n + 1][..n] == ticks[..n];
      forall row ensures Eval(second, row) == PanelTick(ticks[..n + 1], row) {
        assert Eval(first, row) == if SessionFromIn(ticks[n].from, KOSPI).date <= row.session &&
          row.market == KOSPI then Eval(kospi, row) else Eval(e, row);
        assert Eval(e, row) == PanelTick(ticks[..n], row);
      }
      e := second;
    }
    assert ticks[..|ticks|] == ticks;
  }

  /** The width expression: the width of the ratio in force. */
  method WidthExpr(limits: seq<Step<Ratio>>) returns (e: Expr)
    ensures forall row ::
      Eval(e, row) == match InForce(limits, row.session) case None => None case Some(ratio) => Eval(WidthOf(ratio), row)
  {
    e := Missing;
    for n := 0 to |limits|
      invariant forall row ::
        Eval(e, row) == match InForce(limits[..n],
          row.session) case None => None case Some(ratio) => Eval(WidthOf(ratio), row)
    {
      assert limits[..n + 1][..n] == limits[..n];
      e := When(SessionFrom(limits[n].from), WidthOf(limits[n].value), e);
    }
    assert limits[..|limits|] == limits;
  }

  // ----- agreement -----

  lemma {:induction false} PanelTickInForce(ticks: seq<Step<Tables>>, row: Row)
    requires forall i | 0 <= i < |ticks| :: ticks[i].value.kospi != [] && ticks[i].value.kosdaq != []
    ensures PanelTick(ticks, row).Some? <==> InForce(ticks, row.session).Some?
    ensures PanelTick(ticks, row).Some? ==>
      var bands := InForce(ticks, row.session).value.Of(row.market);
      bands != [] && PanelTick(ticks, row).value == ChainTick(bands, row.price)
  {
    if ticks != [] {
      PanelTickInForce(ticks[..|ticks| - 1], row);
    }
  }

  /** On bands that start at zero the chain and the scan give the same tick for every price that is present. */
  lemma {:induction false} ChainIsBandTick(bands: seq<Step<int>>, price: int)
    requires bands != []
    ensures ChainTick(bands, Some(price)) == BandTick(bands, price)
  {
    DropFirst(bands, price);
  }

  lemma {:induction false} DropFirst(bands: seq<Step<int>>, price: int)
    requires bands != []
    ensures InForce(bands, price) == if InForce(bands[1..], price).Some? then InForce(bands[1..],
      price) else InForce(bands[..1], price)
  {
    var last := |bands| - 1;
    if last == 0 {
      assert bands[..1] == bands;
    } else if price < bands[last].from {
      DropFirst(bands[..last], price);
      assert bands[..last][1..] == bands[1..][..last - 1];
      assert bands[..last][..1] == bands[..1];
    }
  }

  /** The tick column says what the rules say for every positive price, and is missing exactly where they do not answer. */
  lemma TickColumnAgrees(rules: Rules, session: int, market: Market, price: int)
    requires ValidRules(rules) && price > 0
    ensures PanelTick(rules.ticks, Row(session, market, Some(price), None)) == TickAt(rules, session, market, price)
  {
    PanelTickInForce(rules.ticks, Row(session, market, Some(price), None));
    if InForce(rules.ticks, session).Some? {
      TablesValid(rules, session);
      ChainIsBandTick(InForce(rules.ticks, session).value.Of(market), price);
    }
  }

  /** The limit columns of a row that is not an instrument's first. */
  datatype LimitColumns = LimitColumns(upper: Option<int>, lower: Option<int>)

  function Plus(a: Option<int>, b: Option<int>, sign: int): Option<int> {
    if a.Some? && b.Some? then Some(a.value + sign * b.value) else None
  }

  function Rounded(a: Option<int>, tick: Option<int>, up: bool): Option<int> {
    if a.Some? && tick.Some? &&
      tick.value > 0 then Some(if up then CeilTo(a.value, tick.value) else FloorTo(a.value, tick.value)) else None
  }

  /** The horizontal maximum ignores missing values. */
  function MaxOf(a: Option<int>, b: Option<int>): Option<int> {
    if a.None? then b else if b.None? then a else Some(Max(a.value, b.value))
  }

  function PanelLimits(ticks: Expr, widths: Expr, session: int, market: Market, base: int): LimitColumns {
    var baseTick := Eval(ticks, Row(session, market, Some(base), None));
    var width := Eval(widths, Row(session, market, Some(base), baseTick));
    var rawUpper, rawLower := Plus(Some(base), width, 1), Plus(Some(base), width, -1);
    var upTick, loTick := Eval(ticks, Row(session, market, rawUpper, None)), Eval(ticks,
      Row(session, market, rawLower, None));
    LimitColumns(Rounded(rawUpper, upTick, false), MaxOf(Rounded(rawLower, loTick, true), loTick))
  }

  /** What the limit columns hold, in terms of the rules. */
  ghost function LimitColumnsOf(rules: Rules, session: int, market: Market, base: int): LimitColumns
    requires ValidRules(rules)
  {
    match InForce(rules.ticks, session)
    case None => LimitColumns(None, None)
    case Some(tables) =>
      TablesValid(rules, session);
      match InForce(rules.limits, session)
      case None => LimitColumns(None, Some(tables.Of(market)[0].value))
      case Some(ratio) =>
        LimitValid(rules, session);
        var limits := LimitsOf(tables.Of(market), ratio, base);
        LimitColumns(Some(limits.upper), Some(limits.lower))
  }

  /** Build both expressions and evaluate the limit columns of one row. */
  method LimitsOfRow(rules: Rules, session: int, market: Market, base: int) returns (columns: LimitColumns)
    requires ValidRules(rules)
    ensures columns == LimitColumnsOf(rules, session, market, base)
  {
    var ticks := TickExpr(rules.ticks);
    var widths := WidthExpr(rules.limits);
    ColumnsAre(rules, ticks, widths, session, market, base);
    columns := PanelLimits(ticks, widths, session, market, base);
  }

  lemma TickCells(rules: Rules, session: int, market: Market, price: Option<int>)
    requires ValidRules(rules)
    ensures PanelTick(rules.ticks, Row(session, market, price, None)) ==
      match InForce(rules.ticks, session)
      case None => None
      case Some(tables) => (TablesValid(rules, session);
        Some(if price.None? then tables.Of(market)[0].value else BandTick(tables.Of(market), price.value)))
  {
    PanelTickInForce(rules.ticks, Row(session, market, price, None));
    if InForce(rules.ticks, session).Some? {
      TablesValid(rules, session);
      if price.Some? {
        ChainIsBandTick(InForce(rules.ticks, session).value.Of(market), price.value);
      }
    }
  }

  ghost predicate TicksFor(rules: Rules, ticks: Expr)
    requires ValidRules(rules)
  {
    forall row :: Eval(ticks, row) == PanelTick(rules.ticks, row)
  }

  ghost predicate WidthsFor(rules: Rules, widths: Expr) {
    forall row ::
      Eval(widths, row) == match InForce(rules.limits,
        row.session) case None => None case Some(ratio) => Eval(WidthOf(ratio), row)
  }

  lemma ColumnsCovered(rules: Rules, ticks: Expr, widths: Expr, session: int, market: Market, base: int)
    requires ValidRules(rules) && TicksFor(rules, ticks) && WidthsFor(rules, widths)
    requires InForce(rules.ticks, session).Some? && InForce(rules.limits, session).Some?
    ensures PanelLimits(ticks, widths, session, market, base) == LimitColumnsOf(rules, session, market, base)
  {
    TablesValid(rules, session);
    LimitValid(rules, session);
    var bands := InForce(rules.ticks, session).value.Of(market);
    TickCells(rules, session, market, Some(base));
    BandTickPositive(bands, base);
    var width := Width(base, InForce(rules.limits, session).value, BandTick(bands, base));
    TickCells(rules, session, market, Some(base + width));
    TickCells(rules, session, market, Some(base - width));
    BandTickPositive(bands, base + width);
    BandTickPositive(bands, base - width);
  }

  lemma ColumnsAre(rules: Rules, ticks: Expr, widths: Expr, session: int, market: Market, base: int)
    requires ValidRules(rules) && TicksFor(rules, ticks) && WidthsFor(rules, widths)
    ensures PanelLimits(ticks, widths, session, market, base) == LimitColumnsOf(rules, session, market, base)
  {
    if InForce(rules.ticks, session).Some? && InForce(rules.limits, session).Some? {
      ColumnsCovered(rules, ticks, widths, session, market, base);
    } else {
      TickCells(rules, session, market, Some(base));
      TickCells(rules, session, market, None);
    }
  }

  /** The rules' own answer and the columns, side by side.  For a positive base they agree, and the upper column is
      missing exactly where the rules do not answer.  The lower column is then missing too, unless ticks are in
      force but no limit ratio is: it holds the first band's tick instead. */
  method CompareLimits(rules: Rules, session: int, market: Market, base: int) returns (limits: Option<Limits>,
      columns: LimitColumns)
    requires ValidRules(rules) && base > 0
    ensures limits.Some? ==> columns == LimitColumns(Some(limits.value.upper), Some(limits.value.lower))
    ensures limits.None? ==> columns.upper.None?
    ensures (limits.None? <==> columns.lower.None?) <==>
      InForce(rules.limits, session).Some? || InForce(rules.ticks, session).None?
  {
    limits := DailyLimits(rules, session, market, base);
    columns := LimitsOfRow(rules, session, market, base);
  }
}
