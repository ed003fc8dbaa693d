/** `runBacktest`: a randomised demo backtest. The random draws it makes are
    parameters here; the floating-point prices and summary figures are not
    modelled. */
module Backtest {
  import opened Numerals

  /** A draw of `Math.random()`: a real in [0, 1). */
  type Draw = r: real | 0.0 <= r < 1.0

  /** The side of a trade, 'Compra' (buy) or 'Venda' (sell). */
  datatype Side = Compra | Venda

  /** One synthetic trade; `day` is the day of May 2024 that `date` names,
      and `result` is the percentage outcome. */
  datatype Trade = Trade(date: string, day: nat, side: Side, result: real)

  datatype BacktestResult = BacktestResult(totalTrades: int, winRate: int, trades: seq<Trade>)

  /** The draws one trade consumes: one decides win or loss, one the side. */
  datatype TradeDraws = TradeDraws(win: Draw, side: Draw)

  /** The loop always builds this many trades, dated back from this day. */
  const TradeCount: nat := 15
  const LastDay: nat := 25

  /** The fixed outcome of a winning and of a losing trade, in percent. */
  const WinResult: real := 5.0
  const LossResult: real := -3.0

  /** The date string `2024-05-${day}`. */
  function DateOfDay(day: nat): string
  {
    "2024-05-" + Decimal(day)
  }

  /** The trade the loop builds in round `i`. */
  function TradeAt(i: nat, winRate: int, d: TradeDraws): Trade
    requires i < TradeCount
  {
    Trade(DateOfDay(LastDay - i), LastDay - i,
          if d.side > 0.5 then Compra else Venda,
          if d.win * 100.0 < winRate as real then WinResult else LossResult)
  }

  /** Strictly descending by day: the newest trade first. */
  predicate NewestFirst(trades: seq<Trade>)
  {
    forall i, j :: 0 <= i < j < |trades| ==> trades[i].day > trades[j].day
  }

  /** `runBacktest` with its random draws given: the trade count and win rate
      from the first two, and round `i` of the loop from `draws[i]`. */
  method RunBacktest(tradeCountDraw: Draw, winRateDraw: Draw, draws: seq<TradeDraws>)
      returns (r: BacktestResult)
    requires |draws| == TradeCount
    ensures r.totalTrades == (tradeCountDraw * 150.0).Floor + 50
    ensures 50 <= r.totalTrades <= 199
    ensures r.winRate == (winRateDraw * 40.0).Floor + 50
    ensures 50 <= r.winRate <= 89
    ensures |r.trades| == TradeCount
    ensures forall i :: 0 <= i < TradeCount ==>
              r.trades[i].day == LastDay - i && r.trades[i].date == DateOfDay(LastDay - i)
    ensures forall i :: 0 <= i < TradeCount ==>
              r.trades[i].result == (if draws[i].win * 100.0 < r.winRate as real then WinResult else LossResult)
    ensures forall i :: 0 <= i < TradeCount ==>
              r.trades[i].side == (if draws[i].side > 0.5 then Compra else Venda)
    ensures forall i, j :: 0 <= i < j < TradeCount ==> r.trades[i].date != r.trades[j].date
    ensures NewestFirst(r.trades)
  {
    var totalTrades := (tradeCountDraw * 150.0).Floor + 50;
    var winRate := (winRateDraw * 40.0).Floor + 50;
    var trades: seq<Trade> := [];
    for i := 0 to TradeCount
      invariant |trades| == i
      invariant forall k :: 0 <= k < i ==> trades[k] == TradeAt(k, winRate, draws[k])
    {
      trades := trades + [TradeAt(i, winRate, draws[i])];
    }
    forall i, j | 0 <= i < j < TradeCount ensures trades[i].date != trades[j].date {
      if trades[i].date == trades[j].date {
        assert Decimal(LastDay - i) == trades[i].date[8..] == trades[j].date[8..] == Decimal(LastDay - j);
        DecimalInjective(LastDay - i, LastDay - j);
      }
    }
    r := BacktestResult(totalTrades, winRate, trades);
  }

  /** In a newest-first list the head is the one newest trade. */
  lemma HeadIsNewest(s: seq<Trade>, x: Trade)
    requires NewestFirst(s) && x in s
    ensures s[0].day >= x.day
    ensures x.day == s[0].day ==> x == s[0]
  {
  }

  lemma TailNewestFirst(s: seq<Trade>)
    requires NewestFirst(s) && s != []
    ensures NewestFirst(s[1..])
  {
  }

  lemma MultisetOfTail<T>(s: seq<T>)
    requires s != []
    ensures multiset(s[1..]) == multiset(s) - multiset{s[0]}
  {
    assert s == [s[0]] + s[1..];
  }

  /** Two newest-first lists with the same trades are the same list. The loop
      already builds its trades newest first, so sorting them by date,
      newest first, leaves the list as it was built. */
  lemma {:induction false} NewestFirstIsUnique(s: seq<Trade>, t: seq<Trade>)
    requires NewestFirst(s) && NewestFirst(t) && multiset(s) == multiset(t)
    ensures s == t
  {
    if s == [] {
      assert |t| == |multiset(t)| == 0;
    } else {
      assert s[0] in multiset(t);
      assert t != [];
      assert t[0] in multiset(s);
      HeadIsNewest(t, s[0]);
      HeadIsNewest(s, t[0]);
      assert t[0] == s[0];
      MultisetOfTail(s);
      MultisetOfTail(t);
      TailNewestFirst(s);
      TailNewestFirst(t);
      NewestFirstIsUnique(s[1..], t[1..]);
    }
  }
}
