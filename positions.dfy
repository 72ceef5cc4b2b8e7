/**
 * createPosition (main.py): the record of one position, built from the
 * indicator table rows at its open day and its close day.
 *
 * Prices are reals. An indicator cell is copied unchanged whatever it holds,
 * including the NaN a rolling indicator leaves in its warm-up rows.
 */
module Positions {
  import opened Utils

  /** A numeric cell of the indicator table, or a non-finite one (NaN, an infinity). */
  datatype Cell = Finite(value: real) | NonFinite

  /** The seventeen indicator columns of a table row, in the order main.py reads them. */
  datatype Indicators = Indicators(
    rsi: Cell,
    sma20: Cell,
    sma50: Cell,
    sma100: Cell,
    sma200: Cell,
    ema20: Cell,
    ema50: Cell,
    ema100: Cell,
    ema200: Cell,
    bbHigh1: Cell,
    bbHigh2: Cell,
    bbLow1: Cell,
    bbLow2: Cell,
    bbWidth1: Cell,
    bbWidth2: Cell,
    macdDefault: Cell,
    macd200_50_20: Cell
  )

  /** One row of the indicator table: the closing price and the indicator columns. */
  datatype Row = Row(close: real, indicators: Indicators)

  /** The CLASS column: 'green' or 'red'. */
  datatype Label = Green | Red

  /**
   * The record createPosition returns. The seventeen OPEN_ columns are
   * `atOpen` and the seventeen CLOSE_ columns are `atClose`, each holding
   * the indicator columns under the same names as a table row.
   */
  datatype Position = Position(
    openDay: nat, closeDay: nat, duration: nat,
    profit: real, profitPercent: Cell,
    openPrice: real, closePrice: real,
    atOpen: Indicators, atClose: Indicators,
    classLabel: Label
  )

  /**
   * PROFIT_PERCENT: percentage(profit, openPrice). With pandas floats a zero
   * open price gives an infinity or NaN rather than an exception.
   */
  function ProfitPercent(profit: real, openPrice: real): (r: Cell)
    ensures r.Finite? <==> openPrice != 0.0
    ensures r.Finite? ==> r.value * openPrice == 100.0 * profit
  {
    if openPrice == 0.0 then NonFinite else Finite(Percentage(profit, openPrice))
  }

  /**
   * createPosition(openDay, closeDay, duration, indicators). `iloc` raises on
   * a day outside the table, so both days must be rows of the table.
   */
  function CreatePosition(openDay: nat, closeDay: nat, duration: nat, table: seq<Row>): (r: Position)
    requires openDay < |table| && closeDay < |table|
    ensures r.openDay == openDay && r.closeDay == closeDay && r.duration == duration
    ensures r.openPrice == table[openDay].close && r.closePrice == table[closeDay].close
    ensures r.profit == r.closePrice - r.openPrice
    ensures r.profitPercent.Finite? <==> r.openPrice != 0.0
    ensures r.profitPercent.Finite? ==> r.profitPercent.value * r.openPrice == 100.0 * r.profit
    ensures r.classLabel == Green <==> table[openDay].close <= table[closeDay].close
    ensures r.atOpen == table[openDay].indicators && r.atClose == table[closeDay].indicators
  {
    var o := table[openDay];
    var c := table[closeDay];
    Position(
      openDay, closeDay, duration,
      c.close - o.close, ProfitPercent(c.close - o.close, o.close),
      o.close, c.close,
      o.indicators, c.indicators,
      if o.close <= c.close then Green else Red
    )
  }

  /** A flat move is green and a fall is red: the label is the sign of the profit. */
  lemma LabelIsProfitSign(openDay: nat, closeDay: nat, duration: nat, table: seq<Row>)
    requires openDay < |table| && closeDay < |table|
    ensures var p := CreatePosition(openDay, closeDay, duration, table);
      (p.classLabel == Green <==> p.profit >= 0.0) && (p.classLabel == Red <==> p.profit < 0.0)
  {
  }
}
