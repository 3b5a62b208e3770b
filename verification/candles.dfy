/**
 Candles (klines) as the exchange hands them over and as the per-symbol
 tables store them. Times in a stored row are whole seconds since the epoch;
 the exchange counts milliseconds.
 */
module Candles {

  /** One kline tuple `[openMs, open, high, low, close, volume, closeMs, ...]`.
      Only the first seven fields are read; the price and volume fields are
      the decimal texts the exchange sends. */
  datatype Kline = Kline(
    openMs: int,
    open: string,
    high: string,
    low: string,
    close: string,
    volume: string,
    closeMs: int)

  /** One row of a symbol's table. */
  datatype Row = Row(
    opentime: int,
    open: string,
    high: string,
    low: string,
    close: string,
    volume: string,
    closetime: int)

  /** The whole second a millisecond timestamp falls in: the part of
      `ms / 1000` that survives formatting with second resolution. */
  function Seconds(ms: int): (s: int)
    ensures s * 1000 <= ms < s * 1000 + 1000
  {
    ms / 1000
  }

  /** The row an INSERT built from kline `k` puts into the table: the two
      times through the second-resolution formatter, fields 1-5 verbatim. */
  function RowOf(k: Kline): (r: Row)
    ensures r.opentime * 1000 <= k.openMs < r.opentime * 1000 + 1000
    ensures r.closetime * 1000 <= k.closeMs < r.closetime * 1000 + 1000
    ensures (r.open, r.high, r.low, r.close, r.volume) == (k.open, k.high, k.low, k.close, k.volume)
  {
    Row(Seconds(k.openMs), k.open, k.high, k.low, k.close, k.volume, Seconds(k.closeMs))
  }

  /** Row-wise conversion of one page of klines, order kept. */
  function RowsOf(page: seq<Kline>): (rows: seq<Row>)
  {
    seq(|page|, i requires 0 <= i < |page| => RowOf(page[i]))
  }
}
