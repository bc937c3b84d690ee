/**
 * The record types shared by the price store, the downloader and the
 * momentum screen: one daily bar, a bar tagged with its ticker, the
 * table's primary key and a stored date range.
 */
module PriceData {

  /** A quoted price: always positive. */
  type Price = x: real | x > 0.0 witness 1.0

  /** One trading day of one ticker; `date` is an ISO `YYYY-MM-DD` string. */
  datatype Bar = Bar(date: string, open: Price, high: Price, low: Price, close: Price, volume: nat)

  /** One row of the `prices` table (or of a downloaded frame): a bar with its ticker. */
  datatype PriceRow = PriceRow(code: string, bar: Bar)

  /** The table's primary key `(code, date)`. */
  type Key = (string, string)

  function KeyOf(r: PriceRow): Key
  {
    (r.code, r.bar.date)
  }

  /** The smallest and largest stored date string of one ticker. */
  datatype DateRange = DateRange(min: string, max: string)
}
