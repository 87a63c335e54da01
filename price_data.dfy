/** The price record read from a Polygon.io flat file (com.backt4j.data.PriceDataPoint). */
module PriceData {

  /**
   * One row of price data for one ticker. `windowStart` is the row's window start in
   * milliseconds since the epoch (the Java record holds it as a `Date`).
   */
  datatype PricePoint = PricePoint(
    id: string,
    volume: int,
    open: real,
    close: real,
    high: real,
    low: real,
    windowStart: int,
    transactions: int)
}
