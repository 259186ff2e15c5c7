/** The download request record of models/stock_config.py. */
module Config {
  import opened Wrappers
  import opened Bars

  /** The bar interval a request asks for when the caller names none. */
  const DefaultInterval: string := "1d"

  /** `StockConfig` once `__post_init__` has run: the end date is always filled in. Dates are
      day numbers where the source keeps `YYYY-MM-DD` strings. */
  datatype StockConfig = StockConfig(symbol: string, startDate: Option<Day>, endDate: Day, interval: string)

  /** Constructing a `StockConfig`. An argument the caller leaves out is `None` here; `today`
      stands for `datetime.now()`, read only when no end date is given. */
  function NewStockConfig(symbol: string, startDate: Option<Day>, endDate: Option<Day>,
                          interval: Option<string>, today: Day): (c: StockConfig)
    ensures c.symbol == symbol
    ensures c.startDate == startDate
    ensures endDate.None? ==> c.endDate == today
    ensures endDate.Some? ==> c.endDate == endDate.value
    ensures interval.None? ==> c.interval == DefaultInterval
    ensures interval.Some? ==> c.interval == interval.value
  {
    StockConfig(
      symbol,
      startDate,
      match endDate { case Some(e) => e case None => today },
      match interval { case Some(i) => i case None => DefaultInterval })
  }
}
