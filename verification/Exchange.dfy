/**
 The data the simulated exchange works on. Prices are in hundredths (1.01 is 101), sizes in
 pence and price * size products in hundredths of a penny, so every amount is an integer.
 */
module Exchange {

  datatype Option<+T> = None | Some(value: T)

  datatype Side = Back | Lay

  /** An amount as seen from the side: a gain for BACK is a loss for LAY, a good price for BACK is
      a bad one for LAY. */
  function Signed(side: Side, x: int): int {
    if side.Back? then x else -x
  }

  datatype Persistence = Lapse | Persist | TakeStartingPrice

  /** A decimal price. The exchange quotes none at or below 1.00. */
  type Price = p: int | 100 < p witness 101

  /** A reconciled starting price, or 0 while there is none. */
  type StartingPrice = p: int | p == 0 || 100 < p witness 0

  datatype OrderType =
    | Limit(price: Price, size: int, persistence: Persistence)
    | LimitOnClose(liability: int, bound: Price)
    | MarketOnClose(liability: int)

  /** One rung of a book, or the volume traded at one price since the last update. */
  datatype Level = Level(price: Price, size: nat)

  /** One entry of an order's list of matches. */
  datatype Match = Match(time: int, price: Price, size: int)

  datatype MarketStatus = Open | Suspended | Inactive | Closed

  datatype MarketBook = MarketBook(
    status: MarketStatus,
    version: int,
    time: int,
    bspMarket: bool,
    bspReconciled: bool,
    inplay: bool,
    persistenceEnabled: bool)

  datatype RunnerBook = RunnerBook(
    removed: bool,
    availableToBack: seq<Level>,
    availableToLay: seq<Level>,
    actualSp: StartingPrice)

  /** How the selection fared; the number of winners is 0 unless there was a dead heat. */
  datatype Outcome = Winner(deadHeatWinners: nat) | Loser | Unsettled
}
