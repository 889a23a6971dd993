/** Entities shared by every component (internal/models/types.go).

    Decimals are integers in a fixed small unit: a price unit, a quantity unit, and for USD the
    product of the two, so that `price * qty` is exact as it is in the decimal library.
    UUIDs are natural numbers; 0 is the nil UUID. */
module Types {
  type Id = nat

  datatype Option<+T> = None | Some(value: T)

  datatype Symbol = BTCUSD | ETHUSD | Unlisted
  datatype Currency = USD | BTC | ETH
  datatype Side = Buy | Sell
  datatype OrderType = Market | Limit
  datatype Status = New | PartiallyFilled | Filled

  /** A trade, plus `makerOrder`: the resting order it consumed. The source records only the
      maker's user, which is why it can never update the maker's row. */
  datatype Trade = Trade(symbol: Symbol, side: Side, price: int, qty: int,
                         takerId: Id, makerId: Id, makerOrder: Id)

  /** An order as it is requested, stored in a row and handed to the book. */
  datatype Order = Order(id: Id, user: Id, symbol: Symbol, side: Side, typ: OrderType, price: Option<int>,
                         qty: int, filled: int, status: Status, at: int)
  {
    function Remaining(): int { qty - filled }

    /** The order as it rests on a book. Only priced orders rest, so the 0 never gets there. */
    function AsResting(): Resting {
      Resting(id, user, symbol, side, if price.Some? then price.value else 0, qty, filled, status, at)
    }
  }

  /** A priced order in a level's queue. */
  datatype Resting = Resting(id: Id, user: Id, symbol: Symbol, side: Side, price: int,
                             qty: int, filled: int, status: Status, at: int)
  {
    function Remaining(): int { qty - filled }
  }

  function Min(a: int, b: int): int { if a <= b then a else b }

  function Opposite(side: Side): Side { if side.Buy? then Sell else Buy }

  /** Status of an order, as a function of how much of it is filled. */
  function StatusOf(qty: int, filled: int): Status {
    if filled == qty then Filled else if filled > 0 then PartiallyFilled else New
  }

  /** The currency an order on `side` of `symbol` pays with. */
  function BaseOf(symbol: Symbol): Currency {
    if symbol.BTCUSD? then BTC else ETH
  }

  function PayCurrency(symbol: Symbol, side: Side): Currency {
    if side.Buy? then USD else BaseOf(symbol)
  }
}
