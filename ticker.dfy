/**
 * `Ticker`: the exchange symbol that identifies a company. It is an
 * immutable value whose only member is the symbol; construction refuses the
 * empty symbol, and comparison is the defaulted three-way comparison of that
 * one member, i.e. the order of `std::string`.
 */
module Tickers {
  import opened Wrappers
  import StringOrder

  datatype Ticker = Ticker(symbol: string)

  /** The `invalid_argument` the constructor throws. */
  datatype TickerError = EmptySymbol

  /** A ticker as the constructor leaves it: the symbol is never empty. */
  predicate Valid(t: Ticker) {
    t.symbol != []
  }

  /** `Ticker(symbol)`: kept exactly as given (no trimming, no case change);
      the empty symbol is refused. */
  function NewTicker(symbol: string): (r: Result<Ticker, TickerError>)
    ensures r.Ok? <==> symbol != []
    ensures r.Ok? ==> r.value.symbol == symbol && Valid(r.value)
    ensures r.Err? ==> r.error == EmptySymbol
  {
    if symbol == [] then Err(EmptySymbol) else Ok(Ticker(symbol))
  }

  /** The outcome of `<=>`. */
  datatype Ordering = Less | Equivalent | Greater

  /** The defaulted `operator<=>`: the comparison of the symbols. */
  function Compare(a: Ticker, b: Ticker): (o: Ordering)
    ensures o == Equivalent <==> a == b
    ensures o == Less <==> StringOrder.Less(a.symbol, b.symbol)
    ensures o == Greater <==> StringOrder.Less(b.symbol, a.symbol)
  {
    StringOrder.LessTotal(a.symbol, b.symbol);
    StringOrder.LessAsymmetric(a.symbol, b.symbol);
    StringOrder.LessIrreflexive(a.symbol);
    if StringOrder.Less(a.symbol, b.symbol) then Less
    else if a.symbol == b.symbol then Equivalent
    else Greater
  }

  /** Swapping the operands flips the outcome. */
  lemma CompareAntisymmetric(a: Ticker, b: Ticker)
    ensures Compare(a, b) == Less <==> Compare(b, a) == Greater
    ensures Compare(a, b) == Equivalent <==> Compare(b, a) == Equivalent
  {
  }

  /** The order on tickers is transitive, so it is a strict total order
      usable as the key order of `std::map<Ticker, Company>`. */
  lemma CompareTransitive(a: Ticker, b: Ticker, c: Ticker)
    requires Compare(a, b) == Less && Compare(b, c) == Less
    ensures Compare(a, c) == Less
  {
    StringOrder.LessTransitive(a.symbol, b.symbol, c.symbol);
  }
}
