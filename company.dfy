/**
 * `Company`: a tracked company's share ledger and price stack. Buying and
 * selling append transactions, and a sale of more shares than are held is
 * refused, so the holding never goes negative. `updatePrice` pushes onto the
 * price stack, whose top is the current price.
 */
module Companies {
  import opened Wrappers
  import opened Tickers

  /** A transaction is a buy or a sell of a number of shares. */
  datatype TransactionKind = Buy | Sell
  datatype Transaction = Transaction(kind: TransactionKind, shares: int)

  /** A price, treated as an opaque amount. */
  datatype Price = Price(amount: real)

  /** The `invalid_argument` thrown by `buyShares` and `sellShares`. */
  datatype LedgerError = NonPositiveShares | MoreThanOwned

  /** `fold_left` of the shares of the buys, from the first transaction to
      the last. */
  function Bought(txs: seq<Transaction>): int {
    if txs == [] then 0
    else Bought(txs[..|txs| - 1]) + (if txs[|txs| - 1].kind == Buy then txs[|txs| - 1].shares else 0)
  }

  /** `fold_left` of the shares of the sells. */
  function Sold(txs: seq<Transaction>): int {
    if txs == [] then 0
    else Sold(txs[..|txs| - 1]) + (if txs[|txs| - 1].kind == Sell then txs[|txs| - 1].shares else 0)
  }

  /** `fold_left` of the signed shares: a buy counts up, anything else down. */
  function Held(txs: seq<Transaction>): int {
    if txs == [] then 0
    else Held(txs[..|txs| - 1]) + (if txs[|txs| - 1].kind == Buy then txs[|txs| - 1].shares else -txs[|txs| - 1].shares)
  }

  /** The shares held are those bought less those sold. */
  lemma {:induction false} HeldIsBoughtMinusSold(txs: seq<Transaction>)
    ensures Held(txs) == Bought(txs) - Sold(txs)
    decreases |txs|
  {
    if txs != [] {
      HeldIsBoughtMinusSold(txs[..|txs| - 1]);
    }
  }

  /** Appending one transaction moves each sum by its shares alone. */
  lemma {:induction false} SumsAppend(txs: seq<Transaction>, t: Transaction)
    ensures Bought(txs + [t]) == Bought(txs) + (if t.kind == Buy then t.shares else 0)
    ensures Sold(txs + [t]) == Sold(txs) + (if t.kind == Sell then t.shares else 0)
    ensures Held(txs + [t]) == Held(txs) + (if t.kind == Buy then t.shares else -t.shares)
  {
    assert (txs + [t])[..|txs|] == txs;
  }

  /** The sequence read backwards. */
  function Reverse<T>(s: seq<T>): (r: seq<T>)
    ensures |r| == |s|
  {
    if s == [] then [] else Reverse(s[1..]) + [s[0]]
  }

  /** Reversing after appending puts the new element first. */
  lemma {:induction false} ReverseAppend<T>(s: seq<T>, x: T)
    ensures Reverse(s + [x]) == [x] + Reverse(s)
    decreases |s|
  {
    if s != [] {
      assert (s + [x])[1..] == s[1..] + [x];
      ReverseAppend(s[1..], x);
    }
  }

  /** The value of a company as `Portfolio` stores it. */
  datatype CompanyRecord = CompanyRecord(ticker: Ticker, name: string, transactions: seq<Transaction>, prices: seq<Price>)

  /** What `Company(ticker)` holds: the symbol as name, no transactions and
      no prices. */
  function NewRecord(ticker: Ticker): (c: CompanyRecord)
    ensures c.ticker == ticker && c.name == ticker.symbol
    ensures c.transactions == [] && c.prices == []
  {
    CompanyRecord(ticker, ticker.symbol, [], [])
  }

  class Company {
    const ticker: Ticker
    var name: string
    /** The `_transactions` vector, oldest first. */
    var transactions: seq<Transaction>
    /** The `_pricePoints` stack, bottom first: its last element is the top. */
    var prices: seq<Price>

    /** Every transaction moves a positive number of shares and no more
        shares have been sold than bought. */
    predicate Valid()
      reads this
    {
      (forall i | 0 <= i < |transactions| :: transactions[i].shares > 0) &&
      Held(transactions) >= 0
    }

    /** `Company(ticker)`. */
    constructor(ticker: Ticker)
      ensures this.ticker == ticker && name == ticker.symbol
      ensures transactions == [] && prices == []
      ensures Valid()
    {
      this.ticker := ticker;
      name := ticker.symbol;
      transactions := [];
      prices := [];
    }

    /** The company's current value. */
    function Record(): (c: CompanyRecord)
      reads this
      ensures c.ticker == ticker && c.name == name && c.transactions == transactions && c.prices == prices
    {
      CompanyRecord(ticker, name, transactions, prices)
    }

    /** `setName(name)`: the empty name stands for the ticker symbol. */
    method SetName(name: string)
      modifies this
      ensures this.name == if name == [] then ticker.symbol else name
      ensures transactions == old(transactions) && prices == old(prices)
    {
      if name == [] {
        this.name := ticker.symbol;
      } else {
        this.name := name;
      }
    }

    /** `sharesBought()`. */
    function SharesBought(): (n: int)
      reads this
      ensures Valid() ==> n >= 0
    {
      if Valid() then BoughtNonNegative(transactions); Bought(transactions)
      else Bought(transactions)
    }

    /** `sharesSold()`. */
    function SharesSold(): (n: int)
      reads this
      ensures Valid() ==> 0 <= n <= SharesBought()
    {
      HeldIsBoughtMinusSold(transactions);
      if Valid() then SoldNonNegative(transactions); Sold(transactions)
      else Sold(transactions)
    }

    /** `shareCount()`: never negative, and what was bought less what was
        sold. */
    function ShareCount(): (n: int)
      reads this
      ensures Valid() ==> n >= 0
      ensures n == SharesBought() - SharesSold()
    {
      HeldIsBoughtMinusSold(transactions);
      Held(transactions)
    }

    /** `currentPrice()`: the top of the price stack, or unknown. */
    function CurrentPrice(): (p: Option<Price>)
      reads this
      ensures p.None? <==> prices == []
      ensures p.Some? ==> p.value == prices[|prices| - 1]
    {
      if prices == [] then None else Some(prices[|prices| - 1])
    }

    /** `updatePrice(price)`: pushes the price, which becomes current. */
    method UpdatePrice(price: Price)
      modifies this
      ensures prices == old(prices) + [price]
      ensures CurrentPrice() == Some(price)
      ensures name == old(name) && transactions == old(transactions)
    {
      prices := prices + [price];
    }

    /** `priceHistory()`: pops a copy of the stack into a vector, then
        reverses it; every recorded price, oldest first. */
    method PriceHistory() returns (history: seq<Price>)
      ensures history == prices
    {
      var popped: seq<Price> := [];
      var stack := prices;
      while stack != []
        invariant stack + Reverse(popped) == prices
        decreases |stack|
      {
        ReverseAppend(popped, stack[|stack| - 1]);
        assert stack == stack[..|stack| - 1] + [stack[|stack| - 1]];
        popped := popped + [stack[|stack| - 1]];
        stack := stack[..|stack| - 1];
      }
      history := Reverse(popped);
    }

    /** `buyShares(shares)`: refuses a non-positive count; otherwise records
        one buy. */
    method BuyShares(shares: int) returns (error: Option<LedgerError>)
      requires Valid()
      modifies this
      ensures Valid()
      ensures shares <= 0 ==> error == Some(NonPositiveShares) && transactions == old(transactions)
      ensures shares > 0 ==> error.None? && transactions == old(transactions) + [Transaction(Buy, shares)]
      ensures ShareCount() == old(ShareCount()) + (if error.None? then shares else 0)
      ensures name == old(name) && prices == old(prices)
    {
      if shares <= 0 {
        return Some(NonPositiveShares);
      }
      SumsAppend(transactions, Transaction(Buy, shares));
      transactions := transactions + [Transaction(Buy, shares)];
      error := None;
    }

    /** `sellShares(shares)`: refuses a non-positive count and a sale of
        more than is held; otherwise records one sell. */
    method SellShares(shares: int) returns (error: Option<LedgerError>)
      requires Valid()
      modifies this
      ensures Valid()
      ensures shares <= 0 ==> error == Some(NonPositiveShares)
      ensures shares > 0 && shares > old(ShareCount()) ==> error == Some(MoreThanOwned)
      ensures error.Some? ==> transactions == old(transactions)
      ensures 0 < shares <= old(ShareCount()) ==> error.None? && transactions == old(transactions) + [Transaction(Sell, shares)]
      ensures ShareCount() == old(ShareCount()) - (if error.None? then shares else 0)
      ensures name == old(name) && prices == old(prices)
    {
      if shares <= 0 {
        return Some(NonPositiveShares);
      }
      if shares > ShareCount() {
        return Some(MoreThanOwned);
      }
      SumsAppend(transactions, Transaction(Sell, shares));
      transactions := transactions + [Transaction(Sell, shares)];
      error := None;
    }
  }

  /** Bought shares add up to a non-negative number. */
  lemma {:induction false} BoughtNonNegative(txs: seq<Transaction>)
    requires forall i | 0 <= i < |txs| :: txs[i].shares > 0
    ensures Bought(txs) >= 0
    decreases |txs|
  {
    if txs != [] {
      BoughtNonNegative(txs[..|txs| - 1]);
    }
  }

  /** Sold shares add up to a non-negative number. */
  lemma {:induction false} SoldNonNegative(txs: seq<Transaction>)
    requires forall i | 0 <= i < |txs| :: txs[i].shares > 0
    ensures Sold(txs) >= 0
    decreases |txs|
  {
    if txs != [] {
      SoldNonNegative(txs[..|txs| - 1]);
    }
  }
}
