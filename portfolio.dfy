/**
 * `Portfolio`: the companies being tracked, a `std::map<Ticker, Company>`
 * holding copies. Every `track` overload goes through `emplace`, which
 * inserts only when the ticker is absent and otherwise leaves the map as it
 * was.
 */
module Portfolios {
  import opened Tickers
  import opened Companies

  /** `companies.emplace(ticker, company)`. */
  function Emplace(companies: map<Ticker, CompanyRecord>, ticker: Ticker, company: CompanyRecord): (r: map<Ticker, CompanyRecord>)
    ensures ticker in r
    ensures ticker in companies ==> r[ticker] == companies[ticker]
    ensures ticker !in companies ==> r[ticker] == company
    ensures forall t | t != ticker :: (t in r <==> t in companies) && (t in companies ==> r[t] == companies[t])
    ensures |companies| <= |r| <= |companies| + 1
  {
    if ticker in companies then companies else companies[ticker := company]
  }

  /** Every company is filed under its own ticker. */
  predicate FiledByTicker(companies: map<Ticker, CompanyRecord>) {
    forall t | t in companies :: companies[t].ticker == t
  }

  /** Emplacing a company under its own ticker keeps every company filed
      under its own ticker. */
  lemma EmplaceKeepsFiling(companies: map<Ticker, CompanyRecord>, company: CompanyRecord)
    requires FiledByTicker(companies)
    ensures FiledByTicker(Emplace(companies, company.ticker, company))
  {
  }

  /** Tracking is idempotent: emplacing the same ticker twice is emplacing
      it once, whatever the second company is. */
  lemma EmplaceTwice(companies: map<Ticker, CompanyRecord>, ticker: Ticker, first: CompanyRecord, second: CompanyRecord)
    ensures Emplace(Emplace(companies, ticker, first), ticker, second) == Emplace(companies, ticker, first)
  {
  }

  class Portfolio {
    /** The `_companies` map. */
    var companies: map<Ticker, CompanyRecord>

    predicate Valid()
      reads this
    {
      FiledByTicker(companies)
    }

    /** A new portfolio tracks nothing. */
    constructor()
      ensures companies == map[] && Valid()
    {
      companies := map[];
    }

    /** `track(const Company&)` and `track(Company&&)`: both store a copy of
        the company under its ticker unless that ticker is already tracked. */
    method Track(company: Company)
      requires Valid()
      modifies this
      ensures Valid()
      ensures companies == Emplace(old(companies), company.ticker, company.Record())
    {
      companies := Emplace(companies, company.ticker, company.Record());
    }

    /** `track(ticker, name)`: a new company with that name, unless the
        ticker is already tracked. */
    method TrackNamed(ticker: Ticker, name: string)
      requires Valid()
      modifies this
      ensures Valid()
      ensures companies == Emplace(old(companies), ticker, NewRecord(ticker).(name := name))
    {
      var company := NewRecord(ticker).(name := name);
      companies := Emplace(companies, ticker, company);
    }

    /** `track(ticker)`: a new company named after its ticker, unless the
        ticker is already tracked. */
    method TrackTicker(ticker: Ticker)
      requires Valid()
      modifies this
      ensures Valid()
      ensures companies == Emplace(old(companies), ticker, NewRecord(ticker))
    {
      var company := NewRecord(ticker);
      companies := Emplace(companies, ticker, company);
    }
  }
}
