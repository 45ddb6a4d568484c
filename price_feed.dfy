/** The USD price feed. The HTTP request to the quote service is not
    modelled: its outcome (a price, or nothing when the request fails or
    the reply has no price) is a parameter. */
module PriceFeed {
  import opened Wrappers
  import opened Text

  /** Native token symbols the quote service knows, with its identifiers. */
  const TokenIds: map<string, string> := map["ETH" := "ethereum"]

  /** The USD price of `symbol`: nothing for a symbol without a quote
      identifier (looked up upper-cased), otherwise what the request
      returned. */
  function TokenPrice(symbol: string, response: Option<real>): (price: Option<real>)
    ensures Upper(symbol) !in TokenIds ==> price == None
    ensures Upper(symbol) in TokenIds ==> price == response
  {
    if Upper(symbol) !in TokenIds then None else response
  }

  /** The lookup ignores letter case: a symbol and its upper-cased form get
      the same answer. */
  lemma TokenPriceIgnoresCase(symbol: string, response: Option<real>)
    ensures TokenPrice(symbol, response) == TokenPrice(Upper(symbol), response)
  {
    UpperIdempotent(symbol);
  }

  /** Given a price from the request, a symbol is priced exactly when it is
      ETH in some letter case; without one no symbol is priced. */
  lemma OnlyEtherIsPriced(symbol: string, response: Option<real>)
    ensures response.Some? ==> (TokenPrice(symbol, response).Some? <==> Upper(symbol) == "ETH")
    ensures response.None? ==> TokenPrice(symbol, response) == None
    ensures TokenPrice(symbol, response).Some? ==> TokenPrice(symbol, response) == response
  {
  }

  /** Examples: `ETH` and `eth` are quoted, `BTC` is not. */
  lemma EtherIsQuoted(response: Option<real>)
    ensures TokenPrice("ETH", response) == response
    ensures TokenPrice("eth", response) == response
    ensures TokenPrice("BTC", response) == None
  {
    assert Upper("ETH") == "ETH";
    assert Upper("eth") == "ETH";
    assert Upper("BTC") == "BTC";
  }
}
