# l2-router-bot: fee comparison and route selection

A Dafny model of the first-party logic of l2-router-bot, a service that
estimates the gas cost of a native-currency transfer on several Layer-2
networks (Arbitrum, Optimism, Base), picks the cheapest one and can then
send the transfer there. The model covers three pieces:

- the **network registry** (`networks.dfy`): the immutable `NetworkConfig`
  record, the built-in `DEFAULT_NETWORKS` table and `get_networks`, which
  rebuilds the table replacing a network's RPC endpoint when the variable
  `<NAME>_RPC_URL` is set to a non-empty value;
- the **fee estimator** (`router.dfy`, `estimate_transfer_costs`): both
  addresses are checksummed first, and an invalid one rejects the call before
  any network is queried; then every configured network is queried in turn.
  A failed query is recorded as `{"error": message}` and the loop goes on. A
  successful one records the gas price, the gas estimate and their exact
  product `total_fee_wei`, the fee in ether and, if asked for, in USD;
- the **network selector** (`router.dfy`, `select_cheapest_network`): it
  walks the cost records in order and skips records with an error or without
  a total fee. It keeps the first record with the strictly smallest fee, so
  ties go to the network that comes first.

Python dictionaries keep insertion order, and that order decides ties. So a
dictionary is modelled as the sequence of its items (`Dicts.Dict`), and
`d[k] = v` as `Dicts.Put`. The USD price lookup of `utils/price_feed.py`
(`price_feed.dfy`) is included because the estimator calls it.

The outside world becomes parameters:

- the process environment is a `map<string, string>`;
- `to_checksum_address` is a function `string -> Option<string>` (`None`
  where web3 raises);
- the gas-price, nonce and gas-estimate calls for one network are folded into
  one function `(network, transfer) -> Result<GasQuote, string>`, whose
  failure carries the exception's message;
- the reply of the price service in a network's iteration is an
  `Option<real>`.

The selection loop, the estimator's loop and the registry loop are methods
with loop invariants. Each is proved equal to a specification function
(`Cheapest`, `ExpectedCosts`, `Registry`), and the properties of those
functions are proved as lemmas.

## Model

| member | source | states |
|---|---|---|
| `Router.SelectCheapestNetwork` | l2_router_bot/router.py:74-87 | the loop returns `Cheapest(costs)`: nothing exactly when no record is usable, otherwise the name of a usable record whose fee is minimal among usable records and strictly below every usable record before it |
| `Router.PickIsFirstCheapest` | l2_router_bot/router.py:76-86 | the loop state (name, fee) is empty iff no record is usable; otherwise it names the first cheapest usable record and holds its fee |
| `Router.CheapestCharacterized` | l2_router_bot/router.py:76-87 | the selector returns nothing iff every record has an error or lacks a fee (the empty dictionary included), and otherwise returns the key of the first cheapest usable record |
| `Router.TieGoesToFirst` | l2_router_bot/router.py:84-86 | of two usable records with the same minimal fee, the later one is never chosen |
| `Router.ErrorsIgnored` | l2_router_bot/router.py:79-80 | removing every record that has an error leaves the selection state and the result unchanged |
| `Router.ErrorKeyHoldingNoneIsSkipped` | l2_router_bot/router.py:79-80 | a record whose "error" key holds `None` is skipped even though it carries the smaller fee |
| `Router.SelectsSmallestFee` | tests/test_router.py:13-19 | fees 100, 50, 75 for arbitrum, optimism, base select optimism |
| `Router.SelectsPastError` | tests/test_router.py:22-28 | an error on arbitrum with fees 90 and 120 on optimism and base selects optimism |
| `Router.SelectsNothingWhenAllFail` | tests/test_router.py:31-36 | two error records select nothing |
| `Router.EstimateTransferCosts` | l2_router_bot/router.py:24-71 | fails iff an address does not checksum, naming the first bad address and querying no network; otherwise queries every registered network once, in registry order, and returns `ExpectedCosts` over the registry: one record per network, keyed like the default table |
| `Router.SuccessEntry` | l2_router_bot/router.py:45-70 | a successful query gives a usable record whose `total_fee_wei` is gas price times gas estimate, with no USD figure unless one was requested |
| `Router.UsdFee` | l2_router_bot/router.py:56-60 | a USD figure exists exactly when a price is known |
| `Router.ExpectedCostsShape` | l2_router_bot/router.py:42-70 | the records have the registry's keys in order; a record is an error, carrying the query's message, exactly when its query failed; otherwise it is usable, holds the quote's gas price and gas estimate, `total_fee_wei` is their exact product, and without USD requested the USD field is empty |
| `Router.NoRouteIffEveryQueryFails` | l2_router_bot/router.py:42-87 | selecting from an estimate gives no network exactly when every network's query failed |
| `Networks.GetNetworks` | l2_router_bot/networks.py:71-99 | the result equals `Registry(env)`: the default keys in the default order, name, chain id and symbol unchanged, and the endpoint equal to the override variable's value when it is set and non-empty, the default otherwise |
| `Networks.OtherVariablesIgnored` | l2_router_bot/networks.py:85-98 | for every environment, setting any variable other than `ARBITRUM_RPC_URL`, `OPTIMISM_RPC_URL` and `BASE_RPC_URL` leaves the registry unchanged |
| `Networks.OverrideIsLocal` | l2_router_bot/networks.py:85-98 | for every environment, setting one network's override variable leaves every other network's record unchanged, and gives that network the value as its endpoint, or the default endpoint when the value is empty |
| `Networks.Configure` | l2_router_bot/networks.py:90-98 | only the endpoint can change; it becomes the override when there is one |
| `Networks.RegistryShape` | l2_router_bot/networks.py:84-99 | the registry has exactly the default keys; name, chain id and symbol equal the defaults; the endpoint is the non-empty override or the default |
| `Networks.DefaultTable` | l2_router_bot/networks.py:49-68 | the table holds arbitrum/42161, optimism/10 and base/8453 in that order, each paying fees in ETH and named by its key |
| `Networks.DefaultRpcEnvVars` | l2_router_bot/networks.py:86-88 | the override variables are `ARBITRUM_RPC_URL`, `OPTIMISM_RPC_URL` and `BASE_RPC_URL` |
| `Networks.NoOverridesGivesDefaults` | l2_router_bot/networks.py:84-99 | with no variables set the registry is the default table |
| `Networks.EmptyOverrideIsIgnored` | l2_router_bot/networks.py:89-90 | a variable set to the empty string has the same effect as an unset one |
| `PriceFeed.TokenPriceIgnoresCase` | l2_router_bot/utils/price_feed.py:38-40 | for every symbol, the lookup gives the same answer for the symbol and for its upper-cased form |
| `PriceFeed.OnlyEtherIsPriced` | l2_router_bot/utils/price_feed.py:22-51 | for every symbol: given a price from the request, the symbol is priced iff it upper-cases to `ETH`; without one nothing is priced; a price returned is the request's |
| `PriceFeed.EtherIsQuoted` | l2_router_bot/utils/price_feed.py:22-24 | examples: `ETH` and `eth` are quoted; `BTC` is not |

## Left out

- `l2_router_bot/main.py` (HTTP routes, request schemas, status codes, static files, and the route-and-send composition) is not part of this model. `Router.NoRouteIffEveryQueryFails` states the fact that the route-and-send composition relies on.
- `l2_router_bot/tx_sender.py` (key handling, transaction building, signing, broadcasting) wraps the web3 library and is not part of this model.
- `get_web3_clients` (l2_router_bot/networks.py:102-119) only constructs clients. The checksum and RPC calls it enables are parameters. The source checksums with the first client; the model's checksum function does not depend on the network.
- The web3 and httpx calls are not modelled: checksum validation, gas price, nonce, gas estimate and the price request. Their outcomes are parameters. The nonce is part of the query and does not appear in the result.
- Router.SuccessEntry: `total_fee_native` is the exact real `wei / 10^18`, and the USD figure is the exact real product. The source converts both to floating point, and that rounding is not modelled. The range check that web3's ether conversion performs on very large values is not modelled either. In the program, a total too large for that check makes the conversion raise inside the `try` at l2_router_bot/router.py:55, and that network gets an error record. The model gives it a usable record instead.
- Router.ExpectedCostsShape: "an error record exactly when the query failed" holds only for totals within web3's conversion range (see the Router.SuccessEntry line). Above that range the program records an error for a successful query.
- Router.NoRouteIffEveryQueryFails: for the same reason, this holds only while every successful query's total is within web3's conversion range.
- Router.EstimateTransferCosts: the rejection carries the offending address, not the text of the `ValueError`.
- Router.EstimateTransferCosts: `include_usd` defaults to true in the program; the model has no default arguments, so callers always pass it.
- Text.Upper models `str.upper` for ASCII letters only. The network names and symbols involved are ASCII.
- The selector accepts records with arbitrary keys and values; `CostEntry` keeps only the six keys the program uses. Fees are integers, as the estimator produces them (`int(total_fee_wei)`); a float fee in a caller-built record has no counterpart. For the "error" key it tells a missing key apart from a key holding `None`, since the program skips a record whenever the key is present. For `total_fee_wei` a key holding `None` and a missing key are the same, as they are for `data.get`.
- Concurrency: the source queries the networks one after another, and so does the model.
