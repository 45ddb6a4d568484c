/** Fee estimation across the configured networks and selection of the
    cheapest one. */
module Router {
  import opened Wrappers
  import opened Dicts
  import Networks
  import PriceFeed

  /** One network's cost record. The program builds it as a dictionary that
      either holds only "error" or holds the five fee fields; the selector
      accepts any dictionary, so every field is optional here. The selector
      asks only whether the "error" key is present, whatever it holds, so
      `error` tells a missing key (`None`) from a key holding `None`
      (`Some(None)`); for the other fields `data.get` makes the two alike. */
  datatype CostEntry = CostEntry(
    error: Option<Option<string>>,
    gasPriceWei: Option<int>,
    estimatedGas: Option<int>,
    totalFeeWei: Option<int>,
    totalFeeNative: Option<real>,
    totalFeeUsd: Option<real>)

  /** `{"error": message}` */
  function ErrorEntry(message: string): CostEntry
  {
    CostEntry(Some(Some(message)), None, None, None, None, None)
  }

  /** `{"total_fee_wei": fee}` */
  function FeeEntry(fee: int): CostEntry
  {
    CostEntry(None, None, None, Some(fee), None, None)
  }

  /** A record the selector considers: no "error" key and a total fee. */
  predicate Usable(e: CostEntry)
  {
    e.error.None? && e.totalFeeWei.Some?
  }

  // ---------------------------------------------------------------------
  // Selection

  /** One step of the selection loop on its state, the pair
      (cheapest name, cheapest fee), or None before any usable record. */
  function Consider(best: Option<(string, int)>, item: (string, CostEntry)): Option<(string, int)>
  {
    if item.1.error.Some? then best
    else if item.1.totalFeeWei.None? then best
    else if best.None? || item.1.totalFeeWei.value < best.value.1 then Some((item.0, item.1.totalFeeWei.value))
    else best
  }

  /** The selection state after the records of `costs`, in order. */
  function Pick(costs: Dict<CostEntry>): Option<(string, int)>
    decreases |costs|
  {
    if |costs| == 0 then None
    else Consider(Pick(costs[..|costs| - 1]), costs[|costs| - 1])
  }

  /** The network the selector returns. */
  function Cheapest(costs: Dict<CostEntry>): Option<string>
  {
    match Pick(costs)
    case None => None
    case Some(p) => Some(p.0)
  }

  /** Record `k` is usable, no usable record is cheaper, and every usable
      record before it is strictly dearer: the first of the cheapest. */
  predicate IsFirstCheapest(costs: Dict<CostEntry>, k: int)
  {
    && 0 <= k < |costs|
    && Usable(costs[k].1)
    && (forall j | 0 <= j < |costs| && Usable(costs[j].1) ::
          costs[k].1.totalFeeWei.value <= costs[j].1.totalFeeWei.value)
    && (forall j | 0 <= j < k && Usable(costs[j].1) ::
          costs[k].1.totalFeeWei.value < costs[j].1.totalFeeWei.value)
  }

  /** The loop state is empty exactly when no record is usable, and
      otherwise names the first cheapest record and holds its fee. */
  lemma {:induction false} PickIsFirstCheapest(costs: Dict<CostEntry>)
    ensures Pick(costs).None? <==> forall i | 0 <= i < |costs| :: !Usable(costs[i].1)
    ensures Pick(costs).Some? ==>
      exists k :: IsFirstCheapest(costs, k) && costs[k].0 == Pick(costs).value.0
                  && costs[k].1.totalFeeWei.value == Pick(costs).value.1
    decreases |costs|
  {
    if |costs| > 0 {
      var n := |costs| - 1;
      var prefix := costs[..n];
      var last := costs[n];
      PickIsFirstCheapest(prefix);
      assert forall j | 0 <= j < n :: costs[j] == prefix[j];
      if Pick(prefix).Some? {
        var k :| IsFirstCheapest(prefix, k) && prefix[k].0 == Pick(prefix).value.0
                 && prefix[k].1.totalFeeWei.value == Pick(prefix).value.1;
        if Usable(last.1) && last.1.totalFeeWei.value < Pick(prefix).value.1 {
          assert IsFirstCheapest(costs, n);
        } else {
          assert IsFirstCheapest(costs, k);
        }
      } else if Usable(last.1) {
        assert IsFirstCheapest(costs, n);
      }
    }
  }

  /** Only one record can be the first of the cheapest. */
  lemma FirstCheapestIsUnique(costs: Dict<CostEntry>, k1: int, k2: int)
    requires IsFirstCheapest(costs, k1) && IsFirstCheapest(costs, k2)
    ensures k1 == k2
  {
  }

  /** The selector returns the name of the first cheapest usable record,
      and nothing when no record is usable. */
  lemma CheapestCharacterized(costs: Dict<CostEntry>)
    ensures Cheapest(costs) == None <==> forall i | 0 <= i < |costs| :: !Usable(costs[i].1)
    ensures forall k | IsFirstCheapest(costs, k) :: Cheapest(costs) == Some(costs[k].0)
  {
    PickIsFirstCheapest(costs);
    forall k | IsFirstCheapest(costs, k)
      ensures Cheapest(costs) == Some(costs[k].0)
    {
      var m :| IsFirstCheapest(costs, m) && costs[m].0 == Pick(costs).value.0;
      FirstCheapestIsUnique(costs, k, m);
    }
  }

  /** Ties go to the first network in iteration order: of two records with
      the same minimal fee, the later one is never chosen. */
  lemma TieGoesToFirst(costs: Dict<CostEntry>, j: int, k: int)
    requires DistinctKeys(costs)
    requires 0 <= j < k < |costs| && Usable(costs[j].1) && Usable(costs[k].1)
    requires costs[j].1.totalFeeWei == costs[k].1.totalFeeWei
    requires forall i | 0 <= i < |costs| && Usable(costs[i].1) ::
      costs[j].1.totalFeeWei.value <= costs[i].1.totalFeeWei.value
    ensures Cheapest(costs).Some? && Cheapest(costs) != Some(costs[k].0)
  {
    PickIsFirstCheapest(costs);
    var m :| IsFirstCheapest(costs, m) && costs[m].0 == Pick(costs).value.0;
    assert m <= j;
  }

  /** The records without an "error" key, in order. */
  function WithoutErrors(costs: Dict<CostEntry>): (r: Dict<CostEntry>)
    ensures forall i | 0 <= i < |r| :: r[i].1.error.None?
    ensures forall i | 0 <= i < |r| :: r[i] in costs
    ensures forall i | 0 <= i < |costs| :: costs[i].1.error.None? ==> costs[i] in r
    decreases |costs|
  {
    if |costs| == 0 then []
    else
      var rest := WithoutErrors(costs[..|costs| - 1]);
      if costs[|costs| - 1].1.error.Some? then rest else rest + [costs[|costs| - 1]]
  }

  /** Error records are ignored: dropping them first changes nothing. */
  lemma {:induction false} ErrorsIgnored(costs: Dict<CostEntry>)
    ensures Pick(WithoutErrors(costs)) == Pick(costs)
    ensures Cheapest(WithoutErrors(costs)) == Cheapest(costs)
    decreases |costs|
  {
    if |costs| > 0 {
      var n := |costs| - 1;
      ErrorsIgnored(costs[..n]);
      var rest := WithoutErrors(costs[..n]);
      if costs[n].1.error.None? {
        assert (rest + [costs[n]])[..|rest|] == rest;
      }
    }
  }

  /** `select_cheapest_network`: walks the records in order, skipping those
      with an error or without a total fee, and keeps the first one seen
      with the strictly smallest fee. */
  method SelectCheapestNetwork(costs: Dict<CostEntry>) returns (cheapestName: Option<string>)
    ensures cheapestName == Cheapest(costs)
    ensures cheapestName.None? <==> forall i | 0 <= i < |costs| :: !Usable(costs[i].1)
    ensures cheapestName.Some? ==>
      exists k :: IsFirstCheapest(costs, k) && costs[k].0 == cheapestName.value
  {
    cheapestName := None;
    var cheapestFee: Option<int> := None;
    for i := 0 to |costs|
      invariant cheapestFee.None? ==> cheapestName.None? && Pick(costs[..i]).None?
      invariant cheapestFee.Some? ==>
        cheapestName.Some? && Pick(costs[..i]) == Some((cheapestName.value, cheapestFee.value))
    {
      assert costs[..i + 1][..i] == costs[..i];
      var (name, data) := costs[i];
      if data.error.Some? {
        continue;
      }
      var fee := data.totalFeeWei;
      if fee.None? {
        continue;
      }
      if cheapestFee.None? || fee.value < cheapestFee.value {
        cheapestFee := fee;
        cheapestName := Some(name);
      }
    }
    assert costs[..|costs|] == costs;
    PickIsFirstCheapest(costs);
  }

  /** An "error" key is enough to skip a record, even when it holds `None`
      and the record carries a fee. */
  lemma ErrorKeyHoldingNoneIsSkipped(fee: int)
    ensures Cheapest([("arbitrum", CostEntry(Some(None), None, None, Some(fee), None, None)),
                      ("optimism", FeeEntry(fee + 1))])
            == Some("optimism")
  {
    var costs := [("arbitrum", CostEntry(Some(None), None, None, Some(fee), None, None)),
                  ("optimism", FeeEntry(fee + 1))];
    assert IsFirstCheapest(costs, 1);
    CheapestCharacterized(costs);
  }

  /** Unit-test scenario: the smallest fee wins. */
  lemma SelectsSmallestFee()
    ensures Cheapest([("arbitrum", FeeEntry(100)), ("optimism", FeeEntry(50)), ("base", FeeEntry(75))])
            == Some("optimism")
  {
    var costs := [("arbitrum", FeeEntry(100)), ("optimism", FeeEntry(50)), ("base", FeeEntry(75))];
    assert IsFirstCheapest(costs, 1);
    CheapestCharacterized(costs);
  }

  /** Unit-test scenario: an error record is passed over. */
  lemma SelectsPastError()
    ensures Cheapest([("arbitrum", ErrorEntry("RPC unavailable")), ("optimism", FeeEntry(90)),
                      ("base", FeeEntry(120))])
            == Some("optimism")
  {
    var costs := [("arbitrum", ErrorEntry("RPC unavailable")), ("optimism", FeeEntry(90)), ("base", FeeEntry(120))];
    assert IsFirstCheapest(costs, 1);
    CheapestCharacterized(costs);
  }

  /** Unit-test scenario: nothing is chosen when every network failed. */
  lemma SelectsNothingWhenAllFail()
    ensures Cheapest([("arbitrum", ErrorEntry("failed")), ("optimism", ErrorEntry("failed"))]) == None
  {
    CheapestCharacterized([("arbitrum", ErrorEntry("failed")), ("optimism", ErrorEntry("failed"))]);
  }

  // ---------------------------------------------------------------------
  // Estimation

  /** The transaction shape whose gas is estimated (the nonce is fetched
      from the network and is part of the query). */
  datatype Transfer = Transfer(from: string, to: string, value: int)

  /** What a successful query of one network yields. */
  datatype GasQuote = GasQuote(gasPriceWei: nat, estimatedGas: nat)

  datatype EstimateError = InvalidAddress(address: string)

  const WeiPerEther: int := 1000000000000000000

  /** The fee in ether, exactly. */
  function FromWei(wei: int): real
  {
    wei as real / WeiPerEther as real
  }

  /** The fee in USD at a known price; unknown without one. */
  function UsdFee(native: real, price: Option<real>): (usd: Option<real>)
    ensures usd.Some? <==> price.Some?
  {
    if price.Some? then Some(native * price.value) else None
  }

  /** The record the estimator stores for one network, given the outcome of
      its query and, when USD figures are wanted, the price request's reply. */
  function CostFor(cfg: Networks.NetworkConfig, outcome: Result<GasQuote, string>,
                   priceResponse: Option<real>, includeUsd: bool): CostEntry
  {
    match outcome
    case Failure(message) => ErrorEntry(message)
    case Success(q) =>
      var fee := q.gasPriceWei * q.estimatedGas;
      var native := FromWei(fee);
      var usd := if includeUsd then UsdFee(native, PriceFeed.TokenPrice(cfg.nativeSymbol, priceResponse)) else None;
      CostEntry(None, Some(q.gasPriceWei), Some(q.estimatedGas), Some(fee), Some(native), usd)
  }

  /** The estimator's result over `networks`: one record per network, in order. */
  function ExpectedCosts(networks: Dict<Networks.NetworkConfig>, tx: Transfer,
                         query: (string, Transfer) -> Result<GasQuote, string>,
                         priceResponse: string -> Option<real>, includeUsd: bool): (r: Dict<CostEntry>)
    ensures |r| == |networks|
    ensures forall i | 0 <= i < |r| ::
      r[i] == (networks[i].0, CostFor(networks[i].1, query(networks[i].0, tx), priceResponse(networks[i].0), includeUsd))
  {
    seq(|networks|, i requires 0 <= i < |networks| =>
      (networks[i].0, CostFor(networks[i].1, query(networks[i].0, tx), priceResponse(networks[i].0), includeUsd)))
  }

  /** Each record is an error exactly when its query failed, and then holds
      the failure's message; otherwise the total fee is the exact product
      of gas price and gas estimate and the record is usable; without USD
      figures requested the USD field is empty. */
  lemma ExpectedCostsShape(networks: Dict<Networks.NetworkConfig>, tx: Transfer,
                           query: (string, Transfer) -> Result<GasQuote, string>,
                           priceResponse: string -> Option<real>, includeUsd: bool)
    ensures Keys(ExpectedCosts(networks, tx, query, priceResponse, includeUsd)) == Keys(networks)
    ensures forall i | 0 <= i < |networks| ::
      var e := ExpectedCosts(networks, tx, query, priceResponse, includeUsd)[i].1;
      var outcome := query(networks[i].0, tx);
      && (outcome.Failure? <==> e.error.Some?)
      && (outcome.Failure? ==> e == ErrorEntry(outcome.error))
      && (outcome.Success? <==> Usable(e))
      && (outcome.Success? ==>
            && e.gasPriceWei == Some(outcome.value.gasPriceWei)
            && e.estimatedGas == Some(outcome.value.estimatedGas)
            && e.totalFeeWei == Some(outcome.value.gasPriceWei * outcome.value.estimatedGas)
            && (!includeUsd ==> e.totalFeeUsd == None))
  {
  }

  /** No network is chosen from an estimate exactly when every network's
      query failed. */
  lemma NoRouteIffEveryQueryFails(networks: Dict<Networks.NetworkConfig>, tx: Transfer,
                                  query: (string, Transfer) -> Result<GasQuote, string>,
                                  priceResponse: string -> Option<real>, includeUsd: bool)
    ensures Cheapest(ExpectedCosts(networks, tx, query, priceResponse, includeUsd)) == None
            <==> forall i | 0 <= i < |networks| :: query(networks[i].0, tx).Failure?
  {
    var costs := ExpectedCosts(networks, tx, query, priceResponse, includeUsd);
    CheapestCharacterized(costs);
    ExpectedCostsShape(networks, tx, query, priceResponse, includeUsd);
  }

  /** `estimate_transfer_costs`. Both addresses are checksummed first (an
      invalid one rejects the call before any network is queried); then
      every configured network is queried in turn, a failed query being
      recorded as an error and the loop moving on. `toChecksum`, `query`
      and `priceResponse` stand for the RPC client and the price request;
      `queried` lists the networks queried, in order. The program's default
      of `include_usd` (true) has no counterpart: callers pass it. */
  method EstimateTransferCosts(
    env: map<string, string>,
    toChecksum: string -> Option<string>,
    query: (string, Transfer) -> Result<GasQuote, string>,
    priceResponse: string -> Option<real>,
    fromAddress: string, toAddress: string, amountWei: int, includeUsd: bool)
    returns (result: Result<Dict<CostEntry>, EstimateError>, queried: seq<string>)
    ensures result.Failure? <==> toChecksum(fromAddress).None? || toChecksum(toAddress).None?
    ensures result.Failure? ==>
      && queried == []
      && result.error == InvalidAddress(if toChecksum(fromAddress).None? then fromAddress else toAddress)
    ensures result.Success? ==>
      var tx := Transfer(toChecksum(fromAddress).value, toChecksum(toAddress).value, amountWei);
      && result.value == ExpectedCosts(Networks.Registry(env), tx, query, priceResponse, includeUsd)
      && queried == Keys(Networks.DefaultNetworks)
      && Keys(result.value) == Keys(Networks.DefaultNetworks)
  {
    var networks := Networks.GetNetworks(env);
    queried := [];
    var fromChecksum := toChecksum(fromAddress);
    if fromChecksum.None? {
      return Failure(InvalidAddress(fromAddress)), queried;
    }
    var toChecksummed := toChecksum(toAddress);
    if toChecksummed.None? {
      return Failure(InvalidAddress(toAddress)), queried;
    }
    var tx := Transfer(fromChecksum.value, toChecksummed.value, amountWei);
    ghost var expected := ExpectedCosts(networks, tx, query, priceResponse, includeUsd);
    ExpectedCostsShape(networks, tx, query, priceResponse, includeUsd);
    var results: Dict<CostEntry> := [];
    for i := 0 to |networks|
      invariant results == expected[..i]
      invariant queried == Keys(networks)[..i]
      invariant DistinctKeys(results)
    {
      var (name, cfg) := networks[i];
      FreshKey(networks, expected, i);
      queried := queried + [name];
      assert Keys(networks)[..i + 1] == Keys(networks)[..i] + [name];
      assert expected[..i + 1] == expected[..i] + [expected[i]];
      var outcome := query(name, tx);
      if outcome.Failure? {
        results := Put(results, name, ErrorEntry(outcome.error));
        continue;
      }
      var entry := SuccessEntry(cfg, outcome.value, priceResponse(name), includeUsd);
      results := Put(results, name, entry);
    }
    assert results == expected;
    assert Keys(networks)[..|networks|] == Keys(networks);
    return Success(results), queried;
  }

  /** The record built for a network whose query succeeded: the fee is the
      exact product of gas price and gas estimate, and the USD figure is
      looked up only when asked for and left empty when no price is known. */
  method SuccessEntry(cfg: Networks.NetworkConfig, q: GasQuote, priceResponse: Option<real>,
                      includeUsd: bool) returns (entry: CostEntry)
    ensures entry == CostFor(cfg, Success(q), priceResponse, includeUsd)
    ensures Usable(entry) && entry.totalFeeWei == Some(q.gasPriceWei * q.estimatedGas)
    ensures !includeUsd ==> entry.totalFeeUsd == None
  {
    var gasPrice := q.gasPriceWei;
    var estimatedGas := q.estimatedGas;
    var totalFeeWei := gasPrice * estimatedGas;
    var totalFeeNative := FromWei(totalFeeWei);
    var feeUsd: Option<real> := None;
    if includeUsd {
      var price := PriceFeed.TokenPrice(cfg.nativeSymbol, priceResponse);
      feeUsd := UsdFee(totalFeeNative, price);
    }
    entry := CostEntry(None, Some(gasPrice), Some(estimatedGas), Some(totalFeeWei), Some(totalFeeNative), feeUsd);
  }

  /** The estimator's loop only ever adds a network it has not recorded yet. */
  lemma FreshKey(networks: Dict<Networks.NetworkConfig>, expected: Dict<CostEntry>, i: nat)
    requires DistinctKeys(networks) && i < |networks|
    requires |expected| == |networks| && forall j | 0 <= j < |networks| :: expected[j].0 == networks[j].0
    ensures networks[i].0 !in Keys(expected[..i])
  {
  }
}
