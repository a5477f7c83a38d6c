/** One portfolio request from identifier to response, and what holds over every run. */
module RequestRun {
  import opened GoInt64
  import opened GoStrings
  import opened Decimal
  import opened Errors
  import opened Traversal
  import opened Money
  import opened CoreContract
  import opened CoreTheorems
  import opened Sorting
  import opened Sums
  import opened Aggregation
  import opened AggregationTheorems
  import opened Upstreams
  import opened Presentation
  import M = Metrics

  // ---------- The service ----------

  ghost function SymbolsOf(accounts: seq<Account>): seq<string> {
    Listing(SymbolsIn(AllPositions(accounts)))
  }

  ghost function GetOf(customerID: string, core: string -> CoreReply, market: string -> MarketReply)
    : Result<Portfolio>
  {
    match AccountsIn(customerID, core(customerID))
    case Err(e) => Err(Wrapped(e))
    case Ok(accounts) =>
      match PricesOf(SymbolsOf(accounts), market)
      case Err(e) => Err(Wrapped(e))
      case Ok(prices) => PortfolioOf(customerID, accounts, prices)
  }

  ghost function GetCalls(customerID: string, core: string -> CoreReply): seq<Call> {
    match AccountsIn(customerID, core(customerID))
    case Err(_) => [CoreCall(customerID)]
    case Ok(accounts) => [CoreCall(customerID)] + MarketCalls(SymbolsOf(accounts))
  }

  method Get(net: Network, customerID: string) returns (r: Result<Portfolio>)
    modifies net
    ensures r == GetOf(customerID, net.core, net.market)
    ensures net.calls == old(net.calls) + GetCalls(customerID, net.core)
  {
    var accounts := CoreAccounts(net, customerID);
    if accounts.Err? {
      return Err(Wrapped(accounts.error));
    }
    var symbols := UniqueSymbols(accounts.value);
    var prices := MarketPrices(net, symbols);
    if prices.Err? {
      return Err(Wrapped(prices.error));
    }
    r := Aggregate(customerID, accounts.value, prices.value);
  }

  // ---------- The handler ----------

  /** The pattern `^cust-[0-9]{4,12}$`. */
  predicate IsCustomerID(s: string) {
    9 <= |s| <= 17 && s[..5] == "cust-" && AllDigits(s[5..])
  }

  /** The pattern in its own words. */
  lemma CustomerIDs(s: string)
    ensures IsCustomerID(s)
       <==> exists d :: s == "cust-" + d && 4 <= |d| <= 12 && forall i :: 0 <= i < |d| ==> '0' <= d[i] <= '9'
  {
    if IsCustomerID(s) {
      assert s == "cust-" + s[5..];
    }
    forall d | s == "cust-" + d && 4 <= |d| <= 12 && forall i :: 0 <= i < |d| ==> '0' <= d[i] <= '9'
      ensures IsCustomerID(s)
    {
      assert s[..5] == "cust-" && s[5..] == d;
    }
  }

  datatype Run = Run(status: int, calls: seq<Call>, body: Option<PortfolioResponse>)

  ghost function RunOf(customerID: string, core: string -> CoreReply, market: string -> MarketReply): Run {
    if !IsCustomerID(customerID) then Run(400, [], None)
    else
      var calls := GetCalls(customerID, core);
      match GetOf(customerID, core, market)
      case Err(e) => Run(if Is(e, ErrCustomerNotFound) then 404 else 502, calls, None)
      case Ok(p) => Run(200, calls, Some(ResponseOf(p)))
  }

  class Handler {
    const metrics: M.Metrics

    constructor (metrics: M.Metrics)
      ensures this.metrics == metrics
    {
      this.metrics := metrics;
    }

    /** Serves one request and, whatever the outcome, records its status once. */
    method Portfolio(net: Network, customerID: string) returns (status: int, body: Option<PortfolioResponse>)
      requires metrics.Valid()
      modifies net, metrics
      ensures metrics.Valid() && metrics.history == old(metrics.history) + [status]
      ensures var run := RunOf(customerID, net.core, net.market);
              status == run.status && body == run.body && net.calls == old(net.calls) + run.calls
    {
      status := 200;
      body := None;
      if !IsCustomerID(customerID) {
        status := 400;
      } else {
        var result := Get(net, customerID);
        if result.Err? {
          status := if Is(result.error, ErrCustomerNotFound) then 404 else 502;
        } else {
          var response := MapPortfolio(result.value);
          body := Some(response);
        }
      }
      metrics.Observe(status);
    }
  }

  // ---------- Protocol ----------

  lemma CoreErrors(customerID: string, reply: CoreReply)
    requires AccountsIn(customerID, reply).Err?
    ensures Is(AccountsIn(customerID, reply).error, ErrCustomerNotFound) <==> reply.CoreReplied? && reply.status == 404
  {
    if reply.CoreReplied? && reply.status == 200 && reply.body.Some? && reply.body.value.keys.Some? {
      var body := reply.body.value;
      if DetectCoreVersion(body.keys.value) == Some(V1) && body.v1.Some? {
        V1FailsClosed(body.v1.value, customerID);
      } else if DetectCoreVersion(body.keys.value) == Some(V2) && body.v2.Some? {
        V2FailsClosed(body.v2.value, customerID);
      }
    }
  }

  lemma PricesErrors(symbols: seq<string>, market: string -> MarketReply)
    ensures PricesOf(symbols, market).Err? ==> !Is(PricesOf(symbols, market).error, ErrCustomerNotFound)
  {
    if symbols != [] {
      var reply := market(Join(symbols, ','));
      if reply.MarketReplied? && reply.prices.Some? {
        PriceMapErrors(reply.prices.value);
      }
    }
  }

  lemma AccountErrors(prices: Prices, a: Account)
    requires AccountPortfolioOf(prices, a).Err?
    ensures !Is(AccountPortfolioOf(prices, a).error, ErrCustomerNotFound)
    ensures Is(AccountPortfolioOf(prices, a).error, ErrPriceUnavailable) ==>
              exists p :: p in a.positions && p.symbol !in prices
  {
    var valuer := Valuer(a.cash.currency, prices);
    TraverseAll(valuer, a.positions);
    var e := AccountPortfolioOf(prices, a).error;
    var i :| 0 <= i < |a.positions| && valuer(a.positions[i]) == Err(e);
    assert HoldingOf(a.cash.currency, prices, a.positions[i]) == Err(e);
    assert a.positions[i] in a.positions;
  }

  /** Aggregation never claims an unknown customer, and a missing price only when one is missing. */
  lemma {:induction false} AccumulateErrors(prices: Prices, accounts: seq<Account>)
    requires Accumulate(prices, accounts).Err?
    ensures !Is(Accumulate(prices, accounts).error, ErrCustomerNotFound)
    ensures Is(Accumulate(prices, accounts).error, ErrPriceUnavailable) ==>
              exists p :: p in AllPositions(accounts) && p.symbol !in prices
  {
    var head, last := accounts[..|accounts| - 1], accounts[|accounts| - 1];
    if Accumulate(prices, head).Err? {
      AccumulateErrors(prices, head);
    } else if AccountPortfolioOf(prices, last).Err? {
      AccountErrors(prices, last);
    }
  }

  lemma GetErrors(customerID: string, core: string -> CoreReply, market: string -> MarketReply)
    requires GetOf(customerID, core, market).Err?
    ensures Is(GetOf(customerID, core, market).error, ErrCustomerNotFound)
       <==> core(customerID).CoreReplied? && core(customerID).status == 404
  {
    var accounts := AccountsIn(customerID, core(customerID));
    if accounts.Err? {
      CoreErrors(customerID, core(customerID));
    } else {
      PricesErrors(SymbolsOf(accounts.value), market);
      var prices := PricesOf(SymbolsOf(accounts.value), market);
      if prices.Ok? {
        AccumulateErrors(prices.value, accounts.value);
      }
    }
  }

  lemma SymbolsEmpty(accounts: seq<Account>)
    ensures SymbolsOf(accounts) == [] <==> AllPositions(accounts) == []
  {
    var ps := AllPositions(accounts);
    if ps != [] {
      assert ps[0] in ps;
      assert ps[0].symbol in Elements(SymbolsOf(accounts));
    }
    if SymbolsOf(accounts) != [] {
      assert SymbolsOf(accounts)[0] in SymbolsIn(ps);
    }
  }

  /**
   A malformed identifier makes no call and ends 400. Any other run calls Core once, then Market
   once, with all distinct symbols, exactly if Core's accounts hold a position. It ends 404 exactly on Core's 404, and
   otherwise 200 with a body or 502 without one.
   */
  lemma RunProtocol(customerID: string, core: string -> CoreReply, market: string -> MarketReply)
    ensures var run := RunOf(customerID, core, market);
            var reply := core(customerID);
            && M.KnownStatus(run.status)
            && (run.status == 400 <==> !IsCustomerID(customerID))
            && (run.calls == [] <==> !IsCustomerID(customerID))
            && (run.status == 404 <==> IsCustomerID(customerID) && reply.CoreReplied? && reply.status == 404)
            && (run.status == 200 <==> run.body.Some?)
            && (run.status == 200 ==> AccountsIn(customerID, reply).Ok?)
    ensures var run := RunOf(customerID, core, market);
            IsCustomerID(customerID) ==>
              && 1 <= |run.calls| <= 2
              && run.calls[0] == CoreCall(customerID)
              && (|run.calls| == 2 <==>
                    AccountsIn(customerID, core(customerID)).Ok? &&
                    AllPositions(AccountsIn(customerID, core(customerID)).value) != [])
              && (|run.calls| == 2 ==>
                    run.calls[1] == MarketCall(Join(SymbolsOf(AccountsIn(customerID, core(customerID)).value), ',')))
    ensures var symbols := SymbolsOf(CoreAccountsOf(customerID, core));
            InDictionaryOrder(symbols) && forall s :: s in symbols <==> Held(CoreAccountsOf(customerID, core), s)
  {
    SymbolsListed(CoreAccountsOf(customerID, core));
    if IsCustomerID(customerID) {
      if GetOf(customerID, core, market).Err? {
        GetErrors(customerID, core, market);
      }
      if AccountsIn(customerID, core(customerID)).Ok? {
        SymbolsEmpty(AccountsIn(customerID, core(customerID)).value);
      }
    }
  }

  /** An upstream with one answer to everything. */
  function Always(reply: CoreReply): string -> CoreReply {
    _ => reply
  }

  /** A reply whose top-level keys are not the complete signature of exactly one contract. */
  predicate Unsupported(keys: set<string>) {
    && !({"customer_id", "accounts"} <= keys && keys !! {"client", "portfolios"})
    && !({"client", "portfolios"} <= keys && keys !! {"customer_id", "accounts"})
  }

  /** Mixed, incomplete and unknown signatures end 502 before any Market call. */
  lemma UnsupportedStopsAtCore(customerID: string, body: CoreBody, market: string -> MarketReply)
    requires IsCustomerID(customerID) && body.keys.Some? && Unsupported(body.keys.value)
    ensures RunOf(customerID, Always(CoreReplied(200, Some(body))), market) == Run(502, [CoreCall(customerID)], None)
  {
    var core := Always(CoreReplied(200, Some(body)));
    DetectsSignatures(body.keys.value);
    assert AccountsIn(customerID, core(customerID)) == Err(ErrContract);
  }

  /** Core answered with the complete signature of one contract and a valid payload under it. */
  ghost predicate ValidCoreReply(customerID: string, reply: CoreReply) {
    && reply.CoreReplied? && reply.status == 200
    && reply.body.Some? && reply.body.value.keys.Some?
    && var keys, v1, v2 := reply.body.value.keys.value, reply.body.value.v1, reply.body.value.v2;
    && !Unsupported(keys)
    && (if "customer_id" in keys then v1.Some? && ValidV1Payload(v1.value, customerID)
        else v2.Some? && ValidV2Payload(v2.value, customerID))
  }

  lemma DetectsSignatures(keys: set<string>)
    ensures DetectCoreVersion(keys)
         == if Unsupported(keys) then None else if "customer_id" in keys then Some(V1) else Some(V2)
  {
    assert {"customer_id", "accounts"} <= keys <==> "customer_id" in keys && "accounts" in keys;
    assert {"client", "portfolios"} <= keys <==> "client" in keys && "portfolios" in keys;
    assert keys !! {"customer_id", "accounts"} <==> "customer_id" !in keys && "accounts" !in keys;
    assert keys !! {"client", "portfolios"} <==> "client" !in keys && "portfolios" !in keys;
  }

  /** Core's reply yields accounts exactly when it is valid. */
  lemma AccountsAccepted(customerID: string, reply: CoreReply)
    ensures AccountsIn(customerID, reply).Ok? <==> ValidCoreReply(customerID, reply)
  {
    if reply.CoreReplied? && reply.body.Some? && reply.body.value.keys.Some? {
      DetectsSignatures(reply.body.value.keys.value);
      if reply.body.value.v1.Some? {
        V1FailsClosed(reply.body.value.v1.value, customerID);
      }
      if reply.body.value.v2.Some? {
        V2FailsClosed(reply.body.value.v2.value, customerID);
      }
    }
  }

  /** All cash is in one currency, and every position is priced in it at an exact value. */
  predicate Aggregable(prices: Prices, accounts: seq<Account>) {
    accounts != [] ==>
      && OneCurrency(accounts[0].cash.currency, accounts)
      && AllSound(prices, accounts[0].cash.currency, AllPositions(accounts))
  }

  /**
   A run ends 200 exactly when the identifier is well formed, Core's reply is valid, the Market's
   is too unless there is nothing to price, and the accounts can be aggregated at those prices.
   */
  lemma RunSucceedsIff(customerID: string, core: string -> CoreReply, market: string -> MarketReply)
    ensures var symbols := SymbolsOf(CoreAccountsOf(customerID, core));
            RunOf(customerID, core, market).status == 200 <==>
              && IsCustomerID(customerID)
              && ValidCoreReply(customerID, core(customerID))
              && (symbols == [] || ValidMarketReply(market(Join(symbols, ','))))
              && Aggregable(MarketPricesOf(customerID, core, market), CoreAccountsOf(customerID, core))
  {
    var accounts, prices := CoreAccountsOf(customerID, core), MarketPricesOf(customerID, core, market);
    AccountsAccepted(customerID, core(customerID));
    PricesAccepted(SymbolsOf(accounts), market);
    if ValidCoreReply(customerID, core(customerID)) {
      MappedAccountsNamed(customerID, core(customerID));
      if accounts != [] {
        SucceedsInOneCurrency(customerID, accounts, prices);
      }
    }
  }

  // ---------- Sessions ----------

  datatype Request = Request(customerID: string, core: string -> CoreReply, market: string -> MarketReply)

  ghost function StatusOf(request: Request): int {
    RunOf(request.customerID, request.core, request.market).status
  }

  /** The statuses of a session's requests, in the order in which they are recorded. */
  ghost function Statuses(requests: seq<Request>): (r: seq<int>)
    ensures |r| == |requests|
    ensures forall i :: 0 <= i < |r| ==> r[i] == StatusOf(requests[i])
  {
    seq(|requests|, i requires 0 <= i < |requests| => StatusOf(requests[i]))
  }

  lemma StatusesStep(requests: seq<Request>, i: nat)
    requires i < |requests|
    ensures Statuses(requests[..i]) + [StatusOf(requests[i])] == Statuses(requests[..i + 1])
  {
    assert requests[..i + 1][i] == requests[i];
  }

  /** Over any session the counters list just the four statuses, count each, and add up to all requests. */
  lemma SessionCounters(requests: seq<Request>)
    requires |requests| < TWO_TO_64
    ensures M.CountsExactly(Statuses(requests))
  {
    forall i | 0 <= i < |requests|
      ensures M.KnownStatus(Statuses(requests)[i])
    {
      RunProtocol(requests[i].customerID, requests[i].core, requests[i].market);
    }
    M.CountersExact(Statuses(requests));
  }

  /** Serves one request of a session on a network of its own. */
  method Serve(handler: Handler, request: Request) returns (status: int)
    requires handler.metrics.Valid()
    modifies handler.metrics
    ensures handler.metrics.Valid() && handler.metrics.history == old(handler.metrics.history) + [status]
    ensures status == StatusOf(request)
  {
    var net := new Network(request.core, request.market);
    var body;
    status, body := handler.Portfolio(net, request.customerID);
  }

  /** Serves requests one after the other on one set of counters. */
  method ServeAll(handler: Handler, requests: seq<Request>) returns (statuses: seq<int>)
    requires handler.metrics.Valid()
    modifies handler.metrics
    ensures handler.metrics.Valid() && handler.metrics.history == old(handler.metrics.history) + statuses
    ensures statuses == Statuses(requests)
  {
    statuses := [];
    for i := 0 to |requests|
      invariant handler.metrics.Valid() && handler.metrics.history == old(handler.metrics.history) + statuses
      invariant statuses == Statuses(requests[..i])
    {
      StatusesStep(requests, i);
      var status := Serve(handler, requests[i]);
      statuses := statuses + [status];
    }
    assert requests[..|requests|] == requests;
  }

  /**
   Serves a session of requests, then lists its counters. The statuses are
   those of the runs; below the counter width the listing shows the four of them in order, each
   with its number of requests, and the listed total is their sum.
   */
  method ServeSession(requests: seq<Request>) returns (statuses: seq<int>, lines: seq<M.Line>, total: uint64)
    ensures statuses == Statuses(requests)
    ensures lines == M.LinesOf(M.CountersAfter(statuses))
    ensures total == Mod64(|requests|)
    ensures |requests| < TWO_TO_64 ==> M.ListsExactly(statuses, lines, total)
  {
    var metrics := new M.Metrics();
    var handler := new Handler(metrics);
    statuses := ServeAll(handler, requests);
    assert metrics.history == statuses;
    lines, total := metrics.WritePrometheus();
    if |requests| < TWO_TO_64 {
      SessionCounters(requests);
      M.ListingExact(statuses);
    }
  }

  // ---------- What a successful run tells the client ----------

  /** Accounts that came through either adapter name their currency. */
  lemma MappedAccountsNamed(customerID: string, reply: CoreReply)
    requires AccountsIn(customerID, reply).Ok?
    ensures Named(AccountsIn(customerID, reply).value)
  {
    var body := reply.body.value;
    if DetectCoreVersion(body.keys.value) == Some(V1) {
      V1FailsClosed(body.v1.value, customerID);
    } else {
      V2FailsClosed(body.v2.value, customerID);
    }
  }

  /** The accounts that Core's reply to a run holds. */
  function CoreAccountsOf(customerID: string, core: string -> CoreReply): seq<Account> {
    match AccountsIn(customerID, core(customerID))
    case Err(_) => []
    case Ok(accounts) => accounts
  }

  /** The prices that the Market's reply to a run holds. */
  ghost function MarketPricesOf(customerID: string, core: string -> CoreReply, market: string -> MarketReply): Prices {
    match PricesOf(SymbolsOf(CoreAccountsOf(customerID, core)), market)
    case Err(_) => map[]
    case Ok(prices) => prices
  }

  /** The accounts are those of the payload that the reply's signature calls for, in order. */
  ghost predicate AreIn(accounts: seq<Account>, reply: CoreReply)
    requires reply.CoreReplied? && reply.body.Some? && reply.body.value.keys.Some?
  {
    var body := reply.body.value;
    if "customer_id" in body.keys.value then
      && body.v1.Some? && body.v1.value.accounts.Some?
      && |accounts| == |body.v1.value.accounts.value|
      && forall i :: 0 <= i < |accounts| ==> V1Denotes(body.v1.value.accounts.value[i], accounts[i])
    else
      && body.v2.Some? && body.v2.value.portfolios.Some?
      && |accounts| == |body.v2.value.portfolios.value|
      && forall i :: 0 <= i < |accounts| ==> V2Denotes(body.v2.value.portfolios.value[i], accounts[i])
  }

  lemma AccountsDenoted(customerID: string, reply: CoreReply)
    requires AccountsIn(customerID, reply).Ok?
    ensures ValidCoreReply(customerID, reply) && AreIn(AccountsIn(customerID, reply).value, reply)
  {
    AccountsAccepted(customerID, reply);
    var body := reply.body.value;
    DetectsSignatures(body.keys.value);
    if "customer_id" in body.keys.value {
      V1FailsClosed(body.v1.value, customerID);
    } else {
      V2FailsClosed(body.v2.value, customerID);
    }
  }

  /**
   What a successful run tells the client, down to what the upstreams sent: the accounts of Core's
   payload and the Market's latest figures for each symbol, every account and position shown in
   order, the latest instant used, and the total in the accounts' currency.
   */
  lemma RunShows(customerID: string, core: string -> CoreReply, market: string -> MarketReply)
    requires RunOf(customerID, core, market).status == 200
    ensures ValidCoreReply(customerID, core(customerID))
    ensures AreIn(CoreAccountsOf(customerID, core), core(customerID))
    ensures var symbols := SymbolsOf(CoreAccountsOf(customerID, core));
            var prices := MarketPricesOf(customerID, core, market);
            if symbols == [] then prices == map[]
            else
              var reply := market(Join(symbols, ','));
              ValidMarketReply(reply) && FiledFrom(prices, reply.prices.value)
    ensures var accounts, prices := CoreAccountsOf(customerID, core), MarketPricesOf(customerID, core, market);
            var r := RunOf(customerID, core, market).body.value;
            Heads(r, customerID, accounts, prices) && ShowsAll(r, accounts, prices)
  {
    var accounts, prices := CoreAccountsOf(customerID, core), MarketPricesOf(customerID, core, market);
    RunBody(customerID, core, market);
    AccountsDenoted(customerID, core(customerID));
    PricesFiled(SymbolsOf(accounts), market);
    ResponseHeads(customerID, accounts, prices);
    ResponseKeepsSource(customerID, accounts, prices);
  }

  lemma RunBody(customerID: string, core: string -> CoreReply, market: string -> MarketReply)
    requires RunOf(customerID, core, market).status == 200
    ensures AccountsIn(customerID, core(customerID)).Ok?
    ensures PricesOf(SymbolsOf(CoreAccountsOf(customerID, core)), market).Ok?
    ensures var accounts, prices := CoreAccountsOf(customerID, core), MarketPricesOf(customerID, core, market);
            && Named(accounts)
            && PortfolioOf(customerID, accounts, prices).Ok?
            && RunOf(customerID, core, market).body == Some(ResponseOf(PortfolioOf(customerID, accounts, prices).value))
  {
    RunProtocol(customerID, core, market);
    MappedAccountsNamed(customerID, core(customerID));
  }

  /**
   The printed figures of a successful run add up, modulo the int64 width and plainly when the
   sums fit, provided neither total, cash balance nor account value is the minimum int64; and
   those texts are amounts exactly under that condition on Core's accounts and the Market's prices.
   */
  lemma RunAddsUp(customerID: string, core: string -> CoreReply, market: string -> MarketReply)
    requires RunOf(customerID, core, market).status == 200
    ensures var accounts, prices := CoreAccountsOf(customerID, core), MarketPricesOf(customerID, core, market);
            && (AmountsRead(RunOf(customerID, core, market).body.value) <==> SummandsPrint(prices, accounts))
            && (SummandsPrint(prices, accounts) ==> AddsUp(RunOf(customerID, core, market).body.value))
  {
    var accounts, prices := CoreAccountsOf(customerID, core), MarketPricesOf(customerID, core, market);
    RunBody(customerID, core, market);
    AmountsReadIff(customerID, accounts, prices);
    if SummandsPrint(prices, accounts) {
      PrintedAmountsAddUp(customerID, accounts, prices);
    }
  }

  /** A price from before the zero instant is accepted, but never becomes the as-of instant. */
  lemma EarlyPriceMissed(customerID: string, asOf: int)
    requires asOf < 0
    ensures PriceOf(MarketPrice("AAPL", 18525, "USD", asOf)) == Ok(Price("AAPL", Money(18525, "USD"), asOf))
    ensures var position := Position("AAPL", Quantity(MILLION));
            var account := Account("acct", "BROKERAGE", Money(0, "USD"), [position]);
            var prices := map["AAPL" := Price("AAPL", Money(18525, "USD"), asOf)];
            var p := PortfolioOf(customerID, [account], prices);
            p.Ok? && Used(prices, AllPositions([account]), position) && p.value.asOf == 0 > asOf
  {
    var position := Position("AAPL", Quantity(MILLION));
    var account := Account("acct", "BROKERAGE", Money(0, "USD"), [position]);
    CurrencyCodeIsNormal(18525, "USD");
    SingleEarlyPrice(customerID, account, position, map["AAPL" := Price("AAPL", Money(18525, "USD"), asOf)]);
  }

  // ---------- Contract versions and the mock peers ----------

  function V1Reply(payload: CoreV1Response): CoreReply {
    CoreReplied(200, Some(CoreBody(Some({"customer_id", "accounts"}), Some(payload), None)))
  }

  function V2Reply(payload: CoreV2Response): CoreReply {
    CoreReplied(200, Some(CoreBody(Some({"client", "portfolios"}), None, Some(payload))))
  }

  /** A run depends on Core only through the accounts mapped from its reply. */
  lemma SameAccountsSameRun(
      customerID: string, a: string -> CoreReply, b: string -> CoreReply, market: string -> MarketReply)
    requires AccountsIn(customerID, a(customerID)) == AccountsIn(customerID, b(customerID))
    ensures RunOf(customerID, a, market) == RunOf(customerID, b, market)
  {
  }

  lemma RepliesMap(customerID: string, v1: CoreV1Response, v2: CoreV2Response)
    ensures AccountsIn(customerID, V1Reply(v1)) == V1AccountsOf(v1, customerID)
    ensures AccountsIn(customerID, V2Reply(v2)) == V2AccountsOf(v2, customerID)
  {
  }

  /**
   A Core that moves from v1 to v2 goes unnoticed: on any v2 payload the adapter accepts, calls,
   status and body are those of the run on the same payload under its v1 names.
   */
  lemma VersionTransparent(customerID: string, payload: CoreV2Response, market: string -> MarketReply)
    requires V2AccountsOf(payload, customerID).Ok?
    ensures RunOf(customerID, Always(V2Reply(payload)), market)
         == RunOf(customerID, Always(V1Reply(Rename(payload))), market)
  {
    V2RefinesV1(payload, customerID);
    RepliesMap(customerID, Rename(payload), payload);
    SameAccountsSameRun(customerID, Always(V2Reply(payload)), Always(V1Reply(Rename(payload))), market);
  }

  /** Every position's symbol is in the price table and survives a comma-separated query. */
  predicate Tradable(table: map<string, MarketPrice>, accounts: seq<Account>) {
    forall p :: p in AllPositions(accounts) ==> p.symbol in table && Free(p.symbol, ',')
  }

  lemma TradableSymbols(table: map<string, MarketPrice>, accounts: seq<Account>)
    requires Tradable(table, accounts)
    ensures AllFree(SymbolsOf(accounts), ',') && Known(table, SymbolsOf(accounts))
    ensures forall p :: p in AllPositions(accounts) ==> p.symbol in SymbolsOf(accounts)
  {
    var symbols := SymbolsOf(accounts);
    forall i | 0 <= i < |symbols|
      ensures symbols[i] in table && Free(symbols[i], ',')
    {
      assert symbols[i] in Elements(symbols);
    }
    forall p | p in AllPositions(accounts)
      ensures p.symbol in symbols
    {
      assert p.symbol in SymbolsIn(AllPositions(accounts));
      assert p.symbol in Elements(symbols);
    }
  }

  /**
   Against the mock market, any accounts that the v1 wire carries and whose symbols it lists reach
   aggregation unchanged and with a price for every position, so no run reports a missing price.
   */
  lemma MockRun(customerID: string, accounts: seq<Account>, table: map<string, MarketPrice>)
    requires IsCustomerID(customerID) && WellFormedTable(table)
    requires AllCarriedByV1(accounts) && Tradable(table, accounts)
    ensures Known(table, SymbolsOf(accounts))
    ensures var core := Always(V1Reply(RenderV1(accounts, customerID)));
            var prices := TablePrices(table, SymbolsOf(accounts));
            && GetOf(customerID, core, MockMarket(table)) == PortfolioOf(customerID, accounts, prices)
            && (RunOf(customerID, core, MockMarket(table)).status == 200 <==>
                  PortfolioOf(customerID, accounts, prices).Ok?)
            && (PortfolioOf(customerID, accounts, prices).Err? ==>
                  !Is(PortfolioOf(customerID, accounts, prices).error, ErrPriceUnavailable))
  {
    TradableSymbols(table, accounts);
    V1WireRoundTrip(accounts, customerID);
    SymbolTransport(table, SymbolsOf(accounts));
    var core := Always(V1Reply(RenderV1(accounts, customerID)));
    var prices := TablePrices(table, SymbolsOf(accounts));
    RepliesMap(customerID, RenderV1(accounts, customerID), RenderV2(accounts, customerID));
    assert AccountsIn(customerID, core(customerID)) == Ok(accounts);
    if Accumulate(prices, accounts).Err? {
      AccumulateErrors(prices, accounts);
    }
  }

  /** What both contracts carry, both contracts serve alike. */
  lemma MockRunEitherVersion(customerID: string, accounts: seq<Account>, market: string -> MarketReply)
    requires AllCarriedByV2(accounts)
    ensures RunOf(customerID, Always(V2Reply(RenderV2(accounts, customerID))), market)
         == RunOf(customerID, Always(V1Reply(RenderV1(accounts, customerID))), market)
  {
    V2WireRoundTrip(accounts, customerID);
    VersionTransparent(customerID, RenderV2(accounts, customerID), market);
  }
}
