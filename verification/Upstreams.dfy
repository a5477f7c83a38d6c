/** The two upstream services as the API sees them: what they reply, and which calls are made. */
module Upstreams {
  import opened GoInt64
  import opened GoStrings
  import opened Decimal
  import opened Errors
  import opened Money
  import opened CoreContract
  import opened Aggregation

  /** A decoded body: the top-level keys, and the strict decodings. None is a decoding failure. */
  datatype CoreBody = CoreBody(
    keys: Option<set<string>>, v1: Option<CoreV1Response>, v2: Option<CoreV2Response>)

  /** `body` is None when it cannot be read or exceeds the size bound. */
  datatype CoreReply = CoreFailed(cause: NetError) | CoreReplied(status: int, body: Option<CoreBody>)

  datatype MarketPrice = MarketPrice(symbol: string, amountMinor: int64, currency: string, asOf: int)

  /** `prices` is None when the body does not decode. */
  datatype MarketReply = MarketFailed(cause: NetError) | MarketReplied(status: int, prices: Option<seq<MarketPrice>>)

  datatype Call = CoreCall(customerID: string) | MarketCall(symbols: string)

  /** One request's view of the upstreams, with a record of the calls made to them. */
  class Network {
    const core: string -> CoreReply
    const market: string -> MarketReply
    var calls: seq<Call>

    constructor (core: string -> CoreReply, market: string -> MarketReply)
      ensures this.core == core && this.market == market && calls == []
    {
      this.core, this.market := core, market;
      calls := [];
    }

    method GetAccounts(customerID: string) returns (reply: CoreReply)
      modifies this
      ensures reply == core(customerID)
      ensures calls == old(calls) + [CoreCall(customerID)]
    {
      calls := calls + [CoreCall(customerID)];
      reply := core(customerID);
    }

    method GetPrices(symbols: string) returns (reply: MarketReply)
      modifies this
      ensures reply == market(symbols)
      ensures calls == old(calls) + [MarketCall(symbols)]
    {
      calls := calls + [MarketCall(symbols)];
      reply := market(symbols);
    }
  }

  // ---------- Core client ----------

  /** The accounts in a Core reply. */
  function AccountsIn(customerID: string, reply: CoreReply): Result<seq<Account>> {
    match reply
    case CoreFailed(cause) => Err(NewTransportError(cause))
    case CoreReplied(status, body) =>
      if status == 404 then Err(ErrCustomerNotFound)
      else if status != 200 then Err(ErrUpstreamStatus(status))
      else if body.None? || body.value.keys.None? then Err(ErrDecode)
      else
        match DetectCoreVersion(body.value.keys.value)
        case None => Err(ErrContract)
        case Some(V1) => if body.value.v1.None? then Err(ErrDecode) else V1AccountsOf(body.value.v1.value, customerID)
        case Some(V2) => if body.value.v2.None? then Err(ErrDecode) else V2AccountsOf(body.value.v2.value, customerID)
  }

  method CoreAccounts(net: Network, customerID: string) returns (r: Result<seq<Account>>)
    modifies net
    ensures r == AccountsIn(customerID, net.core(customerID))
    ensures net.calls == old(net.calls) + [CoreCall(customerID)]
  {
    var reply := net.GetAccounts(customerID);
    if reply.CoreFailed? {
      return Err(NewTransportError(reply.cause));
    }
    if reply.status == 404 {
      return Err(ErrCustomerNotFound);
    }
    if reply.status != 200 {
      return Err(ErrUpstreamStatus(reply.status));
    }
    if reply.body.None? || reply.body.value.keys.None? {
      return Err(ErrDecode);
    }
    var body := reply.body.value;
    var version := DetectCoreVersion(body.keys.value);
    match version {
      case None =>
        return Err(ErrContract);
      case Some(V1) =>
        if body.v1.None? {
          return Err(ErrDecode);
        }
        r := MapCoreV1(body.v1.value, customerID);
      case Some(V2) =>
        if body.v2.None? {
          return Err(ErrDecode);
        }
        r := MapCoreV2(body.v2.value, customerID);
    }
  }

  // ---------- Market client ----------

  function PriceOf(item: MarketPrice): Result<Price> {
    if item.symbol == "" || item.asOf == 0 then Err(ErrContract)
    else
      match NewMoney(item.amountMinor, item.currency)
      case Err(e) => Err(Wrapped(e))
      case Ok(value) => Ok(Price(item.symbol, value, item.asOf))
  }

  /** Prices by symbol, a later item replacing an earlier one; the first invalid item fails all. */
  function PriceMap(items: seq<MarketPrice>): Result<Prices> {
    if items == [] then Ok(map[])
    else
      match PriceMap(items[..|items| - 1])
      case Err(e) => Err(e)
      case Ok(prices) =>
        match PriceOf(items[|items| - 1])
        case Err(e) => Err(e)
        case Ok(price) => Ok(prices[items[|items| - 1].symbol := price])
  }

  function PricesIn(reply: MarketReply): Result<Prices> {
    match reply
    case MarketFailed(cause) => Err(NewTransportError(cause))
    case MarketReplied(status, prices) =>
      if status != 200 then Err(ErrUpstreamStatus(status))
      else if prices.None? then Err(Wrapped(ErrDecode))
      else PriceMap(prices.value)
  }

  /** The prices of a symbol list; the empty list needs no call. */
  function PricesOf(symbols: seq<string>, market: string -> MarketReply): Result<Prices> {
    if symbols == [] then Ok(map[]) else PricesIn(market(Join(symbols, ',')))
  }

  function MarketCalls(symbols: seq<string>): seq<Call> {
    if symbols == [] then [] else [MarketCall(Join(symbols, ','))]
  }

  method MarketPrices(net: Network, symbols: seq<string>) returns (r: Result<Prices>)
    modifies net
    ensures r == PricesOf(symbols, net.market)
    ensures net.calls == old(net.calls) + MarketCalls(symbols)
    ensures r.Ok? && symbols != [] ==>
              var reply := net.market(Join(symbols, ','));
              ValidMarketReply(reply) && FiledFrom(r.value, reply.prices.value)
  {
    if |symbols| == 0 {
      return Ok(map[]);
    }
    var reply := net.GetPrices(Join(symbols, ','));
    if reply.MarketFailed? {
      return Err(NewTransportError(reply.cause));
    }
    if reply.status != 200 {
      return Err(ErrUpstreamStatus(reply.status));
    }
    if reply.prices.None? {
      return Err(Wrapped(ErrDecode));
    }
    var items := reply.prices.value;
    var prices: Prices := map[];
    for i := 0 to |items|
      invariant PriceMap(items[..i]) == Ok(prices)
    {
      var item := items[i];
      assert items[..i + 1][..i] == items[..i];
      if item.symbol == "" || item.asOf == 0 {
        PriceMapStops(items, i + 1);
        return Err(ErrContract);
      }
      var value := NewMoney(item.amountMinor, item.currency);
      if value.Err? {
        PriceMapStops(items, i + 1);
        return Err(Wrapped(value.error));
      }
      prices := prices[item.symbol := Price(item.symbol, value.value, item.asOf)];
    }
    assert items[..|items|] == items;
    PricesFiled(symbols, net.market);
    return Ok(prices);
  }

  lemma {:induction false} PriceMapStops(items: seq<MarketPrice>, n: nat)
    requires n <= |items| && PriceMap(items[..n]).Err?
    ensures PriceMap(items) == PriceMap(items[..n])
    decreases |items| - n
  {
    if n == |items| {
      assert items[..n] == items;
    } else {
      assert items[..n + 1][..n] == items[..n];
      PriceMapStops(items, n + 1);
    }
  }

  // ---------- The mock market ----------

  function LookupAll(table: map<string, MarketPrice>, symbols: seq<string>): (r: seq<MarketPrice>)
    requires forall i :: 0 <= i < |symbols| ==> symbols[i] in table
    ensures |r| == |symbols| && forall i :: 0 <= i < |r| ==> r[i] == table[symbols[i]]
  {
    seq(|symbols|, i requires 0 <= i < |symbols| => table[symbols[i]])
  }

  /** One price per requested symbol, in request order, or 404 when any is unknown. */
  function MockReply(table: map<string, MarketPrice>, query: string): MarketReply {
    var symbols := Split(query, ',');
    if forall i :: 0 <= i < |symbols| ==> symbols[i] in table
    then MarketReplied(200, Some(LookupAll(table, symbols)))
    else MarketReplied(404, None)
  }

  method MockPrices(table: map<string, MarketPrice>, query: string) returns (reply: MarketReply)
    ensures reply == MockReply(table, query)
  {
    var symbols := Split(query, ',');
    var result := [];
    for i := 0 to |symbols|
      invariant forall j :: 0 <= j < i ==> symbols[j] in table
      invariant |result| == i && forall j :: 0 <= j < i ==> result[j] == table[symbols[j]]
    {
      if symbols[i] !in table {
        return MarketReplied(404, None);
      }
      result := result + [table[symbols[i]]];
    }
    assert result == LookupAll(table, symbols);
    return MarketReplied(200, Some(result));
  }

  /** Every entry is listed under its own symbol and passes the client's checks. */
  predicate WellFormedTable(table: map<string, MarketPrice>) {
    forall s :: s in table ==> table[s].symbol == s && PriceOf(table[s]).Ok?
  }

  predicate Known(table: map<string, MarketPrice>, symbols: seq<string>) {
    forall i :: 0 <= i < |symbols| ==> symbols[i] in table
  }

  /** The table's prices for exactly the listed symbols. */
  function TablePrices(table: map<string, MarketPrice>, symbols: seq<string>): Prices
    requires WellFormedTable(table) && Known(table, symbols)
  {
    map s | s in symbols :: PriceOf(table[s]).value
  }

  lemma {:induction false} PriceMapOfTable(table: map<string, MarketPrice>, symbols: seq<string>)
    requires WellFormedTable(table) && Known(table, symbols)
    ensures PriceMap(LookupAll(table, symbols)) == Ok(TablePrices(table, symbols))
  {
    var items := LookupAll(table, symbols);
    if symbols != [] {
      var head, last := symbols[..|symbols| - 1], symbols[|symbols| - 1];
      assert items[..|items| - 1] == LookupAll(table, head);
      PriceMapOfTable(table, head);
      TablePricesExtend(table, head, last);
      assert symbols == head + [last];
    }
  }

  lemma TablePricesExtend(table: map<string, MarketPrice>, head: seq<string>, last: string)
    requires WellFormedTable(table) && Known(table, head) && last in table
    ensures Known(table, head + [last])
    ensures TablePrices(table, head + [last]) == TablePrices(table, head)[last := PriceOf(table[last]).value]
  {
    assert forall s :: s in head + [last] <==> s in head || s == last;
  }

  function MockMarket(table: map<string, MarketPrice>): string -> MarketReply {
    query => MockReply(table, query)
  }

  /** The mock answers a joined list of known, comma-free symbols with one price each, in order. */
  lemma MockAnswersInOrder(table: map<string, MarketPrice>, symbols: seq<string>)
    requires symbols != [] && AllFree(symbols, ',') && Known(table, symbols)
    ensures MockMarket(table)(Join(symbols, ',')) == MarketReplied(200, Some(LookupAll(table, symbols)))
  {
    SplitUndoesJoinIff(symbols, ',');
  }

  /** It answers 404, without prices, exactly when some symbol of the list is unknown. */
  lemma MockRefusesUnknown(table: map<string, MarketPrice>, symbols: seq<string>)
    requires symbols != [] && AllFree(symbols, ',')
    ensures MockMarket(table)(Join(symbols, ',')) == MarketReplied(404, None)
       <==> exists i :: 0 <= i < |symbols| && symbols[i] !in table
    ensures MockMarket(table)(Join(symbols, ',')).status == 200
       <==> forall i :: 0 <= i < |symbols| ==> symbols[i] in table
  {
    SplitUndoesJoinIff(symbols, ',');
  }

  /**
   A list of known, comma-free symbols survives the joined query: the client's map holds the
   table's prices of exactly those symbols. The empty list, which a join cannot carry, is never sent.
   */
  lemma SymbolTransport(table: map<string, MarketPrice>, symbols: seq<string>)
    requires WellFormedTable(table)
    requires AllFree(symbols, ',') && Known(table, symbols)
    ensures PricesOf(symbols, MockMarket(table)) == Ok(TablePrices(table, symbols))
  {
    if symbols == [] {
      assert TablePrices(table, symbols) == map[];
    } else {
      MockAnswersInOrder(table, symbols);
      PriceMapOfTable(table, symbols);
    }
  }

  /**
   In a well-formed table the client obtains a price for every symbol of a list exactly when all
   symbols are in the table and none holds a comma.
   */
  lemma SymbolTransportIff(table: map<string, MarketPrice>, symbols: seq<string>)
    requires WellFormedTable(table)
    ensures var prices := PricesOf(symbols, MockMarket(table));
            (prices.Ok? && forall i :: 0 <= i < |symbols| ==> symbols[i] in prices.value)
            <==> AllFree(symbols, ',') && Known(table, symbols)
  {
    var prices := PricesOf(symbols, MockMarket(table));
    if AllFree(symbols, ',') && Known(table, symbols) {
      SymbolTransport(table, symbols);
    } else if prices.Ok? && symbols != [] {
      var parts := Split(Join(symbols, ','), ',');
      SplitPartsFree(Join(symbols, ','), ',');
      PriceMapOfTable(table, parts);
      assert forall s :: s in prices.value ==> s in parts;
      assert forall s :: s in parts ==> Free(s, ',') && s in table;
    }
  }

  // ---------- Fail closed ----------

  predicate ValidPrice(item: MarketPrice) {
    item.symbol != "" && item.asOf != 0 && |TrimSpace(item.currency)| == 3
  }

  /** No later item has the symbol of item `i`. */
  predicate IsLast(items: seq<MarketPrice>, i: nat)
    requires i < |items|
  {
    forall j :: i < j < |items| ==> items[j].symbol != items[i].symbol
  }

  /** The price holds the item's own figures, its currency as capitals. */
  predicate HasFigures(price: Price, item: MarketPrice) {
    && price.symbol == item.symbol && price.asOf == item.asOf
    && price.value.minor == item.amountMinor && StoresCode(price.value.currency, item.currency)
  }

  /** A price is accepted exactly when it is valid, with its own figures; a normal currency is unchanged. */
  lemma PriceAccepted(item: MarketPrice)
    ensures PriceOf(item).Ok? <==> ValidPrice(item)
    ensures ValidPrice(item) ==> HasFigures(PriceOf(item).value, item)
    ensures ValidPrice(item) && NormalCurrency(item.currency) ==> PriceOf(item).value.value.currency == item.currency
  {
    NewMoneyNormalises(item.amountMinor, item.currency);
    if ValidPrice(item) && NormalCurrency(item.currency) {
      NormalCodeKept(PriceOf(item).value.value.currency, item.currency);
    }
  }

  /** Prices map exactly when every item is valid; one invalid item yields none. */
  lemma {:induction false} PriceMapValid(items: seq<MarketPrice>)
    ensures PriceMap(items).Ok? <==> forall i :: 0 <= i < |items| ==> ValidPrice(items[i])
  {
    if items != [] {
      var head := items[..|items| - 1];
      PriceMapValid(head);
      PriceAccepted(items[|items| - 1]);
      assert forall i :: 0 <= i < |head| ==> head[i] == items[i];
    }
  }

  function PriceSymbols(items: seq<MarketPrice>): set<string> {
    set item | item in items :: item.symbol
  }

  lemma PriceSymbolsAppend(items: seq<MarketPrice>, item: MarketPrice)
    ensures PriceSymbols(items + [item]) == PriceSymbols(items) + {item.symbol}
  {
    var longer := items + [item];
    assert forall x :: x in longer <==> x in items || x == item;
    assert forall x :: x in items ==> x.symbol in PriceSymbols(items);
    assert item in longer;
    forall s | s in PriceSymbols(items)
      ensures s in PriceSymbols(longer)
    {
      var x :| x in items && x.symbol == s;
      assert x in longer;
    }
  }

  /** The map's keys are exactly the items' symbols. */
  lemma {:induction false} PriceMapKeys(items: seq<MarketPrice>)
    requires PriceMap(items).Ok?
    ensures PriceMap(items).value.Keys == PriceSymbols(items)
  {
    if items != [] {
      var head, last := items[..|items| - 1], items[|items| - 1];
      PriceMapKeys(head);
      PriceSymbolsAppend(head, last);
      assert items == head + [last];
    }
  }

  /** Each symbol has its last item's price. */
  lemma {:induction false} PriceMapLast(items: seq<MarketPrice>, i: nat)
    requires PriceMap(items).Ok? && i < |items| && IsLast(items, i)
    ensures items[i].symbol in PriceMap(items).value
    ensures PriceOf(items[i]) == Ok(PriceMap(items).value[items[i].symbol])
  {
    var head := items[..|items| - 1];
    if i < |head| {
      assert items[|items| - 1].symbol != items[i].symbol;
      assert head[i] == items[i];
      PriceMapLast(head, i);
    }
  }

  /** The map has just the items' symbols, and under each the figures of its last item. */
  ghost predicate FiledFrom(prices: Prices, items: seq<MarketPrice>) {
    && prices.Keys == PriceSymbols(items)
    && forall i :: 0 <= i < |items| && IsLast(items, i) ==>
         items[i].symbol in prices && HasFigures(prices[items[i].symbol], items[i])
  }

  lemma PriceMapFiled(items: seq<MarketPrice>)
    requires PriceMap(items).Ok?
    ensures FiledFrom(PriceMap(items).value, items)
  {
    PriceMapValid(items);
    PriceMapKeys(items);
    forall i | 0 <= i < |items| && IsLast(items, i)
      ensures items[i].symbol in PriceMap(items).value
      ensures HasFigures(PriceMap(items).value[items[i].symbol], items[i])
    {
      PriceMapLast(items, i);
      PriceAccepted(items[i]);
    }
  }

  predicate DistinctSymbols(items: seq<MarketPrice>) {
    forall i, j :: 0 <= i < j < |items| ==> items[i].symbol != items[j].symbol
  }

  lemma AllValidPrices(items: seq<MarketPrice>)
    ensures PriceMap(items).Ok? <==> forall item :: item in items ==> ValidPrice(item)
  {
    PriceMapValid(items);
    if forall i :: 0 <= i < |items| ==> ValidPrice(items[i]) {
      assert forall item :: item in items ==> ValidPrice(item);
    }
  }

  /** Where nothing repeats a symbol, its price is that of any item that has it. */
  lemma PriceUnderSymbol(items: seq<MarketPrice>, item: MarketPrice)
    requires DistinctSymbols(items) && PriceMap(items).Ok? && item in items
    ensures item.symbol in PriceMap(items).value
    ensures PriceOf(item) == Ok(PriceMap(items).value[item.symbol])
  {
    var i :| 0 <= i < |items| && items[i] == item;
    PriceMapLast(items, i);
  }

  lemma SamePriceSymbols(items: seq<MarketPrice>, others: seq<MarketPrice>)
    requires forall item :: item in items <==> item in others
    ensures PriceSymbols(items) == PriceSymbols(others)
  {
  }

  /** Without repeated symbols, the order in which the Market lists its prices does not matter. */
  lemma PriceOrderIrrelevant(items: seq<MarketPrice>, others: seq<MarketPrice>)
    requires DistinctSymbols(items) && DistinctSymbols(others)
    requires forall item :: item in items <==> item in others
    ensures PriceMap(items).Ok? <==> PriceMap(others).Ok?
    ensures PriceMap(items).Ok? ==> PriceMap(items) == PriceMap(others)
  {
    AllValidPrices(items);
    AllValidPrices(others);
    if PriceMap(items).Ok? {
      PriceMapKeys(items);
      PriceMapKeys(others);
      SamePriceSymbols(items, others);
      forall s | s in PriceMap(items).value
        ensures PriceMap(items).value[s] == PriceMap(others).value[s]
      {
        var item :| item in items && item.symbol == s;
        PriceUnderSymbol(items, item);
        PriceUnderSymbol(others, item);
      }
      assert PriceMap(items).value == PriceMap(others).value;
    }
  }

  /** The Market answered with a decodable list of valid prices. */
  predicate ValidMarketReply(reply: MarketReply) {
    && reply.MarketReplied? && reply.status == 200 && reply.prices.Some?
    && forall i :: 0 <= i < |reply.prices.value| ==> ValidPrice(reply.prices.value[i])
  }

  lemma PricesAccepted(symbols: seq<string>, market: string -> MarketReply)
    ensures PricesOf(symbols, market).Ok? <==> symbols == [] || ValidMarketReply(market(Join(symbols, ',')))
  {
    if symbols != [] {
      var reply := market(Join(symbols, ','));
      if reply.MarketReplied? && reply.prices.Some? {
        PriceMapValid(reply.prices.value);
      }
    }
  }

  /** What the client obtains from any valid reply, whatever it lists and in whatever order. */
  lemma PricesFiled(symbols: seq<string>, market: string -> MarketReply)
    requires PricesOf(symbols, market).Ok?
    ensures symbols == [] ==> PricesOf(symbols, market).value == map[]
    ensures symbols != [] ==>
              var reply := market(Join(symbols, ','));
              ValidMarketReply(reply) && FiledFrom(PricesOf(symbols, market).value, reply.prices.value)
  {
    PricesAccepted(symbols, market);
    if symbols != [] {
      PriceMapFiled(market(Join(symbols, ',')).prices.value);
    }
  }

  // ---------- Error classes ----------

  lemma {:induction false} PriceMapErrors(items: seq<MarketPrice>)
    ensures PriceMap(items).Err? ==> !Is(PriceMap(items).error, ErrCustomerNotFound)
  {
    if items != [] {
      PriceMapErrors(items[..|items| - 1]);
    }
  }

  /** Every key of the client's map is its price's own symbol, and names a currency. */
  lemma {:induction false} PriceMapKeyed(items: seq<MarketPrice>)
    requires PriceMap(items).Ok?
    ensures forall s :: s in PriceMap(items).value ==>
              var price := PriceMap(items).value[s];
              price.symbol == s && s != "" && |price.value.currency| == 3 && price.asOf != 0
  {
    if items != [] {
      PriceMapKeyed(items[..|items| - 1]);
    }
  }
}
