/** The public response, and what a client that reads its printed amounts sees. */
module Presentation {
  import opened GoInt64
  import opened Decimal
  import opened Errors
  import opened Money
  import opened Quantities
  import opened Traversal
  import opened Sums
  import opened Aggregation
  import opened AggregationTheorems

  datatype MoneyResponse = MoneyResponse(amount: string, currency: string)
  datatype HoldingResponse = HoldingResponse(
    symbol: string, quantity: string, unitPrice: MoneyResponse, marketValue: MoneyResponse)
  datatype AccountResponse = AccountResponse(
    accountID: string, accountType: string, cashBalance: MoneyResponse, marketValue: MoneyResponse,
    holdings: seq<HoldingResponse>)
  datatype PortfolioResponse = PortfolioResponse(
    customerID: string, asOf: int, totalMarketValue: MoneyResponse, accounts: seq<AccountResponse>)

  function MoneyText(m: Money): MoneyResponse {
    MoneyResponse(AmountText(m.minor), m.currency)
  }

  function HoldingText(h: Holding): HoldingResponse {
    HoldingResponse(h.symbol, QuantityText(h.quantity), MoneyText(h.unitPrice), MoneyText(h.marketValue))
  }

  function AccountText(a: AccountPortfolio): AccountResponse {
    AccountResponse(a.id, a.kind, MoneyText(a.cash), MoneyText(a.marketValue), Map(HoldingText, a.holdings))
  }

  function ResponseOf(p: Portfolio): PortfolioResponse {
    PortfolioResponse(p.customerID, p.asOf, MoneyText(p.totalMarketValue), Map(AccountText, p.accounts))
  }

  method MapMoney(m: Money) returns (r: MoneyResponse)
    ensures r == MoneyText(m)
  {
    var amount := Amount(m);
    return MoneyResponse(amount, m.currency);
  }

  method MapPortfolio(value: Portfolio) returns (r: PortfolioResponse)
    ensures r == ResponseOf(value)
  {
    var total := MapMoney(value.totalMarketValue);
    var accounts := [];
    for i := 0 to |value.accounts|
      invariant accounts == Map(AccountText, value.accounts[..i])
    {
      MapExtend(AccountText, value.accounts, i);
      var item := MapAccount(value.accounts[i]);
      accounts := accounts + [item];
    }
    assert value.accounts[..|value.accounts|] == value.accounts;
    return PortfolioResponse(value.customerID, value.asOf, total, accounts);
  }

  /** One account of the response, with its inner loop over holdings. */
  method MapAccount(account: AccountPortfolio) returns (r: AccountResponse)
    ensures r == AccountText(account)
  {
    var cash := MapMoney(account.cash);
    var marketValue := MapMoney(account.marketValue);
    var holdings := [];
    for i := 0 to |account.holdings|
      invariant holdings == Map(HoldingText, account.holdings[..i])
    {
      MapExtend(HoldingText, account.holdings, i);
      var item := MapHolding(account.holdings[i]);
      holdings := holdings + [item];
    }
    assert account.holdings[..|account.holdings|] == account.holdings;
    return AccountResponse(account.id, account.kind, cash, marketValue, holdings);
  }

  method MapHolding(holding: Holding) returns (r: HoldingResponse)
    ensures r == HoldingText(holding)
  {
    var unitPrice := MapMoney(holding.unitPrice);
    var marketValue := MapMoney(holding.marketValue);
    return HoldingResponse(holding.symbol, QuantityText(holding.quantity), unitPrice, marketValue);
  }

  /** The text shows the money: its currency as it is, and the published form of its minor units. */
  ghost predicate Prints(r: MoneyResponse, m: Money) {
    r.currency == m.currency && SpellsMoney(r.amount, m.minor)
  }

  lemma MoneyPrinted(m: Money)
    ensures Prints(MoneyText(m), m)
  {
    AmountSpelled(m.minor);
  }

  // ---------- What the client reads ----------

  /** The minor units a client reads from a printed amount; 0 when the text is not an amount. */
  function Read(m: MoneyResponse): int {
    match ReadAmount(m.amount)
    case None => 0
    case Some(minor) => minor
  }

  function ReadMarketValue(h: HoldingResponse): int {
    Read(h.marketValue)
  }

  /** Printed cash plus printed market values of one account. */
  function ReadContents(a: AccountResponse): int {
    Read(a.cashBalance) + Sum(ReadMarketValue, a.holdings)
  }

  function ReadAccountValue(a: AccountResponse): int {
    Read(a.marketValue)
  }

  /** The printed total, cash balances and account values are amounts. */
  predicate AmountsRead(r: PortfolioResponse) {
    && ReadAmount(r.totalMarketValue.amount).Some?
    && forall i :: 0 <= i < |r.accounts| ==>
         && ReadAmount(r.accounts[i].cashBalance.amount).Some?
         && ReadAmount(r.accounts[i].marketValue.amount).Some?
  }

  /** Neither the total, nor a cash balance, nor an account value comes out at the minimum int64. */
  predicate SummandsPrint(prices: Prices, accounts: seq<Account>) {
    && Wrap64(ExactTotal(prices, accounts)) != MIN_INT64
    && forall i :: 0 <= i < |accounts| ==> AccountPrints(prices, accounts[i])
  }

  predicate AccountPrints(prices: Prices, a: Account) {
    a.cash.minor != MIN_INT64 && Wrap64(AccountExact(prices, a)) != MIN_INT64
  }

  /** Total, cash and account values read as amounts exactly under that condition on the inputs. */
  lemma AmountsReadIff(customerID: string, accounts: seq<Account>, prices: Prices)
    requires PortfolioOf(customerID, accounts, prices).Ok? && CountsAll(accounts)
    ensures AmountsRead(ResponseOf(PortfolioOf(customerID, accounts, prices).value))
       <==> SummandsPrint(prices, accounts)
  {
    var p := PortfolioOf(customerID, accounts, prices).value;
    var r := ResponseOf(p);
    TotalOf(customerID, accounts, prices);
    AmountRoundTrip(p.totalMarketValue.minor);
    AccumulatePointwise(prices, accounts);
    forall i | 0 <= i < |accounts|
      ensures ReadAmount(r.accounts[i].cashBalance.amount).Some? && ReadAmount(r.accounts[i].marketValue.amount).Some?
         <==> AccountPrints(prices, accounts[i])
    {
      AccountAmountsRead(prices, accounts[i]);
    }
  }

  lemma AccountAmountsRead(prices: Prices, a: Account)
    requires AccountPortfolioOf(prices, a).Ok?
    ensures var r := AccountText(AccountPortfolioOf(prices, a).value);
            ReadAmount(r.cashBalance.amount).Some? && ReadAmount(r.marketValue.amount).Some?
            <==> AccountPrints(prices, a)
  {
    AccountValuedSums(prices, a);
    AmountRoundTrip(a.cash.minor);
    AmountRoundTrip(Wrap64(AccountExact(prices, a)));
  }

  lemma ReadBack(m: Money)
    requires m.minor != MIN_INT64
    ensures Read(MoneyText(m)) == m.minor
  {
    AmountRoundTrip(m.minor);
  }

  /** The printed contents of an account are its cash and position values, as exact integers. */
  lemma ContentsRead(prices: Prices, a: Account)
    requires AccountPortfolioOf(prices, a).Ok? && AccountPrints(prices, a)
    ensures var r := AccountText(AccountPortfolioOf(prices, a).value);
            ReadContents(r) == AccountExact(prices, a) && ReadAccountValue(r) == Wrap64(AccountExact(prices, a))
  {
    var p := AccountPortfolioOf(prices, a).value;
    AccountValuedSums(prices, a);
    ReadBack(p.cash);
    ReadBack(p.marketValue);
    HoldingsRead(prices, a);
  }

  lemma AccountValuedSums(prices: Prices, a: Account)
    requires AccountPortfolioOf(prices, a).Ok?
    ensures var p := AccountPortfolioOf(prices, a).value;
            && p.cash == a.cash
            && p.marketValue.minor == Wrap64(AccountExact(prices, a))
            && p.cash.minor + Sum(HoldingMinor, p.holdings) == AccountExact(prices, a)
  {
    AccountValued(prices, a);
  }

  /** Holding values always read back: a quotient by a million is never the minimum int64. */
  lemma HoldingsRead(prices: Prices, a: Account)
    requires AccountPortfolioOf(prices, a).Ok?
    ensures var p := AccountPortfolioOf(prices, a).value;
            Sum(ReadMarketValue, AccountText(p).holdings) == Sum(HoldingMinor, p.holdings)
  {
    var p := AccountPortfolioOf(prices, a).value;
    var hs := AccountText(p).holdings;
    AccountValued(prices, a);
    forall j | 0 <= j < |p.holdings|
      ensures ReadMarketValue(hs[j]) == HoldingMinor(p.holdings[j])
    {
      assert p.holdings[j] == SoundHolding(prices, a.positions[j]);
      assert hs[j] == HoldingText(p.holdings[j]);
      ReadBack(p.holdings[j].marketValue);
    }
    SumPointwise(ReadMarketValue, hs, HoldingMinor, p.holdings);
  }

  predicate AccountAddsUp(a: AccountResponse) {
    && ReadAccountValue(a) == Wrap64(ReadContents(a))
    && (ReadAccountValue(a) == ReadContents(a) <==> InInt64(ReadContents(a)))
  }

  /** What holds between the printed figures of a response. */
  predicate AddsUp(r: PortfolioResponse) {
    var contents, values := Sum(ReadContents, r.accounts), Sum(ReadAccountValue, r.accounts);
    && (forall i :: 0 <= i < |r.accounts| ==> AccountAddsUp(r.accounts[i]))
    && Read(r.totalMarketValue) == Wrap64(contents) == Wrap64(values)
    && (Read(r.totalMarketValue) == contents <==> InInt64(contents))
    && (Read(r.totalMarketValue) == values <==> InInt64(values))
  }

  /**
   What the client reads adds up. Each account's printed value is the wrapped sum of its printed
   cash and holdings, and the printed total is the wrapped sum over all accounts, both of printed
   contents and of printed account values. So each is the plain sum exactly when that sum fits int64.
   */
  lemma PrintedAmountsAddUp(customerID: string, accounts: seq<Account>, prices: Prices)
    requires PortfolioOf(customerID, accounts, prices).Ok? && CountsAll(accounts)
    requires SummandsPrint(prices, accounts)
    ensures AddsUp(ResponseOf(PortfolioOf(customerID, accounts, prices).value))
  {
    var p := PortfolioOf(customerID, accounts, prices).value;
    var rs := ResponseOf(p).accounts;
    AccountsAddUp(customerID, accounts, prices);
    TotalOf(customerID, accounts, prices);
    ReadBack(p.totalMarketValue);
    WrappedTerms(rs);
  }

  lemma AccountsAddUp(customerID: string, accounts: seq<Account>, prices: Prices)
    requires PortfolioOf(customerID, accounts, prices).Ok? && SummandsPrint(prices, accounts)
    ensures var rs := ResponseOf(PortfolioOf(customerID, accounts, prices).value).accounts;
            && (forall i :: 0 <= i < |rs| ==> ReadAccountValue(rs[i]) == Wrap64(ReadContents(rs[i])))
            && Sum(ReadContents, rs) == ExactTotal(prices, accounts)
  {
    var rs := ResponseOf(PortfolioOf(customerID, accounts, prices).value).accounts;
    AccumulatePointwise(prices, accounts);
    forall i | 0 <= i < |accounts|
      ensures ReadContents(rs[i]) == AccountExacts(prices)(accounts[i])
      ensures ReadAccountValue(rs[i]) == Wrap64(ReadContents(rs[i]))
    {
      ContentsRead(prices, accounts[i]);
    }
    SumPointwise(ReadContents, rs, AccountExacts(prices), accounts);
    ExactTotalByAccount(prices, accounts);
  }

  /** Wrapping every term first does not change the wrapped sum. */
  lemma {:induction false} WrappedTerms(rs: seq<AccountResponse>)
    requires forall i :: 0 <= i < |rs| ==> ReadAccountValue(rs[i]) == Wrap64(ReadContents(rs[i]))
    ensures Wrap64(Sum(ReadAccountValue, rs)) == Wrap64(Sum(ReadContents, rs))
  {
    if rs != [] {
      var head, last := rs[..|rs| - 1], rs[|rs| - 1];
      WrappedTerms(head);
      WrapBoth(Sum(ReadContents, head), ReadContents(last));
      WrapAdd(Sum(ReadAccountValue, head), ReadAccountValue(last));
    }
  }

  /** The printed account shows the account's own cash, and per position its quantity, price and value. */
  predicate Shows(prices: Prices, a: Account, r: AccountResponse) {
    && r.accountID == a.id && r.accountType == a.kind
    && r.cashBalance == MoneyText(a.cash)
    && r.marketValue == MoneyText(Money(Wrap64(AccountExact(prices, a)), a.cash.currency))
    && |r.holdings| == |a.positions|
    && forall j :: 0 <= j < |a.positions| ==> ShowsPosition(prices, a.positions[j], r.holdings[j])
  }

  predicate ShowsPosition(prices: Prices, p: Position, h: HoldingResponse) {
    && h.symbol == p.symbol
    && h.quantity == QuantityText(p.quantity)
    && p.symbol in prices
    && h.unitPrice == MoneyText(prices[p.symbol].value)
    && h.marketValue == MoneyText(Money(ValueAt(prices, p), prices[p.symbol].value.currency))
  }

  lemma AccountShown(prices: Prices, a: Account)
    requires AccountPortfolioOf(prices, a).Ok?
    ensures Shows(prices, a, AccountText(AccountPortfolioOf(prices, a).value))
  {
    AccountValued(prices, a);
    var p := AccountPortfolioOf(prices, a).value;
    forall j | 0 <= j < |a.positions|
      ensures ShowsPosition(prices, a.positions[j], AccountText(p).holdings[j])
    {
      assert AccountText(p).holdings[j] == HoldingText(SoundHolding(prices, a.positions[j]));
    }
  }

  /**
   The head of a response: the customer asked for, the latest instant used, and the total in the
   currency that the accounts name.
   */
  ghost predicate Heads(r: PortfolioResponse, customerID: string, accounts: seq<Account>, prices: Prices) {
    && r.customerID == customerID
    && IsLatestUsed(prices, AllPositions(accounts), r.asOf)
    && (forall i :: 0 <= i < |accounts| && accounts[i].cash.currency != "" ==>
          r.totalMarketValue.currency == accounts[i].cash.currency)
    && (Unnamed(accounts) ==> r.totalMarketValue.currency == "")
  }

  lemma ResponseHeads(customerID: string, accounts: seq<Account>, prices: Prices)
    requires PortfolioOf(customerID, accounts, prices).Ok?
    ensures Heads(ResponseOf(PortfolioOf(customerID, accounts, prices).value), customerID, accounts, prices)
  {
    AsOfIsLatest(customerID, accounts, prices);
    TotalCurrency(customerID, accounts, prices);
  }

  ghost predicate ShowsAll(r: PortfolioResponse, accounts: seq<Account>, prices: Prices) {
    && |r.accounts| == |accounts|
    && forall i :: 0 <= i < |accounts| ==> Shows(prices, accounts[i], r.accounts[i])
  }

  /** A response shows every account and position of the source, in source order. */
  lemma ResponseKeepsSource(customerID: string, accounts: seq<Account>, prices: Prices)
    requires PortfolioOf(customerID, accounts, prices).Ok?
    ensures ShowsAll(ResponseOf(PortfolioOf(customerID, accounts, prices).value), accounts, prices)
  {
    AccumulatePointwise(prices, accounts);
    forall i | 0 <= i < |accounts|
      ensures Shows(prices, accounts[i], AccountText(AccountPortfolioOf(prices, accounts[i]).value))
    {
      AccountShown(prices, accounts[i]);
    }
  }

  /** Every money text of the response is an amount, unit prices and holding values included. */
  predicate EveryAmountReads(r: PortfolioResponse) {
    && AmountsRead(r)
    && forall i :: 0 <= i < |r.accounts| ==> HoldingAmountsRead(r.accounts[i].holdings)
  }

  predicate HoldingAmountsRead(hs: seq<HoldingResponse>) {
    forall j :: 0 <= j < |hs| ==>
      ReadAmount(hs[j].unitPrice.amount).Some? && ReadAmount(hs[j].marketValue.amount).Some?
  }

  predicate PricesPrint(prices: Prices, ps: seq<Position>) {
    forall j :: 0 <= j < |ps| && ps[j].symbol in prices ==> prices[ps[j].symbol].value.minor != MIN_INT64
  }

  lemma PositionAmountsRead(prices: Prices, p: Position, h: HoldingResponse)
    requires ShowsPosition(prices, p, h)
    ensures ReadAmount(h.marketValue.amount).Some?
    ensures ReadAmount(h.unitPrice.amount).Some? <==> prices[p.symbol].value.minor != MIN_INT64
  {
    AmountRoundTrip(prices[p.symbol].value.minor);
    AmountRoundTrip(Valuation(p.quantity, prices[p.symbol].value));
  }

  lemma HoldingAmountsReadIff(prices: Prices, a: Account)
    requires AccountPortfolioOf(prices, a).Ok?
    ensures HoldingAmountsRead(AccountText(AccountPortfolioOf(prices, a).value).holdings)
       <==> PricesPrint(prices, a.positions)
  {
    var r := AccountText(AccountPortfolioOf(prices, a).value);
    AccountShown(prices, a);
    ShownAmountsRead(prices, a, r);
  }

  lemma ShownAmountsRead(prices: Prices, a: Account, r: AccountResponse)
    requires Shows(prices, a, r)
    ensures HoldingAmountsRead(r.holdings) <==> PricesPrint(prices, a.positions)
  {
    forall j | 0 <= j < |a.positions|
      ensures ReadAmount(r.holdings[j].marketValue.amount).Some?
      ensures ReadAmount(r.holdings[j].unitPrice.amount).Some?
         <==> prices[a.positions[j].symbol].value.minor != MIN_INT64
    {
      PositionAmountsRead(prices, a.positions[j], r.holdings[j]);
    }
  }

  /** Every money text is an amount exactly when the summands print and no unit price used is the minimum. */
  lemma EveryAmountReadsIff(customerID: string, accounts: seq<Account>, prices: Prices)
    requires PortfolioOf(customerID, accounts, prices).Ok? && CountsAll(accounts)
    ensures EveryAmountReads(ResponseOf(PortfolioOf(customerID, accounts, prices).value)) <==>
              && SummandsPrint(prices, accounts)
              && forall i :: 0 <= i < |accounts| ==> PricesPrint(prices, accounts[i].positions)
  {
    AmountsReadIff(customerID, accounts, prices);
    AccumulatePointwise(prices, accounts);
    forall i | 0 <= i < |accounts|
      ensures HoldingAmountsRead(AccountText(AccountPortfolioOf(prices, accounts[i]).value).holdings)
         <==> PricesPrint(prices, accounts[i].positions)
    {
      HoldingAmountsReadIff(prices, accounts[i]);
    }
  }
}
