/** The two Core wire contracts and their adapters onto domain accounts. */
module CoreContract {
  import opened GoInt64
  import opened GoStrings
  import opened Decimal
  import opened Errors
  import opened Traversal
  import opened Money
  import opened Quantities

  // ---------- Wire shapes: None is an absent or null member ----------

  datatype CoreV1Response = CoreV1Response(customerID: Option<string>, accounts: Option<seq<CoreV1Account>>)
  datatype CoreV1Account = CoreV1Account(
    accountID: Option<string>, accountType: Option<string>,
    cashBalance: Option<CoreV1Money>, positions: Option<seq<CoreV1Position>>)
  datatype CoreV1Money = CoreV1Money(amountMinor: Option<int64>, currency: Option<string>)
  datatype CoreV1Position = CoreV1Position(symbol: Option<string>, quantity: Option<string>)

  datatype CoreV2Response = CoreV2Response(client: Option<CoreV2Client>, portfolios: Option<seq<CoreV2Portfolio>>)
  datatype CoreV2Client = CoreV2Client(id: Option<string>)
  datatype CoreV2Portfolio = CoreV2Portfolio(
    id: Option<string>, category: Option<string>,
    balances: Option<CoreV2Balances>, assets: Option<seq<CoreV2Asset>>)
  datatype CoreV2Balances = CoreV2Balances(cash: Option<CoreV2Money>)
  datatype CoreV2Money = CoreV2Money(minorUnits: Option<int64>, currencyCode: Option<string>)
  datatype CoreV2Asset = CoreV2Asset(ticker: Option<string>, units: Option<string>)

  const CORE_CATEGORIES: set<string> := {"BROKERAGE", "RETIREMENT"}

  // ---------- Members shared by the two contracts ----------

  /** The pattern `^[A-Z]{3}$`. */
  predicate IsCurrencyCode(c: string) {
    |c| == 3 && forall i :: 0 <= i < 3 ==> 'A' <= c[i] <= 'Z'
  }

  function CoreParseMoney(minor: Option<int64>, currency: Option<string>, strictCurrency: bool): (r: Result<Money>)
    ensures r.Err? ==> !Is(r.error, ErrCustomerNotFound)
  {
    if minor.None? || currency.None? then Err(ErrContract)
    else if strictCurrency && !IsCurrencyCode(currency.value) then Err(ErrContract)
    else
      match NewMoney(minor.value, currency.value)
      case Err(e) => Err(Wrapped(e))
      case Ok(cash) => Ok(cash)
  }

  function CoreParsePosition(symbol: Option<string>, quantity: Option<string>, strictQuantity: bool)
    : (r: Result<Position>)
    ensures r.Err? ==> !Is(r.error, ErrCustomerNotFound)
  {
    if symbol.None? || symbol.value == "" || quantity.None? then Err(ErrContract)
    else if strictQuantity && !ValidCoreV2Quantity(quantity.value) then Err(Wrapped(ErrInvalidQuantity))
    else
      match QuantityOf(quantity.value)
      case Err(_) => Err(Wrapped(ErrInvalidQuantity))
      case Ok(value) => Ok(Position(symbol.value, value))
  }

  predicate Missing(s: Option<string>) {
    s.None? || s.value == ""
  }

  // ---------- v1 ----------

  function V1PositionOf(p: CoreV1Position): Result<Position> {
    CoreParsePosition(p.symbol, p.quantity, false)
  }

  /** The account one v1 item denotes, or its first contract violation. */
  function V1AccountOf(item: CoreV1Account): Result<Account> {
    if Missing(item.accountID) || Missing(item.accountType) || item.cashBalance.None? then Err(ErrContract)
    else
      match CoreParseMoney(item.cashBalance.value.amountMinor, item.cashBalance.value.currency, false)
      case Err(e) => Err(e)
      case Ok(cash) =>
        if item.positions.None? then Err(ErrContract)
        else
          match Traverse(V1PositionOf, item.positions.value)
          case Err(e) => Err(e)
          case Ok(positions) => Ok(Account(item.accountID.value, item.accountType.value, cash, positions))
  }

  function V1AccountsOf(payload: CoreV1Response, customerID: string): Result<seq<Account>> {
    if payload.customerID != Some(customerID) || payload.accounts.None? then Err(ErrContract)
    else Traverse(V1AccountOf, payload.accounts.value)
  }

  method MapCoreV1(payload: CoreV1Response, customerID: string) returns (r: Result<seq<Account>>)
    ensures r == V1AccountsOf(payload, customerID)
  {
    if payload.customerID.None? || payload.customerID.value != customerID {
      return Err(ErrContract);
    }
    if payload.accounts.None? {
      return Err(ErrContract);
    }

    var items := payload.accounts.value;
    var accounts := [];
    for i := 0 to |items|
      invariant Traverse(V1AccountOf, items[..i]) == Ok(accounts)
    {
      TraverseStep(V1AccountOf, items, i, accounts);
      var account := MapCoreV1Account(items[i]);
      if account.Err? {
        return Err(account.error);
      }
      accounts := accounts + [account.value];
    }
    assert items[..|items|] == items;
    return Ok(accounts);
  }

  method MapCoreV1Account(item: CoreV1Account) returns (r: Result<Account>)
    ensures r == V1AccountOf(item)
  {
    if item.accountID.None? || item.accountID.value == "" ||
       item.accountType.None? || item.accountType.value == "" {
      return Err(ErrContract);
    }
    if item.cashBalance.None? {
      return Err(ErrContract);
    }
    var cash := CoreParseMoney(item.cashBalance.value.amountMinor, item.cashBalance.value.currency, false);
    if cash.Err? {
      return Err(cash.error);
    }
    if item.positions.None? {
      return Err(ErrContract);
    }
    var items := item.positions.value;
    var positions := [];
    for i := 0 to |items|
      invariant Traverse(V1PositionOf, items[..i]) == Ok(positions)
    {
      TraverseStep(V1PositionOf, items, i, positions);
      var mapped := CoreParsePosition(items[i].symbol, items[i].quantity, false);
      if mapped.Err? {
        return Err(mapped.error);
      }
      positions := positions + [mapped.value];
    }
    assert items[..|items|] == items;
    return Ok(Account(item.accountID.value, item.accountType.value, cash.value, positions));
  }

  // ---------- v2 ----------

  function V2PositionOf(a: CoreV2Asset): Result<Position> {
    CoreParsePosition(a.ticker, a.units, true)
  }

  /** The account one v2 item denotes, or its first contract violation. */
  function V2AccountOf(item: CoreV2Portfolio): Result<Account> {
    if Missing(item.id) || item.category.None? || item.category.value !in CORE_CATEGORIES
       || item.balances.None? || item.balances.value.cash.None? then Err(ErrContract)
    else
      var wire := item.balances.value.cash.value;
      match CoreParseMoney(wire.minorUnits, wire.currencyCode, true)
      case Err(e) => Err(e)
      case Ok(cash) =>
        if item.assets.None? then Err(ErrContract)
        else
          match Traverse(V2PositionOf, item.assets.value)
          case Err(e) => Err(e)
          case Ok(positions) => Ok(Account(item.id.value, item.category.value, cash, positions))
  }

  function V2AccountsOf(payload: CoreV2Response, customerID: string): Result<seq<Account>> {
    if payload.client != Some(CoreV2Client(Some(customerID))) || payload.portfolios.None? then Err(ErrContract)
    else Traverse(V2AccountOf, payload.portfolios.value)
  }

  method MapCoreV2(payload: CoreV2Response, customerID: string) returns (r: Result<seq<Account>>)
    ensures r == V2AccountsOf(payload, customerID)
  {
    if payload.client.None? || payload.client.value.id.None? || payload.client.value.id.value != customerID {
      return Err(ErrContract);
    }
    if payload.portfolios.None? {
      return Err(ErrContract);
    }

    var items := payload.portfolios.value;
    var accounts := [];
    for i := 0 to |items|
      invariant Traverse(V2AccountOf, items[..i]) == Ok(accounts)
    {
      TraverseStep(V2AccountOf, items, i, accounts);
      var account := MapCoreV2Portfolio(items[i]);
      if account.Err? {
        return Err(account.error);
      }
      accounts := accounts + [account.value];
    }
    assert items[..|items|] == items;
    return Ok(accounts);
  }

  method MapCoreV2Portfolio(item: CoreV2Portfolio) returns (r: Result<Account>)
    ensures r == V2AccountOf(item)
  {
    if item.id.None? || item.id.value == "" || item.category.None? {
      return Err(ErrContract);
    }
    if item.category.value !in CORE_CATEGORIES {
      return Err(ErrContract);
    }
    if item.balances.None? || item.balances.value.cash.None? {
      return Err(ErrContract);
    }
    var wire := item.balances.value.cash.value;
    var cash := CoreParseMoney(wire.minorUnits, wire.currencyCode, true);
    if cash.Err? {
      return Err(cash.error);
    }
    if item.assets.None? {
      return Err(ErrContract);
    }
    var items := item.assets.value;
    var positions := [];
    for i := 0 to |items|
      invariant Traverse(V2PositionOf, items[..i]) == Ok(positions)
    {
      TraverseStep(V2PositionOf, items, i, positions);
      var mapped := CoreParsePosition(items[i].ticker, items[i].units, true);
      if mapped.Err? {
        return Err(mapped.error);
      }
      positions := positions + [mapped.value];
    }
    assert items[..|items|] == items;
    return Ok(Account(item.id.value, item.category.value, cash.value, positions));
  }

  // ---------- Version detection ----------

  datatype CoreVersion = V1 | V2

  /** The version whose complete signature the top-level keys show, and no key of the other. */
  function DetectCoreVersion(keys: set<string>): Option<CoreVersion> {
    var anyV1 := "customer_id" in keys || "accounts" in keys;
    var anyV2 := "client" in keys || "portfolios" in keys;
    if anyV1 && anyV2 then None
    else if "customer_id" in keys && "accounts" in keys then Some(V1)
    else if "client" in keys && "portfolios" in keys then Some(V2)
    else None
  }
}
