/** What the Core adapters promise: fail closed, v2 refines v1, and nothing is lost on the wire. */
module CoreTheorems {
  import opened GoInt64
  import opened GoStrings
  import opened Decimal
  import opened Errors
  import opened Traversal
  import opened Money
  import opened Quantities
  import opened CoreContract

  // ---------- Members ----------

  lemma CurrencyCodeIsNormal(minor: int64, c: string)
    requires IsCurrencyCode(c)
    ensures NewMoney(minor, c) == Ok(Money(minor, c))
  {
    TrimSpaceFixes(c);
    assert ToUpper(c) == c;
  }

  /** Three characters from A to Z. */
  predicate ThreeCapitals(c: string) {
    |c| == 3 && forall i :: 0 <= i < 3 ==> 65 <= c[i] as int <= 90
  }

  predicate KnownCategory(c: string) {
    c == "BROKERAGE" || c == "RETIREMENT"
  }

  /** The wire members of some cash say what the domain value holds. */
  predicate CashDenotes(minor: Option<int64>, currency: Option<string>, cash: Money) {
    minor == Some(cash.minor) && currency.Some? && StoresCode(cash.currency, currency.value)
  }

  predicate PositionDenotes(symbol: Option<string>, quantity: Option<string>, p: Position) {
    symbol == Some(p.symbol) && quantity.Some? && QuantityOf(quantity.value) == Ok(p.quantity)
  }

  /** The account has the item's members: identity, type, cash, and its positions in order. */
  predicate V1Denotes(item: CoreV1Account, a: Account) {
    && item.accountID == Some(a.id) && item.accountType == Some(a.kind)
    && item.cashBalance.Some?
    && CashDenotes(item.cashBalance.value.amountMinor, item.cashBalance.value.currency, a.cash)
    && item.positions.Some? && |item.positions.value| == |a.positions|
    && forall j :: 0 <= j < |a.positions| ==>
         PositionDenotes(item.positions.value[j].symbol, item.positions.value[j].quantity, a.positions[j])
  }

  predicate V2Denotes(item: CoreV2Portfolio, a: Account) {
    && item.id == Some(a.id) && item.category == Some(a.kind)
    && item.balances.Some? && item.balances.value.cash.Some?
    && CashDenotes(item.balances.value.cash.value.minorUnits, item.balances.value.cash.value.currencyCode, a.cash)
    && item.assets.Some? && |item.assets.value| == |a.positions|
    && forall j :: 0 <= j < |a.positions| ==>
         PositionDenotes(item.assets.value[j].ticker, item.assets.value[j].units, a.positions[j])
  }

  /**
   Cash maps exactly when both members are present and the currency is a three-capital code, or
   under v1 three characters once trimmed; it keeps the minor units and has a normal currency.
   */
  lemma CoreMoneyAccepted(minor: Option<int64>, currency: Option<string>, strict: bool)
    ensures CoreParseMoney(minor, currency, strict).Ok? <==>
              && minor.Some? && currency.Some?
              && if strict then ThreeCapitals(currency.value) else |TrimSpace(currency.value)| == 3
    ensures CoreParseMoney(minor, currency, strict).Ok? ==>
              var cash := CoreParseMoney(minor, currency, strict).value;
              && CashDenotes(minor, currency, cash)
              && NormalCurrency(cash.currency)
              && (strict ==> cash.currency == currency.value)
  {
    if minor.Some? && currency.Some? {
      CapitalsAre(currency.value);
      NewMoneyNormalises(minor.value, currency.value);
      if IsCurrencyCode(currency.value) {
        CurrencyCodeIsNormal(minor.value, currency.value);
      }
    }
  }

  lemma CapitalsAre(c: string)
    ensures IsCurrencyCode(c) <==> ThreeCapitals(c)
  {
  }

  /**
   A position maps exactly when its symbol is non-empty and its quantity is in the contract's
   language; it keeps the symbol and holds the parsed quantity. A present quantity that is
   refused is reported as invalid.
   */
  lemma CorePositionAccepted(symbol: Option<string>, quantity: Option<string>, strict: bool)
    ensures CoreParsePosition(symbol, quantity, strict).Ok? <==>
              && !Missing(symbol) && quantity.Some?
              && if strict then InV2Language(quantity.value) else InV1Language(quantity.value)
    ensures CoreParsePosition(symbol, quantity, strict).Ok? ==>
              PositionDenotes(symbol, quantity, CoreParsePosition(symbol, quantity, strict).value)
    ensures CoreParsePosition(symbol, quantity, strict).Err? ==>
              (Is(CoreParsePosition(symbol, quantity, strict).error, ErrInvalidQuantity)
               <==> !Missing(symbol) && quantity.Some?)
  {
    if quantity.Some? {
      V1Language(quantity.value);
      V2Language(quantity.value);
    }
  }

  // ---------- Fail closed ----------

  /** Every member of one v1 account is present and valid. */
  ghost predicate ValidV1Account(item: CoreV1Account) {
    && !Missing(item.accountID) && !Missing(item.accountType)
    && item.cashBalance.Some? && item.cashBalance.value.amountMinor.Some?
    && item.cashBalance.value.currency.Some? && |TrimSpace(item.cashBalance.value.currency.value)| == 3
    && item.positions.Some?
    && forall i :: 0 <= i < |item.positions.value| ==> ValidV1Position(item.positions.value[i])
  }

  ghost predicate ValidV1Position(p: CoreV1Position) {
    !Missing(p.symbol) && p.quantity.Some? && InV1Language(p.quantity.value)
  }

  ghost predicate ValidV2Account(item: CoreV2Portfolio) {
    && !Missing(item.id) && item.category.Some? && KnownCategory(item.category.value)
    && item.balances.Some? && item.balances.value.cash.Some?
    && item.balances.value.cash.value.minorUnits.Some?
    && item.balances.value.cash.value.currencyCode.Some?
    && ThreeCapitals(item.balances.value.cash.value.currencyCode.value)
    && item.assets.Some?
    && forall i :: 0 <= i < |item.assets.value| ==> ValidV2Asset(item.assets.value[i])
  }

  ghost predicate ValidV2Asset(a: CoreV2Asset) {
    !Missing(a.ticker) && a.units.Some? && InV2Language(a.units.value)
  }

  ghost predicate ValidV1Payload(payload: CoreV1Response, customerID: string) {
    && payload.customerID == Some(customerID) && payload.accounts.Some?
    && forall i :: 0 <= i < |payload.accounts.value| ==> ValidV1Account(payload.accounts.value[i])
  }

  ghost predicate ValidV2Payload(payload: CoreV2Response, customerID: string) {
    && payload.client == Some(CoreV2Client(Some(customerID))) && payload.portfolios.Some?
    && forall i :: 0 <= i < |payload.portfolios.value| ==> ValidV2Account(payload.portfolios.value[i])
  }

  lemma V1AccountValid(item: CoreV1Account)
    ensures V1AccountOf(item).Ok? <==> ValidV1Account(item)
    ensures V1AccountOf(item).Ok? ==>
              V1Denotes(item, V1AccountOf(item).value) && NormalCurrency(V1AccountOf(item).value.cash.currency)
    ensures V1AccountOf(item).Err? ==> !Is(V1AccountOf(item).error, ErrCustomerNotFound)
  {
    if item.positions.Some? {
      V1PositionsValid(item.positions.value);
    }
    if item.cashBalance.Some? {
      CoreMoneyAccepted(item.cashBalance.value.amountMinor, item.cashBalance.value.currency, false);
    }
  }

  lemma V1PositionsValid(ps: seq<CoreV1Position>)
    ensures Traverse(V1PositionOf, ps).Ok? <==> forall i :: 0 <= i < |ps| ==> ValidV1Position(ps[i])
    ensures Traverse(V1PositionOf, ps).Ok? ==>
              var positions := Traverse(V1PositionOf, ps).value;
              && |positions| == |ps|
              && forall i :: 0 <= i < |ps| ==> PositionDenotes(ps[i].symbol, ps[i].quantity, positions[i])
    ensures Traverse(V1PositionOf, ps).Err? ==> !Is(Traverse(V1PositionOf, ps).error, ErrCustomerNotFound)
  {
    TraverseAll(V1PositionOf, ps);
    forall i | 0 <= i < |ps|
      ensures V1PositionOf(ps[i]).Ok? <==> ValidV1Position(ps[i])
      ensures V1PositionOf(ps[i]).Ok? ==> PositionDenotes(ps[i].symbol, ps[i].quantity, V1PositionOf(ps[i]).value)
    {
      CorePositionAccepted(ps[i].symbol, ps[i].quantity, false);
    }
  }

  lemma V2AccountValid(item: CoreV2Portfolio)
    ensures V2AccountOf(item).Ok? <==> ValidV2Account(item)
    ensures V2AccountOf(item).Ok? ==>
              V2Denotes(item, V2AccountOf(item).value) && ThreeCapitals(V2AccountOf(item).value.cash.currency)
    ensures V2AccountOf(item).Err? ==> !Is(V2AccountOf(item).error, ErrCustomerNotFound)
  {
    if V2AccountOf(item).Ok? {
      V2AccountDenotes(item);
    } else {
      V2AccountRefused(item);
    }
  }

  lemma V2AccountDenotes(item: CoreV2Portfolio)
    requires V2AccountOf(item).Ok?
    ensures ValidV2Account(item)
    ensures V2Denotes(item, V2AccountOf(item).value) && ThreeCapitals(V2AccountOf(item).value.cash.currency)
  {
    var cash := item.balances.value.cash.value;
    CoreMoneyAccepted(cash.minorUnits, cash.currencyCode, true);
    V2AssetsValid(item.assets.value);
  }

  lemma V2AccountRefused(item: CoreV2Portfolio)
    requires V2AccountOf(item).Err?
    ensures !ValidV2Account(item)
    ensures !Is(V2AccountOf(item).error, ErrCustomerNotFound)
  {
    if item.balances.Some? && item.balances.value.cash.Some? {
      var cash := item.balances.value.cash.value;
      CoreMoneyAccepted(cash.minorUnits, cash.currencyCode, true);
    }
    if item.assets.Some? {
      V2AssetsValid(item.assets.value);
    }
  }

  lemma V2AssetsValid(xs: seq<CoreV2Asset>)
    ensures Traverse(V2PositionOf, xs).Ok? <==> forall i :: 0 <= i < |xs| ==> ValidV2Asset(xs[i])
    ensures Traverse(V2PositionOf, xs).Ok? ==>
              var positions := Traverse(V2PositionOf, xs).value;
              && |positions| == |xs|
              && forall i :: 0 <= i < |xs| ==> PositionDenotes(xs[i].ticker, xs[i].units, positions[i])
    ensures Traverse(V2PositionOf, xs).Err? ==> !Is(Traverse(V2PositionOf, xs).error, ErrCustomerNotFound)
  {
    TraverseAll(V2PositionOf, xs);
    forall i | 0 <= i < |xs|
      ensures V2PositionOf(xs[i]).Ok? <==> ValidV2Asset(xs[i])
      ensures V2PositionOf(xs[i]).Ok? ==> PositionDenotes(xs[i].ticker, xs[i].units, V2PositionOf(xs[i]).value)
    {
      CorePositionAccepted(xs[i].ticker, xs[i].units, true);
    }
  }

  /** v1 returns accounts only if the identity matches and every account and position is valid. */
  lemma V1FailsClosed(payload: CoreV1Response, customerID: string)
    ensures V1AccountsOf(payload, customerID).Ok? <==> ValidV1Payload(payload, customerID)
    ensures V1AccountsOf(payload, customerID).Ok? ==>
              var accounts := V1AccountsOf(payload, customerID).value;
              && |accounts| == |payload.accounts.value|
              && forall i :: 0 <= i < |accounts| ==>
                   && V1AccountOf(payload.accounts.value[i]) == Ok(accounts[i])
                   && V1Denotes(payload.accounts.value[i], accounts[i])
                   && NormalCurrency(accounts[i].cash.currency)
    ensures V1AccountsOf(payload, customerID).Err? ==>
              !Is(V1AccountsOf(payload, customerID).error, ErrCustomerNotFound)
  {
    if payload.accounts.Some? {
      var items := payload.accounts.value;
      TraverseAll(V1AccountOf, items);
      forall i | 0 <= i < |items|
        ensures V1AccountOf(items[i]).Ok? <==> ValidV1Account(items[i])
        ensures V1AccountOf(items[i]).Ok? ==>
                  V1Denotes(items[i], V1AccountOf(items[i]).value) &&
                  NormalCurrency(V1AccountOf(items[i]).value.cash.currency)
        ensures V1AccountOf(items[i]).Err? ==> !Is(V1AccountOf(items[i]).error, ErrCustomerNotFound)
      {
        V1AccountValid(items[i]);
      }
    }
  }

  /** v2 returns accounts only if the identity matches and every portfolio and asset is valid. */
  lemma V2FailsClosed(payload: CoreV2Response, customerID: string)
    ensures V2AccountsOf(payload, customerID).Ok? <==> ValidV2Payload(payload, customerID)
    ensures V2AccountsOf(payload, customerID).Ok? ==>
              var accounts := V2AccountsOf(payload, customerID).value;
              && |accounts| == |payload.portfolios.value|
              && forall i :: 0 <= i < |accounts| ==>
                   && V2AccountOf(payload.portfolios.value[i]) == Ok(accounts[i])
                   && V2Denotes(payload.portfolios.value[i], accounts[i])
                   && ThreeCapitals(accounts[i].cash.currency)
    ensures V2AccountsOf(payload, customerID).Err? ==>
              !Is(V2AccountsOf(payload, customerID).error, ErrCustomerNotFound)
  {
    if payload.portfolios.Some? {
      var items := payload.portfolios.value;
      TraverseAll(V2AccountOf, items);
      forall i | 0 <= i < |items|
        ensures V2AccountOf(items[i]).Ok? <==> ValidV2Account(items[i])
        ensures V2AccountOf(items[i]).Ok? ==>
                  V2Denotes(items[i], V2AccountOf(items[i]).value) &&
                  ThreeCapitals(V2AccountOf(items[i]).value.cash.currency)
        ensures V2AccountOf(items[i]).Err? ==> !Is(V2AccountOf(items[i]).error, ErrCustomerNotFound)
      {
        V2AccountValid(items[i]);
      }
    }
  }

  // ---------- v2 refines v1 ----------

  function RenameMoney(m: CoreV2Money): CoreV1Money {
    CoreV1Money(m.minorUnits, m.currencyCode)
  }

  function RenameAsset(a: CoreV2Asset): CoreV1Position {
    CoreV1Position(a.ticker, a.units)
  }

  function RenameAssets(xs: seq<CoreV2Asset>): (r: seq<CoreV1Position>)
    ensures |r| == |xs| && forall i :: 0 <= i < |xs| ==> r[i] == RenameAsset(xs[i])
  {
    seq(|xs|, i requires 0 <= i < |xs| => RenameAsset(xs[i]))
  }

  function RenameAccount(item: CoreV2Portfolio): CoreV1Account {
    CoreV1Account(
      item.id, item.category,
      if item.balances.Some? && item.balances.value.cash.Some?
      then Some(RenameMoney(item.balances.value.cash.value)) else None,
      if item.assets.Some? then Some(RenameAssets(item.assets.value)) else None)
  }

  function RenameAccounts(xs: seq<CoreV2Portfolio>): (r: seq<CoreV1Account>)
    ensures |r| == |xs| && forall i :: 0 <= i < |xs| ==> r[i] == RenameAccount(xs[i])
  {
    seq(|xs|, i requires 0 <= i < |xs| => RenameAccount(xs[i]))
  }

  /** The v1 payload with the v2 payload's members under their v1 names. */
  function Rename(payload: CoreV2Response): CoreV1Response {
    CoreV1Response(
      if payload.client.Some? then payload.client.value.id else None,
      if payload.portfolios.Some? then Some(RenameAccounts(payload.portfolios.value)) else None)
  }

  /** What v2 demands beyond v1: known category, currency code, strict units within range. */
  ghost predicate StrictAccount(item: CoreV2Portfolio) {
    && item.category.Some? && KnownCategory(item.category.value)
    && item.balances.Some? && item.balances.value.cash.Some?
    && item.balances.value.cash.value.currencyCode.Some?
    && ThreeCapitals(item.balances.value.cash.value.currencyCode.value)
    && item.assets.Some?
    && forall i :: 0 <= i < |item.assets.value| ==>
         item.assets.value[i].units.Some? && InV2Language(item.assets.value[i].units.value)
  }

  ghost predicate StrictPayload(payload: CoreV2Response) {
    payload.portfolios.Some? &&
    forall i :: 0 <= i < |payload.portfolios.value| ==> StrictAccount(payload.portfolios.value[i])
  }

  lemma AssetRefines(a: CoreV2Asset)
    requires a.units.Some?
    ensures V2PositionOf(a).Ok? <==> V1PositionOf(RenameAsset(a)).Ok? && InV2Language(a.units.value)
    ensures V2PositionOf(a).Ok? ==> V2PositionOf(a) == V1PositionOf(RenameAsset(a))
  {
    V2Language(a.units.value);
    V2Refines(a.units.value);
  }

  lemma AssetsRefine(xs: seq<CoreV2Asset>)
    requires forall i :: 0 <= i < |xs| ==> xs[i].units.Some? && InV2Language(xs[i].units.value)
    ensures Traverse(V2PositionOf, xs).Ok? <==> Traverse(V1PositionOf, RenameAssets(xs)).Ok?
    ensures Traverse(V2PositionOf, xs).Ok? ==>
              Traverse(V2PositionOf, xs) == Traverse(V1PositionOf, RenameAssets(xs))
  {
    var ys := RenameAssets(xs);
    TraverseAll(V2PositionOf, xs);
    TraverseAll(V1PositionOf, ys);
    forall i | 0 <= i < |xs|
      ensures V2PositionOf(xs[i]).Ok? <==> V1PositionOf(ys[i]).Ok?
      ensures V2PositionOf(xs[i]).Ok? ==> V2PositionOf(xs[i]) == V1PositionOf(ys[i])
    {
      AssetRefines(xs[i]);
    }
    if Traverse(V2PositionOf, xs).Ok? {
      TraverseIs(V1PositionOf, ys, Traverse(V2PositionOf, xs).value);
    }
  }

  lemma AccountRefines(item: CoreV2Portfolio)
    ensures V2AccountOf(item).Ok? <==> V1AccountOf(RenameAccount(item)).Ok? && StrictAccount(item)
    ensures V2AccountOf(item).Ok? ==> V2AccountOf(item) == V1AccountOf(RenameAccount(item))
  {
    V2AccountValid(item);
    if StrictAccount(item) {
      AssetsRefine(item.assets.value);
    }
  }

  /**
   v2 accepts exactly the payloads that v1 accepts under renaming and that keep v2's extra rules,
   and then both give the same accounts.
   */
  lemma V2RefinesV1(payload: CoreV2Response, customerID: string)
    ensures V2AccountsOf(payload, customerID).Ok? <==>
              V1AccountsOf(Rename(payload), customerID).Ok? && StrictPayload(payload)
    ensures V2AccountsOf(payload, customerID).Ok? ==>
              V2AccountsOf(payload, customerID) == V1AccountsOf(Rename(payload), customerID)
  {
    if payload.portfolios.Some? {
      var xs := payload.portfolios.value;
      var ys := RenameAccounts(xs);
      TraverseAll(V2AccountOf, xs);
      TraverseAll(V1AccountOf, ys);
      forall i | 0 <= i < |xs|
        ensures V2AccountOf(xs[i]).Ok? <==> V1AccountOf(ys[i]).Ok? && StrictAccount(xs[i])
        ensures V2AccountOf(xs[i]).Ok? ==> V2AccountOf(xs[i]) == V1AccountOf(ys[i])
      {
        AccountRefines(xs[i]);
      }
      if Traverse(V2AccountOf, xs).Ok? {
        TraverseIs(V1AccountOf, ys, Traverse(V2AccountOf, xs).value);
      }
    }
  }

  /** Every v1 payload is a renamed v2 payload, so the refinement also reads from v1 to v2. */
  lemma RenameCoversV1(payload: CoreV1Response)
    ensures exists q: CoreV2Response :: Rename(q) == payload
  {
    var q := V2Form(payload);
    assert Rename(q) == payload by {
      if payload.accounts.Some? {
        var xs := payload.accounts.value;
        forall i | 0 <= i < |xs|
          ensures RenameAccounts(V2FormAccounts(xs))[i] == xs[i]
        {
          V2FormAccountInverts(xs[i]);
        }
        assert RenameAccounts(V2FormAccounts(xs)) == xs;
      }
    }
  }

  function V2FormAccount(item: CoreV1Account): CoreV2Portfolio {
    CoreV2Portfolio(
      item.accountID, item.accountType,
      if item.cashBalance.Some?
      then Some(CoreV2Balances(Some(CoreV2Money(item.cashBalance.value.amountMinor, item.cashBalance.value.currency))))
      else None,
      if item.positions.Some? then
        var ps := item.positions.value;
        Some(seq(|ps|, i requires 0 <= i < |ps| => CoreV2Asset(ps[i].symbol, ps[i].quantity)))
      else None)
  }

  function V2FormAccounts(xs: seq<CoreV1Account>): (r: seq<CoreV2Portfolio>)
    ensures |r| == |xs| && forall i :: 0 <= i < |xs| ==> r[i] == V2FormAccount(xs[i])
  {
    seq(|xs|, i requires 0 <= i < |xs| => V2FormAccount(xs[i]))
  }

  function V2Form(payload: CoreV1Response): CoreV2Response {
    CoreV2Response(
      Some(CoreV2Client(payload.customerID)),
      if payload.accounts.Some? then Some(V2FormAccounts(payload.accounts.value)) else None)
  }

  lemma V2FormAccountInverts(item: CoreV1Account)
    ensures RenameAccount(V2FormAccount(item)) == item
  {
    if item.positions.Some? {
      assert RenameAssets(V2FormAccount(item).assets.value) == item.positions.value;
    }
  }

  // ---------- Wire round trips ----------

  function RenderV2Asset(p: Position): CoreV2Asset {
    CoreV2Asset(Some(p.symbol), Some(QuantityText(p.quantity)))
  }

  function RenderV2Account(a: Account): CoreV2Portfolio {
    CoreV2Portfolio(
      Some(a.id), Some(a.kind),
      Some(CoreV2Balances(Some(CoreV2Money(Some(a.cash.minor), Some(a.cash.currency))))),
      Some(seq(|a.positions|, i requires 0 <= i < |a.positions| => RenderV2Asset(a.positions[i]))))
  }

  function RenderV2(accounts: seq<Account>, customerID: string): CoreV2Response {
    CoreV2Response(
      Some(CoreV2Client(Some(customerID))),
      Some(seq(|accounts|, i requires 0 <= i < |accounts| => RenderV2Account(accounts[i]))))
  }

  /** The v1 rendering has the same members under v1 names. */
  function RenderV1(accounts: seq<Account>, customerID: string): CoreV1Response {
    Rename(RenderV2(accounts, customerID))
  }

  predicate Carried(p: Position) {
    p.symbol != "" && p.quantity.millionths >= 0
  }

  predicate CarriedPositions(ps: seq<Position>) {
    forall i :: 0 <= i < |ps| ==> Carried(ps[i])
  }

  predicate CarriedByV1(a: Account) {
    a.id != "" && a.kind != "" && NormalCurrency(a.cash.currency) && CarriedPositions(a.positions)
  }

  predicate CarriedByV2(a: Account) {
    a.id != "" && KnownCategory(a.kind) && ThreeCapitals(a.cash.currency) && CarriedPositions(a.positions)
  }

  lemma PositionCarried(p: Position)
    ensures V2PositionOf(RenderV2Asset(p)) == Ok(p) <==> Carried(p)
    ensures V1PositionOf(RenameAsset(RenderV2Asset(p))) == Ok(p) <==> Carried(p)
  {
    QuantityRoundTrip(p.quantity);
  }

  lemma PositionsCarried(a: Account)
    ensures var xs := RenderV2Account(a).assets.value;
            && (Traverse(V2PositionOf, xs) == Ok(a.positions) <==> CarriedPositions(a.positions))
            && (Traverse(V1PositionOf, RenameAssets(xs)) == Ok(a.positions) <==> CarriedPositions(a.positions))
  {
    var xs := RenderV2Account(a).assets.value;
    var ys := RenameAssets(xs);
    TraverseAll(V2PositionOf, xs);
    TraverseAll(V1PositionOf, ys);
    forall i | 0 <= i < |xs|
      ensures V2PositionOf(xs[i]) == Ok(a.positions[i]) <==> Carried(a.positions[i])
      ensures V1PositionOf(ys[i]) == Ok(a.positions[i]) <==> Carried(a.positions[i])
    {
      PositionCarried(a.positions[i]);
    }
    if CarriedPositions(a.positions) {
      TraverseIs(V2PositionOf, xs, a.positions);
      TraverseIs(V1PositionOf, ys, a.positions);
    }
  }

  lemma CashCarried(cash: Money)
    ensures CoreParseMoney(Some(cash.minor), Some(cash.currency), false) == Ok(cash) <==> NormalCurrency(cash.currency)
    ensures CoreParseMoney(Some(cash.minor), Some(cash.currency), true) == Ok(cash) <==> ThreeCapitals(cash.currency)
  {
    CapitalsAre(cash.currency);
    NewMoneyFixes(cash.minor, cash.currency);
    if IsCurrencyCode(cash.currency) {
      CurrencyCodeIsNormal(cash.minor, cash.currency);
    }
  }

  lemma AccountCarriedByV1(a: Account)
    ensures V1AccountOf(RenameAccount(RenderV2Account(a))) == Ok(a) <==> CarriedByV1(a)
  {
    PositionsCarried(a);
    CashCarried(a.cash);
  }

  lemma AccountCarriedByV2(a: Account)
    ensures V2AccountOf(RenderV2Account(a)) == Ok(a) <==> CarriedByV2(a)
  {
    PositionsCarried(a);
    CashCarried(a.cash);
  }

  predicate AllCarriedByV1(accounts: seq<Account>) {
    forall i :: 0 <= i < |accounts| ==> CarriedByV1(accounts[i])
  }

  predicate AllCarriedByV2(accounts: seq<Account>) {
    forall i :: 0 <= i < |accounts| ==> CarriedByV2(accounts[i])
  }

  /** Rendering accounts as v1 and mapping them back returns exactly the accounts v1 can carry. */
  lemma V1WireRoundTrip(accounts: seq<Account>, customerID: string)
    ensures V1AccountsOf(RenderV1(accounts, customerID), customerID) == Ok(accounts) <==> AllCarriedByV1(accounts)
  {
    var ys := RenderV1(accounts, customerID).accounts.value;
    TraverseAll(V1AccountOf, ys);
    forall i | 0 <= i < |accounts|
      ensures V1AccountOf(ys[i]) == Ok(accounts[i]) <==> CarriedByV1(accounts[i])
    {
      AccountCarriedByV1(accounts[i]);
    }
    if AllCarriedByV1(accounts) {
      TraverseIs(V1AccountOf, ys, accounts);
    }
  }

  /** Rendering accounts as v2 and mapping them back returns exactly the accounts v2 can carry. */
  lemma V2WireRoundTrip(accounts: seq<Account>, customerID: string)
    ensures V2AccountsOf(RenderV2(accounts, customerID), customerID) == Ok(accounts) <==> AllCarriedByV2(accounts)
  {
    var xs := RenderV2(accounts, customerID).portfolios.value;
    TraverseAll(V2AccountOf, xs);
    forall i | 0 <= i < |accounts|
      ensures V2AccountOf(xs[i]) == Ok(accounts[i]) <==> CarriedByV2(accounts[i])
    {
      AccountCarriedByV2(accounts[i]);
    }
    if AllCarriedByV2(accounts) {
      TraverseIs(V2AccountOf, xs, accounts);
    }
  }
}
