/** The portfolio service: distinct symbols, valuation and totals. */
module Aggregation {
  import opened GoInt64
  import opened Decimal
  import opened Errors
  import opened Traversal
  import opened Money
  import opened Sorting
  import opened Sums

  // ---------- Distinct symbols ----------

  function AllPositions(accounts: seq<Account>): seq<Position> {
    if accounts == [] then []
    else AllPositions(accounts[..|accounts| - 1]) + accounts[|accounts| - 1].positions
  }

  function SymbolsIn(ps: seq<Position>): set<string> {
    set p | p in ps :: p.symbol
  }

  /** Some account holds a position in the symbol. */
  predicate Held(accounts: seq<Account>, symbol: string) {
    exists i, j :: 0 <= i < |accounts| && 0 <= j < |accounts[i].positions| && accounts[i].positions[j].symbol == symbol
  }

  lemma {:induction false} PositionsOfAccounts(accounts: seq<Account>, symbol: string)
    ensures symbol in SymbolsIn(AllPositions(accounts)) <==> Held(accounts, symbol)
  {
    if accounts != [] {
      var head, last := accounts[..|accounts| - 1], accounts[|accounts| - 1];
      PositionsOfAccounts(head, symbol);
      HeldExtends(accounts, symbol);
      assert forall p :: p in AllPositions(accounts) <==> p in AllPositions(head) || p in last.positions;
    }
  }

  lemma HeldExtends(accounts: seq<Account>, symbol: string)
    requires accounts != []
    ensures var head, last := accounts[..|accounts| - 1], accounts[|accounts| - 1];
            Held(accounts, symbol)
            <==> Held(head, symbol) || exists j :: 0 <= j < |last.positions| && last.positions[j].symbol == symbol
  {
    var head, last := accounts[..|accounts| - 1], accounts[|accounts| - 1];
    if Held(head, symbol) {
      var i, j :| 0 <= i < |head| && 0 <= j < |head[i].positions| && head[i].positions[j].symbol == symbol;
      assert accounts[i].positions[j].symbol == symbol;
    }
    if j :| 0 <= j < |last.positions| && last.positions[j].symbol == symbol {
      assert accounts[|accounts| - 1].positions[j].symbol == symbol;
    }
    if Held(accounts, symbol) {
      var i, j :| 0 <= i < |accounts| && 0 <= j < |accounts[i].positions| && accounts[i].positions[j].symbol == symbol;
      assert i < |head| ==> head[i].positions[j].symbol == symbol;
    }
  }

  /** The list is in dictionary order, and has just the symbols that some account holds. */
  lemma SymbolsListed(accounts: seq<Account>)
    ensures var symbols := Listing(SymbolsIn(AllPositions(accounts)));
            InDictionaryOrder(symbols) && forall s :: s in symbols <==> Held(accounts, s)
  {
    var symbols := Listing(SymbolsIn(AllPositions(accounts)));
    AscendingIsDictionaryOrder(symbols);
    forall s
      ensures s in symbols <==> Held(accounts, s)
    {
      assert s in symbols <==> s in Elements(symbols);
      PositionsOfAccounts(accounts, s);
    }
  }

  /** The sorted list of the symbols of all positions, whatever order the Go map yields them in. */
  method UniqueSymbols(accounts: seq<Account>) returns (symbols: seq<string>)
    ensures symbols == Listing(SymbolsIn(AllPositions(accounts)))
    ensures InDictionaryOrder(symbols) && forall s :: s in symbols <==> Held(accounts, s)
  {
    var seen: set<string> := {};
    for i := 0 to |accounts|
      invariant seen == SymbolsIn(AllPositions(accounts[..i]))
    {
      var ps := accounts[i].positions;
      for j := 0 to |ps|
        invariant seen == SymbolsIn(AllPositions(accounts[..i]) + ps[..j])
      {
        assert ps[..j + 1] == ps[..j] + [ps[j]];
        SymbolsAppend(AllPositions(accounts[..i]) + ps[..j], ps[j]);
        assert AllPositions(accounts[..i]) + ps[..j + 1] == AllPositions(accounts[..i]) + ps[..j] + [ps[j]];
        seen := seen + {ps[j].symbol};
      }
      assert ps[..|ps|] == ps;
      assert accounts[..i + 1][..i] == accounts[..i];
    }
    assert accounts[..|accounts|] == accounts;
    symbols := SortedKeys(seen);
    SymbolsListed(accounts);
  }

  lemma SymbolsAppend(ps: seq<Position>, p: Position)
    ensures SymbolsIn(ps + [p]) == SymbolsIn(ps) + {p.symbol}
  {
    var qs := ps + [p];
    assert forall q :: q in qs <==> q in ps || q == p;
    assert p in qs;
    forall s | s in SymbolsIn(ps)
      ensures s in SymbolsIn(qs)
    {
      var q :| q in ps && q.symbol == s;
      assert q in qs;
    }
  }

  // ---------- Valuation and totals ----------

  type Prices = map<string, Price>

  /** Values one position inside an account of the given currency, or says why it cannot. */
  function HoldingOf(currency: string, prices: Prices, p: Position): Result<Holding> {
    if p.symbol !in prices then Err(Wrapped(ErrPriceUnavailable))
    else
      match MarketValue(p.quantity, prices[p.symbol].value)
      case Err(e) => Err(Wrapped(e))
      case Ok(value) =>
        if value.currency != currency then Err(Wrapped(Wrapped(ErrCurrencyMismatch)))
        else Ok(Holding(p.symbol, p.quantity, prices[p.symbol].value, value))
  }

  function Valuer(currency: string, prices: Prices): Position -> Result<Holding> {
    p => HoldingOf(currency, prices, p)
  }

  function HoldingMinor(h: Holding): int {
    h.marketValue.minor
  }

  /** Cash plus holding values, as one wrapped sum in the currency of the cash. */
  function AccountValue(cash: Money, holdings: seq<Holding>): Money {
    Money(Wrap64(cash.minor + Sum(HoldingMinor, holdings)), cash.currency)
  }

  /** One account: its holdings in source order, and its value. */
  function AccountPortfolioOf(prices: Prices, a: Account): Result<AccountPortfolio> {
    match Traverse(Valuer(a.cash.currency, prices), a.positions)
    case Err(e) => Err(e)
    case Ok(holdings) =>
      Ok(AccountPortfolio(a.id, a.kind, a.cash, AccountValue(a.cash, holdings), holdings))
  }

  datatype Accumulated = Accumulated(accounts: seq<AccountPortfolio>, total: Money)

  /** An empty currency stands for "no total yet". */
  function AddToTotal(total: Money, value: Money): Result<Money> {
    if total.currency == "" then Ok(value) else Add(total, value)
  }

  function Accumulate(prices: Prices, accounts: seq<Account>): Result<Accumulated> {
    if accounts == [] then Ok(Accumulated([], Money(0, "")))
    else
      match Accumulate(prices, accounts[..|accounts| - 1])
      case Err(e) => Err(e)
      case Ok(sofar) =>
        match AccountPortfolioOf(prices, accounts[|accounts| - 1])
        case Err(e) => Err(e)
        case Ok(account) =>
          match AddToTotal(sofar.total, account.marketValue)
          case Err(e) => Err(Wrapped(e))
          case Ok(total) => Ok(Accumulated(sofar.accounts + [account], total))
  }

  /** The latest of `start` and the instants of the prices used. */
  function Latest(prices: Prices, start: int, ps: seq<Position>): int {
    if ps == [] then start
    else
      var before := Latest(prices, start, ps[..|ps| - 1]);
      var symbol := ps[|ps| - 1].symbol;
      if symbol in prices && prices[symbol].asOf > before then prices[symbol].asOf else before
  }

  /** The portfolio of some accounts at some prices, as of the latest price used or the zero instant. */
  function PortfolioOf(customerID: string, accounts: seq<Account>, prices: Prices): Result<Portfolio> {
    match Accumulate(prices, accounts)
    case Err(e) => Err(e)
    case Ok(acc) => Ok(Portfolio(customerID, Latest(prices, 0, AllPositions(accounts)), acc.total, acc.accounts))
  }

  /** The aggregation loop of `Service.Get`. */
  method Aggregate(customerID: string, accounts: seq<Account>, prices: Prices) returns (r: Result<Portfolio>)
    ensures r == PortfolioOf(customerID, accounts, prices)
  {
    var asOf := 0;
    var total := Money(0, "");
    var result := [];
    for i := 0 to |accounts|
      invariant Accumulate(prices, accounts[..i]) == Ok(Accumulated(result, total))
      invariant asOf == Latest(prices, 0, AllPositions(accounts[..i]))
    {
      AccumulateStep(prices, accounts, i, Accumulated(result, total));
      LatestConcat(prices, 0, AllPositions(accounts[..i]), accounts[i].positions);
      assert accounts[..i + 1][..i] == accounts[..i];

      var valued, latest := ValueAccount(accounts[i], prices, asOf);
      if valued.Err? {
        return Err(valued.error);
      }
      var accountPortfolio := valued.value;
      asOf := latest;
      if total.currency == "" {
        total := accountPortfolio.marketValue;
      } else {
        var sum := Add(total, accountPortfolio.marketValue);
        if sum.Err? {
          return Err(Wrapped(sum.error));
        }
        total := sum.value;
      }
      result := result + [accountPortfolio];
    }
    assert accounts[..|accounts|] == accounts;
    return Ok(Portfolio(customerID, asOf, total, result));
  }

  /** The position loop of `Service.Get`, inside one account. */
  method ValueAccount(account: Account, prices: Prices, start: int) returns (r: Result<AccountPortfolio>, asOf: int)
    ensures r == AccountPortfolioOf(prices, account)
    ensures r.Ok? ==> asOf == Latest(prices, start, account.positions)
  {
    asOf := start;
    var ps := account.positions;
    var accountValue := account.cash;
    var holdings: seq<Holding> := [];
    for j := 0 to |ps|
      invariant Traverse(Valuer(account.cash.currency, prices), ps[..j]) == Ok(holdings)
      invariant accountValue == AccountValue(account.cash, holdings)
      invariant asOf == Latest(prices, start, ps[..j])
    {
      var position := ps[j];
      HoldingsStep(prices, account, j, holdings);
      LatestExtend(prices, start, ps, j);
      if position.symbol !in prices {
        return Err(Wrapped(ErrPriceUnavailable)), asOf;
      }
      var price := prices[position.symbol];
      var value := MarketValue(position.quantity, price.value);
      if value.Err? {
        return Err(Wrapped(value.error)), asOf;
      }
      var sum := Add(accountValue, value.value);
      if sum.Err? {
        return Err(Wrapped(sum.error)), asOf;
      }
      accountValue := sum.value;
      if price.asOf > asOf {
        asOf := price.asOf;
      }
      holdings := holdings + [Holding(position.symbol, position.quantity, price.value, value.value)];
    }
    assert ps[..|ps|] == ps;
    return Ok(AccountPortfolio(account.id, account.kind, account.cash, accountValue, holdings)), asOf;
  }

  /** One more position: its holding joins the list and the wrapped sum, or its failure is the account's. */
  lemma HoldingsStep(prices: Prices, a: Account, j: nat, holdings: seq<Holding>)
    requires j < |a.positions| && Traverse(Valuer(a.cash.currency, prices), a.positions[..j]) == Ok(holdings)
    ensures var h := HoldingOf(a.cash.currency, prices, a.positions[j]);
            h.Err? ==> AccountPortfolioOf(prices, a) == Err(h.error)
    ensures var h := HoldingOf(a.cash.currency, prices, a.positions[j]);
            h.Ok? ==> Traverse(Valuer(a.cash.currency, prices), a.positions[..j + 1]) == Ok(holdings + [h.value])
    ensures var h := HoldingOf(a.cash.currency, prices, a.positions[j]);
            h.Ok? ==>
              Add(AccountValue(a.cash, holdings), h.value.marketValue)
              == Ok(AccountValue(a.cash, holdings + [h.value]))
  {
    var valuer := Valuer(a.cash.currency, prices);
    TraverseStep(valuer, a.positions, j, holdings);
    var h := HoldingOf(a.cash.currency, prices, a.positions[j]);
    assert valuer(a.positions[j]) == h;
    if h.Ok? {
      ValueExtends(a.cash, holdings, h.value);
    }
  }

  lemma ValueExtends(cash: Money, holdings: seq<Holding>, h: Holding)
    requires h.marketValue.currency == cash.currency
    ensures Add(AccountValue(cash, holdings), h.marketValue) == Ok(AccountValue(cash, holdings + [h]))
  {
    SumSnoc(HoldingMinor, holdings, h);
    WrapAdd(cash.minor + Sum(HoldingMinor, holdings), h.marketValue.minor);
  }

  lemma LatestExtend(prices: Prices, start: int, ps: seq<Position>, j: nat)
    requires j < |ps|
    ensures var before := Latest(prices, start, ps[..j]);
            Latest(prices, start, ps[..j + 1])
            == if ps[j].symbol in prices && prices[ps[j].symbol].asOf > before
               then prices[ps[j].symbol].asOf else before
  {
    assert ps[..j + 1][..j] == ps[..j];
  }

  lemma {:induction false} LatestConcat(prices: Prices, start: int, ps: seq<Position>, qs: seq<Position>)
    ensures Latest(prices, start, ps + qs) == Latest(prices, Latest(prices, start, ps), qs)
  {
    if qs == [] {
      assert ps + qs == ps;
    } else {
      var all := ps + qs;
      assert all[..|all| - 1] == ps + qs[..|qs| - 1];
      LatestConcat(prices, start, ps, qs[..|qs| - 1]);
    }
  }

  lemma {:induction false} AccumulateStops(prices: Prices, accounts: seq<Account>, n: nat)
    requires n <= |accounts| && Accumulate(prices, accounts[..n]).Err?
    ensures Accumulate(prices, accounts) == Accumulate(prices, accounts[..n])
    decreases |accounts| - n
  {
    if n == |accounts| {
      assert accounts[..n] == accounts;
    } else {
      assert accounts[..n + 1][..n] == accounts[..n];
      AccumulateStops(prices, accounts, n + 1);
    }
  }

  /** One more account: what it adds, or the failure that ends the whole. */
  lemma AccumulateStep(prices: Prices, accounts: seq<Account>, n: nat, sofar: Accumulated)
    requires n < |accounts| && Accumulate(prices, accounts[..n]) == Ok(sofar)
    ensures match AccountPortfolioOf(prices, accounts[n])
            case Err(e) => Accumulate(prices, accounts) == Err(e)
            case Ok(account) =>
              match AddToTotal(sofar.total, account.marketValue)
              case Err(e) => Accumulate(prices, accounts) == Err(Wrapped(e))
              case Ok(total) =>
                Accumulate(prices, accounts[..n + 1]) == Ok(Accumulated(sofar.accounts + [account], total))
  {
    assert accounts[..n + 1][..n] == accounts[..n];
    if Accumulate(prices, accounts[..n + 1]).Err? {
      AccumulateStops(prices, accounts, n + 1);
    }
  }
}
