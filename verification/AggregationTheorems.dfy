/** What aggregation promises: when it succeeds, what it totals, and what cannot change the result. */
module AggregationTheorems {
  import opened GoInt64
  import opened Decimal
  import opened Errors
  import opened Traversal
  import opened Money
  import opened Sums
  import opened Aggregation

  // ---------- Exact, unwrapped values ----------

  function CashMinor(a: Account): int {
    a.cash.minor
  }

  function ValueAt(prices: Prices, p: Position): int {
    if p.symbol in prices then Valuation(p.quantity, prices[p.symbol].value) else 0
  }

  function Values(prices: Prices): Position -> int {
    p => ValueAt(prices, p)
  }

  /** Cash plus the values of an account's positions, as a mathematical integer. */
  function AccountExact(prices: Prices, a: Account): int {
    a.cash.minor + Sum(Values(prices), a.positions)
  }

  function AccountExacts(prices: Prices): Account -> int {
    a => AccountExact(prices, a)
  }

  /** All cash plus the values of all positions. */
  function ExactTotal(prices: Prices, accounts: seq<Account>): int {
    Sum(CashMinor, accounts) + Sum(Values(prices), AllPositions(accounts))
  }

  lemma {:induction false} ExactTotalByAccount(prices: Prices, accounts: seq<Account>)
    ensures Sum(AccountExacts(prices), accounts) == ExactTotal(prices, accounts)
  {
    if accounts != [] {
      var head, last := accounts[..|accounts| - 1], accounts[|accounts| - 1];
      ExactTotalByAccount(prices, head);
      SumConcat(Values(prices), AllPositions(head), last.positions);
      assert AccountExacts(prices)(last) == AccountExact(prices, last);
    }
  }

  // ---------- One account ----------

  /** The position has a price in the given currency and an exact value in minor units. */
  predicate Sound(prices: Prices, currency: string, p: Position) {
    && p.symbol in prices
    && prices[p.symbol].value.currency == currency
    && MarketValue(p.quantity, prices[p.symbol].value).Ok?
  }

  predicate AllSound(prices: Prices, currency: string, ps: seq<Position>) {
    forall i :: 0 <= i < |ps| ==> Sound(prices, currency, ps[i])
  }

  function SoundHolding(prices: Prices, p: Position): Holding
    requires p.symbol in prices
  {
    var price := prices[p.symbol].value;
    Holding(p.symbol, p.quantity, price, Money(ValueAt(prices, p), price.currency))
  }

  /** Valuing positions in a currency succeeds exactly when all are sound; one holding each, in order. */
  lemma HoldingsValued(prices: Prices, currency: string, ps: seq<Position>)
    ensures Traverse(Valuer(currency, prices), ps).Ok? <==> AllSound(prices, currency, ps)
    ensures Traverse(Valuer(currency, prices), ps).Ok? ==>
              var holdings := Traverse(Valuer(currency, prices), ps).value;
              && |holdings| == |ps|
              && forall i :: 0 <= i < |ps| ==>
                   ps[i].symbol in prices && holdings[i] == SoundHolding(prices, ps[i])
  {
    var valuer := Valuer(currency, prices);
    TraverseAll(valuer, ps);
    forall i | 0 <= i < |ps|
      ensures valuer(ps[i]).Ok? <==> Sound(prices, currency, ps[i])
      ensures valuer(ps[i]).Ok? ==> valuer(ps[i]).value == SoundHolding(prices, ps[i])
    {
      assert valuer(ps[i]) == HoldingOf(currency, prices, ps[i]);
    }
  }

  lemma HoldingsSum(prices: Prices, currency: string, ps: seq<Position>)
    requires Traverse(Valuer(currency, prices), ps).Ok?
    ensures Sum(HoldingMinor, Traverse(Valuer(currency, prices), ps).value) == Sum(Values(prices), ps)
  {
    HoldingsValued(prices, currency, ps);
    var holdings := Traverse(Valuer(currency, prices), ps).value;
    forall i | 0 <= i < |ps|
      ensures HoldingMinor(holdings[i]) == Values(prices)(ps[i])
    {
      assert holdings[i] == SoundHolding(prices, ps[i]);
    }
    SumPointwise(HoldingMinor, holdings, Values(prices), ps);
  }

  /** An account is valued exactly when its positions are sound, at its wrapped exact sum. */
  lemma AccountValued(prices: Prices, a: Account)
    ensures AccountPortfolioOf(prices, a).Ok? <==> AllSound(prices, a.cash.currency, a.positions)
    ensures AccountPortfolioOf(prices, a).Ok? ==>
              var r := AccountPortfolioOf(prices, a).value;
              && r.id == a.id && r.kind == a.kind && r.cash == a.cash
              && r.marketValue == Money(Wrap64(AccountExact(prices, a)), a.cash.currency)
              && Sum(HoldingMinor, r.holdings) == Sum(Values(prices), a.positions)
              && |r.holdings| == |a.positions|
              && forall i :: 0 <= i < |a.positions| ==>
                   a.positions[i].symbol in prices && r.holdings[i] == SoundHolding(prices, a.positions[i])
  {
    HoldingsValued(prices, a.cash.currency, a.positions);
    if AccountPortfolioOf(prices, a).Ok? {
      HoldingsSum(prices, a.cash.currency, a.positions);
    }
  }

  function Product(prices: Prices, p: Position): int {
    if p.symbol in prices then ExactProduct(p.quantity, prices[p.symbol].value) else 0
  }

  function Products(prices: Prices): Position -> int {
    p => Product(prices, p)
  }

  /**
   When no product leaves int64, the account's gain over its cash, in millionths of minor units,
   is the sum of quantity times price, exactly when the account's own sum fits.
   */
  lemma AccountGainExact(prices: Prices, a: Account)
    requires AccountPortfolioOf(prices, a).Ok?
    requires forall i :: 0 <= i < |a.positions| ==> InInt64(Product(prices, a.positions[i]))
    ensures (AccountPortfolioOf(prices, a).value.marketValue.minor - a.cash.minor) * MILLION
              == Sum(Products(prices), a.positions)
       <==> InInt64(AccountExact(prices, a))
  {
    AccountValued(prices, a);
    forall i | 0 <= i < |a.positions|
      ensures Values(prices)(a.positions[i]) * MILLION == Products(prices)(a.positions[i])
    {
      assert Sound(prices, a.cash.currency, a.positions[i]);
    }
    SumScaled(Values(prices), Products(prices), a.positions, MILLION);
  }

  // ---------- Failures ----------

  /** Why a position has no value: no price, a fraction of a minor unit, or another currency, in that order. */
  predicate FailsAs(prices: Prices, currency: string, p: Position, e: Error) {
    if p.symbol !in prices then Is(e, ErrPriceUnavailable) && !Is(e, ErrFractionalMinor) && !Is(e, ErrCurrencyMismatch)
    else if GoMod(Wrap64(ExactProduct(p.quantity, prices[p.symbol].value)), MILLION) != 0 then
      Is(e, ErrFractionalMinor) && !Is(e, ErrPriceUnavailable) && !Is(e, ErrCurrencyMismatch)
    else
      && prices[p.symbol].value.currency != currency
      && Is(e, ErrCurrencyMismatch) && !Is(e, ErrPriceUnavailable) && !Is(e, ErrFractionalMinor)
  }

  lemma HoldingFails(prices: Prices, currency: string, p: Position)
    ensures HoldingOf(currency, prices, p).Ok? <==> Sound(prices, currency, p)
    ensures HoldingOf(currency, prices, p).Err? ==> FailsAs(prices, currency, p, HoldingOf(currency, prices, p).error)
  {
  }

  /** A failed account reports its first unsound position, by class. */
  lemma AccountFails(prices: Prices, a: Account) returns (n: nat)
    requires AccountPortfolioOf(prices, a).Err?
    ensures n < |a.positions|
    ensures !Sound(prices, a.cash.currency, a.positions[n])
    ensures forall j :: 0 <= j < n ==> Sound(prices, a.cash.currency, a.positions[j])
    ensures FailsAs(prices, a.cash.currency, a.positions[n], AccountPortfolioOf(prices, a).error)
  {
    var valuer := Valuer(a.cash.currency, prices);
    n := TraverseFirst(valuer, a.positions);
    assert forall j :: 0 <= j <= n ==> valuer(a.positions[j]) == HoldingOf(a.cash.currency, prices, a.positions[j]);
    forall j | 0 <= j <= n
      ensures HoldingOf(a.cash.currency, prices, a.positions[j]).Ok? <==> Sound(prices, a.cash.currency, a.positions[j])
    {
      HoldingFails(prices, a.cash.currency, a.positions[j]);
    }
    HoldingFails(prices, a.cash.currency, a.positions[n]);
  }

  // ---------- All accounts ----------

  /** Once an account names a currency, every later account has it. */
  predicate Consistent(accounts: seq<Account>) {
    forall i, j :: 0 <= i < j < |accounts| && accounts[i].cash.currency != "" ==>
      accounts[j].cash.currency == accounts[i].cash.currency
  }

  predicate Unnamed(accounts: seq<Account>) {
    forall i :: 0 <= i < |accounts| ==> accounts[i].cash.currency == ""
  }

  /** The accounts that the total counts: an account after only unnamed currencies starts it afresh. */
  function Counted(accounts: seq<Account>): seq<Account> {
    if accounts == [] then []
    else
      var head, last := accounts[..|accounts| - 1], accounts[|accounts| - 1];
      (if Unnamed(head) then [] else Counted(head)) + [last]
  }

  /** Each account portfolio is its own account's, in source order. */
  lemma {:induction false} AccumulatePointwise(prices: Prices, accounts: seq<Account>)
    requires Accumulate(prices, accounts).Ok?
    ensures var acc := Accumulate(prices, accounts).value.accounts;
            && |acc| == |accounts|
            && forall i :: 0 <= i < |accounts| ==> AccountPortfolioOf(prices, accounts[i]) == Ok(acc[i])
  {
    if accounts != [] {
      AccumulatePointwise(prices, accounts[..|accounts| - 1]);
    }
  }

  predicate AllValued(prices: Prices, accounts: seq<Account>) {
    forall i :: 0 <= i < |accounts| ==> AccountPortfolioOf(prices, accounts[i]).Ok?
  }

  lemma AllValuedExtends(prices: Prices, accounts: seq<Account>)
    requires accounts != []
    ensures AllValued(prices, accounts) <==>
              && AllValued(prices, accounts[..|accounts| - 1])
              && AccountPortfolioOf(prices, accounts[|accounts| - 1]).Ok?
  {
    var head := accounts[..|accounts| - 1];
    assert forall i :: 0 <= i < |head| ==> head[i] == accounts[i];
  }

  /** The aggregation loop succeeds exactly on consistent currencies and valued accounts. */
  lemma {:induction false} AccumulateSucceedsIff(prices: Prices, accounts: seq<Account>)
    ensures Accumulate(prices, accounts).Ok? <==> Consistent(accounts) && AllValued(prices, accounts)
  {
    if accounts != [] {
      var head, last := accounts[..|accounts| - 1], accounts[|accounts| - 1];
      AccumulateSucceedsIff(prices, head);
      if Accumulate(prices, head).Ok? {
        AccumulateTotalCurrency(prices, head);
      }
      AccountCurrency(prices, last);
      ConsistentExtends(accounts);
      AllValuedExtends(prices, accounts);
    }
  }

  lemma AccountCurrency(prices: Prices, a: Account)
    ensures AccountPortfolioOf(prices, a).Ok? ==>
              AccountPortfolioOf(prices, a).value.marketValue.currency == a.cash.currency
  {
  }

  lemma AccumulateTotalCurrency(prices: Prices, accounts: seq<Account>)
    requires Accumulate(prices, accounts).Ok?
    ensures Accumulate(prices, accounts).value.total.currency
         == if accounts == [] then "" else accounts[|accounts| - 1].cash.currency
  {
    if accounts != [] {
      AccountCurrency(prices, accounts[|accounts| - 1]);
    }
  }

  /** The exact sum of the accounts that the total counts. */
  function CountedExact(prices: Prices, accounts: seq<Account>): int {
    Sum(AccountExacts(prices), Counted(accounts))
  }

  /** What of an earlier sum `s` is kept when the last account joins, plus that account. */
  function Joined(prices: Prices, accounts: seq<Account>, s: int): int
    requires accounts != []
  {
    (if Unnamed(accounts[..|accounts| - 1]) then 0 else s) + AccountExact(prices, accounts[|accounts| - 1])
  }

  /** The total is the wrapped exact sum of the counted accounts. */
  lemma {:induction false} AccumulateTotal(prices: Prices, accounts: seq<Account>)
    requires Accumulate(prices, accounts).Ok?
    ensures Accumulate(prices, accounts).value.total.minor == Wrap64(CountedExact(prices, accounts))
  {
    if accounts == [] {
      assert CountedExact(prices, accounts) == 0;
    } else {
      var head := accounts[..|accounts| - 1];
      AccumulateTotal(prices, head);
      TotalJoins(prices, accounts, CountedExact(prices, head));
      CountedJoins(prices, accounts);
    }
  }

  lemma TotalJoins(prices: Prices, accounts: seq<Account>, s: int)
    requires accounts != [] && Accumulate(prices, accounts).Ok?
    requires Accumulate(prices, accounts[..|accounts| - 1]).value.total.minor == Wrap64(s)
    ensures Accumulate(prices, accounts).value.total.minor == Wrap64(Joined(prices, accounts, s))
  {
    var head, last := accounts[..|accounts| - 1], accounts[|accounts| - 1];
    AccountMinor(prices, last);
    UnnamedHead(prices, accounts);
    var t, v := Accumulate(prices, head).value.total, AccountPortfolioOf(prices, last).value.marketValue;
    assert Accumulate(prices, accounts).value.total == AddToTotal(t, v).value;
    AddedMinor(t, v, s, AccountExact(prices, last));
  }

  lemma AddedMinor(total: Money, value: Money, s: int, e: int)
    requires total.minor == Wrap64(s) && value.minor == Wrap64(e)
    requires AddToTotal(total, value).Ok?
    ensures AddToTotal(total, value).value.minor == Wrap64((if total.currency == "" then 0 else s) + e)
  {
    WrapBoth(s, e);
  }

  lemma AccountMinor(prices: Prices, a: Account)
    requires AccountPortfolioOf(prices, a).Ok?
    ensures AccountPortfolioOf(prices, a).value.marketValue.minor == Wrap64(AccountExact(prices, a))
  {
    AccountValued(prices, a);
  }

  lemma UnnamedHead(prices: Prices, accounts: seq<Account>)
    requires accounts != [] && Accumulate(prices, accounts).Ok?
    ensures var head := accounts[..|accounts| - 1];
            Unnamed(head) <==> Accumulate(prices, head).value.total.currency == ""
  {
    AccumulateSucceedsIff(prices, accounts[..|accounts| - 1]);
    AccumulateTotalCurrency(prices, accounts[..|accounts| - 1]);
    ConsistentExtends(accounts);
  }

  /** What one more account adds to the exact sum of the counted ones. */
  lemma CountedJoins(prices: Prices, accounts: seq<Account>)
    requires accounts != []
    ensures CountedExact(prices, accounts)
         == Joined(prices, accounts, CountedExact(prices, accounts[..|accounts| - 1]))
  {
    var head, last := accounts[..|accounts| - 1], accounts[|accounts| - 1];
    SumSnoc(AccountExacts(prices), if Unnamed(head) then [] else Counted(head), last);
    assert AccountExacts(prices)(last) == AccountExact(prices, last);
  }

  lemma ConsistentExtends(accounts: seq<Account>)
    requires accounts != []
    ensures var head, last := accounts[..|accounts| - 1], accounts[|accounts| - 1];
            Consistent(accounts) <==>
              Consistent(head) &&
              (Unnamed(head) || head[|head| - 1].cash.currency == last.cash.currency)
    ensures var head := accounts[..|accounts| - 1];
            Consistent(head) ==> (Unnamed(head) <==> head == [] || head[|head| - 1].cash.currency == "")
  {
  }

  /** `Get` succeeds exactly on consistent currencies and sound positions. */
  lemma SucceedsIff(customerID: string, accounts: seq<Account>, prices: Prices)
    ensures PortfolioOf(customerID, accounts, prices).Ok? <==>
              && Consistent(accounts)
              && forall i :: 0 <= i < |accounts| ==>
                   AllSound(prices, accounts[i].cash.currency, accounts[i].positions)
  {
    AccumulateSucceedsIff(prices, accounts);
    forall i | 0 <= i < |accounts|
      ensures AccountPortfolioOf(prices, accounts[i]).Ok? <==>
                AllSound(prices, accounts[i].cash.currency, accounts[i].positions)
    {
      AccountValued(prices, accounts[i]);
    }
  }

  /** Why an account cannot join those before it: its own failure, or else a currency other than theirs. */
  predicate CannotJoin(prices: Prices, before: seq<Account>, a: Account, e: Error) {
    if AccountPortfolioOf(prices, a).Err? then AccountPortfolioOf(prices, a).error == e
    else Is(e, ErrCurrencyMismatch) && !Consistent(before + [a])
  }

  lemma LastFails(prices: Prices, accounts: seq<Account>)
    requires accounts != [] && Accumulate(prices, accounts[..|accounts| - 1]).Ok? && Accumulate(prices, accounts).Err?
    ensures CannotJoin(
              prices, accounts[..|accounts| - 1], accounts[|accounts| - 1], Accumulate(prices, accounts).error)
  {
    var head, last := accounts[..|accounts| - 1], accounts[|accounts| - 1];
    if AccountPortfolioOf(prices, last).Ok? {
      assert head + [last] == accounts;
      AccumulateSucceedsIff(prices, accounts);
      AccumulateSucceedsIff(prices, head);
      AllValuedExtends(prices, accounts);
    }
  }

  /** A failed aggregation reports the first account that cannot join those before it. */
  lemma {:induction false} AggregationFails(prices: Prices, accounts: seq<Account>) returns (n: nat)
    requires Accumulate(prices, accounts).Err?
    ensures n < |accounts| && Accumulate(prices, accounts[..n]).Ok?
    ensures CannotJoin(prices, accounts[..n], accounts[n], Accumulate(prices, accounts).error)
  {
    var head := accounts[..|accounts| - 1];
    if Accumulate(prices, head).Err? {
      n := AggregationFails(prices, head);
      assert head[..n] == accounts[..n];
    } else {
      n := |head|;
      LastFails(prices, accounts);
    }
  }

  lemma SnocCancel<T>(xs: seq<T>, ys: seq<T>, x: T)
    ensures xs + [x] == ys + [x] <==> xs == ys
  {
    if xs + [x] == ys + [x] {
      assert xs == (xs + [x])[..|xs|];
      assert ys == (ys + [x])[..|ys|];
    }
  }

  /** At most one account, or a first account that names its currency. */
  predicate CountsAll(accounts: seq<Account>) {
    |accounts| <= 1 || accounts[0].cash.currency != ""
  }

  lemma CountsAllExtended(accounts: seq<Account>)
    requires accounts != []
    ensures var head := accounts[..|accounts| - 1];
            CountsAll(accounts) <==> head == [] || (!Unnamed(head) && CountsAll(head))
  {
    var head := accounts[..|accounts| - 1];
    if head != [] {
      assert head[0] == accounts[0];
    }
  }

  /** A longer list is counted in full exactly when all before its last account is, and is kept. */
  lemma CountsExtended(accounts: seq<Account>)
    requires accounts != []
    ensures var head := accounts[..|accounts| - 1];
            Counted(accounts) == accounts <==> head == [] || (!Unnamed(head) && Counted(head) == head)
  {
    var head, last := accounts[..|accounts| - 1], accounts[|accounts| - 1];
    SnocCancel(if Unnamed(head) then [] else Counted(head), head, last);
    assert accounts == head + [last];
  }

  /** The total counts every account exactly when there is at most one or the first names its currency. */
  lemma {:induction false} CountsEveryAccountIff(accounts: seq<Account>)
    ensures Counted(accounts) == accounts <==> CountsAll(accounts)
  {
    if accounts != [] {
      CountsEveryAccountIff(accounts[..|accounts| - 1]);
      CountsExtended(accounts);
      CountsAllExtended(accounts);
    }
  }

  /**
   The portfolio total is the wrapped exact sum of all cash and position values, however the
   partial sums overflowed on the way; so it is exact exactly when the final sum fits.
   */
  lemma TotalIsWrappedExactSum(customerID: string, accounts: seq<Account>, prices: Prices)
    requires PortfolioOf(customerID, accounts, prices).Ok?
    requires accounts != [] && CountsAll(accounts)
    ensures var total := PortfolioOf(customerID, accounts, prices).value.totalMarketValue;
            && total == Money(Wrap64(ExactTotal(prices, accounts)), accounts[0].cash.currency)
            && (total.minor == ExactTotal(prices, accounts) <==> InInt64(ExactTotal(prices, accounts)))
  {
    AccumulateTotal(prices, accounts);
    AccumulateTotalCurrency(prices, accounts);
    AccumulateSucceedsIff(prices, accounts);
    CountsEveryAccountIff(accounts);
    ExactTotalByAccount(prices, accounts);
  }

  lemma TotalOf(customerID: string, accounts: seq<Account>, prices: Prices)
    requires PortfolioOf(customerID, accounts, prices).Ok? && CountsAll(accounts)
    ensures PortfolioOf(customerID, accounts, prices).value.totalMarketValue.minor
         == Wrap64(ExactTotal(prices, accounts))
  {
    if accounts != [] {
      TotalIsWrappedExactSum(customerID, accounts, prices);
    }
  }

  /**
   For any accounts at all, the total is the wrapped exact sum of all of them exactly when what
   the total does not count wraps to zero.
   */
  lemma TotalExactIff(customerID: string, accounts: seq<Account>, prices: Prices)
    requires PortfolioOf(customerID, accounts, prices).Ok?
    ensures PortfolioOf(customerID, accounts, prices).value.totalMarketValue.minor
              == Wrap64(ExactTotal(prices, accounts))
       <==> Wrap64(ExactTotal(prices, accounts) - CountedExact(prices, accounts)) == 0
  {
    AccumulateTotal(prices, accounts);
    WrapEqualIff(ExactTotal(prices, accounts), CountedExact(prices, accounts));
  }

  lemma SoundInFirst(customerID: string, accounts: seq<Account>, prices: Prices)
    requires PortfolioOf(customerID, accounts, prices).Ok?
    requires accounts != [] && CountsAll(accounts)
    ensures AllSound(prices, accounts[0].cash.currency, AllPositions(accounts))
  {
    SucceedsIff(customerID, accounts, prices);
    AllSoundByAccount(prices, accounts[0].cash.currency, accounts);
  }

  /**
   With every product in range, the portfolio total in millionths of minor units is all cash plus
   the sum of quantity times price over all positions, exactly when the exact total fits.
   */
  lemma PortfolioGainExact(customerID: string, accounts: seq<Account>, prices: Prices)
    requires PortfolioOf(customerID, accounts, prices).Ok?
    requires CountsAll(accounts)
    requires forall i :: 0 <= i < |AllPositions(accounts)| ==> InInt64(Product(prices, AllPositions(accounts)[i]))
    ensures PortfolioOf(customerID, accounts, prices).value.totalMarketValue.minor * MILLION
              == Sum(CashMinor, accounts) * MILLION + Sum(Products(prices), AllPositions(accounts))
       <==> InInt64(ExactTotal(prices, accounts))
  {
    var ps := AllPositions(accounts);
    TotalOf(customerID, accounts, prices);
    if accounts != [] {
      SoundInFirst(customerID, accounts, prices);
    }
    forall i | 0 <= i < |ps|
      ensures Values(prices)(ps[i]) * MILLION == Products(prices)(ps[i])
    {
      assert Sound(prices, accounts[0].cash.currency, ps[i]);
    }
    SumScaled(Values(prices), Products(prices), ps, MILLION);
  }

  /** An empty currency is mistaken for "no total yet": the total forgets the first account. */
  lemma UnnamedFirstIsLost(customerID: string, prices: Prices, first: Account, second: Account)
    requires first.cash.currency == "" && PortfolioOf(customerID, [first, second], prices).Ok?
    ensures AccountPortfolioOf(prices, second).Ok?
    ensures PortfolioOf(customerID, [first, second], prices).value.totalMarketValue
         == AccountPortfolioOf(prices, second).value.marketValue
  {
    var accounts := [first, second];
    assert accounts[..1] == [first];
    UnnamedHead(prices, accounts);
  }

  function CashAccount(cash: Money): Account {
    Account("acct", "BROKERAGE", cash, [])
  }

  lemma CashAccountValued(prices: Prices, cash: Money)
    ensures AccountPortfolioOf(prices, CashAccount(cash)).Ok?
    ensures AccountPortfolioOf(prices, CashAccount(cash)).value.marketValue == cash
  {
  }

  /** Concretely: next to cash without a currency, the total is the other account's cash alone. */
  lemma EmptyCurrencyLosesCash(customerID: string, prices: Prices, lost: int64, kept: Money)
    ensures PortfolioOf(customerID, [CashAccount(Money(lost, "")), CashAccount(kept)], prices).Ok?
    ensures PortfolioOf(customerID, [CashAccount(Money(lost, "")), CashAccount(kept)], prices).value.totalMarketValue
         == kept
  {
    var first, second := CashAccount(Money(lost, "")), CashAccount(kept);
    CashAccountValued(prices, first.cash);
    CashAccountValued(prices, kept);
    AccumulateSucceedsIff(prices, [first, second]);
    UnnamedFirstIsLost(customerID, prices, first, second);
  }

  // ---------- As-of ----------

  predicate Used(prices: Prices, ps: seq<Position>, p: Position) {
    p in ps && p.symbol in prices
  }

  lemma {:induction false} LatestIsMaximum(prices: Prices, ps: seq<Position>)
    ensures Latest(prices, 0, ps) >= 0
    ensures forall p :: Used(prices, ps, p) ==> prices[p.symbol].asOf <= Latest(prices, 0, ps)
    ensures Latest(prices, 0, ps) != 0 ==>
              exists p :: Used(prices, ps, p) && prices[p.symbol].asOf == Latest(prices, 0, ps)
  {
    if ps != [] {
      var head, last := ps[..|ps| - 1], ps[|ps| - 1];
      LatestIsMaximum(prices, head);
      assert forall p :: p in ps <==> p in head || p == last;
      if Latest(prices, 0, ps) != 0 {
        if Latest(prices, 0, ps) == Latest(prices, 0, head) {
          var p :| Used(prices, head, p) && prices[p.symbol].asOf == Latest(prices, 0, head);
          assert Used(prices, ps, p);
        } else {
          assert Used(prices, ps, last);
        }
      }
    }
  }

  /**
   The instant is at least every used price's, and is the latest of them exactly when one of them
   is not before the zero instant; otherwise, as with no positions, it is the zero instant.
   */
  ghost predicate IsLatestUsed(prices: Prices, ps: seq<Position>, asOf: int) {
    && (forall p :: Used(prices, ps, p) ==> prices[p.symbol].asOf <= asOf)
    && ((exists p :: Used(prices, ps, p) && prices[p.symbol].asOf == asOf)
        <==> exists p :: Used(prices, ps, p) && prices[p.symbol].asOf >= 0)
    && ((forall p :: Used(prices, ps, p) ==> prices[p.symbol].asOf < 0) ==> asOf == 0)
  }

  lemma AsOfIsLatest(customerID: string, accounts: seq<Account>, prices: Prices)
    requires PortfolioOf(customerID, accounts, prices).Ok?
    ensures IsLatestUsed(prices, AllPositions(accounts), PortfolioOf(customerID, accounts, prices).value.asOf)
  {
    LatestIsMaximum(prices, AllPositions(accounts));
  }

  /** The total is in the currency that the accounts name, and in none when none does. */
  lemma TotalCurrency(customerID: string, accounts: seq<Account>, prices: Prices)
    requires PortfolioOf(customerID, accounts, prices).Ok?
    ensures var currency := PortfolioOf(customerID, accounts, prices).value.totalMarketValue.currency;
            && (forall i :: 0 <= i < |accounts| && accounts[i].cash.currency != "" ==>
                  accounts[i].cash.currency == currency)
            && (Unnamed(accounts) ==> currency == "")
  {
    SucceedsIff(customerID, accounts, prices);
    AccumulateTotalCurrency(prices, accounts);
  }

  /** One position priced before the zero instant: the price is used, the as-of instant misses it. */
  lemma SingleEarlyPrice(customerID: string, account: Account, position: Position, prices: Prices)
    requires account.positions == [position] && Sound(prices, account.cash.currency, position)
    requires prices[position.symbol].asOf < 0
    ensures PortfolioOf(customerID, [account], prices).Ok?
    ensures Used(prices, AllPositions([account]), position)
    ensures PortfolioOf(customerID, [account], prices).value.asOf == 0
  {
    SucceedsIff(customerID, [account], prices);
    assert [account][..0] == [] && AllPositions([account]) == [position];
    AsOfIsLatest(customerID, [account], prices);
  }

  // ---------- What cannot change the result ----------

  function Cashes(accounts: seq<Account>): (r: seq<Money>)
    ensures |r| == |accounts| && forall i :: 0 <= i < |r| ==> r[i] == accounts[i].cash
  {
    seq(|accounts|, i requires 0 <= i < |accounts| => accounts[i].cash)
  }

  function MinorOf(m: Money): int {
    m.minor
  }

  predicate Named(accounts: seq<Account>) {
    forall i :: 0 <= i < |accounts| ==> accounts[i].cash.currency != ""
  }

  /** Both fail, or both succeed with the same total, currency and as-of instant. */
  predicate SameOutcome(p: Result<Portfolio>, q: Result<Portfolio>) {
    if p.Ok? then q.Ok? && p.value.totalMarketValue == q.value.totalMarketValue && p.value.asOf == q.value.asOf
    else q.Err?
  }

  /** Two account lists hold the same cash balances and the same positions, however distributed. */
  predicate SameBook(a: seq<Account>, b: seq<Account>) {
    && multiset(Cashes(a)) == multiset(Cashes(b))
    && multiset(AllPositions(a)) == multiset(AllPositions(b))
  }

  predicate OneCurrency(currency: string, accounts: seq<Account>) {
    forall i :: 0 <= i < |accounts| ==> accounts[i].cash.currency == currency
  }

  lemma AllSoundConcat(prices: Prices, currency: string, ps: seq<Position>, qs: seq<Position>)
    ensures AllSound(prices, currency, ps + qs) <==> AllSound(prices, currency, ps) && AllSound(prices, currency, qs)
  {
    if AllSound(prices, currency, ps + qs) {
      assert forall i :: 0 <= i < |ps| ==> ps[i] == (ps + qs)[i];
      assert forall i :: 0 <= i < |qs| ==> qs[i] == (ps + qs)[|ps| + i];
    }
  }

  /** All positions are sound in one currency when each account's are. */
  lemma {:induction false} AllSoundByAccount(prices: Prices, currency: string, accounts: seq<Account>)
    ensures AllSound(prices, currency, AllPositions(accounts)) <==>
              forall i :: 0 <= i < |accounts| ==> AllSound(prices, currency, accounts[i].positions)
  {
    if accounts != [] {
      var head, last := accounts[..|accounts| - 1], accounts[|accounts| - 1];
      AllSoundByAccount(prices, currency, head);
      AllSoundConcat(prices, currency, AllPositions(head), last.positions);
      assert forall i :: 0 <= i < |head| ==> head[i] == accounts[i];
    }
  }

  /** With named currencies, success means one currency and every position sound in it. */
  lemma SucceedsInOneCurrency(customerID: string, accounts: seq<Account>, prices: Prices)
    requires accounts != [] && Named(accounts)
    ensures PortfolioOf(customerID, accounts, prices).Ok? <==>
              && OneCurrency(accounts[0].cash.currency, accounts)
              && AllSound(prices, accounts[0].cash.currency, AllPositions(accounts))
  {
    var currency := accounts[0].cash.currency;
    SucceedsIff(customerID, accounts, prices);
    AllSoundByAccount(prices, currency, accounts);
    ConsistentNamed(accounts);
  }

  lemma ConsistentNamed(accounts: seq<Account>)
    requires accounts != [] && Named(accounts)
    ensures Consistent(accounts) <==> OneCurrency(accounts[0].cash.currency, accounts)
  {
    if Consistent(accounts) {
      forall i | 0 <= i < |accounts|
        ensures accounts[i].cash.currency == accounts[0].cash.currency
      {
        assert accounts[0].cash.currency != "";
      }
    }
  }

  lemma SameBookSameExactTotal(prices: Prices, a: seq<Account>, b: seq<Account>)
    requires SameBook(a, b)
    ensures ExactTotal(prices, a) == ExactTotal(prices, b)
  {
    SumPointwise(CashMinor, a, MinorOf, Cashes(a));
    SumPointwise(CashMinor, b, MinorOf, Cashes(b));
    SumPermutation(MinorOf, Cashes(a), Cashes(b));
    SumPermutation(Values(prices), AllPositions(a), AllPositions(b));
  }

  lemma SameMembers<T>(xs: seq<T>, ys: seq<T>)
    requires multiset(xs) == multiset(ys)
    ensures |xs| == |ys|
    ensures forall x :: x in xs <==> x in ys
  {
    assert |multiset(xs)| == |xs| && |multiset(ys)| == |ys|;
    forall x
      ensures x in xs <==> x in ys
    {
      assert x in multiset(xs) <==> x in multiset(ys);
    }
  }

  lemma SameBookSameLatest(prices: Prices, a: seq<Account>, b: seq<Account>)
    requires SameBook(a, b)
    ensures Latest(prices, 0, AllPositions(a)) == Latest(prices, 0, AllPositions(b))
  {
    var ps, qs := AllPositions(a), AllPositions(b);
    LatestIsMaximum(prices, ps);
    LatestIsMaximum(prices, qs);
    SameMembers(ps, qs);
    assert forall p :: Used(prices, ps, p) <==> Used(prices, qs, p);
  }

  lemma SoundnessTransfers(prices: Prices, currency: string, a: seq<Account>, b: seq<Account>)
    requires SameBook(a, b)
    requires OneCurrency(currency, a) && AllSound(prices, currency, AllPositions(a))
    ensures OneCurrency(currency, b) && AllSound(prices, currency, AllPositions(b))
  {
    CurrencyTransfers(currency, a, b);
    SameMembers(AllPositions(a), AllPositions(b));
    var ps := AllPositions(b);
    forall i | 0 <= i < |ps|
      ensures Sound(prices, currency, ps[i])
    {
      assert ps[i] in AllPositions(a);
    }
  }

  lemma CurrencyTransfers(currency: string, a: seq<Account>, b: seq<Account>)
    requires multiset(Cashes(a)) == multiset(Cashes(b)) && OneCurrency(currency, a)
    ensures OneCurrency(currency, b)
  {
    SameMembers(Cashes(a), Cashes(b));
    forall i | 0 <= i < |b|
      ensures b[i].cash.currency == currency
    {
      assert Cashes(b)[i] in Cashes(a);
    }
  }

  lemma SameBookNamed(a: seq<Account>, b: seq<Account>)
    requires Named(a) && SameBook(a, b)
    ensures Named(b) && |a| == |b|
  {
    SameMembers(Cashes(a), Cashes(b));
    forall i | 0 <= i < |b|
      ensures b[i].cash.currency != ""
    {
      assert Cashes(b)[i] in Cashes(a);
    }
  }

  /** One direction of the theorem below. */
  lemma SameBookSucceeds(customerID: string, a: seq<Account>, b: seq<Account>, prices: Prices)
    requires Named(a) && SameBook(a, b) && PortfolioOf(customerID, a, prices).Ok?
    ensures PortfolioOf(customerID, b, prices).Ok?
    ensures PortfolioOf(customerID, a, prices).value.totalMarketValue
         == PortfolioOf(customerID, b, prices).value.totalMarketValue
    ensures PortfolioOf(customerID, a, prices).value.asOf == PortfolioOf(customerID, b, prices).value.asOf
  {
    SameBookNamed(a, b);
    SameBookSameLatest(prices, a, b);
    if a != [] {
      SucceedsInOneCurrency(customerID, a, prices);
      SucceedsInOneCurrency(customerID, b, prices);
      SoundnessTransfers(prices, a[0].cash.currency, a, b);
      SameBookSameExactTotal(prices, a, b);
      TotalIsWrappedExactSum(customerID, a, prices);
      TotalIsWrappedExactSum(customerID, b, prices);
    }
  }

  /**
   Success, total, its currency and the as-of instant depend only on which cash balances and
   positions there are, not on their order or on which account holds which position.
   */
  lemma BookDeterminesResult(customerID: string, a: seq<Account>, b: seq<Account>, prices: Prices)
    requires Named(a) && SameBook(a, b)
    ensures SameOutcome(PortfolioOf(customerID, a, prices), PortfolioOf(customerID, b, prices))
  {
    SameBookNamed(a, b);
    if PortfolioOf(customerID, a, prices).Ok? {
      SameBookSucceeds(customerID, a, b, prices);
    } else if PortfolioOf(customerID, b, prices).Ok? {
      SameBookSucceeds(customerID, b, a, prices);
    }
  }

  lemma {:induction false} AllPositionsConcat(a: seq<Account>, b: seq<Account>)
    ensures AllPositions(a + b) == AllPositions(a) + AllPositions(b)
  {
    if b == [] {
      assert a + b == a;
    } else {
      var c := a + b;
      assert c[..|c| - 1] == a + b[..|b| - 1];
      AllPositionsConcat(a, b[..|b| - 1]);
    }
  }

  /** All positions, split around one account. */
  lemma AllPositionsAround(before: seq<Account>, a: Account, after: seq<Account>)
    ensures AllPositions(before + [a] + after) == AllPositions(before) + a.positions + AllPositions(after)
  {
    AllPositionsConcat(before + [a], after);
    AllPositionsConcat(before, [a]);
    assert AllPositions([a]) == a.positions by {
      assert [a][..0] == [];
    }
  }

  /** Replacing one account's positions replaces just those among all positions. */
  lemma AllPositionsUpdate(accounts: seq<Account>, i: nat, ps: seq<Position>)
    requires i < |accounts|
    ensures var changed := accounts[i := accounts[i].(positions := ps)];
            && multiset(AllPositions(changed)) + multiset(accounts[i].positions)
               == multiset(AllPositions(accounts)) + multiset(ps)
            && Cashes(changed) == Cashes(accounts)
  {
    var changed := accounts[i := accounts[i].(positions := ps)];
    AllPositionsAround(accounts[..i], accounts[i], accounts[i + 1..]);
    AllPositionsAround(accounts[..i], changed[i], accounts[i + 1..]);
    assert accounts == accounts[..i] + [accounts[i]] + accounts[i + 1..];
    assert changed == accounts[..i] + [changed[i]] + accounts[i + 1..];
  }

  lemma AllPositionsRemove(accounts: seq<Account>, i: nat, rest: seq<Account>)
    requires i < |accounts| && rest == accounts[..i] + accounts[i + 1..]
    ensures multiset(AllPositions(accounts)) == multiset(AllPositions(rest)) + multiset(accounts[i].positions)
  {
    assert accounts == accounts[..i] + [accounts[i]] + accounts[i + 1..];
    AllPositionsAround(accounts[..i], accounts[i], accounts[i + 1..]);
    AllPositionsConcat(accounts[..i], accounts[i + 1..]);
  }

  lemma CashesRemove(accounts: seq<Account>, i: nat, rest: seq<Account>)
    requires i < |accounts| && rest == accounts[..i] + accounts[i + 1..]
    ensures multiset(Cashes(accounts)) == multiset(Cashes(rest)) + multiset{accounts[i].cash}
  {
    MultisetRemove(Cashes(accounts), i);
    assert Cashes(accounts)[..i] + Cashes(accounts)[i + 1..] == Cashes(rest);
  }

  lemma {:induction false} PermutedPositions(a: seq<Account>, b: seq<Account>)
    requires multiset(a) == multiset(b)
    ensures multiset(AllPositions(a)) == multiset(AllPositions(b))
    decreases |a|
  {
    SameMembers(a, b);
    if a == [] {
      assert a == b;
    } else {
      var i := RemoveSame(a, b);
      var rest := b[..i] + b[i + 1..];
      PermutedPositions(a[1..], rest);
      AllPositionsRemove(b, i, rest);
      AllPositionsRemove(a, 0, a[1..]);
    }
  }

  lemma {:induction false} PermutedCashes(a: seq<Account>, b: seq<Account>)
    requires multiset(a) == multiset(b)
    ensures multiset(Cashes(a)) == multiset(Cashes(b))
    decreases |a|
  {
    SameMembers(a, b);
    if a == [] {
      assert a == b;
    } else {
      var i := RemoveSame(a, b);
      var rest := b[..i] + b[i + 1..];
      PermutedCashes(a[1..], rest);
      CashesRemove(b, i, rest);
      CashesRemove(a, 0, a[1..]);
    }
  }

  /** The first element of one listing can be removed from the other. */
  lemma RemoveSame<T>(a: seq<T>, b: seq<T>) returns (i: nat)
    requires a != [] && multiset(a) == multiset(b)
    ensures i < |b| && b[i] == a[0]
    ensures multiset(a[1..]) == multiset(b[..i] + b[i + 1..])
    ensures a[1..] == a[..0] + a[1..]
  {
    assert a[0] in multiset(b);
    i :| 0 <= i < |b| && b[i] == a[0];
    MultisetRemove(a, 0);
    MultisetRemove(b, i);
    assert a[..0] + a[1..] == a[1..];
    MultisetCancel(multiset(a[1..]), multiset(b[..i] + b[i + 1..]), a[0]);
  }

  /** Reordering the accounts changes neither success, total nor as-of. */
  lemma AccountOrderIrrelevant(customerID: string, a: seq<Account>, b: seq<Account>, prices: Prices)
    requires Named(a) && multiset(a) == multiset(b)
    ensures SameOutcome(PortfolioOf(customerID, a, prices), PortfolioOf(customerID, b, prices))
  {
    PermutedPositions(a, b);
    PermutedCashes(a, b);
    BookDeterminesResult(customerID, a, b, prices);
  }

  /** Reordering the positions inside an account changes neither success, total nor as-of. */
  lemma PositionOrderIrrelevant(
      customerID: string, accounts: seq<Account>, i: nat, ps: seq<Position>, prices: Prices)
    requires Named(accounts) && i < |accounts| && multiset(ps) == multiset(accounts[i].positions)
    ensures var changed := accounts[i := accounts[i].(positions := ps)];
            SameOutcome(PortfolioOf(customerID, accounts, prices), PortfolioOf(customerID, changed, prices))
  {
    var changed := accounts[i := accounts[i].(positions := ps)];
    AllPositionsUpdate(accounts, i, ps);
    MultisetCancelAll(multiset(AllPositions(changed)), multiset(AllPositions(accounts)), multiset(ps));
    BookDeterminesResult(customerID, accounts, changed, prices);
  }

  lemma MultisetCancelAll<T>(a: multiset<T>, b: multiset<T>, c: multiset<T>)
    requires a + c == b + c
    ensures a == b
  {
    assert a == (a + c) - c;
    assert b == (b + c) - c;
  }

  /** The accounts after position `k` of account `i` has moved to the end of account `j`. */
  function Moved(accounts: seq<Account>, i: nat, k: nat, j: nat): seq<Account>
    requires i < |accounts| && j < |accounts| && i != j && k < |accounts[i].positions|
  {
    var from, to := accounts[i].positions, accounts[j].positions;
    accounts[i := accounts[i].(positions := from[..k] + from[k + 1..])]
            [j := accounts[j].(positions := to + [from[k]])]
  }

  /** Moving a position between two accounts changes neither success, total nor as-of. */
  lemma MovingPositionKeepsTotal(
      customerID: string, accounts: seq<Account>, i: nat, k: nat, j: nat, prices: Prices)
    requires Named(accounts)
    requires i < |accounts| && j < |accounts| && i != j && k < |accounts[i].positions|
    ensures SameOutcome(PortfolioOf(customerID, accounts, prices),
                        PortfolioOf(customerID, Moved(accounts, i, k, j), prices))
  {
    var from, to := accounts[i].positions, accounts[j].positions;
    var less := from[..k] + from[k + 1..];
    var taken := accounts[i := accounts[i].(positions := less)];
    AllPositionsUpdate(accounts, i, less);
    AllPositionsUpdate(taken, j, to + [from[k]]);
    MultisetRemove(from, k);
    MovedBalance(multiset(AllPositions(accounts)), multiset(AllPositions(taken)),
                 multiset(AllPositions(Moved(accounts, i, k, j))), multiset(less), multiset(to), from[k]);
    BookDeterminesResult(customerID, accounts, Moved(accounts, i, k, j), prices);
  }

  lemma MovedBalance<T>(all: multiset<T>, taken: multiset<T>, moved: multiset<T>,
                        less: multiset<T>, to: multiset<T>, x: T)
    requires taken + (less + multiset{x}) == all + less
    requires moved + to == taken + (to + multiset{x})
    ensures moved == all
  {
    forall y
      ensures moved[y] == all[y]
    {
      assert (taken + (less + multiset{x}))[y] == (all + less)[y];
      assert (moved + to)[y] == (taken + (to + multiset{x}))[y];
    }
  }
}
