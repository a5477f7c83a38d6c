/** Fixed-point money and quantities, and the entities built from them. */
module Money {
  import opened GoInt64
  import opened GoStrings
  import opened Decimal
  import opened Errors

  datatype Money = Money(minor: int64, currency: string)
  datatype Quantity = Quantity(millionths: int64)
  datatype Position = Position(symbol: string, quantity: Quantity)
  datatype Account = Account(id: string, kind: string, cash: Money, positions: seq<Position>)

  /** Instants are integers, with the zero `time.Time` at 0; instants before year 1 are negative. */
  datatype Price = Price(symbol: string, value: Money, asOf: int)
  datatype Holding = Holding(symbol: string, quantity: Quantity, unitPrice: Money, marketValue: Money)
  datatype AccountPortfolio = AccountPortfolio(
    id: string, kind: string, cash: Money, marketValue: Money, holdings: seq<Holding>)
  datatype Portfolio = Portfolio(
    customerID: string, asOf: int, totalMarketValue: Money, accounts: seq<AccountPortfolio>)

  const MILLION: int := 1_000_000

  // ---------- Money ----------

  function NewMoney(minor: int64, currency: string): (r: Result<Money>)
    ensures r.Ok? <==> |TrimSpace(currency)| == 3
    ensures r.Ok? ==> r.value.minor == minor && |r.value.currency| == 3
  {
    var code := ToUpper(TrimSpace(currency));
    if |code| != 3 then Err(ErrInvalidCurrency) else Ok(Money(minor, code))
  }

  /** Three characters, trimmed, without small letters. */
  predicate NormalCurrency(c: string) {
    |c| == 3 && IsTrimmed(c) && forall i :: 0 <= i < 3 ==> !('a' <= c[i] <= 'z')
  }

  /** The code stored for a text: its three characters between spaces, small letters as capitals. */
  predicate StoresCode(code: string, text: string) {
    var t := TrimSpace(text);
    && |t| == 3 && |code| == 3
    && forall i :: 0 <= i < 3 ==>
         if 'a' <= t[i] <= 'z' then code[i] as int - 'A' as int == t[i] as int - 'a' as int else code[i] == t[i]
  }

  /**
   Money is accepted exactly when the trimmed currency has three characters. It keeps its minor
   units, and the stored code is those characters in upper case, which no second pass changes.
   */
  lemma NewMoneyNormalises(minor: int64, currency: string)
    ensures NewMoney(minor, currency).Ok? <==> |TrimSpace(currency)| == 3
    ensures NewMoney(minor, currency).Err? ==> NewMoney(minor, currency).error == ErrInvalidCurrency
    ensures NewMoney(minor, currency).Ok? ==>
              var m := NewMoney(minor, currency).value;
              && m.minor == minor && NormalCurrency(m.currency)
              && StoresCode(m.currency, currency)
              && NewMoney(minor, m.currency) == Ok(m)
  {
    TrimSpaceFixes(currency);
    if NewMoney(minor, currency).Ok? {
      var code := NewMoney(minor, currency).value.currency;
      assert IsTrimmed(code);
      NewMoneyFixes(minor, code);
    }
  }

  /** A normal currency is stored as it stands. */
  lemma NormalCodeKept(code: string, text: string)
    requires StoresCode(code, text) && NormalCurrency(text)
    ensures code == text
  {
    TrimSpaceFixes(text);
  }

  lemma NewMoneyFixes(minor: int64, c: string)
    ensures NewMoney(minor, c) == Ok(Money(minor, c)) <==> NormalCurrency(c)
  {
    TrimSpaceFixes(c);
    var upper := ToUpper(TrimSpace(c));
    if NormalCurrency(c) {
      assert upper == c;
    }
    if upper == c && |c| == 3 {
      TrimRightKeepsHead(TrimLeft(c));
      TrimLeftHead(c);
      assert |TrimSpace(c)| == |c|;
      TrimKeepsLength(c);
      assert forall i :: 0 <= i < 3 ==> c[i] == ToUpperChar(c[i]);
    }
  }

  lemma TrimKeepsLength(s: string)
    requires |TrimSpace(s)| == |s|
    ensures TrimSpace(s) == s
  {
    TrimRightKeepsHead(TrimLeft(s));
    TrimLeftHead(s);
    if s != "" && IsSpace(s[0]) {
      TrimLeftHead(s[1..]);
    }
  }

  function Add(m: Money, other: Money): Result<Money> {
    if m.currency != other.currency then Err(Wrapped(ErrCurrencyMismatch))
    else Ok(Money(Wrap64(m.minor + other.minor), m.currency))
  }

  /** Non-negative minor units with two decimals. */
  function Cents(magnitude: nat): string {
    FormatNat(magnitude / 100) + "." + [DigitChar(magnitude / 10 % 10), DigitChar(magnitude % 10)]
  }

  /** What `Amount` prints: exact decimal text, except at the minimum, which has no negation. */
  function AmountText(minor: int64): string {
    if minor == MIN_INT64 then "--" + FormatNat(-GoDiv(minor, 100)) + ".-8"
    else if minor < 0 then "-" + Cents(-minor)
    else Cents(minor)
  }

  /** Shortest whole digits and two decimals, worth `n` hundredths. */
  ghost predicate SpellsCents(body: string, n: nat) {
    exists w, c :: body == w + "." + c && IsShortest(w) && |c| == 2 && AllDigits(c) && NatOf(w) * 100 + NatOf(c) == n
  }

  /** The published form of an amount: a minus exactly below zero, then the spelling of its size. */
  ghost predicate SpellsAmount(text: string, minor: int) {
    && (HasPrefix(text, '-') <==> minor < 0)
    && (if minor < 0 then SpellsCents(text[1..], -minor) else SpellsCents(text, minor))
  }

  /** What the minimum prints as: a second minus, and a negative number of hundredths. */
  ghost predicate SpellsMinimum(text: string) {
    exists w :: text == "--" + w + ".-8" && IsShortest(w) && NatOf(w) * 100 + 8 == -MIN_INT64
  }

  ghost predicate SpellsMoney(text: string, minor: int64) {
    if minor == MIN_INT64 then SpellsMinimum(text) else SpellsAmount(text, minor)
  }

  method Amount(m: Money) returns (text: string)
    ensures text == AmountText(m.minor)
    ensures SpellsMoney(text, m.minor)
  {
    var sign := "";
    var minor: int64 := m.minor;
    if minor < 0 {
      sign := "-";
      minor := Negate(minor);
    }
    text := sign + (FormatInt(GoDiv(minor, 100)) + "." + FormatPadded(GoMod(minor, 100), 2));
    PartsPrinted(m.minor, sign, minor);
    AmountSpelled(m.minor);
  }

  lemma PartsPrinted(amount: int64, sign: string, minor: int64)
    requires if amount < 0 then sign == "-" && minor == Negate(amount) else sign == "" && minor == amount
    ensures sign + (FormatInt(GoDiv(minor, 100)) + "." + FormatPadded(GoMod(minor, 100), 2)) == AmountText(amount)
  {
    if amount == MIN_INT64 {
      MinimumPrinted(minor);
    } else {
      CentsPrinted(minor);
    }
  }

  lemma TwoDigitsWorth(a: nat, b: nat)
    requires a < 10 && b < 10
    ensures NatOf([DigitChar(a), DigitChar(b)]) == 10 * a + b
  {
    var cents := [DigitChar(a), DigitChar(b)];
    assert cents[..1] == [cents[0]] && cents[..1][..0] == "";
    assert NatOf(cents[..1]) == a;
  }

  lemma CentsSpelled(n: nat)
    ensures SpellsCents(Cents(n), n)
    ensures !HasPrefix(Cents(n), '-')
  {
    var w, c := FormatNat(n / 100), [DigitChar(n / 10 % 10), DigitChar(n % 10)];
    NatOfFormat(n / 100);
    TwoDigitsWorth(n / 10 % 10, n % 10);
    assert n / 100 == n / 10 / 10;
    assert IsDigit(w[0]);
    assert Cents(n) == w + "." + c;
  }

  lemma MinimumSpelled()
    ensures SpellsMinimum(AmountText(MIN_INT64))
  {
    var w := FormatNat(92233720368547758);
    NatOfFormat(92233720368547758);
    assert AmountText(MIN_INT64) == "--" + w + ".-8";
  }

  /** The printed text, in full, for every int64. */
  lemma AmountSpelled(minor: int64)
    ensures SpellsMoney(AmountText(minor), minor)
  {
    if minor == MIN_INT64 {
      MinimumSpelled();
    } else if minor < 0 {
      BelowZeroSpelled(-minor);
    } else {
      CentsSpelled(minor);
    }
  }

  lemma BelowZeroSpelled(n: nat)
    requires n > 0
    ensures SpellsAmount("-" + Cents(n), 0 - n)
  {
    CentsSpelled(n);
    assert ("-" + Cents(n))[1..] == Cents(n);
  }

  lemma SpellingUnique(body: string, other: string, n: nat)
    requires SpellsCents(body, n) && SpellsCents(other, n)
    ensures body == other
  {
    var w, c :| body == w + "." + c && IsShortest(w) && |c| == 2 && AllDigits(c) && NatOf(w) * 100 + NatOf(c) == n;
    var v, d :| other == v + "." + d && IsShortest(v) && |d| == 2 && AllDigits(d) && NatOf(v) * 100 + NatOf(d) == n;
    NatOfBound(c);
    NatOfBound(d);
    HundredDigits(NatOf(w), NatOf(c), NatOf(v), NatOf(d));
    FormatOfNat(w);
    FormatOfNat(v);
    SameLengthSameValue(c, d);
  }

  lemma HundredDigits(a: nat, b: nat, x: nat, y: nat)
    requires b < Pow10(2) && y < Pow10(2) && a * 100 + b == x * 100 + y
    ensures a == x && b == y
  {
    assert Pow10(2) == 100 by {
      assert Pow10(1) == 10 * Pow10(0);
    }
  }

  /** The published form is the only one: a text has it exactly if it is the printed text. */
  lemma AmountSpellingUnique(text: string, minor: int64)
    requires minor != MIN_INT64
    ensures SpellsAmount(text, minor) <==> text == AmountText(minor)
  {
    AmountSpelled(minor);
    var printed := AmountText(minor);
    if SpellsAmount(text, minor) {
      if minor < 0 {
        SpellingUnique(text[1..], printed[1..], -minor);
        assert text == ['-'] + text[1..] && printed == ['-'] + printed[1..];
      } else {
        SpellingUnique(text, printed, minor);
      }
    }
  }

  lemma MinimumPrinted(minor: int64)
    requires minor == MIN_INT64
    ensures "-" + (FormatInt(GoDiv(minor, 100)) + "." + FormatPadded(GoMod(minor, 100), 2)) == AmountText(minor)
  {
    assert GoMod(minor, 100) == -8;
    assert FormatNat(8) == "8";
    assert FormatPadded(-8, 2) == "-8";
    var whole := FormatNat(-GoDiv(minor, 100));
    assert "-" + ("-" + whole + "." + "-8") == "--" + whole + ".-8";
  }

  lemma CentsPrinted(n: nat)
    ensures FormatInt(GoDiv(n, 100)) + "." + FormatPadded(GoMod(n, 100), 2) == Cents(n)
  {
    TwoDigits(n % 100);
    LastTwoDigits(n);
  }

  lemma LastTwoDigits(n: nat)
    ensures n % 100 / 10 == n / 10 % 10
    ensures n % 100 % 10 == n % 10
  {
    var q := n / 100;
    assert n == 100 * q + n % 100;
    assert n / 10 == 10 * q + n % 100 / 10;
  }

  lemma TwoDigits(n: nat)
    requires n < 100
    ensures FormatPadded(n, 2) == [DigitChar(n / 10), DigitChar(n % 10)]
  {
    if n < 10 {
      assert FormatNat(n) == [DigitChar(n)];
    } else {
      assert FormatNat(n / 10) == [DigitChar(n / 10)];
    }
  }

  /** Reads digits, a dot and two digits, in hundredths; None when the text does not match. */
  function ReadCents(text: string): Option<nat> {
    var n := |text|;
    if n < 4 || text[n - 3] != '.' || !AllDigits(text[..n - 3]) || !AllDigits(text[n - 2..]) then None
    else Some(NatOf(text[..n - 3]) * 100 + NatOf(text[n - 2..]))
  }

  /** A reader of the published amount pattern: an optional minus before `ReadCents`. */
  function ReadAmount(text: string): Option<int> {
    if HasPrefix(text, '-') then
      match ReadCents(text[1..])
      case None => None
      case Some(n) => Some(0 - n)
    else
      match ReadCents(text)
      case None => None
      case Some(n) => Some(n)
  }

  lemma ReadCentsOf(whole: string, a: nat, b: nat)
    requires whole != "" && AllDigits(whole) && a < 10 && b < 10
    ensures ReadCents(whole + "." + [DigitChar(a), DigitChar(b)]) == Some(NatOf(whole) * 100 + 10 * a + b)
  {
    var cents := [DigitChar(a), DigitChar(b)];
    var text := whole + "." + cents;
    assert text[..|text| - 3] == whole && text[|text| - 2..] == cents;
    TwoDigitsWorth(a, b);
  }

  lemma CentsReadBack(n: nat)
    ensures ReadCents(Cents(n)) == Some(n)
    ensures IsDigit(Cents(n)[0])
  {
    NatOfFormat(n / 100);
    ReadCentsOf(FormatNat(n / 100), n / 10 % 10, n % 10);
    assert n / 100 == n / 10 / 10;
  }

  lemma AmountReadsBack(minor: int64)
    requires minor != MIN_INT64
    ensures ReadAmount(AmountText(minor)) == Some(minor)
  {
    if minor < 0 {
      CentsReadBack(-minor);
      assert AmountText(minor)[1..] == Cents(-minor);
    } else {
      CentsReadBack(minor);
    }
  }

  lemma MinusIsNoDigit(body: string)
    requires HasPrefix(body, '-')
    ensures ReadCents(body).None?
  {
    if |body| >= 4 {
      assert !IsDigit(body[..|body| - 3][0]);
    }
  }

  /** The published amount pattern is met, with the same minor units, except at the minimum. */
  lemma AmountRoundTrip(minor: int64)
    ensures ReadAmount(AmountText(minor)) == Some(minor) <==> minor != MIN_INT64
    ensures ReadAmount(AmountText(minor)).Some? <==> minor != MIN_INT64
  {
    if minor == MIN_INT64 {
      MinusIsNoDigit(AmountText(minor)[1..]);
    } else {
      AmountReadsBack(minor);
    }
  }

  /** No two amounts print alike, the minimum included. */
  lemma AmountInjective(a: int64, b: int64)
    requires AmountText(a) == AmountText(b)
    ensures a == b
  {
    AmountRoundTrip(a);
    AmountRoundTrip(b);
  }

  // ---------- Quantity ----------

  /** The exact product whose machine value `MarketValue` divides. */
  function ExactProduct(q: Quantity, price: Money): int {
    q.millionths * price.minor
  }

  /** The int64 that `MarketValue` returns when it returns one. */
  function Valuation(q: Quantity, price: Money): (r: int64)
    ensures GoMod(Wrap64(ExactProduct(q, price)), MILLION) == 0 ==>
              r * MILLION == Wrap64(ExactProduct(q, price))
    ensures r != MIN_INT64
  {
    GoDiv(Wrap64(ExactProduct(q, price)), MILLION)
  }

  function MarketValue(q: Quantity, price: Money): Result<Money> {
    var product := Wrap64(ExactProduct(q, price));
    if GoMod(product, MILLION) != 0 then Err(ErrFractionalMinor)
    else Ok(Money(GoDiv(product, MILLION), price.currency))
  }

  lemma GoModZero(a: int)
    ensures GoMod(a, MILLION) == 0 <==> a % MILLION == 0
  {
  }

  /** A returned value is exact, for either sign of price, exactly when the product fits. */
  lemma MarketValueExact(q: Quantity, price: Money)
    ensures InInt64(ExactProduct(q, price)) ==> (MarketValue(q, price).Ok? <==> ExactProduct(q, price) % MILLION == 0)
    ensures MarketValue(q, price).Ok? ==>
              && MarketValue(q, price).value == Money(Valuation(q, price), price.currency)
              && (Valuation(q, price) * MILLION == ExactProduct(q, price) <==> InInt64(ExactProduct(q, price)))
  {
    GoModZero(ExactProduct(q, price));
  }

  lemma Multiples(a: int, b: int)
    ensures (a * MILLION + b) % MILLION == b % MILLION
  {
  }

  lemma SixtyFourTimes(m: int)
    ensures (64 * m) % MILLION == 0 <==> m % 15625 == 0
  {
  }

  /** 8619 and 15625 have no common factor. */
  lemma CoprimeFactor(k: int)
    ensures (k * 8619) % 15625 == 0 <==> k % 15625 == 0
  {
    if (k * 8619) % 15625 == 0 {
      var j := k * 8619 / 15625;
      assert k * 8619 == 15625 * j;
      MultipleOf(k, j * 11479 - k * 6332);
    } else if k % 15625 == 0 {
      var j := k / 15625;
      MultipleOf(k * 8619, j * 8619);
    }
  }

  lemma MultipleOf(x: int, j: int)
    requires x == 15625 * j
    ensures x % 15625 == 0
  {
  }

  /** A multiple of two to the 64 is divisible by a million exactly when 15625 divides the factor. */
  lemma WrapsDivisible(k: int)
    ensures (k * TWO_TO_64) % MILLION == 0 <==> k % 15625 == 0
  {
    assert k * TWO_TO_64 == k * 18446744073709 * MILLION + 64 * (k * 8619);
    Multiples(k * 18446744073709, 64 * (k * 8619));
    SixtyFourTimes(k * 8619);
    CoprimeFactor(k);
  }

  /** Whether a wrapped number is divisible, in terms of the number and its wrap count. */
  lemma WrappedDivisible(x: int)
    ensures GoMod(Wrap64(x), MILLION) == 0 <==> x % MILLION == (WrapCount(x) * TWO_TO_64) % MILLION
  {
    var taken := WrapCount(x) * TWO_TO_64;
    assert Wrap64(x) == x - taken;
    SameRemainder(x, taken, MILLION);
    GoModZero(x - taken);
  }

  lemma SameRemainder(x: int, y: int, m: int)
    requires m == MILLION
    ensures (x - y) % m == 0 <==> x % m == y % m
  {
  }

  /**
   The verdict on every product. A divisible one is accepted exactly when its wrap count is a
   multiple of 15625; over all products, acceptance agrees with divisibility exactly then, or
   when the remainder is neither zero nor the one that wrapping takes away.
   */
  lemma MarketValueVerdict(q: Quantity, price: Money)
    ensures var product, k := ExactProduct(q, price), WrapCount(ExactProduct(q, price));
            product % MILLION == 0 ==> (MarketValue(q, price).Ok? <==> k % 15625 == 0)
    ensures var product, k := ExactProduct(q, price), WrapCount(ExactProduct(q, price));
            (MarketValue(q, price).Ok? <==> product % MILLION == 0)
            <==> k % 15625 == 0
                 || (product % MILLION != 0 && product % MILLION != (k * TWO_TO_64) % MILLION)
  {
    WrappedDivisible(ExactProduct(q, price));
    WrapsDivisible(WrapCount(ExactProduct(q, price)));
  }

  /** A product beyond int64 can be accepted, with the wrong value. */
  lemma MarketValueWrapsUnnoticed()
    ensures MarketValue(Quantity(9_223_372_036_854_000_000), Money(64_000_000, "USD")).Ok?
    ensures MarketValue(Quantity(9_223_372_036_854_000_000), Money(64_000_000, "USD")).value.minor < 0
  {
    var product := 9_223_372_036_854_000_000 * 64_000_000;
    assert Wrap64(product) == -49651712000000;
  }

  /** A divisible product beyond int64 can be refused: ten million units at 2,000,000 minor units. */
  lemma MarketValueRefusesDivisible()
    ensures ExactProduct(Quantity(10_000_000_000_000), Money(2_000_000, "USD")) == 20_000_000_000_000 * MILLION
    ensures MarketValue(Quantity(10_000_000_000_000), Money(2_000_000, "USD")) == Err(ErrFractionalMinor)
  {
  }

  /** `Quantity.String`. */
  function QuantityText(q: Quantity): string {
    var whole := GoDiv(q.millionths, MILLION);
    var fraction := GoMod(q.millionths, MILLION);
    if fraction == 0 then FormatInt(whole)
    else FormatInt(whole) + "." + TrimZeros(FormatPadded(fraction, 6))
  }

  /** `strings.TrimRight(s, "0")`. */
  function TrimZeros(s: string): string {
    if s != "" && s[|s| - 1] == '0' then TrimZeros(s[..|s| - 1]) else s
  }
}
