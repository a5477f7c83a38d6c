/** Reading quantities: the shared lenient parser, the strict v2 grammar and its overflow guard. */
module Quantities {
  import opened GoInt64
  import opened GoStrings
  import opened Decimal
  import opened Errors
  import opened Money

  // ---------- The shared parser ----------

  /** What is left of a quantity once surrounding space and one leading plus are gone. */
  function Body(s: string): string {
    var t := TrimSpace(s);
    if HasPrefix(t, '+') then t[1..] else t
  }

  function PadFraction(f: string): string
    requires |f| <= 6
  {
    f + Repeat('0', 6 - |f|)
  }

  /** The mathematical number of millionths in whole digits `w` and fraction digits `f`. */
  function Scaled(w: string, f: string): nat
    requires |f| <= 6
  {
    NatOf(w) * MILLION + NatOf(PadFraction(f))
  }

  predicate PlainDecimal(w: string, f: string) {
    w != "" && AllDigits(w) && AllDigits(f) && |f| <= 6
  }

  /**
   The quantity a text denotes: digits, then optionally a dot and at most six digits. The whole
   part must fit int64; the number of millionths need not, and wraps.
   */
  function QuantityOf(s: string): Result<Quantity> {
    var (w, f) := Cut(Body(s), '.');
    if PlainDecimal(w, f) && InInt64(NatOf(w)) then Ok(Quantity(Wrap64(Scaled(w, f))))
    else Err(Wrapped(ErrInvalidQuantity))
  }

  method ParseQuantity(text: string) returns (r: Result<Quantity>)
    ensures r == QuantityOf(text)
  {
    var value := TrimSpace(text);
    if value == "" || HasPrefix(value, '-') {
      SignedIsNotPlain(value);
      return Err(Wrapped(ErrInvalidQuantity));
    }

    var parts := Split(value, '.');
    SplitMatchesCut(text);
    if |parts| > 2 || |parts[0]| == 0 {
      return Err(Wrapped(ErrInvalidQuantity));
    }
    r := ParseParts(parts);
  }

  /** What the text before the dot and after it stand for. */
  function PartsQuantity(whole: string, f: string): Result<Quantity> {
    if ParseInt(whole).None? || |f| > 6 || !AllDigits(f) then Err(Wrapped(ErrInvalidQuantity))
    else
      var units: int := ParseInt(whole).value;
      Ok(Quantity(Wrap64(units * MILLION + NatOf(PadFraction(f)))))
  }

  /** The rest of the parser: `parts` holds the text before and, if there is a dot, after it. */
  method ParseParts(parts: seq<string>) returns (r: Result<Quantity>)
    requires 1 <= |parts| <= 2
    ensures r == PartsQuantity(parts[0], if |parts| == 2 then parts[1] else "")
  {
    var whole := ParseInt(parts[0]);
    if whole.None? {
      return Err(Wrapped(ErrInvalidQuantity));
    }

    var fraction := "";
    if |parts| == 2 {
      fraction := parts[1];
    }
    if |fraction| > 6 {
      return Err(Wrapped(ErrInvalidQuantity));
    }
    for i := 0 to |fraction|
      invariant forall j :: 0 <= j < i ==> IsDigit(fraction[j])
    {
      if fraction[i] < '0' || fraction[i] > '9' {
        assert !IsDigit(fraction[i]);
        return Err(Wrapped(ErrInvalidQuantity));
      }
    }
    ghost var digits := fraction;
    PaddedParses(PadFraction(digits));
    fraction := fraction + Repeat('0', 6 - |fraction|);

    var fractional := ParseInt(fraction);
    if fractional.None? && fraction != "" {
      return Err(Wrapped(ErrInvalidQuantity));
    }

    var units: int := whole.value;
    var scaled: int64 := Wrap64(units * 1_000_000);
    var millionths: int64 := Wrap64(scaled + fractional.value);
    PartsCombine(parts[0], digits, units, millionths);
    return Ok(Quantity(millionths));
  }

  lemma PartsCombine(whole: string, f: string, units: int, millionths: int64)
    requires ParseInt(whole).Some? && ParseInt(whole).value == units
    requires AllDigits(f) && |f| <= 6
    requires millionths == Wrap64(Wrap64(units * MILLION) + NatOf(PadFraction(f)))
    ensures PartsQuantity(whole, f) == Ok(Quantity(millionths))
  {
    WrapAdd(units * MILLION, NatOf(PadFraction(f)));
  }

  lemma SignedIsNotPlain(value: string)
    requires value == "" || HasPrefix(value, '-')
    ensures !PlainDecimal(Cut(value, '.').0, Cut(value, '.').1)
  {
    if value != "" {
      assert !IsDigit(value[0]);
      var w := Cut(value, '.').0;
      assert w != "" ==> w[0] == value[0];
    }
  }

  /** Six digits always parse, to their value. */
  lemma PaddedParses(f: string)
    requires |f| == 6 && AllDigits(f)
    ensures ParseInt(f) == Some(NatOf(f))
    ensures NatOf(f) < MILLION
  {
    NatOfBound(f);
    assert Pow10(6) == 1_000_000;
    assert IsDigit(f[0]);
  }

  /** The parser splits where the specification cuts, and strips the same sign. */
  lemma SplitMatchesCut(text: string)
    requires TrimSpace(text) != "" && !HasPrefix(TrimSpace(text), '-')
    ensures var value := TrimSpace(text);
            var parts := Split(value, '.');
            var (w, f) := Cut(Body(text), '.');
            && (|parts| > 2 || parts[0] == "" ==> !PlainDecimal(w, f))
            && (|parts| <= 2 ==> f == if |parts| == 2 then parts[1] else "")
            && (ParseInt(parts[0]) == if w != "" && AllDigits(w) && InInt64(NatOf(w)) then Some(NatOf(w)) else None)
  {
    var value := TrimSpace(text);
    var i := IndexOf(value, '.');
    if i < |value| {
      var after := value[i + 1..];
      var j := IndexOf(after, '.');
      if j < |after| {
        assert !IsDigit(after[j]);
      }
    }
    if HasPrefix(value, '+') {
      assert IndexOf(value, '.') == 1 + IndexOf(value[1..], '.');
      WholeParses(value[..i], value[1..][..i - 1]);
    } else {
      WholeParses(value[..i], value[..i]);
    }
  }

  lemma WholeParses(part: string, w: string)
    requires (HasPrefix(part, '+') && w == part[1..]) || (!HasPrefix(part, '+') && w == part)
    requires !HasPrefix(part, '-')
    ensures ParseInt(part) == if w != "" && AllDigits(w) && InInt64(NatOf(w)) then Some(NatOf(w)) else None
  {
  }

  // ---------- The strict v2 quantity ----------

  /** `coreV2QuantityOverflows`, with Go's own int64 arithmetic. */
  function CoreV2QuantityOverflows(raw: string): bool {
    var (whole, fraction) := Cut(raw, '.');
    match ParseInt(whole)
    case None => false
    case Some(wholeValue) =>
      if wholeValue < 0 || |fraction| > 6 then false
      else
        match ParseInt(PadFraction(fraction))
        case None => false
        case Some(fractional) => wholeValue > GoDiv(Wrap64(MAX_INT64 - fractional), MILLION)
  }

  function ValidCoreV2Quantity(raw: string): bool {
    if raw != TrimSpace(raw) || HasPrefix(raw, '+') || HasSuffix(raw, '.') then false
    else !CoreV2QuantityOverflows(raw)
  }

  /** What the v2 contract makes of a units text: the grammar check, then the shared parser. */
  function V2QuantityOf(raw: string): Result<Quantity> {
    if ValidCoreV2Quantity(raw) then QuantityOf(raw) else Err(Wrapped(ErrInvalidQuantity))
  }

  /** Millionths denoted by a text the parser accepts, before any wrapping. */
  function ExactMillionths(s: string): nat
    requires QuantityOf(s).Ok?
  {
    var (w, f) := Cut(Body(s), '.');
    Scaled(w, f)
  }

  lemma SpacedNeverOverflows(s: string)
    requires !IsTrimmed(s)
    ensures !CoreV2QuantityOverflows(s)
  {
    var (whole, fraction) := Cut(s, '.');
    var i := IndexOf(s, '.');
    if IsSpace(s[0]) {
      assert !IsDigit(whole[0]);
    } else if i == |s| {
      assert !IsDigit(whole[|whole| - 1]);
    } else if |fraction| <= 6 {
      var k := |fraction| - 1;
      assert IsSpace(fraction[k]) && PadFraction(fraction)[k] == fraction[k];
    }
  }

  /**
   On text the shared parser accepts, the guard fires exactly when the number of millionths
   leaves int64 and there is no surrounding space. With surrounding space it stays silent,
   whatever the number; the v2 check has by then already refused such text.
   */
  lemma GuardExact(s: string)
    requires QuantityOf(s).Ok?
    ensures CoreV2QuantityOverflows(s) <==> IsTrimmed(s) && ExactMillionths(s) > MAX_INT64
  {
    if IsTrimmed(s) {
      GuardExactTrimmed(s);
    } else {
      SpacedNeverOverflows(s);
    }
  }

  lemma GuardExactTrimmed(s: string)
    requires QuantityOf(s).Ok? && IsTrimmed(s)
    ensures CoreV2QuantityOverflows(s) <==> ExactMillionths(s) > MAX_INT64
  {
    TrimSpaceFixes(s);
    SignedIsNotPlainBody(s);
    SplitMatchesCut(s);
    CutThroughSign(s);
    var (w, f) := Cut(Body(s), '.');
    PaddedParses(PadFraction(f));
    GuardArithmetic(NatOf(w), NatOf(PadFraction(f)));
  }

  /** Dividing what the fraction leaves of the range decides the overflow. */
  lemma GuardArithmetic(whole: nat, fraction: nat)
    requires fraction < MILLION
    ensures whole > GoDiv(Wrap64(MAX_INT64 - fraction), MILLION) <==> whole * MILLION + fraction > MAX_INT64
  {
  }

  lemma SignedIsNotPlainBody(s: string)
    requires QuantityOf(s).Ok? && IsTrimmed(s)
    ensures s != "" && !HasPrefix(s, '-') && TrimSpace(s) == s
  {
    TrimSpaceFixes(s);
    if s == "" || HasPrefix(s, '-') {
      SignedIsNotPlain(s);
    }
  }

  lemma CutThroughSign(s: string)
    requires s != "" && TrimSpace(s) == s && !HasPrefix(s, '-')
    ensures Cut(s, '.').0 == Split(s, '.')[0]
    ensures Cut(s, '.').1 == Cut(Body(s), '.').1
  {
    if HasPrefix(s, '+') {
      assert IndexOf(s, '.') == 1 + IndexOf(s[1..], '.');
    }
  }

  /** Untrimmed text on which the guard is silent although the parsed value has wrapped. */
  lemma GuardSilentOnSpaces(units: nat)
    requires MAX_INT64 / MILLION < units <= MAX_INT64
    ensures var s := " " + FormatNat(units);
            && QuantityOf(s).Ok?
            && !CoreV2QuantityOverflows(s)
            && ExactMillionths(s) == units * MILLION > MAX_INT64
            && QuantityOf(s).value.millionths != ExactMillionths(s)
  {
    var t := FormatNat(units);
    var s := " " + t;
    NatOfFormat(units);
    assert Spells(t, t, "");
    SpellsCuts(t, t, "");
    assert s[1..] == t && TrimLeft(s) == t && TrimLeft(t) == t;
    assert Body(s) == t;
    LeadingZeros(6, "");
    assert PadFraction("") == Repeat('0', 6) + "";
    SpacedNeverOverflows(s);
  }

  /** How the v2 verdict refines the lenient one, and that the parsed value is then the exact one. */
  lemma V2Refines(raw: string)
    ensures V2QuantityOf(raw).Ok? <==>
              && QuantityOf(raw).Ok?
              && IsTrimmed(raw) && !HasPrefix(raw, '+') && !HasSuffix(raw, '.')
              && ExactMillionths(raw) <= MAX_INT64
    ensures V2QuantityOf(raw).Ok? ==> V2QuantityOf(raw) == QuantityOf(raw) == Ok(Quantity(ExactMillionths(raw)))
  {
    TrimSpaceFixes(raw);
    if QuantityOf(raw).Ok? {
      GuardExact(raw);
    }
  }

  // ---------- The accepted languages, by decimal value ----------

  /** The value of the digits after a decimal point: a tenth of the first digit and what follows it. */
  function FractionValue(f: string): real {
    if f == "" then 0.0 else (DigitValue(f[0]) as real + FractionValue(f[1..])) / 10.0
  }

  function DecimalValue(w: string, f: string): real {
    NatOf(w) as real + FractionValue(f)
  }

  /** Moves the decimal point `n` places to the right. */
  function ShiftPoint(v: real, n: nat): real
    decreases n
  {
    if n == 0 then v else ShiftPoint(v * 10.0, n - 1)
  }

  /** Digits after the point become digits before it, one shift each. */
  lemma {:induction false} DigitsShift(before: string, f: string)
    ensures NatOf(before + f) as real == ShiftPoint(NatOf(before) as real + FractionValue(f), |f|)
    decreases |f|
  {
    if f == "" {
      assert before + f == before;
    } else {
      var longer := before + [f[0]];
      assert longer[..|before|] == before;
      assert before + f == longer + f[1..];
      DigitsShift(longer, f[1..]);
    }
  }

  lemma {:induction false} ZerosAreNothing(n: nat)
    ensures FractionValue(Repeat('0', n)) == 0.0
  {
    if n > 0 {
      assert Repeat('0', n)[1..] == Repeat('0', n - 1);
      ZerosAreNothing(n - 1);
    }
  }

  /** Digits worth nothing can follow a fraction. */
  lemma {:induction false} TrailingZeros(f: string, zeros: string)
    requires FractionValue(zeros) == 0.0
    ensures FractionValue(f + zeros) == FractionValue(f)
  {
    if f == "" {
      assert f + zeros == zeros;
    } else {
      assert (f + zeros)[1..] == f[1..] + zeros;
      TrailingZeros(f[1..], zeros);
    }
  }

  /** Six digits, read as a number, are a million times their value after a point. */
  lemma SixDigitsScale(g: string)
    requires |g| == 6
    ensures NatOf(g) as real == FractionValue(g) * 1000000.0
  {
    var none := g[..0];
    assert none + g == g;
    assert NatOf(none) == 0;
    DigitsShift(none, g);
    SixPlaces(NatOf(none) as real + FractionValue(g));
  }

  lemma PaddedIsFraction(f: string)
    requires |f| <= 6
    ensures NatOf(PadFraction(f)) as real == FractionValue(f) * 1000000.0
  {
    SixDigitsScale(PadFraction(f));
    PaddingKeepsValue(f);
  }

  lemma PaddingKeepsValue(f: string)
    requires |f| <= 6
    ensures FractionValue(PadFraction(f)) == FractionValue(f)
  {
    ZerosAreNothing(6 - |f|);
    TrailingZeros(f, Repeat('0', 6 - |f|));
  }

  /** The parser's integer arithmetic computes a million times the decimal value. */
  lemma ScaledIsDecimal(w: string, f: string)
    requires |f| <= 6
    ensures Scaled(w, f) as real == DecimalValue(w, f) * 1000000.0
  {
    PaddedIsFraction(f);
  }

  lemma SixPlaces(v: real)
    ensures ShiftPoint(v, 6) == v * 1000000.0
  {
    assert ShiftPoint(v, 6) == ShiftPoint(v * 10.0 * 10.0, 4);
    assert ShiftPoint(v * 10.0 * 10.0, 4) == ShiftPoint(v * 10.0 * 10.0 * 10.0 * 10.0, 2);
  }

  /** `raw` is one or more digits, or such digits, a dot and one to six digits. */
  ghost predicate Spells(raw: string, w: string, f: string) {
    && PlainDecimal(w, f)
    && raw == if f == "" then w else w + "." + f
  }

  lemma SpellsCuts(raw: string, w: string, f: string)
    requires Spells(raw, w, f)
    ensures IsTrimmed(raw) && !HasPrefix(raw, '+') && !HasSuffix(raw, '.')
    ensures Body(raw) == raw && Cut(raw, '.') == (w, f)
  {
    assert IsDigit(w[0]) && IsDigit(w[|w| - 1]);
    assert f != "" ==> IsDigit(f[|f| - 1]);
    TrimSpaceFixes(raw);
    IndexOfIs(raw, '.', |w|);
    if f != "" {
      assert raw[..|w|] == w && raw[|w| + 1..] == f;
    }
  }

  /** Of a spelled-out decimal, v2 accepts exactly those within int64 millionths, at their value. */
  lemma V2Value(raw: string, w: string, f: string)
    requires Spells(raw, w, f)
    ensures V2QuantityOf(raw).Ok? <==> DecimalValue(w, f) * 1000000.0 <= MAX_INT64 as real
    ensures V2QuantityOf(raw).Ok? ==> V2QuantityOf(raw).value.millionths as real == DecimalValue(w, f) * 1000000.0
  {
    SpellsCuts(raw, w, f);
    ScaledIsDecimal(w, f);
    V2Refines(raw);
    assert Scaled(w, f) <= MAX_INT64 ==> NatOf(w) <= MAX_INT64;
  }

  lemma V2Spelling(raw: string)
    requires V2QuantityOf(raw).Ok?
    ensures Spells(raw, Cut(raw, '.').0, Cut(raw, '.').1)
  {
    V2Refines(raw);
    TrimSpaceFixes(raw);
    CutRejoins(raw, '.');
    assert Body(raw) == raw;
  }

  ghost predicate InV2Language(raw: string) {
    exists w, f :: Spells(raw, w, f) && DecimalValue(w, f) * 1000000.0 <= MAX_INT64 as real
  }

  /** The v2 language, exactly. */
  lemma V2Language(raw: string)
    ensures V2QuantityOf(raw).Ok? <==> InV2Language(raw)
    ensures V2QuantityOf(raw).Err? ==> Is(V2QuantityOf(raw).error, ErrInvalidQuantity)
  {
    if V2QuantityOf(raw).Ok? {
      V2Spelling(raw);
      V2Value(raw, Cut(raw, '.').0, Cut(raw, '.').1);
    }
    if InV2Language(raw) {
      var w, f :| Spells(raw, w, f) && DecimalValue(w, f) * 1000000.0 <= MAX_INT64 as real;
      V2Value(raw, w, f);
    }
  }

  /**
   The v1 language: v2's spellings with optional surrounding space, plus sign and trailing dot,
   and the whole part in int64. The stored number is the decimal value exactly when that fits.
   */
  lemma V1Value(s: string)
    requires QuantityOf(s).Ok?
    ensures var (w, f) := Cut(Body(s), '.');
            && PlainDecimal(w, f) && NatOf(w) <= MAX_INT64
            && (Body(s) == w + "." + f || (f == "" && Body(s) == w))
            && (QuantityOf(s).value.millionths as real == DecimalValue(w, f) * 1000000.0
                <==> DecimalValue(w, f) * 1000000.0 <= MAX_INT64 as real)
  {
    CutRejoins(Body(s), '.');
    var (w, f) := Cut(Body(s), '.');
    ScaledIsDecimal(w, f);
    assert InInt64(Scaled(w, f)) <==> Scaled(w, f) as real <= MAX_INT64 as real;
  }

  /** An optional plus, digits within int64, and optionally a dot and up to six digits. */
  ghost predicate SpellsLeniently(t: string, w: string, f: string) {
    && PlainDecimal(w, f) && NatOf(w) <= MAX_INT64
    && ((f == "" && (t == w || t == "+" + w)) || t == w + "." + f || t == "+" + (w + "." + f))
  }

  ghost predicate InV1Language(s: string) {
    exists lead, t, trail, w, f :: Surrounds(s, lead, t, trail) && SpellsLeniently(t, w, f)
  }

  /** Cutting digits, or digits, a dot and digits, at the dot gives back the two parts. */
  lemma CutPlain(b: string, w: string, f: string)
    requires PlainDecimal(w, f) && (b == w + "." + f || (f == "" && b == w))
    ensures Cut(b, '.') == (w, f)
  {
    IndexOfIs(b, '.', |w|);
    assert b[..|w|] == w;
    assert |b| > |w| ==> b[|w| + 1..] == f;
  }

  lemma LenientBody(t: string, w: string, f: string) returns (b: string)
    requires SpellsLeniently(t, w, f)
    ensures t != "" && IsTrimmed(t)
    ensures b == if HasPrefix(t, '+') then t[1..] else t
    ensures b == w + "." + f || (f == "" && b == w)
  {
    assert IsDigit(w[0]) && IsDigit(w[|w| - 1]);
    assert f != "" ==> IsDigit(f[|f| - 1]);
    b := if HasPrefix(t, '+') then t[1..] else t;
  }

  lemma PlainBodyAccepted(s: string, w: string, f: string)
    requires PlainDecimal(w, f) && NatOf(w) <= MAX_INT64
    requires Body(s) == w + "." + f || (f == "" && Body(s) == w)
    ensures QuantityOf(s) == Ok(Quantity(Wrap64(Scaled(w, f))))
  {
    CutPlain(Body(s), w, f);
  }

  lemma LenientAccepted(s: string, lead: string, t: string, trail: string, w: string, f: string)
    requires Surrounds(s, lead, t, trail) && SpellsLeniently(t, w, f)
    ensures QuantityOf(s) == Ok(Quantity(Wrap64(Scaled(w, f))))
  {
    var b := LenientBody(t, w, f);
    TrimSpaceRemoves(s, lead, t, trail);
    assert Body(s) == b;
    PlainBodyAccepted(s, w, f);
  }

  /** What is stored for a lenient spelling is its decimal value in millionths, less `k` times two to the 64. */
  lemma V1Stores(s: string, lead: string, t: string, trail: string, w: string, f: string) returns (k: int)
    requires Surrounds(s, lead, t, trail) && SpellsLeniently(t, w, f)
    ensures QuantityOf(s).Ok?
    ensures QuantityOf(s).value.millionths as real == DecimalValue(w, f) * 1000000.0 - (k * TWO_TO_64) as real
  {
    LenientAccepted(s, lead, t, trail, w, f);
    ScaledIsDecimal(w, f);
    k := WrapCount(Scaled(w, f));
  }

  lemma LenientSpelling(s: string)
    requires QuantityOf(s).Ok?
    ensures SpellsLeniently(TrimSpace(s), Cut(Body(s), '.').0, Cut(Body(s), '.').1)
  {
    var t := TrimSpace(s);
    CutRejoins(Body(s), '.');
    assert t == Body(s) || t == "+" + Body(s);
  }

  /** The v1 language, exactly; text outside it is an invalid quantity. */
  lemma V1Language(s: string)
    ensures QuantityOf(s).Ok? <==> InV1Language(s)
    ensures QuantityOf(s).Err? ==> Is(QuantityOf(s).error, ErrInvalidQuantity)
  {
    if QuantityOf(s).Ok? {
      LenientSpelling(s);
      var lead, trail := TrimSpaceSplits(s);
      assert Surrounds(s, lead, TrimSpace(s), trail);
    }
    if InV1Language(s) {
      var lead, t, trail, w, f :| Surrounds(s, lead, t, trail) && SpellsLeniently(t, w, f);
      LenientAccepted(s, lead, t, trail, w, f);
    }
  }

  /** Whole units whose millionths reach the upper half of the unsigned range read as negative. */
  lemma WholeUnitsWrapNegative(t: string)
    requires IsShortest(t) && MAX_INT64 < NatOf(t) * MILLION < TWO_TO_64
    ensures QuantityOf(t).Ok? && QuantityOf(t).value.millionths < 0
  {
    assert Spells(t, t, "");
    SpellsCuts(t, t, "");
    LeadingZeros(6, "");
    assert PadFraction("") == Repeat('0', 6) + "";
  }

  lemma NextDigit(t: string, k: nat, value: nat)
    requires k < |t| && NatOf(t[..k]) == value
    ensures NatOf(t[..k + 1]) == value * 10 + DigitValue(t[k])
  {
    assert t[..k + 1][..k] == t[..k];
  }

  lemma NextThree(t: string, k: nat, value: nat)
    requires k + 3 <= |t| && NatOf(t[..k]) == value
    ensures NatOf(t[..k + 3])
         == value * 1000 + DigitValue(t[k]) * 100 + DigitValue(t[k + 1]) * 10 + DigitValue(t[k + 2])
  {
    NextDigit(t, k, value);
    NextDigit(t, k + 1, NatOf(t[..k + 1]));
    NextDigit(t, k + 2, NatOf(t[..k + 2]));
  }

  lemma WitnessUnits(t: string)
    requires t == "9223372036855"
    ensures NatOf(t) == 9223372036855
  {
    NextDigit(t, 0, 0);
    NextThree(t, 1, 9);
    NextThree(t, 4, 9223);
    NextThree(t, 7, 9223372);
    NextThree(t, 10, 9223372036);
    assert t[..13] == t;
  }

  /** A v1 text that is accepted as a negative quantity. */
  lemma V1WrapsNegative()
    ensures QuantityOf("9223372036855").Ok? && QuantityOf("9223372036855").value.millionths < 0
  {
    var t := "9223372036855";
    WitnessUnits(t);
    WholeUnitsWrapNegative(t);
  }

  // ---------- Printing and reading back ----------

  lemma {:induction false} TrimZerosPads(s: string)
    ensures |TrimZeros(s)| <= |s|
    ensures TrimZeros(s) + Repeat('0', |s| - |TrimZeros(s)|) == s
    ensures HasSuffix(TrimZeros(s), '0') == false
  {
    if s != "" && s[|s| - 1] == '0' {
      TrimZerosPads(s[..|s| - 1]);
    }
  }

  lemma {:induction false} TrimZerosOfPadded(f: string, n: nat)
    requires !HasSuffix(f, '0')
    ensures TrimZeros(f + Repeat('0', n)) == f
  {
    var g := f + Repeat('0', n);
    if n == 0 {
      assert g == f;
    } else {
      assert g[..|g| - 1] == f + Repeat('0', n - 1);
      TrimZerosOfPadded(f, n - 1);
    }
  }

  /** A text spells its canonical form: shortest whole part, no trailing zero in the fraction. */
  ghost predicate SpellsCanonically(t: string, w: string, f: string) {
    Spells(t, w, f) && IsShortest(w) && !HasSuffix(f, '0')
  }

  lemma SixDigits(n: nat)
    requires n < MILLION
    ensures |FormatPadded(n, 6)| == 6 && AllDigits(FormatPadded(n, 6)) && NatOf(FormatPadded(n, 6)) == n
  {
    assert Pow10(6) == 1_000_000;
    PaddedDigits(n, 6);
  }

  /** Six digits are all zero exactly when their value is. */
  lemma ZeroDigits(padded: string)
    requires |padded| == 6 && AllDigits(padded)
    ensures NatOf(padded) == 0 <==> padded == Repeat('0', 6)
  {
    LeadingZeros(6, "");
    assert Repeat('0', 6) + "" == Repeat('0', 6);
    if NatOf(padded) == 0 {
      SameLengthSameValue(padded, Repeat('0', 6));
    }
  }

  /** Trimming the zeros of six digits keeps digits that pad back to them. */
  lemma TrimmedFraction(padded: string)
    requires |padded| == 6 && AllDigits(padded)
    ensures var f := TrimZeros(padded);
            |f| <= 6 && AllDigits(f) && !HasSuffix(f, '0') && PadFraction(f) == padded
  {
    TrimZerosPads(padded);
    var f := TrimZeros(padded);
    assert forall i :: 0 <= i < |f| ==> f[i] == padded[i];
  }

  /** Printing a non-negative quantity gives the canonical spelling of its exact value. */
  lemma PrintsCanonically(q: Quantity) returns (w: string, f: string)
    requires q.millionths >= 0
    ensures SpellsCanonically(QuantityText(q), w, f)
    ensures Scaled(w, f) == q.millionths
  {
    var whole, fraction := q.millionths / MILLION, q.millionths % MILLION;
    var padded := FormatPadded(fraction, 6);
    SixDigits(fraction);
    NatOfFormat(whole);
    TrimmedFraction(padded);
    w, f := FormatNat(whole), TrimZeros(padded);
    ZeroDigits(padded);
    PaddedIsZero(f);
  }

  /** A fraction in canonical form is what printing its six padded digits gives back. */
  lemma FractionReprints(f: string)
    requires AllDigits(f) && |f| <= 6 && !HasSuffix(f, '0')
    ensures NatOf(PadFraction(f)) < MILLION
    ensures TrimZeros(FormatPadded(NatOf(PadFraction(f)), 6)) == f
    ensures NatOf(PadFraction(f)) == 0 <==> f == ""
  {
    PaddedReprints(PadFraction(f));
    TrimZerosOfPadded(f, 6 - |f|);
    ZeroDigits(PadFraction(f));
    PaddedIsZero(f);
  }

  lemma PaddedReprints(padded: string)
    requires |padded| == 6 && AllDigits(padded)
    ensures NatOf(padded) < MILLION
    ensures FormatPadded(NatOf(padded), 6) == padded
  {
    PaddedParses(padded);
    SixDigits(NatOf(padded));
    SameLengthSameValue(FormatPadded(NatOf(padded), 6), padded);
  }

  lemma PaddedIsZero(f: string)
    requires |f| <= 6 && !HasSuffix(f, '0')
    ensures PadFraction(f) == Repeat('0', 6) <==> f == ""
  {
    if f != "" {
      assert PadFraction(f)[|f| - 1] != '0';
    }
  }

  /** A canonical text within range is what its own value prints as. */
  lemma CanonicalIsFixed(t: string, w: string, f: string)
    requires SpellsCanonically(t, w, f) && Scaled(w, f) <= MAX_INT64
    ensures QuantityOf(t) == Ok(Quantity(Scaled(w, f)))
    ensures QuantityText(Quantity(Scaled(w, f))) == t
  {
    SpellsCuts(t, w, f);
    FractionReprints(f);
    FormatOfNat(w);
    assert Scaled(w, f) / MILLION == NatOf(w) && Scaled(w, f) % MILLION == NatOf(PadFraction(f));
  }

  /**
   How `n` millionths below zero print: the whole units after a minus, unless there are none, then
   a dot and a second minus before at least five digits of the rest, without their last zeros.
   */
  ghost predicate SpellsNegative(text: string, n: nat) {
    exists w, d, z: nat :: SpellsNegativeAs(text, n, w, d, z)
  }

  predicate SpellsNegativeAs(text: string, n: nat, w: string, d: string, z: nat) {
    && IsShortest(w) && NatOf(w) == n / MILLION
    && if n % MILLION == 0 then text == "-" + w
       else text == (if n < MILLION then "" else "-") + w + ".-" + d && IsNegativeRest(n % MILLION, d, z)
  }

  /** The digits `d` and then `z` zeros are at least five digits worth `n`; `d` ends in no zero. */
  predicate IsNegativeRest(n: nat, d: string, z: nat) {
    && AllDigits(d) && !HasSuffix(d, '0') && NatOf(d + Repeat('0', z)) == n
    && |d| + z == if n < 100_000 then 5 else 6
  }

  lemma {:induction false} TrimThroughMinus(r: string)
    ensures TrimZeros("-" + r) == "-" + TrimZeros(r)
  {
    if r != "" {
      assert ("-" + r)[..|r|] == "-" + r[..|r| - 1];
      if r[|r| - 1] == '0' {
        TrimThroughMinus(r[..|r| - 1]);
      }
    }
  }

  /** The padded digits of a negative rest, after its minus. */
  lemma NegativePadded(n: nat) returns (rest: string)
    requires 0 < n < MILLION
    ensures FormatPadded(0 - n, 6) == "-" + rest
    ensures AllDigits(rest) && NatOf(rest) == n
    ensures |rest| == if n < 100_000 then 5 else 6
  {
    var digits := FormatNat(n);
    var zeros := if |digits| < 5 then 5 - |digits| else 0;
    FiveOrSix(n);
    LeadingZeros(zeros, digits);
    NatOfFormat(n);
    rest := Repeat('0', zeros) + digits;
  }

  lemma NegativeRest(n: nat) returns (d: string, z: nat)
    requires 0 < n < MILLION
    ensures TrimZeros(FormatPadded(0 - n, 6)) == "-" + d
    ensures IsNegativeRest(n, d, z)
  {
    var rest := NegativePadded(n);
    TrimThroughMinus(rest);
    TrimZerosPads(rest);
    d, z := TrimZeros(rest), |rest| - |TrimZeros(rest)|;
    assert forall i :: 0 <= i < |d| ==> d[i] == rest[i];
  }

  lemma FiveOrSix(n: nat)
    requires n < MILLION
    ensures n < 100_000 ==> |FormatNat(n)| <= 5
    ensures n >= 100_000 ==> |FormatNat(n)| == 6
  {
    assert Pow10(5) == 100_000 && Pow10(6) == 1_000_000;
    if n < 100_000 {
      FormatLength(n, 5);
    } else {
      FormatLength(n, 6);
      NatOfBound(FormatNat(n));
      NatOfFormat(n);
      if |FormatNat(n)| <= 5 {
        PowersGrow(|FormatNat(n)|, 5);
      }
    }
  }

  lemma {:induction false} PowersGrow(a: nat, b: nat)
    requires a <= b
    ensures Pow10(a) <= Pow10(b)
  {
    if a < b {
      PowersGrow(a, b - 1);
    }
  }

  /** The text of a negative quantity, in full. */
  lemma NegativePrinted(q: Quantity)
    requires q.millionths < 0
    ensures SpellsNegative(QuantityText(q), 0 - q.millionths)
  {
    var n: nat := 0 - q.millionths;
    var w := FormatNat(n / MILLION);
    NatOfFormat(n / MILLION);
    if n % MILLION == 0 {
      NegativeWhole(q, w);
      assert SpellsNegativeAs(QuantityText(q), n, w, "", 0);
    } else {
      var d, z := NegativeRest(n % MILLION);
      NegativeParts(q, w, d);
      assert SpellsNegativeAs(QuantityText(q), n, w, d, z);
    }
  }

  lemma NegativeWhole(q: Quantity, w: string)
    requires q.millionths < 0 && (0 - q.millionths) % MILLION == 0
    requires w == FormatNat((0 - q.millionths) / MILLION)
    ensures QuantityText(q) == "-" + w
  {
  }

  lemma NegativeParts(q: Quantity, w: string, d: string)
    requires q.millionths < 0 && (0 - q.millionths) % MILLION != 0
    requires w == FormatNat((0 - q.millionths) / MILLION)
    requires TrimZeros(FormatPadded(0 - (0 - q.millionths) % MILLION, 6)) == "-" + d
    ensures QuantityText(q) == (if 0 - q.millionths < MILLION then "" else "-") + w + ".-" + d
  {
    var sign := if 0 - q.millionths < MILLION then "" else "-";
    assert QuantityText(q) == FormatInt(GoDiv(q.millionths, MILLION)) + "." + ("-" + d);
    assert FormatInt(GoDiv(q.millionths, MILLION)) == sign + w;
  }

  lemma NegativePrintsUnreadably(q: Quantity)
    requires q.millionths < 0
    ensures QuantityOf(QuantityText(q)).Err?
  {
    var whole, fraction := GoDiv(q.millionths, MILLION), GoMod(q.millionths, MILLION);
    var t := QuantityText(q);
    var padded := FormatPadded(fraction, 6);
    TrimZerosPads(padded);
    var f := TrimZeros(padded);
    assert t == FormatInt(whole) || t == FormatInt(whole) + "." + f;
    assert forall i :: 0 <= i < |f| ==> f[i] == padded[i];
    assert IsTrimmed(t) by {
      assert !IsSpace(t[|t| - 1]);
    }
    TrimSpaceFixes(t);
    if whole < 0 {
      assert HasPrefix(t, '-');
      SignedIsNotPlain(t);
    } else {
      assert FormatInt(0) == "0";
      assert padded[0] == '-' && f != "";
      IndexOfIs(t, '.', 1);
      assert t[2..] == f && !IsDigit(f[0]);
    }
  }

  /** Printing then reading returns the quantity, under either contract, exactly when it is not negative. */
  lemma QuantityRoundTrip(q: Quantity)
    ensures QuantityOf(QuantityText(q)) == Ok(q) <==> q.millionths >= 0
    ensures V2QuantityOf(QuantityText(q)) == Ok(q) <==> q.millionths >= 0
    ensures QuantityOf(QuantityText(q)).Ok? <==> q.millionths >= 0
  {
    var t := QuantityText(q);
    if q.millionths >= 0 {
      var w, f := PrintsCanonically(q);
      CanonicalIsFixed(t, w, f);
      SpellsCuts(t, w, f);
      V2Refines(t);
    } else {
      NegativePrintsUnreadably(q);
    }
  }

  lemma QuantityTextInjective(a: Quantity, b: Quantity)
    requires a.millionths >= 0
    requires QuantityText(a) == QuantityText(b)
    ensures a == b
  {
    QuantityRoundTrip(a);
    QuantityRoundTrip(b);
  }

  /** Print-after-parse is a normal form: it keeps the value and two spellings of one value agree. */
  lemma NormalForm(s: string, t: string)
    requires QuantityOf(s).Ok? && QuantityOf(t).Ok?
    requires ExactMillionths(s) <= MAX_INT64 && ExactMillionths(t) <= MAX_INT64
    ensures QuantityOf(QuantityText(QuantityOf(s).value)) == QuantityOf(s)
    ensures QuantityText(QuantityOf(s).value) == QuantityText(QuantityOf(t).value)
       <==> ExactMillionths(s) == ExactMillionths(t)
  {
    QuantityRoundTrip(QuantityOf(s).value);
    QuantityRoundTrip(QuantityOf(t).value);
  }
}
