/**
 * The arithmetic of the report generators: whole-day differences between
 * timestamps, JavaScript Number sums that turn into NaN, averages that are
 * NaN on an empty collection, and `Math.round`.
 */
module Numbers {
  import opened Decimal

  /** An instant, in milliseconds since the epoch (what `parseISO` yields). */
  type Timestamp = int

  type Positive = n: nat | n > 0 witness 1

  const DayMs: Positive := 86_400_000

  /**
   * `differenceInDays(later, earlier)`: the number of full days between two
   * instants, truncated toward zero, so negative differences round up.
   */
  function DiffDays(later: Timestamp, earlier: Timestamp): (d: int)
    ensures later >= earlier ==> d >= 0 && d * DayMs <= later - earlier < (d + 1) * DayMs
    ensures later < earlier ==> d <= 0 && (d - 1) * DayMs < later - earlier <= d * DayMs
  {
    var ms := later - earlier;
    if ms >= 0 then ms / DayMs else -((-ms) / DayMs)
  }

  /** Instants a whole number of days apart are exactly that many days apart. */
  lemma DiffDaysWholeDays(t: Timestamp, n: nat)
    ensures DiffDays(t + n * DayMs, t) == n
  {
    var d := DiffDays(t + n * DayMs, t);
    if d < n {
      MulMonotone(d + 1, n, DayMs);
      assert false;
    } else if d > n {
      MulMonotone(n + 1, d, DayMs);
      assert false;
    }
  }

  /** 2024-01-01T00:00:00Z to 2024-01-04T00:00:00Z is 3 days. */
  lemma DiffDaysNewYear2024()
    ensures DiffDays(1_704_326_400_000, 1_704_067_200_000) == 3
  {
  }

  /** Swapping the instants only flips the sign, which floor division would not give. */
  lemma DiffDaysAntisymmetric(a: Timestamp, b: Timestamp)
    ensures DiffDays(a, b) == -DiffDays(b, a)
  {
  }

  /** An integral JavaScript Number, or NaN. */
  datatype Number = NaN | Int(value: int)

  /** JavaScript `+` on Numbers: NaN absorbs. */
  function Plus(a: Number, b: Number): Number {
    if a.Int? && b.Int? then Int(a.value + b.value) else NaN
  }

  /** `xs.reduce((mem, x) => mem + x, acc)`: a left fold from `acc`. */
  function SumLeft(acc: Number, xs: seq<Number>): Number
    decreases |xs|
  {
    if |xs| == 0 then acc else SumLeft(Plus(acc, xs[0]), xs[1..])
  }

  predicate AllFinite(xs: seq<Number>) {
    forall i :: 0 <= i < |xs| ==> xs[i].Int?
  }

  /** The mathematical sum of the finite entries, the reference for the fold. */
  function FiniteSum(xs: seq<Number>): int
    decreases |xs|
  {
    if |xs| == 0 then 0
    else (if xs[0].Int? then xs[0].value else 0) + FiniteSum(xs[1..])
  }

  /** The fold is NaN exactly when the start or some entry is NaN, and otherwise the plain sum. */
  lemma {:induction false} SumLeftTotal(acc: Number, xs: seq<Number>)
    ensures SumLeft(acc, xs) == if acc.Int? && AllFinite(xs) then Int(acc.value + FiniteSum(xs)) else NaN
    decreases |xs|
  {
    if |xs| > 0 {
      SumLeftTotal(Plus(acc, xs[0]), xs[1..]);
      assert AllFinite(xs) <==> xs[0].Int? && AllFinite(xs[1..]) by {
        if xs[0].Int? && AllFinite(xs[1..]) {
          forall i | 0 <= i < |xs| ensures xs[i].Int? {
            if i > 0 {
              assert xs[i] == xs[1..][i - 1];
            }
          }
        }
      }
    }
  }

  /** A JavaScript quotient `sum / count`: NaN, or an exact ratio with a positive denominator. */
  datatype Quotient = NotANumber | Ratio(num: int, den: Positive)

  /**
   * `xs.reduce(+, 0) / xs.length`: NaN when `xs` is empty (0 / 0) or holds
   * a NaN, and otherwise the sum of the entries over their number.
   */
  function Mean(xs: seq<Number>): (q: Quotient)
    ensures q.Ratio? <==> |xs| > 0 && AllFinite(xs)
    ensures q.Ratio? ==> q.num == FiniteSum(xs) && q.den == |xs|
  {
    SumLeftTotal(Int(0), xs);
    var total := SumLeft(Int(0), xs);
    if |xs| == 0 || total.NaN? then NotANumber else Ratio(total.value, |xs|)
  }

  /**
   * `Math.round`: the nearest integer, with halves going up toward positive
   * infinity; NaN stays NaN. For a ratio p/d this is floor((2p + d) / (2d)).
   */
  function MathRound(q: Quotient): (r: Number)
    ensures r.NaN? <==> q.NotANumber?
    ensures q.Ratio? ==> 2 * r.value * q.den - q.den <= 2 * q.num < 2 * r.value * q.den + q.den
  {
    match q
    case NotANumber => NaN
    case Ratio(p, d) =>
      var k := (2 * p + d) / (2 * d);
      RoundBounds(p, d, k);
      Int(k)
  }

  /** The closed form of `MathRound` on a ratio, for callers that reason about the formula. */
  lemma MathRoundFormula(p: int, d: Positive)
    ensures MathRound(Ratio(p, d)) == Int((2 * p + d) / (2 * d))
  {
  }

  /** floor((2p + d) / (2d)) lies within half a unit of p/d, halves going up: k - 1/2 <= p/d < k + 1/2. */
  lemma RoundBounds(p: int, d: Positive, k: int)
    requires k == (2 * p + d) / (2 * d)
    ensures 2 * k * d - d <= 2 * p < 2 * k * d + d
  {
    var m := (2 * p + d) % (2 * d);
    assert 2 * p + d == 2 * d * k + m;
    assert 0 <= m < 2 * d;
  }

  /** Exactly one integer lies within half a unit of p/d on the rounding side, so `MathRound` is that integer. */
  lemma RoundUnique(p: int, d: Positive, k: int)
    requires 2 * k * d - d <= 2 * p < 2 * k * d + d
    ensures MathRound(Ratio(p, d)) == Int(k)
  {
    var j := MathRound(Ratio(p, d)).value;
    assert 2 * j * d - d <= 2 * p < 2 * j * d + d;
    if j < k {
      MulMonotone(j + 1, k, d);
      assert false;
    } else if j > k {
      MulMonotone(k + 1, j, d);
      assert false;
    }
  }

  lemma MulMonotone(a: int, b: int, d: nat)
    requires a <= b
    ensures a * d <= b * d
  {
    assert b * d - a * d == (b - a) * d;
  }

  /** `s` reads back as `n`: the word NaN exactly for NaN, otherwise integer text of its value. */
  predicate ShowsNumber(s: string, n: Number) {
    && (s == "NaN" <==> n.NaN?)
    && (n.Int? ==> IsIntText(s) && ParseInt(s) == n.value)
  }

  /** A Number as a template literal prints it. */
  function NumberText(n: Number): (s: string)
    ensures ShowsNumber(s, n)
  {
    match n
    case NaN => "NaN"
    case Int(k) =>
      ParseIntToString(k);
      IntToString(k)
  }

  /**
   * `s` reads back as `q` as far as it is modelled: NaN as the word NaN, an
   * exact quotient as integer text that times the denominator gives the numerator.
   */
  predicate ShowsQuotient(s: string, q: Quotient) {
    && (q.NotANumber? ==> s == "NaN")
    && (q.Ratio? && q.num % q.den == 0 ==> IsIntText(s) && ParseInt(s) * q.den == q.num)
  }

  /**
   * An unrounded quotient as a template literal prints it: "NaN", the
   * integer when the division is exact, and otherwise whatever `showReal`
   * renders (JavaScript's floating-point formatting is not modelled).
   */
  function QuotientText(q: Quotient, showReal: (int, Positive) -> string): (s: string)
    ensures ShowsQuotient(s, q)
  {
    match q
    case NotANumber => "NaN"
    case Ratio(p, d) =>
      if p % d == 0 then
        ParseIntToString(p / d);
        IntToString(p / d)
      else showReal(p, d)
  }
}
