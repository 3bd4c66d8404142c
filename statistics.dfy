/**
 * `calculateCompletionRate` and `calculateAverageTime`: the two scalar
 * statistics of the summary, as exact rationals.
 */
module Statistics {
  import opened JsValue
  import opened ParseInt
  import opened Arith

  /** `r.completed === true || r.submitted === true`: strict equality, so
      only the boolean `true` counts, not `"true"` or `1`. */
  predicate IsCompleted(r: Record) {
    Get(r, "completed") == Some(Bool(true)) || Get(r, "submitted") == Some(Bool(true))
  }

  /** `responses.filter(IsCompleted).length`. */
  function CompletedCount(rs: seq<Record>): nat {
    if rs == [] then 0
    else CompletedCount(rs[..|rs| - 1]) + (if IsCompleted(rs[|rs| - 1]) then 1 else 0)
  }

  lemma {:induction false} CompletedCountBounds(rs: seq<Record>)
    ensures CompletedCount(rs) <= |rs|
    ensures CompletedCount(rs) == |rs| <==> forall i :: 0 <= i < |rs| ==> IsCompleted(rs[i])
  {
    if rs != [] {
      var pre := rs[..|rs| - 1];
      CompletedCountBounds(pre);
      assert forall i :: 0 <= i < |pre| ==> pre[i] == rs[i];
    }
  }

  /** `(completed / total) * 100`, and `0` when there is nothing to count. */
  function Percent(completed: nat, total: nat): (rate: real)
    requires completed <= total
    ensures total == 0 ==> rate == 0.0
    ensures 0.0 <= rate <= 100.0
    ensures total > 0 ==> rate * total as real == 100.0 * completed as real
  {
    if total == 0 then 0.0 else (completed as real / total as real) * 100.0
  }

  lemma {:induction false} PercentExtremes(completed: nat, total: nat)
    requires completed <= total && total > 0
    ensures Percent(completed, total) == 100.0 <==> completed == total
    ensures Percent(completed, total) == 0.0 <==> completed == 0
  {
    var rate := Percent(completed, total);
    if completed == total {
      Cancel(rate, 100.0, total as real);
    }
    if completed == 0 {
      Cancel(rate, 0.0, total as real);
    }
  }

  /** Percentage of completed responses; `0` for no responses. */
  function CompletionRate(rs: seq<Record>): real {
    CompletedCountBounds(rs);
    Percent(CompletedCount(rs), |rs|)
  }

  /** The rate lies in [0, 100]; it is 100 exactly when every response is
      completed and 0 exactly when none is; no responses give 0. */
  lemma {:induction false} CompletionRateFacts(rs: seq<Record>)
    ensures 0.0 <= CompletionRate(rs) <= 100.0
    ensures |rs| == 0 ==> CompletionRate(rs) == 0.0
    ensures |rs| > 0 ==> (CompletionRate(rs) == 100.0 <==> forall i :: 0 <= i < |rs| ==> IsCompleted(rs[i]))
    ensures |rs| > 0 ==> (CompletionRate(rs) == 0.0 <==> CompletedCount(rs) == 0)
  {
    CompletedCountBounds(rs);
    if |rs| > 0 {
      PercentExtremes(CompletedCount(rs), |rs|);
    }
  }

  /** `parseInt(r.completionTime) || 0`, clamped to `0` when not positive. */
  function TimeOf(r: Record): nat {
    match ParseIntValue(Get(r, "completionTime"))
    case Some(t) => if t > 0 then t else 0
    case None => 0
  }

  /** The `map` step: one clamped time per response. */
  function Times(rs: seq<Record>): seq<nat> {
    seq(|rs|, i requires 0 <= i < |rs| => TimeOf(rs[i]))
  }

  /** The `filter(t => t > 0)` step. */
  function Positive(ts: seq<int>): seq<int> {
    if ts == [] then []
    else Positive(ts[..|ts| - 1]) + (if ts[|ts| - 1] > 0 then [ts[|ts| - 1]] else [])
  }

  /** The completion times that count. */
  function ValidTimes(rs: seq<Record>): seq<int> {
    Positive(Times(rs))
  }

  function Sum(ts: seq<int>): int {
    if ts == [] then 0 else Sum(ts[..|ts| - 1]) + ts[|ts| - 1]
  }

  /** `sum / count`, and `0` when there is nothing to average. */
  function Mean(sum: int, count: nat): real {
    if count == 0 then 0.0 else sum as real / count as real
  }

  /** Mean of the valid completion times; `0` when there is none. */
  function AverageTime(rs: seq<Record>): real {
    var ts := ValidTimes(rs);
    Mean(Sum(ts), |ts|)
  }

  lemma {:induction false} PositiveSnoc(ts: seq<int>, t: int)
    ensures Positive(ts + [t]) == Positive(ts) + (if t > 0 then [t] else [])
  {
    assert (ts + [t])[..|ts|] == ts;
  }

  /** What the filter keeps is positive and lies within any bounds that hold
      for the positive inputs: entries that are NaN or not positive enter
      neither the sum nor the count. */
  lemma {:induction false} PositiveBounds(ts: seq<int>, lo: int, hi: int)
    requires forall i :: 0 <= i < |ts| && ts[i] > 0 ==> lo <= ts[i] <= hi
    ensures |Positive(ts)| <= |ts|
    ensures forall j :: 0 <= j < |Positive(ts)| ==> 0 < Positive(ts)[j] && lo <= Positive(ts)[j] <= hi
  {
    if ts != [] {
      var n := |ts| - 1;
      assert forall i :: 0 <= i < n ==> ts[..n][i] == ts[i];
      PositiveBounds(ts[..n], lo, hi);
    }
  }

  /** The filter keeps an input that is all positive unchanged. */
  lemma {:induction false} PositiveAll(ts: seq<int>)
    requires forall i :: 0 <= i < |ts| ==> ts[i] > 0
    ensures Positive(ts) == ts
  {
    if ts != [] {
      var n := |ts| - 1;
      var pre := ts[..n];
      forall i | 0 <= i < |pre| ensures pre[i] > 0 {
        assert pre[i] == ts[i];
      }
      PositiveAll(pre);
      assert Positive(ts) == Positive(pre) + [ts[n]];
      assert pre + [ts[n]] == ts;
    }
  }

  lemma {:induction false} SumBounds(ts: seq<int>, lo: int, hi: int)
    requires forall j :: 0 <= j < |ts| ==> lo <= ts[j] <= hi
    ensures |ts| * lo <= Sum(ts) <= |ts| * hi
  {
    if ts != [] {
      var n := |ts| - 1;
      var pre := ts[..n];
      forall j | 0 <= j < |pre| ensures lo <= pre[j] <= hi {
        assert pre[j] == ts[j];
      }
      SumBounds(pre, lo, hi);
      assert Sum(ts) == Sum(pre) + ts[n];
      MulSucc(n, lo);
      MulSucc(n, hi);
    }
  }

  lemma {:induction false} MeanBounds(sum: int, count: nat, lo: int, hi: int)
    requires count > 0 && count * lo <= sum <= count * hi
    ensures lo as real <= Mean(sum, count) <= hi as real
  {
    var q, n := sum as real / count as real, count as real;
    assert q * n == sum as real;
    assert n * lo as real <= sum as real <= n * hi as real;
    if q < lo as real {
      LessTimes(q, lo as real, n);
      assert false;
    }
    if q > hi as real {
      LessTimes(hi as real, q, n);
      assert false;
    }
  }

  /** The mean lies between the smallest and the largest valid time; no
      valid time gives 0. */
  lemma {:induction false} AverageTimeBounds(rs: seq<Record>, lo: int, hi: int)
    requires forall i :: 0 <= i < |rs| && TimeOf(rs[i]) > 0 ==> lo <= TimeOf(rs[i]) <= hi
    ensures ValidTimes(rs) == [] ==> AverageTime(rs) == 0.0
    ensures ValidTimes(rs) != [] ==> lo as real <= AverageTime(rs) <= hi as real
  {
    var ts := ValidTimes(rs);
    PositiveBounds(Times(rs), lo, hi);
    if ts != [] {
      SumBounds(ts, lo, hi);
      MeanBounds(Sum(ts), |ts|, lo, hi);
    }
  }

  lemma {:induction false} TimesPointwise(rs: seq<Record>, ts: seq<nat>)
    requires |rs| == |ts|
    requires forall i :: 0 <= i < |rs| ==> TimeOf(rs[i]) == ts[i]
    ensures Times(rs) == ts
  {
  }

  lemma {:induction false} ExampleTimes(rs: seq<Record>)
    requires |rs| == 4
    requires Get(rs[0], "completionTime") == Some(Num(10))
    requires Get(rs[1], "completionTime") == Some(Num(0))
    requires Get(rs[2], "completionTime") == Some(Str("bad"))
    requires Get(rs[3], "completionTime") == Some(Num(30))
    ensures Times(rs) == [10, 0, 0, 30]
  {
    var ts: seq<nat> := [10, 0, 0, 30];
    forall i | 0 <= i < 4 ensures TimeOf(rs[i]) == ts[i] {
      if i == 2 {
        NonNumericIsNaN("bad");
      }
    }
    TimesPointwise(rs, ts);
  }

  lemma {:induction false} PositiveExample()
    ensures Positive([10, 0, 0, 30]) == [10, 30]
  {
    PositiveSnoc([], 10);
    PositiveSnoc([10], 0);
    PositiveSnoc([10, 0], 0);
    PositiveSnoc([10, 0, 0], 30);
    assert [] + [10] == [10];
    assert [10] + [0] == [10, 0];
    assert [10, 0] + [0] == [10, 0, 0];
    assert [10, 0, 0] + [30] == [10, 0, 0, 30];
  }

  /** Completion times 10, 0, "bad" and 30 average to 20: the 0 and the
      unparseable entry count neither in the sum nor in the count. */
  lemma {:induction false} AverageTimeExample(rs: seq<Record>)
    requires |rs| == 4
    requires Get(rs[0], "completionTime") == Some(Num(10))
    requires Get(rs[1], "completionTime") == Some(Num(0))
    requires Get(rs[2], "completionTime") == Some(Str("bad"))
    requires Get(rs[3], "completionTime") == Some(Num(30))
    ensures AverageTime(rs) == 20.0
  {
    ExampleTimes(rs);
    PositiveExample();
    assert [10, 30][..1] == [10];
    assert Sum([10, 30]) == 40;
  }

  /** The submission handlers' default completion time, "unspecified", is
      NaN and so never counts towards the mean. */
  lemma {:induction false} UnspecifiedTimeIgnored(r: Record)
    requires Get(r, "completionTime") == Some(Str(Unspecified))
    ensures TimeOf(r) == 0
  {
    NonNumericIsNaN(Unspecified);
  }

  /** `x.toFixed(1)` for the quotient `x = num / den`, as a number of
      tenths: the quotient rounded to the nearest tenth, halves up. */
  function Tenths(num: nat, den: nat): (t: nat)
    requires den > 0
    ensures 2 * den * t <= 20 * num + den < 2 * den * (t + 1)
  {
    (20 * num + den) / (2 * den)
  }

  /** The text `toFixed(1)` gives for `t` tenths: the integer part, a point
      and one digit. */
  function Fixed1(t: nat): string {
    IntToString(t / 10) + "." + ["0123456789"[t % 10]]
  }

  /** The unit appended to the average time: " minutes". */
  const Minutes: string := " دقيقة"

  /** `calculateCompletionRate(all) + '%'`: the number `0` when there are no
      responses, otherwise the rate with one decimal. */
  function RateText(rs: seq<Record>): string {
    if |rs| == 0 then IntToString(0) + "%"
    else Fixed1(Tenths(100 * CompletedCount(rs), |rs|)) + "%"
  }

  /** `calculateAverageTime(all) + ' دقيقة'`: the number `0` when no time is
      valid, otherwise the mean with one decimal. */
  function TimeText(rs: seq<Record>): string {
    var ts := ValidTimes(rs);
    if |ts| == 0 then IntToString(0) + Minutes
    else
      SumPositive(Times(rs));
      Fixed1(Tenths(Sum(ts), |ts|)) + Minutes
  }

  lemma {:induction false} SumPositive(ts: seq<int>)
    ensures Sum(Positive(ts)) >= 0
  {
    if ts != [] {
      var n := |ts| - 1;
      SumPositive(ts[..n]);
      var p := Positive(ts[..n]);
      if ts[n] > 0 {
        assert Positive(ts) == p + [ts[n]];
        assert (p + [ts[n]])[..|p|] == p;
        assert Sum(p + [ts[n]]) == Sum(p) + ts[n];
      } else {
        assert Positive(ts) == p + [];
        assert p + [] == p;
      }
    }
  }

  /** Rounding to tenths moves the value by at most a half tenth. */
  lemma {:induction false} TenthsWithin(num: nat, den: nat)
    requires den > 0
    ensures var t := Tenths(num, den) as real;
      t / 10.0 - 0.05 <= num as real / den as real < t / 10.0 + 0.05
  {
    var t := Tenths(num, den);
    var q, d, r := num as real, den as real, t as real;
    CastProduct(2 * den, t);
    CastProduct(2 * den, t + 1);
    CastProduct(20, num);
    assert 2.0 * d * r <= 20.0 * q + d;
    assert 20.0 * q + d < 2.0 * d * (r + 1.0);
    QuotientAbove(q, d, r);
    QuotientBelow(q, d, r);
  }

  lemma {:induction false} QuotientAbove(q: real, d: real, r: real)
    requires d > 0.0 && 2.0 * d * r <= 20.0 * q + d
    ensures r / 10.0 - 0.05 <= q / d
  {
    var x := q / d;
    assert x * d == q;
    var lo := 20.0 * x + 1.0 - 2.0 * r;
    assert d * lo == 20.0 * (x * d) + d - 2.0 * d * r;
    PositiveFactor(d, lo);
  }

  lemma {:induction false} QuotientBelow(q: real, d: real, r: real)
    requires d > 0.0 && 20.0 * q + d < 2.0 * d * (r + 1.0)
    ensures q / d < r / 10.0 + 0.05
  {
    var x := q / d;
    assert x * d == q;
    var hi := 2.0 * r + 1.0 - 20.0 * x;
    assert d * hi == 2.0 * d * (r + 1.0) - (20.0 * (x * d) + d);
    StrictFactor(d, hi);
  }

  /** The text reads back, through `parseInt`, as the integer part, and its
      last character is the tenths digit, right after the point. */
  lemma {:induction false} Fixed1Reads(t: nat)
    ensures ParseIntString(Fixed1(t)) == Some(t / 10)
    ensures var s := Fixed1(t); |s| >= 3 && s[|s| - 2] == '.' && DigitValue(s[|s| - 1]) == t % 10
  {
    var d := "0123456789"[t % 10];
    ParseIntPrefix(t / 10, "." + [d]);
    assert Fixed1(t) == IntToString(t / 10) + ("." + [d]);
    DigitChar(t % 10);
  }

  /** The rate text is "0%" for no responses and otherwise the completion
      rate rounded to one decimal, followed by "%". */
  lemma {:induction false} RateTextFacts(rs: seq<Record>)
    ensures |rs| == 0 ==> RateText(rs) == "0%"
    ensures |rs| > 0 ==> var t := Tenths(100 * CompletedCount(rs), |rs|);
      RateText(rs) == Fixed1(t) + "%" && t <= 1000 &&
      t as real / 10.0 - 0.05 <= CompletionRate(rs) < t as real / 10.0 + 0.05
  {
    if |rs| > 0 {
      var c, n := CompletedCount(rs), |rs|;
      CompletedCountBounds(rs);
      RateQuotient(rs);
      TenthsWithin(100 * c, n);
      TenthsAtMost(100 * c, n, 100);
    }
  }

  /** The rate is the exact quotient `100 * completed / total`. */
  lemma {:induction false} RateQuotient(rs: seq<Record>)
    requires |rs| > 0
    ensures CompletionRate(rs) == (100 * CompletedCount(rs)) as real / |rs| as real
  {
    CompletedCountBounds(rs);
    PercentQuotient(CompletedCount(rs), |rs|);
  }

  lemma {:induction false} PercentQuotient(c: nat, n: nat)
    requires c <= n && n > 0
    ensures Percent(c, n) == (100 * c) as real / n as real
  {
    var x, m := c as real / n as real, n as real;
    var q := (100 * c) as real / m;
    assert x * m == c as real;
    assert q * m == (100 * c) as real;
    CastProduct(100, c);
    assert (x * 100.0) * m == 100.0 * (x * m);
    Cancel(x * 100.0, q, m);
  }

  /** A quotient of at most `m` rounds to at most `10 * m` tenths. */
  lemma {:induction false} TenthsAtMost(num: nat, den: nat, m: nat)
    requires den > 0 && num <= m * den
    ensures Tenths(num, den) <= 10 * m
  {
    var t := Tenths(num, den);
    if t > 10 * m {
      MulLe(2 * den, 10 * m + 1, t);
      assert false;
    }
  }

  /** The time text is "0 minutes" when no time is valid and otherwise the
      mean valid time rounded to one decimal, followed by " minutes". */
  lemma {:induction false} TimeTextFacts(rs: seq<Record>)
    ensures ValidTimes(rs) == [] ==> TimeText(rs) == "0" + Minutes
    ensures ValidTimes(rs) != [] ==> var ts := ValidTimes(rs);
      Sum(ts) >= 0 && var t := Tenths(Sum(ts), |ts|);
      TimeText(rs) == Fixed1(t) + Minutes &&
      t as real / 10.0 - 0.05 <= AverageTime(rs) < t as real / 10.0 + 0.05
  {
    var ts := ValidTimes(rs);
    SumPositive(Times(rs));
    if ts != [] {
      TenthsWithin(Sum(ts), |ts|);
    }
  }

  /** One completed response out of two: the rate is 50, rendered "50.0%". */
  lemma {:induction false} HalfCompleted(rs: seq<Record>)
    requires |rs| == 2 && IsCompleted(rs[0]) && !IsCompleted(rs[1])
    ensures CompletionRate(rs) == 50.0
    ensures RateText(rs) == "50.0%"
  {
    HalfCount(rs);
    assert CompletionRate(rs) == Percent(1, 2);
    assert RateText(rs) == Fixed1(Tenths(100, 2)) + "%";
    FiftyText();
  }

  lemma {:induction false} HalfCount(rs: seq<Record>)
    requires |rs| == 2 && IsCompleted(rs[0]) && !IsCompleted(rs[1])
    ensures CompletedCount(rs) == 1
  {
    assert rs[..1][..0] == [] && rs[..1][0] == rs[0];
    assert CompletedCount(rs[..1]) == 1;
  }

  lemma {:induction false} FiftyText()
    ensures Fixed1(Tenths(100, 2)) == "50.0"
  {
    assert Tenths(100, 2) == 500;
    assert NatToString(50) == NatToString(5) + "0";
  }
}
