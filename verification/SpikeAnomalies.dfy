/** Vendor expense spikes, over exact numbers (src/anomaly/anomaly.detector.ts). */
module SpikeAnomalies {

  datatype Spend = Spend(vendorId: string, vendorName: string, amount: real)

  datatype Alert = Alert(vendorId: string, vendorName: string, months: nat, percentAbove: int, score: real, confidence: real)

  /** `Math.sqrt`, assumed exact on the variances it is given. */
  type Root = real -> real

  ghost predicate IsRoot(root: Root) {
    forall x :: x >= 0.0 ==> root(x) >= 0.0 && root(x) * root(x) == x
  }

  function Sum(values: seq<real>): real {
    if values == [] then 0.0 else Sum(values[..|values| - 1]) + values[|values| - 1]
  }

  function Mean(values: seq<real>): real {
    if values == [] then 0.0 else Sum(values) / |values| as real
  }

  function SquareSum(values: seq<real>, avg: real): (r: real)
    ensures r >= 0.0
  {
    if values == [] then 0.0
    else
      var d := values[|values| - 1] - avg;
      SquareNonNegative(d);
      SquareSum(values[..|values| - 1], avg) + d * d
  }

  lemma SquareNonNegative(x: real)
    ensures x * x >= 0.0
  {
  }

  function Variance(values: seq<real>, avg: real): (r: real)
    ensures r >= 0.0
  {
    if |values| < 2 then 0.0 else SquareSum(values, avg) / |values| as real
  }

  function ZScore(value: real, avg: real, sd: real): real {
    if sd == 0.0 then 0.0 else (value - avg) / sd
  }

  function Min(a: real, b: real): real {
    if a < b then a else b
  }

  /** `Math.round(((latest - avg) / avg) * 100)`, 0 for an average that is not positive. */
  function PercentAbove(latest: real, avg: real): int {
    if avg > 0.0 then RoundPercent((latest - avg) / avg) else 0
  }

  function RoundPercent(ratio: real): int {
    (ratio * 100.0 + 0.5).Floor
  }

  function AmountsOf(spends: seq<Spend>): (r: seq<real>)
    ensures |r| == |spends|
    ensures forall i :: 0 <= i < |r| ==> r[i] == spends[i].amount
  {
    if spends == [] then []
    else AmountsOf(spends[..|spends| - 1]) + [spends[|spends| - 1].amount]
  }

  /** The alert of a vendor from the statistics of its history, if the score passes the threshold. */
  function AlertFrom(last: Spend, vendorId: string, months: nat, latest: real, avg: real, sd: real, threshold: real)
    : seq<Alert>
    requires months >= 1
  {
    var z := ZScore(latest, avg, sd);
    if z <= threshold then []
    else [Alert(vendorId, last.vendorName, months, PercentAbove(latest, avg), Min(1.0, z / 5.0),
                Min(1.0, (months - 1) as real / 10.0 + 0.5))]
  }

  /** The alert of the monthly amounts of a vendor, the last one against those before. */
  function AmountsAlert(last: Spend, vendorId: string, amounts: seq<real>, threshold: real, root: Root): seq<Alert>
    requires |amounts| >= 3
  {
    var n := |amounts| - 1;
    var avg := Mean(amounts[..n]);
    AlertFrom(last, vendorId, n, amounts[n], avg, root(Variance(amounts[..n], avg)), threshold)
  }

  /** The alert of one vendor's spends in order, if any. */
  function VendorAlert(vendorId: string, spends: seq<Spend>, threshold: real, root: Root): seq<Alert> {
    if |spends| < 3 then []
    else AmountsAlert(spends[|spends| - 1], vendorId, AmountsOf(spends), threshold, root)
  }

  // ── Grouping ───────────────────────────────────────────────────────────────

  /** One vendor's own subsequence. */
  function Of(spends: seq<Spend>, vendorId: string): seq<Spend> {
    if spends == [] then []
    else
      var init, last := spends[..|spends| - 1], spends[|spends| - 1];
      Of(init, vendorId) + (if last.vendorId == vendorId then [last] else [])
  }

  /** The vendors in the order of their first appearance. */
  function Vendors(spends: seq<Spend>): seq<string> {
    if spends == [] then []
    else
      var init, v := Vendors(spends[..|spends| - 1]), spends[|spends| - 1].vendorId;
      if v in init then init else init + [v]
  }

  function AlertsOf(vendors: seq<string>, spends: seq<Spend>, threshold: real, root: Root): seq<Alert> {
    if vendors == [] then []
    else
      var n := |vendors| - 1;
      AlertsOf(vendors[..n], spends, threshold, root)
      + VendorAlert(vendors[n], Of(spends, vendors[n]), threshold, root)
  }

  /** Each vendor's own result, in first-appearance order. */
  function Detect(spends: seq<Spend>, threshold: real, root: Root): seq<Alert> {
    AlertsOf(Vendors(spends), spends, threshold, root)
  }

  function ListOf(byVendor: map<string, seq<Spend>>, v: string): seq<Spend> {
    if v in byVendor then byVendor[v] else []
  }

  /** The map holds the spends of the prefix by vendor, its keys in the order of their first appearance. */
  ghost predicate Grouped(prefix: seq<Spend>, order: seq<string>, byVendor: map<string, seq<Spend>>) {
    && order == Vendors(prefix)
    && (forall v :: v in byVendor <==> v in order)
    && (forall v :: ListOf(byVendor, v) == Of(prefix, v))
  }

  lemma GroupStep(prefix: seq<Spend>, s: Spend, order: seq<string>, byVendor: map<string, seq<Spend>>)
    requires Grouped(prefix, order, byVendor)
    ensures Grouped(prefix + [s], if s.vendorId in byVendor then order else order + [s.vendorId],
                    byVendor[s.vendorId := ListOf(byVendor, s.vendorId) + [s]])
  {
    assert (prefix + [s])[..|prefix|] == prefix;
    var after := byVendor[s.vendorId := ListOf(byVendor, s.vendorId) + [s]];
    forall v
      ensures ListOf(after, v) == Of(prefix + [s], v)
    {
      assert ListOf(byVendor, v) == Of(prefix, v);
    }
  }

  lemma GroupedMeans(spends: seq<Spend>, order: seq<string>, byVendor: map<string, seq<Spend>>)
    requires Grouped(spends, order, byVendor)
    ensures order == Vendors(spends) && forall v :: v in byVendor <==> v in order
    ensures forall v :: v in byVendor ==> byVendor[v] == Of(spends, v)
  {
    hide Of, Vendors;
    assert forall v :: v in byVendor ==> byVendor[v] == ListOf(byVendor, v);
  }

  lemma NothingGrouped()
    ensures Grouped([], [], map[])
  {
  }

  /** The insertion-ordered map of lists: its keys are the vendors, its values their own subsequences. */
  method GroupByVendor(spends: seq<Spend>) returns (order: seq<string>, byVendor: map<string, seq<Spend>>)
    ensures order == Vendors(spends)
    ensures forall v :: v in byVendor <==> v in order
    ensures forall v :: v in byVendor ==> byVendor[v] == Of(spends, v)
  {
    hide Of, Vendors, Grouped;
    order, byVendor := [], map[];
    NothingGrouped();
    assert spends[..0] == [];
    for i := 0 to |spends|
      invariant Grouped(spends[..i], order, byVendor)
    {
      var s := spends[i];
      GroupStep(spends[..i], s, order, byVendor);
      assert spends[..i + 1] == spends[..i] + [s];
      var list := if s.vendorId in byVendor then byVendor[s.vendorId] else [];
      if s.vendorId !in byVendor {
        order := order + [s.vendorId];
      }
      byVendor := byVendor[s.vendorId := list + [s]];
    }
    assert spends[..|spends|] == spends;
    GroupedMeans(spends, order, byVendor);
  }

  /**
   * `detectExpenseSpikes`: on interleaved vendors the result is that of each vendor's own subsequence, in
   * first-appearance order.
   */
  method DetectExpenseSpikes(spends: seq<Spend>, threshold: real, root: Root) returns (anomalies: seq<Alert>)
    ensures anomalies == Detect(spends, threshold, root)
  {
    var order, byVendor := GroupByVendor(spends);
    anomalies := [];
    for k := 0 to |order|
      invariant anomalies == AlertsOf(order[..k], spends, threshold, root)
    {
      assert order[..k + 1][..k] == order[..k];
      anomalies := anomalies + VendorAlert(order[k], byVendor[order[k]], threshold, root);
    }
    assert order[..|order|] == order;
  }

  // ── The z test ─────────────────────────────────────────────────────────────

  function Square(x: real): real {
    x * x
  }

  function SquaredLimit(variance: real, threshold: real): real {
    threshold * threshold * variance
  }

  /** The test without a root, for a non-negative threshold. */
  predicate Exceeds(value: real, avg: real, variance: real, threshold: real) {
    variance > 0.0 && value > avg && Square(value - avg) > SquaredLimit(variance, threshold)
  }

  lemma PositiveProduct(x: real, y: real)
    requires x > 0.0 && y > 0.0
    ensures x * y > 0.0
  {
  }

  lemma SquareOrder(a: real, b: real)
    requires a >= 0.0 && b >= 0.0
    ensures a > b <==> a * a > b * b
  {
    if a > b {
      PositiveProduct(a - b, a + b);
      assert (a - b) * (a + b) == a * a - b * b;
    } else if b > a {
      PositiveProduct(b - a, a + b);
      assert (b - a) * (a + b) == b * b - a * a;
    }
  }

  /** The score test is the squared test: no rounding of a root decides. */
  lemma ZTestSquared(value: real, avg: real, variance: real, threshold: real, root: Root)
    requires IsRoot(root) && variance >= 0.0 && threshold >= 0.0
    ensures ZScore(value, avg, root(variance)) > threshold <==> Exceeds(value, avg, variance, threshold)
  {
    var sd, d := root(variance), value - avg;
    assert sd >= 0.0 && sd * sd == variance;
    if sd > 0.0 {
      PositiveProduct(sd, sd);
      var z, t := d / sd, threshold * sd;
      assert z * sd == d;
      Scaled(z, threshold, sd);
      assert t * t == threshold * threshold * (sd * sd);
      if d > 0.0 {
        SquareOrder(d, t);
      }
    }
  }

  lemma AlertFromFlags(last: Spend, vendorId: string, months: nat, latest: real, avg: real, variance: real,
                       threshold: real, root: Root)
    requires IsRoot(root) && threshold >= 0.0 && variance >= 0.0 && months >= 1
    ensures AlertFrom(last, vendorId, months, latest, avg, root(variance), threshold) != [] <==>
            Exceeds(latest, avg, variance, threshold)
  {
    ZTestSquared(latest, avg, variance, threshold, root);
  }

  /** The squared test of the last amount against the ones before. */
  predicate Spikes(amounts: seq<real>, threshold: real)
    requires |amounts| >= 3
  {
    var n := |amounts| - 1;
    var avg := Mean(amounts[..n]);
    Exceeds(amounts[n], avg, Variance(amounts[..n], avg), threshold)
  }

  lemma AmountsFlagged(last: Spend, vendorId: string, amounts: seq<real>, threshold: real, root: Root)
    requires IsRoot(root) && threshold >= 0.0 && |amounts| >= 3
    ensures AmountsAlert(last, vendorId, amounts, threshold, root) != [] <==> Spikes(amounts, threshold)
  {
    var n := |amounts| - 1;
    var avg := Mean(amounts[..n]);
    AlertFromFlags(last, vendorId, n, amounts[n], avg, Variance(amounts[..n], avg), threshold, root);
  }

  /** `avg` is the mean of the values and `variance` the mean of their squared distances from it. */
  ghost predicate Statistics(values: seq<real>, avg: real, variance: real) {
    avg * |values| as real == Sum(values) && variance * |values| as real == SquareSum(values, avg)
  }

  lemma StatisticsAre(values: seq<real>, avg: real, variance: real)
    requires |values| >= 2
    ensures Statistics(values, avg, variance) <==> avg == Mean(values) && variance == Variance(values, avg)
  {
    var n := |values| as real;
    QuotientIs(avg, Sum(values), n);
    QuotientIs(variance, SquareSum(values, avg), n);
  }

  lemma QuotientIs(q: real, s: real, n: real)
    requires n > 0.0
    ensures q * n == s <==> q == s / n
  {
    if q * n == s {
      assert s / n == q;
    }
  }

  /** The sums of one value, and of any two parts. */
  lemma SumsOfOne(x: real, avg: real)
    ensures Sum([x]) == x && SquareSum([x], avg) == (x - avg) * (x - avg)
  {
    assert [x][..0] == [];
    assert Sum([]) == 0.0 && SquareSum([], avg) == 0.0;
  }

  lemma {:induction false} SumsAdd(a: seq<real>, b: seq<real>, avg: real)
    ensures Sum(a + b) == Sum(a) + Sum(b) && SquareSum(a + b, avg) == SquareSum(a, avg) + SquareSum(b, avg)
    decreases |b|
  {
    if b == [] {
      assert a + b == a;
      assert Sum(b) == 0.0 && SquareSum(b, avg) == 0.0;
    } else {
      hide Sum, SquareSum, Square;
      var n := |b| - 1;
      SumsAdd(a, b[..n], avg);
      SumsLast(a + b, avg);
      SumsLast(b, avg);
      assert (a + b)[..|a + b| - 1] == a + b[..n];
    }
  }

  lemma SumsLast(a: seq<real>, avg: real)
    requires a != []
    ensures var n := |a| - 1;
            && Sum(a) == Sum(a[..n]) + a[n] && SquareSum(a, avg) == SquareSum(a[..n], avg) + Square(a[n] - avg)
  {
  }

  lemma SpikesMeans(amounts: seq<real>, threshold: real, avg: real, variance: real)
    requires |amounts| >= 3
    requires avg == Mean(amounts[..|amounts| - 1]) && variance == Variance(amounts[..|amounts| - 1], avg)
    ensures Spikes(amounts, threshold) <==> Exceeds(amounts[|amounts| - 1], avg, variance, threshold)
  {
    hide Mean, Variance, Exceeds, Square, SquaredLimit;
  }

  lemma AmountsFlaggedBy(last: Spend, vendorId: string, amounts: seq<real>, threshold: real, root: Root, avg: real,
                         variance: real, value: real)
    requires IsRoot(root) && threshold >= 0.0 && |amounts| >= 3
    requires Statistics(amounts[..|amounts| - 1], avg, variance) && value == amounts[|amounts| - 1]
    ensures AmountsAlert(last, vendorId, amounts, threshold, root) != [] <==> Exceeds(value, avg, variance, threshold)
  {
    hide Mean, Variance, Statistics, AmountsAlert, Spikes, Exceeds, IsRoot, Square, SquaredLimit;
    StatisticsAre(amounts[..|amounts| - 1], avg, variance);
    AmountsFlagged(last, vendorId, amounts, threshold, root);
    SpikesMeans(amounts, threshold, avg, variance);
  }

  lemma FlaggedBy(vendorId: string, spends: seq<Spend>, threshold: real, root: Root, avg: real, variance: real,
                  value: real)
    requires IsRoot(root) && threshold >= 0.0 && |spends| >= 3
    requires Statistics(AmountsOf(spends)[..|spends| - 1], avg, variance) && value == spends[|spends| - 1].amount
    ensures VendorAlert(vendorId, spends, threshold, root) != [] <==> Exceeds(value, avg, variance, threshold)
  {
    hide Statistics, AmountsAlert, Exceeds, IsRoot, AmountsOf, Square, SquaredLimit;
    AmountsFlaggedBy(spends[|spends| - 1], vendorId, AmountsOf(spends), threshold, root, avg, variance, value);
  }

  /**
   * A vendor is flagged exactly when it has three months or more and the last amount lies above the mean of the others
   * by more than the threshold times their standard deviation, which is not zero: squared, so without a root.
   */
  lemma FlaggedExactly(vendorId: string, spends: seq<Spend>, threshold: real, root: Root, avg: real, variance: real)
    requires IsRoot(root) && threshold >= 0.0
    requires |spends| >= 3 ==> Statistics(AmountsOf(spends)[..|spends| - 1], avg, variance)
    ensures VendorAlert(vendorId, spends, threshold, root) != [] <==>
            |spends| >= 3 &&
            var d := spends[|spends| - 1].amount - avg;
            variance > 0.0 && d > 0.0 && d * d > threshold * threshold * variance
  {
    hide Mean, Variance, Statistics, AmountsAlert, Spikes, IsRoot;
    if |spends| >= 3 {
      FlaggedBy(vendorId, spends, threshold, root, avg, variance, spends[|spends| - 1].amount);
    }
  }

  /**
   * What an alert says: the vendor and its name in the last month, the number of months before, the percentage rounded
   * to the nearest, a fifth of the score up to 1, and a confidence of 0.6 and a tenth more for each month, up to 1.
   */
  lemma AlertSays(vendorId: string, spends: seq<Spend>, threshold: real, root: Root, avg: real, variance: real)
    requires VendorAlert(vendorId, spends, threshold, root) != []
    requires |spends| >= 3 && Statistics(AmountsOf(spends)[..|spends| - 1], avg, variance)
    requires root(variance) > 0.0
    ensures var last, n := spends[|spends| - 1], |spends| - 1;
            |VendorAlert(vendorId, spends, threshold, root)| == 1 &&
            var alert := VendorAlert(vendorId, spends, threshold, root)[0];
            && alert.vendorId == vendorId && alert.vendorName == last.vendorName && alert.months == n
            && (avg <= 0.0 ==> alert.percentAbove == 0)
            && (avg > 0.0 ==>
                  var percent := (last.amount - avg) / avg * 100.0;
                  -0.5 <= percent - alert.percentAbove as real < 0.5)
            && (alert.score == 1.0 || alert.score * 5.0 * root(variance) == last.amount - avg)
            && (alert.score == 1.0 <==> last.amount - avg >= 5.0 * root(variance))
            && alert.confidence == (if n >= 6 then 1.0 else 0.4 + 0.1 * n as real)
  {
    StatisticsAre(AmountsOf(spends)[..|spends| - 1], avg, variance);
    var d, sd := spends[|spends| - 1].amount - avg, root(variance);
    var z := d / sd;
    assert z * sd == d;
    Scaled(5.0, z, sd);
    Scaled(z, 5.0, sd);
  }

  lemma Scaled(a: real, b: real, k: real)
    requires k > 0.0
    ensures a > b <==> a * k > b * k
  {
    assert a * k - b * k == (a - b) * k;
    if a > b {
      assert (a - b) * k > 0.0;
    } else {
      assert (b - a) * k >= 0.0;
    }
  }

  /** A vendor whose history never varied is never flagged. */
  lemma ConstantHistoryNeverFlagged(vendorId: string, spends: seq<Spend>, threshold: real, root: Root)
    requires IsRoot(root) && threshold >= 0.0 && |spends| >= 1
    requires forall i, j :: 0 <= i < j < |spends| - 1 ==> spends[i].amount == spends[j].amount
    ensures VendorAlert(vendorId, spends, threshold, root) == []
  {
    if |spends| >= 3 {
      var history := AmountsOf(spends)[..|spends| - 1];
      var x := history[0];
      ConstantStatistics(history, x);
      RootOfZero(root);
      assert root(Variance(history, Mean(history))) == 0.0;
    }
  }

  lemma RootOfZero(root: Root)
    requires IsRoot(root)
    ensures root(0.0) == 0.0
  {
    var r := root(0.0);
    assert r >= 0.0 && r * r == 0.0;
    SquareOrder(r, 0.0);
  }

  lemma Cancel(n: real, x: real)
    requires n > 0.0
    ensures n * x / n == x
  {
  }

  lemma ConstantStatistics(values: seq<real>, x: real)
    requires |values| >= 1 && forall i :: 0 <= i < |values| ==> values[i] == x
    ensures Mean(values) == x && Variance(values, x) == 0.0
  {
    ConstantSum(values, x);
    Cancel(|values| as real, x);
  }

  lemma {:induction false} ConstantSum(values: seq<real>, x: real)
    requires forall i :: 0 <= i < |values| ==> values[i] == x
    ensures Sum(values) == |values| as real * x
    ensures SquareSum(values, x) == 0.0
  {
    if values != [] {
      ConstantSum(values[..|values| - 1], x);
    }
  }

  ghost predicate InUnitRange(alerts: seq<Alert>) {
    forall i :: 0 <= i < |alerts| ==> 0.0 < alerts[i].score <= 1.0 && 0.0 < alerts[i].confidence <= 1.0
  }

  /** With a positive threshold every alert's score and confidence lie in (0, 1]. */
  lemma {:induction false} ScoresInRange(vendors: seq<string>, spends: seq<Spend>, threshold: real, root: Root)
    requires threshold > 0.0
    ensures InUnitRange(AlertsOf(vendors, spends, threshold, root))
  {
    if vendors != [] {
      ScoresInRange(vendors[..|vendors| - 1], spends, threshold, root);
    }
  }

  // ── Scaling all spends ─────────────────────────────────────────────────────

  function Times(k: real, x: real): real {
    k * x
  }

  function Scale(spends: seq<Spend>, k: real): (r: seq<Spend>)
    ensures |r| == |spends|
    ensures forall i :: 0 <= i < |r| ==> r[i] == spends[i].(amount := Times(k, spends[i].amount))
  {
    if spends == [] then []
    else
      var last := spends[|spends| - 1];
      Scale(spends[..|spends| - 1], k) + [last.(amount := Times(k, last.amount))]
  }

  ghost predicate ScaledBy(a: seq<real>, b: seq<real>, k: real) {
    |a| == |b| && forall i :: 0 <= i < |a| ==> b[i] == Times(k, a[i])
  }

  lemma SquaredScale(k: real, d: real, s: real)
    ensures k * k * s + (k * d) * (k * d) == k * k * (s + d * d)
  {
    assert (k * d) * (k * d) == k * k * (d * d);
  }

  lemma {:induction false} ScaledSum(a: seq<real>, b: seq<real>, k: real)
    requires ScaledBy(a, b, k)
    ensures Sum(b) == k * Sum(a)
  {
    if a != [] {
      var n := |a| - 1;
      ScaledSum(a[..n], b[..n], k);
    }
  }

  lemma {:induction false} ScaledSquareSum(a: seq<real>, b: seq<real>, k: real, avg: real)
    requires ScaledBy(a, b, k)
    ensures SquareSum(b, k * avg) == k * k * SquareSum(a, avg)
  {
    if a != [] {
      var n := |a| - 1;
      ScaledSquareSum(a[..n], b[..n], k, avg);
      var d := a[n] - avg;
      assert b[n] - k * avg == k * d;
      SquaredScale(k, d, SquareSum(a[..n], avg));
    }
  }

  lemma ScaledRoot(x: real, y: real, k: real, root: Root)
    requires IsRoot(root) && x >= 0.0 && k > 0.0 && y == k * k * x && y >= 0.0
    ensures root(y) == k * root(x)
  {
    var a, r := root(y), root(x);
    var b := k * r;
    assert a >= 0.0 && a * a == y && r >= 0.0 && r * r == x;
    assert b * b == k * k * (r * r);
    SquareOrder(a, b);
    SquareOrder(b, a);
  }

  lemma ScaledQuotient(k: real, value: real, avg: real, e: real)
    requires k > 0.0 && e != 0.0
    ensures k * e != 0.0 && (k * value - k * avg) / (k * e) == (value - avg) / e
  {
    var q := (value - avg) / e;
    assert q * e == value - avg;
    assert k * value - k * avg == k * (q * e) == q * (k * e);
  }

  lemma ScaledScore(value: real, avg: real, sd: real, k: real)
    requires k > 0.0
    ensures ZScore(k * value, k * avg, k * sd) == ZScore(value, avg, sd)
    ensures PercentAbove(k * value, k * avg) == PercentAbove(value, avg)
  {
    if sd != 0.0 {
      ScaledQuotient(k, value, avg, sd);
    }
    Scaled(avg, 0.0, k);
    if avg > 0.0 {
      ScaledQuotient(k, value, avg, avg);
    }
  }

  lemma ScaledAlert(last: Spend, last': Spend, vendorId: string, months: nat, latest: real, avg: real, sd: real,
                    latest': real, avg': real, sd': real, threshold: real, k: real)
    requires k > 0.0 && months >= 1 && last.vendorName == last'.vendorName
    requires latest' == k * latest && avg' == k * avg && sd' == k * sd
    ensures AlertFrom(last', vendorId, months, latest', avg', sd', threshold)
         == AlertFrom(last, vendorId, months, latest, avg, sd, threshold)
  {
    ScaledScore(latest, avg, sd, k);
  }

  lemma ScaledAmounts(last: Spend, last': Spend, vendorId: string, a: seq<real>, b: seq<real>, k: real, threshold: real,
                      root: Root)
    requires IsRoot(root) && k > 0.0 && ScaledBy(a, b, k) && |a| >= 3 && last.vendorName == last'.vendorName
    ensures AmountsAlert(last', vendorId, b, threshold, root) == AmountsAlert(last, vendorId, a, threshold, root)
  {
    var n := |a| - 1;
    ScaledStatistics(a[..n], b[..n], k, root);
    var avg, avg' := Mean(a[..n]), Mean(b[..n]);
    ScaledAlert(last, last', vendorId, n, a[n], avg, root(Variance(a[..n], avg)),
                b[n], avg', root(Variance(b[..n], avg')), threshold, k);
  }

  lemma ScaledVendor(vendorId: string, spends: seq<Spend>, k: real, threshold: real, root: Root)
    requires IsRoot(root) && k > 0.0
    ensures VendorAlert(vendorId, Scale(spends, k), threshold, root) == VendorAlert(vendorId, spends, threshold, root)
  {
    if |spends| >= 3 {
      var last, last' := spends[|spends| - 1], Scale(spends, k)[|spends| - 1];
      ScaledAmounts(last, last', vendorId, AmountsOf(spends), AmountsOf(Scale(spends, k)), k, threshold, root);
    }
  }

  lemma QuotientScale(k: real, s: real, n: real)
    requires n > 0.0
    ensures k * s / n == k * (s / n)
  {
    var q := s / n;
    assert q * n == s;
    assert k * q * n == k * s;
  }

  lemma ScaledStatistics(a: seq<real>, b: seq<real>, k: real, root: Root)
    requires IsRoot(root) && k > 0.0 && ScaledBy(a, b, k) && |a| >= 2
    ensures Mean(b) == k * Mean(a)
    ensures root(Variance(b, Mean(b))) == k * root(Variance(a, Mean(a)))
  {
    var avg, n := Mean(a), |a| as real;
    ScaledSum(a, b, k);
    QuotientScale(k, Sum(a), n);
    ScaledSquareSum(a, b, k, avg);
    QuotientScale(k * k, SquareSum(a, avg), n);
    assert Mean(b) == k * avg;
    assert Variance(b, k * avg) == k * k * Variance(a, avg);
    ScaledRoot(Variance(a, avg), Variance(b, Mean(b)), k, root);
  }

  lemma {:induction false} ScaledGroups(spends: seq<Spend>, k: real, v: string)
    ensures Vendors(Scale(spends, k)) == Vendors(spends)
    ensures Of(Scale(spends, k), v) == Scale(Of(spends, v), k)
  {
    if spends != [] {
      var n := |spends| - 1;
      ScaledGroups(spends[..n], k, v);
      assert Scale(spends, k)[..n] == Scale(spends[..n], k);
      if spends[n].vendorId == v {
        assert Of(spends, v)[..|Of(spends[..n], v)|] == Of(spends[..n], v);
      }
    }
  }

  /** Scaling all spends by a positive factor changes no alert. */
  lemma ScalingKeepsAlerts(spends: seq<Spend>, k: real, threshold: real, root: Root)
    requires IsRoot(root) && k > 0.0
    ensures Detect(Scale(spends, k), threshold, root) == Detect(spends, threshold, root)
  {
    ScaledGroups(spends, k, "");
    ScaledAlerts(Vendors(spends), spends, k, threshold, root);
  }

  lemma {:induction false} ScaledAlerts(vendors: seq<string>, spends: seq<Spend>, k: real, threshold: real, root: Root)
    requires IsRoot(root) && k > 0.0
    ensures AlertsOf(vendors, Scale(spends, k), threshold, root) == AlertsOf(vendors, spends, threshold, root)
  {
    if vendors != [] {
      var n := |vendors| - 1;
      ScaledAlerts(vendors[..n], spends, k, threshold, root);
      ScaledGroups(spends, k, vendors[n]);
      ScaledVendor(vendors[n], Of(spends, vendors[n]), k, threshold, root);
    }
  }
}
