/** Turning a node's traffic report into billed bytes (internal/domain/traffic.go). */
module Traffic {
  import opened MachineInts
  import opened Options

  /** A billing multiplier in basis points: 100 is 1.00x. */
  type RateBP = Int16

  const RATE_BP_UNIT: RateBP := 100
  const MAX_RATE_BP: RateBP := 32767
  const MAX_REPORT_BYTES: Int64 := 0x8000_0000_0000

  datatype DeltaError = NegativeDelta | ImplausibleDelta | InvalidRate

  /** None when the report is accepted. The addition is int64 arithmetic. */
  function ValidateDelta(up: Int64, down: Int64, rate: RateBP): Option<DeltaError> {
    if up < 0 || down < 0 then Some(NegativeDelta)
    else if up > MAX_REPORT_BYTES || down > MAX_REPORT_BYTES || Wrap64(up + down) > MAX_REPORT_BYTES then Some(ImplausibleDelta)
    else if rate <= 0 then Some(InvalidRate)
    else None
  }

  /** Sum, product and quotient as int64 arithmetic does them. */
  function BilledBytes(up: Int64, down: Int64, rate: RateBP): Int64 {
    Wrap64(Quo(Wrap64(Wrap64(up + down) * rate), RATE_BP_UNIT))
  }

  /** What the published terms bill for `bytes`: hundredths of the rate, rounded down. */
  function TermsBill(bytes: nat, rate: nat): nat {
    bytes * rate / 100
  }

  /** A report is accepted exactly when both directions are nonnegative, their sum is within 2^47 and the rate is positive. */
  lemma AcceptedIff(up: Int64, down: Int64, rate: RateBP)
    ensures ValidateDelta(up, down, rate).None? <==> 0 <= up && 0 <= down && up + down <= 0x8000_0000_0000 && 0 < rate
    ensures ValidateDelta(up, down, rate) == Some(NegativeDelta) <==> up < 0 || down < 0
    ensures ValidateDelta(up, down, rate) == Some(InvalidRate) <==>
              0 <= up && 0 <= down && up + down <= 0x8000_0000_0000 && rate <= 0
  {
  }

  lemma ProductBound(bytes: nat, rate: nat, maxBytes: nat, maxRate: nat)
    requires bytes <= maxBytes && rate <= maxRate
    ensures bytes * rate <= maxBytes * maxRate
  {
  }

  /** The product of bytes and rate decides: the bill follows the terms exactly as long as it fits an int64. */
  lemma BillFollowsTermsIff(up: Int64, down: Int64, rate: RateBP)
    requires 0 <= up && 0 <= down && up + down <= MAX_INT64 && 0 < rate
    ensures BilledBytes(up, down, rate) == TermsBill(up + down, rate) <==> (up + down) * rate <= MAX_INT64
  {
  }

  /** No step wraps on an accepted report, whatever the rate: the bill follows the terms. */
  lemma AcceptedBillFollowsTerms(up: Int64, down: Int64, rate: RateBP)
    requires ValidateDelta(up, down, rate).None?
    ensures FitsInt64(up + down) && FitsInt64((up + down) * rate)
    ensures BilledBytes(up, down, rate) == TermsBill(up + down, rate)
  {
    AcceptedIff(up, down, rate);
    ProductBound(up + down, rate, MAX_REPORT_BYTES, MAX_RATE_BP);
    BillFollowsTermsIff(up, down, rate);
  }

  // ----- batches of reports

  datatype Report = Report(up: Int64, down: Int64)

  ghost predicate AllAccepted(reports: seq<Report>, rate: RateBP) {
    forall i :: 0 <= i < |reports| ==> ValidateDelta(reports[i].up, reports[i].down, rate).None?
  }

  function TotalBytes(reports: seq<Report>): int {
    if reports == [] then 0 else reports[0].up + reports[0].down + TotalBytes(reports[1..])
  }

  function TotalBilled(reports: seq<Report>, rate: RateBP): int {
    if reports == [] then 0 else BilledBytes(reports[0].up, reports[0].down, rate) + TotalBilled(reports[1..], rate)
  }

  lemma ReportGap(up: Int64, down: Int64, rate: RateBP)
    requires ValidateDelta(up, down, rate).None?
    ensures 0 <= rate * (up + down) - 100 * BilledBytes(up, down, rate) <= 99
    ensures 0 <= up + down
  {
    AcceptedIff(up, down, rate);
    AcceptedBillFollowsTerms(up, down, rate);
    Remainder(rate * (up + down));
  }

  lemma Remainder(product: int)
    ensures 0 <= product - 100 * (product / 100) <= 99
  {
  }

  lemma {:induction false} BatchGap(reports: seq<Report>, rate: RateBP)
    requires AllAccepted(reports, rate)
    ensures 0 <= TotalBytes(reports)
    ensures 0 <= rate * TotalBytes(reports) - 100 * TotalBilled(reports, rate) <= 99 * |reports|
  {
    if reports != [] {
      hide BilledBytes, ValidateDelta;
      BatchGap(reports[1..], rate);
      ReportGap(reports[0].up, reports[0].down, rate);
      Distribute(rate, reports[0].up + reports[0].down, TotalBytes(reports[1..]));
    }
  }

  lemma Distribute(a: int, b: int, c: int)
    ensures a * (b + c) == a * b + a * c
  {
  }

  lemma RoundedGap(product: nat, billed: int, n: nat)
    requires 0 <= product - 100 * billed <= 99 * n
    ensures 0 <= product / 100 - billed <= 99 * n / 100
    ensures n > 0 ==> 99 * n / 100 <= n - 1
  {
  }

  /**
    Rounding each report down gives the user at most 99 hundredths of a byte a report: billed
    apart, n reports at one rate come to the bill of their total less between 0 and
    99n/100 bytes, so less than one byte a report.
   */
  lemma {:induction false} BatchesFavourTheUser(reports: seq<Report>, rate: RateBP)
    requires AllAccepted(reports, rate) && 0 < rate
    ensures 0 <= TotalBytes(reports)
    ensures 0 <= TermsBill(TotalBytes(reports), rate) - TotalBilled(reports, rate) <= 99 * |reports| / 100
    ensures reports != [] ==> TermsBill(TotalBytes(reports), rate) - TotalBilled(reports, rate) <= |reports| - 1
  {
    hide TotalBytes, TotalBilled, AllAccepted;
    BatchGap(reports, rate);
    var product := TotalBytes(reports) * rate;
    assert product == rate * TotalBytes(reports) >= 0;
    RoundedGap(product, TotalBilled(reports, rate), |reports|);
  }

  /** The gap is reached for every n: one-byte reports at 0.99x bill nothing apart and 99n/100 bytes together. */
  lemma {:induction false} GapIsReached(n: nat)
    ensures var reports := seq(n, _ => Report(1, 0));
            && AllAccepted(reports, 99) && TotalBytes(reports) == n && TotalBilled(reports, 99) == 0
            && TermsBill(TotalBytes(reports), 99) - TotalBilled(reports, 99) == 99 * n / 100
  {
    var reports := seq(n, _ => Report(1, 0));
    AcceptedIff(1, 0, 99);
    AcceptedBillFollowsTerms(1, 0, 99);
    if n > 0 {
      GapIsReached(n - 1);
      assert reports[1..] == seq(n - 1, _ => Report(1, 0));
    }
  }
}
