/**
 * The month strings: the ledger's `YYYY-MM-01` option values, the proof form's `YYYY-MM`
 * option values, and the `-01` suffix the proof form appends before storing a month.
 */
module Months {
  import opened Common
  import opened Text

  /** `${year}-${String(m).padStart(2, "0")}`: a proof form month option. */
  function PortalMonth(year: nat, m: nat): string
    requires 1 <= m <= 12
  {
    NatToDecimal(year) + "-" + TwoDigits(m)
  }

  /** `${month}-01`: the month the proof form stores. */
  function StoredMonth(month: string): string
  {
    month + "-01"
  }

  /** `${currentYear}-${String(m).padStart(2, "0")}-01`: a ledger month option. */
  function LedgerMonth(year: nat, m: nat): string
    requires 1 <= m <= 12
  {
    NatToDecimal(year) + "-" + TwoDigits(m) + "-01"
  }

  /** The ledger's twelve month values for a year, January first. */
  function LedgerMonths(year: nat): (ms: seq<string>)
    ensures |ms| == 12
  {
    seq(12, i requires 0 <= i < 12 => LedgerMonth(year, i + 1))
  }

  /** The proof form's twelve month values for a year, January first. */
  function PortalMonths(year: nat): (ms: seq<string>)
    ensures |ms| == 12
  {
    seq(12, i requires 0 <= i < 12 => PortalMonth(year, i + 1))
  }

  /** Reads a `Y-MM-01` value back: the year and the month number. */
  function ParseLedgerMonth(v: string): Option<(nat, nat)>
  {
    var parts := Split(v, '-');
    if |parts| == 3 && IsNumeral(parts[0]) && |parts[1]| == 2 && IsNumeral(parts[1]) && parts[2] == "01"
    then Some((NumeralValue(parts[0]), NumeralValue(parts[1])))
    else None
  }

  /** Every ledger month value has the form `Y-MM-01` and reads back as its year and month. */
  lemma LedgerMonthRoundTrip(year: nat, m: nat)
    requires 1 <= m <= 12
    ensures ParseLedgerMonth(LedgerMonth(year, m)) == Some((year, m))
  {
    var y, mm := NatToDecimal(year), TwoDigits(m);
    assert LedgerMonth(year, m) == y + ['-'] + (mm + ['-'] + "01");
    assert '-' !in y by { assert forall i :: 0 <= i < |y| ==> IsDigit(y[i]); }
    assert '-' !in mm by { assert forall i :: 0 <= i < |mm| ==> IsDigit(mm[i]); }
    SplitAfterPiece(y, mm + ['-'] + "01", '-');
    SplitAfterPiece(mm, "01", '-');
    SplitWithoutSeparator("01", '-');
  }

  /** The twelve ledger month values of a year are pairwise distinct, each is `Y-MM-01` for its
      own month, and they read back in order as months 1 to 12. */
  lemma LedgerMonthsDistinct(year: nat)
    ensures forall i :: 0 <= i < 12 ==> ParseLedgerMonth(LedgerMonths(year)[i]) == Some((year, i + 1))
    ensures forall i, j :: 0 <= i < j < 12 ==> LedgerMonths(year)[i] != LedgerMonths(year)[j]
  {
    forall i | 0 <= i < 12 ensures ParseLedgerMonth(LedgerMonths(year)[i]) == Some((year, i + 1)) {
      LedgerMonthRoundTrip(year, i + 1);
    }
  }

  /** The proof form stores, for a month it offers, exactly the ledger's value for that month. */
  lemma StoredMonthIsLedgerMonth(year: nat, i: nat)
    requires i < 12
    ensures StoredMonth(PortalMonths(year)[i]) == LedgerMonths(year)[i]
  {
  }
}
