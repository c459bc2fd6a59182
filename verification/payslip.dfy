/**
 The payslip portal: the earnings total and net pay of a card, the month range the employee
 picks (inclusive, in list order), and the title of the printed document.
 Amounts are whole rupees.
 */
module Payslip {
  import opened Text

  datatype PayslipData = PayslipData(
    month: string, basic: int, hra: int, conveyance: int, medical: int, deductions: int)

  const Payslips := [
    PayslipData("January 2025", 50000, 15000, 3000, 2000, 5000),
    PayslipData("February 2025", 51000, 15200, 3000, 2100, 5200),
    PayslipData("March 2025", 52000, 15300, 3100, 2200, 5300),
    PayslipData("April 2025", 53000, 15400, 3100, 2200, 5400),
    PayslipData("May 2025", 54000, 15500, 3200, 2300, 5500),
    PayslipData("June 2025", 55000, 15600, 3200, 2300, 5600),
    PayslipData("July 2025", 56000, 15700, 3300, 2400, 5700),
    PayslipData("August 2025", 57000, 15800, 3300, 2400, 5800),
    PayslipData("September 2025", 58000, 15900, 3400, 2500, 5900),
    PayslipData("October 2025", 59000, 16000, 3400, 2500, 6000),
    PayslipData("November 2025", 60000, 16100, 3500, 2600, 6100),
    PayslipData("December 2025", 61000, 16200, 3500, 2600, 6200)
  ]

  function TotalEarnings(p: PayslipData): int {
    p.basic + p.hra + p.conveyance + p.medical
  }

  function NetPay(p: PayslipData): int {
    TotalEarnings(p) - p.deductions
  }

  /** Net pay and deductions add back up to the earnings, and no component is lost. */
  lemma NetPayBalances(p: PayslipData)
    ensures NetPay(p) + p.deductions == p.basic + p.hra + p.conveyance + p.medical
    ensures p.deductions >= 0 ==> NetPay(p) <= TotalEarnings(p)
  {
  }

  /** `findIndex(p => p.month === month)`: the first position with that month, or -1. */
  function FindMonth(list: seq<PayslipData>, month: string): (k: int)
    ensures -1 <= k < |list|
    ensures k == -1 <==> forall i :: 0 <= i < |list| ==> list[i].month != month
    ensures k >= 0 ==> list[k].month == month && forall i :: 0 <= i < k ==> list[i].month != month
  {
    if list == [] then -1
    else if list[0].month == month then 0
    else
      var k := FindMonth(list[1..], month);
      assert forall i :: 1 <= i < |list| ==> list[i] == list[1..][i - 1];
      if k == -1 then -1 else k + 1
  }

  /** `isRangeValid`: both months exist and the start does not come after the end. */
  predicate RangeValid(list: seq<PayslipData>, start: string, end: string) {
    var s := FindMonth(list, start);
    var e := FindMonth(list, end);
    s != -1 && e != -1 && s <= e
  }

  /** `selectedPayslips`: the slips from the start month through the end month, or none. */
  function SelectedPayslips(list: seq<PayslipData>, start: string, end: string): (r: seq<PayslipData>)
    ensures !RangeValid(list, start, end) ==> r == []
    ensures RangeValid(list, start, end) ==>
      var s := FindMonth(list, start);
      var e := FindMonth(list, end);
      |r| == e - s + 1 && r[0].month == start && r[|r| - 1].month == end
      && forall i :: 0 <= i < |r| ==> r[i] == list[s + i]
  {
    if RangeValid(list, start, end) then list[FindMonth(list, start)..FindMonth(list, end) + 1] else []
  }

  /** The download button is disabled exactly when the range is invalid. */
  lemma DownloadDisabledIffInvalid(list: seq<PayslipData>, start: string, end: string)
    ensures |SelectedPayslips(list, start, end)| == 0 <==> !RangeValid(list, start, end)
  {
  }

  /** Picking the same month for both ends selects exactly that one slip. */
  lemma SingleMonth(list: seq<PayslipData>, month: string)
    requires exists i :: 0 <= i < |list| && list[i].month == month
    ensures SelectedPayslips(list, month, month) == [list[FindMonth(list, month)]]
  {
  }

  /**
   The print title: `Payslip_` and the start month with its first space made `_`, then `_to_` and
   the end month the same way when the months differ.
   */
  function DocumentTitle(start: string, end: string): (t: string)
    ensures start == end ==> |t| == 8 + |start|
    ensures start != end ==> |t| == 12 + |start| + |end| && t[8 + |start|..12 + |start|] == "_to_"
    ensures t[..8] == "Payslip_"
    ensures t[8..8 + |start|] == ReplaceFirst(start, ' ', '_')
    ensures start != end ==> t[12 + |start|..] == ReplaceFirst(end, ' ', '_')
  {
    var first := ReplaceFirst(start, ' ', '_');
    var rest := if start != end then "_to_" + ReplaceFirst(end, ' ', '_') else "";
    TitleParts(first, rest);
    "Payslip_" + first + rest
  }

  /** Where the pieces of a title sit. */
  lemma TitleParts(first: string, rest: string)
    ensures var t := "Payslip_" + first + rest;
            |t| == 8 + |first| + |rest| && t[..8] == "Payslip_" && t[8..8 + |first|] == first
            && t[8 + |first|..] == rest
  {
  }

  /**
   When both ends are the same "<name> <year>" month, the title is that one label with the
   space turned into `_`, e.g. `Payslip_January_2025` for the page's initial state.
   */
  lemma DocumentTitleOfOneLabel(m: string, y: string)
    requires ' ' !in m
    ensures DocumentTitle(m + " " + y, m + " " + y) == "Payslip_" + m + "_" + y
  {
    var month := m + " " + y;
    LabelReplaced(m, y);
    assert DocumentTitle(month, month) == "Payslip_" + (m + "_" + y);
  }

  /**
   For month labels of the form "<name> <year>", the title spells out both labels with the
   space turned into `_`, e.g. `Payslip_January_2025_to_March_2025`.
   */
  lemma DocumentTitleOfLabels(m1: string, y1: string, m2: string, y2: string)
    requires ' ' !in m1 && ' ' !in m2
    requires m1 + " " + y1 != m2 + " " + y2
    ensures DocumentTitle(m1 + " " + y1, m2 + " " + y2)
            == "Payslip_" + m1 + "_" + y1 + "_to_" + m2 + "_" + y2
  {
    LabelReplaced(m1, y1);
    LabelReplaced(m2, y2);
    TitleOfDistinct(m1 + " " + y1, m2 + " " + y2);
    TitlePieces(m1, y1, m2, y2);
  }

  lemma LabelReplaced(m: string, y: string)
    requires ' ' !in m
    ensures ReplaceFirst(m + " " + y, ' ', '_') == m + "_" + y
  {
    ReplaceFirstAt(m, ' ', y, '_');
  }

  lemma TitleOfDistinct(start: string, end: string)
    requires start != end
    ensures DocumentTitle(start, end) == "Payslip_" + ReplaceFirst(start, ' ', '_') + "_to_" + ReplaceFirst(end, ' ', '_')
  {
  }

  lemma TitlePieces(m1: string, y1: string, m2: string, y2: string)
    ensures "Payslip_" + (m1 + "_" + y1) + "_to_" + (m2 + "_" + y2)
            == "Payslip_" + m1 + "_" + y1 + "_to_" + m2 + "_" + y2
  {
  }
}
