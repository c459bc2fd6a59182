/**
 The employee leave page: the yup schema that gates submission, the inclusive day count (the
 page defines `calculateLeaveDays` but never calls it, so nothing shows that count), the history update after the server acknowledges a request, and the
 searchable history table (newest application first).
 Dates are milliseconds since the epoch, as `Date.getTime()` returns them.
 */
module Leave {
  import opened Wrappers
  import opened Seqs
  import opened Text

  /** `1000 * 3600 * 24`. */
  const MsPerDay: int := 86_400_000
  const MinReasonLength: nat := 10
  const ReasonTooShort := "Reason must be at least 10 characters"

  datatype LeaveStatus = Approved | Pending | Rejected

  datatype LeaveRecord = LeaveRecord(
    id: int, leaveType: string, from: int, to: int, status: LeaveStatus, appliedOn: int)

  /** The form values; an unpicked date is `null`. */
  datatype LeaveForm = LeaveForm(
    leaveType: string, fromDate: Option<int>, toDate: Option<int>, reason: string)

  const EmptyForm := LeaveForm("", None, None, "")

  /** The per-field messages the resolver reports (`formState.errors`); `None` where a field passes. */
  datatype LeaveErrors = LeaveErrors(
    leaveType: Option<string>, fromDate: Option<string>, toDate: Option<string>, reason: Option<string>)
  {
    predicate None() {
      leaveType.None? && fromDate.None? && toDate.None? && reason.None?
    }
  }

  /** The to-date test of the schema: required, and not before the from-date when there is one. */
  predicate ToDateFails(form: LeaveForm) {
    form.toDate.None? || (form.fromDate.Some? && form.toDate.value < form.fromDate.value)
  }

  /**
   The schema, every rule evaluated and every failing field reported:
   a leave type is required, both dates are required, the end may not precede the start,
   and the trimmed reason needs at least ten characters. The reason's `min` test is declared
   before `required`, so a blank reason reports the length message too.
   */
  function Validate(form: LeaveForm): (errors: LeaveErrors)
    ensures errors.leaveType.Some? <==> form.leaveType == []
    ensures errors.fromDate.Some? <==> form.fromDate.None?
    ensures errors.toDate.Some? <==> form.toDate.None? || (form.fromDate.Some? && form.toDate.value < form.fromDate.value)
    ensures errors.reason.Some? <==> |Trim(form.reason)| < MinReasonLength
    ensures errors.reason.Some? ==> errors.reason.value == ReasonTooShort
    ensures errors.None() <==> form.leaveType != [] && form.fromDate.Some? && form.toDate.Some?
                               && form.fromDate.value <= form.toDate.value && |Trim(form.reason)| >= MinReasonLength
  {
    LeaveErrors(
      if form.leaveType == [] then Some("Please select leave type") else None,
      if form.fromDate.None? then Some("Please select start date") else None,
      if form.toDate.None? then Some("Please select end date")
      else if ToDateFails(form) then Some("End date can't be before start date")
      else None,
      if |Trim(form.reason)| < MinReasonLength then Some(ReasonTooShort) else None)
  }

  /**
   `calculateLeaveDays`: 0 when a date is missing, otherwise the whole days between the dates
   (rounded down) plus one, so both ends count. The page defines it without calling it.
   */
  function CalculateLeaveDays(from: Option<int>, to: Option<int>): (days: int)
    ensures from.None? || to.None? ==> days == 0
    ensures from.Some? && to.Some? ==>
      (days - 1) * MsPerDay <= to.value - from.value < days * MsPerDay
  {
    if from.None? || to.None? then 0
    else (to.value - from.value) / MsPerDay + 1
  }

  /** A span of exactly `n` days counts `n + 1` days; the same day counts 1. */
  lemma WholeDaySpan(from: int, n: nat)
    ensures CalculateLeaveDays(Some(from), Some(from + n * MsPerDay)) == n + 1
  {
  }

  /** A form that passes the schema always counts at least one day. */
  lemma ValidFormCountsADay(form: LeaveForm)
    requires Validate(form).None()
    ensures CalculateLeaveDays(form.fromDate, form.toDate) >= 1
  {
  }

  /** What the `/api/leave` request came back with. */
  datatype Response =
    | Accepted     // `response.ok` and a readable JSON body
    | Refused      // `!response.ok`, or a body that is not JSON
    | Unreachable  // `fetch` itself threw

  /** The toast raised after a submission attempt. */
  datatype Notice = Submitted | SomethingWentWrong

  datatype LeaveState = LeaveState(history: seq<LeaveRecord>, form: LeaveForm)

  /** The record `onSubmit` builds: pending, typed and dated from the form, stamped with `now`. */
  function NewLeave(form: LeaveForm, now: int): LeaveRecord
    requires form.fromDate.Some? && form.toDate.Some?
  {
    LeaveRecord(now, form.leaveType, form.fromDate.value, form.toDate.value, Pending, now)
  }

  /**
   `onSubmit`: without both dates nothing happens; otherwise the request is sent and, only when it
   is accepted, one pending record is put in front of the history and the form is reset.
   */
  function OnSubmit(s: LeaveState, response: Response, now: int): (r: (LeaveState, Option<Notice>))
    ensures s.form.fromDate.None? || s.form.toDate.None? ==> r == (s, None)
    ensures s.form.fromDate.Some? && s.form.toDate.Some? && response == Accepted ==>
      && |r.0.history| == |s.history| + 1
      && r.0.history[1..] == s.history
      && r.0.history[0].status == Pending
      && r.0.history[0].leaveType == s.form.leaveType
      && r.0.history[0].from == s.form.fromDate.value
      && r.0.history[0].to == s.form.toDate.value
      && r.0.history[0].id == now
      && r.0.history[0].appliedOn == now
      && r.0.form == EmptyForm
      && r.1 == Some(Submitted)
    ensures s.form.fromDate.Some? && s.form.toDate.Some? && response != Accepted ==>
      r == (s, Some(SomethingWentWrong))
  {
    if s.form.fromDate.None? || s.form.toDate.None? then (s, None)
    else if response != Accepted then (s, Some(SomethingWentWrong))
    else (LeaveState([NewLeave(s.form, now)] + s.history, EmptyForm), Some(Submitted))
  }

  datatype SubmitResult = SubmitResult(state: LeaveState, errors: LeaveErrors, notice: Option<Notice>)

  /** The form's submit: the schema runs first and `onSubmit` only sees valid values. */
  function Submit(s: LeaveState, response: Response, now: int): (r: SubmitResult)
    ensures r.errors == Validate(s.form)
    ensures !r.errors.None() ==> r.state == s && r.notice.None?
    ensures r.state.history != s.history ==> Validate(s.form).None() && response == Accepted
  {
    var errors := Validate(s.form);
    if !errors.None() then SubmitResult(s, errors, None)
    else
      var (t, notice) := OnSubmit(s, response, now);
      SubmitResult(t, errors, notice)
  }

  /** Every record in the history is pending and spans a non-empty, ordered date range. */
  ghost predicate WellFormedHistory(history: seq<LeaveRecord>) {
    forall i :: 0 <= i < |history| ==> history[i].status == Pending && history[i].from <= history[i].to
  }

  /** Submitting keeps the history well formed, never drops or edits an older record, and adds at most one. */
  lemma SubmitKeepsHistory(s: LeaveState, response: Response, now: int)
    requires WellFormedHistory(s.history)
    ensures var h := Submit(s, response, now).state.history;
            && WellFormedHistory(h)
            && (h == s.history || (|h| == |s.history| + 1 && h[1..] == s.history))
  {
    var r := Submit(s, response, now);
    if r.state.history != s.history {
      var h := r.state.history;
      forall i | 0 <= i < |h| ensures h[i].status == Pending && h[i].from <= h[i].to {
        if i > 0 { assert h[i] == s.history[i - 1]; }
      }
    }
  }

  /** Newest application first. */
  ghost predicate NewestFirst(s: seq<LeaveRecord>) {
    forall i, j :: 0 <= i < j < |s| ==> s[i].appliedOn >= s[j].appliedOn
  }

  /** A record no later than the head of a newest-first list can stand before it. */
  lemma ConsNewestFirst(h: LeaveRecord, t: seq<LeaveRecord>)
    requires NewestFirst(t)
    requires t != [] ==> t[0].appliedOn <= h.appliedOn
    ensures NewestFirst([h] + t)
  {
    var r := [h] + t;
    forall i, j | 0 <= i < j < |r| ensures r[i].appliedOn >= r[j].appliedOn {
      if i == 0 { assert r[j] == t[j - 1]; } else { assert r[i] == t[i - 1] && r[j] == t[j - 1]; }
    }
  }

  /** Places `x` after every record applied strictly later than it. */
  function Insert(x: LeaveRecord, s: seq<LeaveRecord>): (r: seq<LeaveRecord>)
    requires NewestFirst(s)
    ensures NewestFirst(r)
    ensures multiset(r) == multiset(s) + multiset{x}
    ensures r[0] == x || (s != [] && r[0] == s[0])
  {
    if s == [] then [x]
    else if s[0].appliedOn > x.appliedOn then
      var t := Insert(x, s[1..]);
      ConsNewestFirst(s[0], t);
      ConsMultiset(s, x, t);
      [s[0]] + t
    else
      ConsNewestFirst(x, s);
      [x] + s
  }

  lemma ConsMultiset(s: seq<LeaveRecord>, x: LeaveRecord, t: seq<LeaveRecord>)
    requires s != [] && multiset(t) == multiset(s[1..]) + multiset{x}
    ensures multiset([s[0]] + t) == multiset(s) + multiset{x}
  {
    assert s == [s[0]] + s[1..];
  }

  /** `sort((a, b) => b.appliedOn - a.appliedOn)`. */
  function SortNewestFirst(s: seq<LeaveRecord>): (r: seq<LeaveRecord>)
    ensures NewestFirst(r)
    ensures multiset(r) == multiset(s)
  {
    if s == [] then []
    else
      assert s == [s[0]] + s[1..];
      Insert(s[0], SortNewestFirst(s[1..]))
  }

  predicate TypeMatches(record: LeaveRecord, term: string) {
    IncludesIgnoringCase(record.leaveType, term)
  }

  function Matches(term: string): LeaveRecord -> bool {
    x => TypeMatches(x, term)
  }

  /** `filteredHistory`: the records whose type contains the search term, ignoring case, newest first. */
  function FilteredHistory(history: seq<LeaveRecord>, term: string): (r: seq<LeaveRecord>)
    ensures NewestFirst(r)
    ensures multiset(r) == multiset(Filter(history, Matches(term)))
    ensures forall i :: 0 <= i < |r| ==> r[i] in history && TypeMatches(r[i], term)
    ensures forall i :: 0 <= i < |history| && TypeMatches(history[i], term) ==> history[i] in r
  {
    var kept := Filter(history, Matches(term));
    var r := SortNewestFirst(kept);
    PermutedFilter(history, term, kept, r);
    r
  }

  /** A reordering of the filtered records holds exactly the matching records of the history. */
  lemma PermutedFilter(history: seq<LeaveRecord>, term: string, kept: seq<LeaveRecord>, r: seq<LeaveRecord>)
    requires kept == Filter(history, Matches(term))
    requires multiset(r) == multiset(kept)
    ensures forall i :: 0 <= i < |r| ==> r[i] in history && TypeMatches(r[i], term)
    ensures forall i :: 0 <= i < |history| && TypeMatches(history[i], term) ==> history[i] in r
  {
    assert forall k :: 0 <= k < |kept| ==> kept[k] in history && TypeMatches(kept[k], term);
    forall i | 0 <= i < |r| ensures r[i] in history && TypeMatches(r[i], term) {
      KeptMember(history, term, kept, r[i]);
    }
    assert forall i :: 0 <= i < |history| && TypeMatches(history[i], term) ==> history[i] in kept;
    MatchesKept(history, term, kept, r);
  }

  /** What a list holds, a reordering of it holds too. */
  lemma MatchesKept(history: seq<LeaveRecord>, term: string, kept: seq<LeaveRecord>, r: seq<LeaveRecord>)
    requires forall i :: 0 <= i < |history| && TypeMatches(history[i], term) ==> history[i] in kept
    requires multiset(r) == multiset(kept)
    ensures forall i :: 0 <= i < |history| && TypeMatches(history[i], term) ==> history[i] in r
  {
    forall i | 0 <= i < |history| && TypeMatches(history[i], term) ensures history[i] in r {
      assert history[i] in multiset(r);
    }
  }

  /** An element of a reordering of `kept` is one of `kept`'s elements, so it shares what they all satisfy. */
  lemma KeptMember(history: seq<LeaveRecord>, term: string, kept: seq<LeaveRecord>, x: LeaveRecord)
    requires forall k :: 0 <= k < |kept| ==> kept[k] in history && TypeMatches(kept[k], term)
    requires x in multiset(kept)
    ensures x in history && TypeMatches(x, term)
  {
    var j :| 0 <= j < |kept| && kept[j] == x;
  }

  /** An empty search shows the whole history. */
  lemma EmptySearchShowsAll(history: seq<LeaveRecord>)
    ensures multiset(FilteredHistory(history, [])) == multiset(history)
  {
    forall i | 0 <= i < |history| ensures TypeMatches(history[i], []) {
      IncludesIgnoringCaseEmpty(history[i].leaveType);
    }
    FilterKeepsAll(history, Matches([]));
  }
}
