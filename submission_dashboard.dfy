/**
 * The member's submission dashboard: when the next video may be sent and
 * which heading the dashboard shows. Times are millisecond timestamps.
 */
module SubmissionDashboard {
  import opened Wrappers
  import opened Types

  /** One day, and the thirty-day window between two submissions, in milliseconds. */
  const DayMs: int := 24 * 60 * 60 * 1000
  const WindowMs: int := 30 * DayMs

  /** `lastSubmission`: the latest submission date, absent for an empty list. */
  function LastSubmission(subs: seq<Submission>): (last: Option<int>)
    ensures last.None? <==> subs == []
    ensures last.Some? ==> exists i :: 0 <= i < |subs| && subs[i].submissionDate == last.value
    ensures last.Some? ==> forall i :: 0 <= i < |subs| ==> subs[i].submissionDate <= last.value
  {
    if subs == [] then None
    else
      var rest := LastSubmission(subs[1..]);
      if rest.None? || subs[0].submissionDate >= rest.value then Some(subs[0].submissionDate)
      else
        assert forall i :: 1 <= i < |subs| ==> subs[i] == subs[1..][i - 1];
        rest
  }

  /** The date the dashboard announces for the next submission: the latest date plus thirty days. */
  function NextAvailableDate(subs: seq<Submission>): (next: Option<int>)
    ensures next.None? <==> subs == []
    ensures next.Some? ==> exists i :: 0 <= i < |subs| && next.value == subs[i].submissionDate + WindowMs
    ensures next.Some? ==> forall i :: 0 <= i < |subs| ==> subs[i].submissionDate + WindowMs <= next.value
  {
    match LastSubmission(subs)
    case None => None
    case Some(last) => Some(last + WindowMs)
  }

  /** A record that starts the cooldown. */
  predicate StartsCooldown(s: Submission)
  {
    s.status == Approved || s.status == Pending
  }

  /** `lastApprovedOrPendingSubmission`: the FIRST approved or pending record in list order. */
  function GateSubmission(subs: seq<Submission>): (gate: Option<Submission>)
    ensures gate.None? <==> forall i :: 0 <= i < |subs| ==> !StartsCooldown(subs[i])
    ensures gate.Some? ==> exists i :: 0 <= i < |subs| && subs[i] == gate.value && StartsCooldown(subs[i])
                                   && forall j :: 0 <= j < i ==> !StartsCooldown(subs[j])
  {
    if subs == [] then None
    else if StartsCooldown(subs[0]) then Some(subs[0])
    else
      var rest := GateSubmission(subs[1..]);
      assert forall i :: 1 <= i < |subs| ==> subs[i] == subs[1..][i - 1];
      if rest.Some? then
        var i :| 0 <= i < |subs[1..]| && subs[1..][i] == rest.value && StartsCooldown(subs[1..][i])
          && forall j :: 0 <= j < i ==> !StartsCooldown(subs[1..][j]);
        assert subs[i + 1] == rest.value;
        rest
      else rest
  }

  /** `hasRejectedSubmission`. */
  predicate HasRejected(subs: seq<Submission>)
  {
    exists i :: 0 <= i < |subs| && subs[i].status == Rejected
  }

  /** `Math.ceil(x / d)` for a positive divisor, on exact integers. */
  function CeilDiv(x: int, d: int): (q: int)
    requires d > 0
    ensures (q - 1) * d < x <= q * d
  {
    -((-x) / d)
  }

  /** The ceiling is the only integer between those bounds. */
  lemma CeilDivUnique(x: int, d: int, q: int)
    requires d > 0 && (q - 1) * d < x <= q * d
    ensures CeilDiv(x, d) == q
  {
  }

  lemma CeilDivMonotone(x: int, y: int, d: int)
    requires d > 0 && x <= y
    ensures CeilDiv(x, d) <= CeilDiv(y, d)
  {
  }

  /** Milliseconds from `now` to the end of the gate's window. */
  function Remaining(gate: Submission, now: int): int
  {
    gate.submissionDate + WindowMs - now
  }

  /** `daysUntilNextSubmission`: whole days, rounded up, until thirty days after the gate; 0 without a gate. */
  function DaysUntilNextSubmission(subs: seq<Submission>, now: int): (days: int)
    ensures GateSubmission(subs).None? ==> days == 0
    ensures GateSubmission(subs).Some? ==>
      (days - 1) * DayMs < Remaining(GateSubmission(subs).value, now) <= days * DayMs
  {
    match GateSubmission(subs)
    case None => 0
    case Some(gate) => CeilDiv(Remaining(gate, now), DayMs)
  }

  /** `canSubmit`. */
  predicate CanSubmit(subs: seq<Submission>, now: int)
  {
    GateSubmission(subs).None? || DaysUntilNextSubmission(subs, now) <= 0 || HasRejected(subs)
  }

  /** With no approved or pending record the member may submit, and no days remain. */
  lemma NoGateMeansOpen(subs: seq<Submission>, now: int)
    requires forall i :: 0 <= i < |subs| ==> !StartsCooldown(subs[i])
    ensures CanSubmit(subs, now) && DaysUntilNextSubmission(subs, now) == 0
  {
  }

  /** Any rejected record reopens submission, whatever the dates. */
  lemma RejectionReopens(subs: seq<Submission>, now: int)
    requires exists i :: 0 <= i < |subs| && subs[i].status == Rejected
    ensures CanSubmit(subs, now)
  {
  }

  /** A gate submitted `k` whole days before `now` leaves 30 - k days. */
  lemma DaysFromAge(subs: seq<Submission>, now: int, k: int)
    requires GateSubmission(subs).Some? && GateSubmission(subs).value.submissionDate == now - k * DayMs
    ensures DaysUntilNextSubmission(subs, now) == 30 - k
  {
    CeilDivUnique(Remaining(GateSubmission(subs).value, now), DayMs, 30 - k);
  }

  /** Ten days after the gate, twenty remain; at the moment of submission, thirty. */
  lemma TenDaysOldLeavesTwenty(subs: seq<Submission>, now: int)
    requires GateSubmission(subs).Some?
    ensures GateSubmission(subs).value.submissionDate == now - 10 * DayMs ==> DaysUntilNextSubmission(subs, now) == 20
    ensures GateSubmission(subs).value.submissionDate == now ==> DaysUntilNextSubmission(subs, now) == 30
  {
    if GateSubmission(subs).value.submissionDate == now - 10 * DayMs {
      DaysFromAge(subs, now, 10);
    }
    if GateSubmission(subs).value.submissionDate == now {
      DaysFromAge(subs, now, 0);
    }
  }

  /** With a gate and no rejection, submission is open exactly when the thirty days are over. */
  lemma CooldownExpires(subs: seq<Submission>, now: int)
    requires GateSubmission(subs).Some? && !HasRejected(subs)
    ensures CanSubmit(subs, now) <==> DaysUntilNextSubmission(subs, now) <= 0
    ensures CanSubmit(subs, now) <==> now >= GateSubmission(subs).value.submissionDate + WindowMs
  {
    var days := DaysUntilNextSubmission(subs, now);
    var rem := Remaining(GateSubmission(subs).value, now);
    if days <= 0 {
      assert days * DayMs <= 0;
    } else {
      assert (days - 1) * DayMs >= 0;
    }
  }

  /** The countdown never goes up as time passes. */
  lemma DaysNonIncreasing(subs: seq<Submission>, now: int, later: int)
    requires now <= later
    ensures DaysUntilNextSubmission(subs, later) <= DaysUntilNextSubmission(subs, now)
  {
    if GateSubmission(subs).Some? {
      var gate := GateSubmission(subs).value;
      CeilDivMonotone(Remaining(gate, later), Remaining(gate, now), DayMs);
    }
  }

  /** When the countdown is shown, the announced date exists and is no earlier than the gate's window end. */
  lemma ClosedHasNextDate(subs: seq<Submission>, now: int)
    requires !CanSubmit(subs, now)
    ensures NextAvailableDate(subs).Some?
    ensures NextAvailableDate(subs).value >= GateSubmission(subs).value.submissionDate + WindowMs
  {
    var gate := GateSubmission(subs).value;
    var i :| 0 <= i < |subs| && subs[i] == gate && StartsCooldown(subs[i])
      && forall j :: 0 <= j < i ==> !StartsCooldown(subs[j]);
  }

  /** The dashboard heading. */
  datatype Heading = ReadyToResubmit | ReadyForNext | NextAvailableIn(days: int)

  /** The heading: a rejection wins, then an open window, then the countdown. */
  function HeadingFor(subs: seq<Submission>, now: int): (h: Heading)
    ensures h.ReadyToResubmit? <==> HasRejected(subs)
    ensures h.ReadyForNext? <==> !HasRejected(subs) && CanSubmit(subs, now)
    ensures h.NextAvailableIn? ==> h.days == DaysUntilNextSubmission(subs, now) && h.days > 0
  {
    if HasRejected(subs) then ReadyToResubmit
    else if CanSubmit(subs, now) then ReadyForNext
    else NextAvailableIn(DaysUntilNextSubmission(subs, now))
  }

  /** The heading's text; the countdown prints its day count in decimal. */
  function HeadingText(h: Heading): (text: string)
    ensures h.ReadyToResubmit? ==> text == "Ready to resubmit your video!"
    ensures h.ReadyForNext? ==> text == "Ready for your next submission!"
    ensures h.NextAvailableIn? ==>
      exists digits :: text == "Next submission available in " + digits + " days"
                       && (h.days >= 0 ==> IsDecimal(digits) && DecimalValue(digits) == h.days)
  {
    match h
    case ReadyToResubmit => "Ready to resubmit your video!"
    case ReadyForNext => "Ready for your next submission!"
    case NextAvailableIn(days) => "Next submission available in " + IntToString(days) + " days"
  }

  predicate IsDigit(c: char)
  {
    '0' <= c <= '9'
  }

  /** Canonical decimal digits: at least one, and no leading zero unless the number is 0. */
  predicate IsDecimal(s: string)
  {
    && |s| >= 1
    && (forall i :: 0 <= i < |s| ==> IsDigit(s[i]))
    && (s[0] == '0' ==> |s| == 1)
  }

  /** The number a string of digits denotes, read left to right. */
  function DecimalValue(s: string): (v: nat)
    requires forall i :: 0 <= i < |s| ==> IsDigit(s[i])
  {
    if s == [] then 0
    else
      assert IsDigit(s[|s| - 1]);
      10 * DecimalValue(s[..|s| - 1]) + (s[|s| - 1] as int - '0' as int)
  }

  /**
   * Decimal text of an integer, as a template literal prints it: canonical
   * digits denoting the number, after a minus sign when it is negative.
   */
  function IntToString(n: int): (s: string)
    ensures n >= 0 ==> IsDecimal(s) && DecimalValue(s) == n
    ensures n < 0 ==> |s| >= 2 && s[0] == '-' && IsDecimal(s[1..]) && DecimalValue(s[1..]) == -n
    decreases if n < 0 then 1 - n else n
  {
    if n < 0 then
      var t := IntToString(-n);
      assert ("-" + t)[1..] == t;
      "-" + t
    else if n < 10 then [DigitChar(n)]
    else
      var prefix := IntToString(n / 10);
      var s := prefix + [DigitChar(n % 10)];
      assert s[..|s| - 1] == prefix;
      s
  }

  function DigitChar(d: int): (c: char)
    requires 0 <= d < 10
    ensures IsDigit(c) && c as int - '0' as int == d
  {
    ('0' as int + d) as char
  }

  /** A sample record for the example below. */
  function Sample(id: string, status: Status, date: int): Submission
  {
    Submission(id, "Sam Doe", "sam@example.com", None, 30, Male, "West", "", 12, None, "", date, status, false, None)
  }

  /**
   * The gate is the first approved or pending record in list order, not the
   * latest: with an old pending record listed before a newer approved one,
   * the old one decides, and the countdown is already over.
   */
  lemma GateIsFirstNotLatest()
    ensures var subs := [Sample("a", Pending, 0), Sample("b", Approved, 20 * DayMs)];
      && GateSubmission(subs) == Some(subs[0])
      && LastSubmission(subs) == Some(20 * DayMs)
      && CanSubmit(subs, 31 * DayMs)
      && !CanSubmit([subs[1]], 31 * DayMs)
  {
    var subs := [Sample("a", Pending, 0), Sample("b", Approved, 20 * DayMs)];
    DaysFromAge(subs, 31 * DayMs, 31);
    DaysFromAge([subs[1]], 31 * DayMs, 11);
  }
}
