/** One run of the reminder job of backend/src/scheduler/scheduler.service.ts.
    The clock reading `now` is a parameter; a reminder is the appointment handed
    to the notifications service, recorded as an event; which calls throw is a
    parameter too. The run reads the table and writes nothing. */
module Scheduler {
  import opened Common
  import opened Seqs
  import opened Appointments

  const MinutesPerHour := 60

  /** What the job logs, in order. */
  datatype LogEntry =
    | Started
    | Found(count: nat)
    | NoneFound
    | Failed

  /** The reminder calls made, in order, and the log written. */
  datatype Run = Run(reminders: seq<Appointment>, log: seq<LogEntry>)

  /** The query's `where`: Confirmed, and inside the closed window
      [now + 24 h, now + 48 h]. */
  predicate InWindow(a: Appointment, now: int)
  {
    && a.status == Confirmed
    && now + 24 * MinutesPerHour <= a.dateTime <= now + 48 * MinutesPerHour
  }

  function WindowOf(now: int): Appointment -> bool
  {
    a => InWindow(a, now)
  }

  /** `isFuture(appointment_date_time)`, read against the same clock. */
  function FutureOf(now: int): Appointment -> bool
  {
    (a: Appointment) => a.dateTime > now
  }

  /** The rows the query returns, in table order. */
  function Selected(rows: seq<Appointment>, now: int): (r: seq<Appointment>)
    ensures forall a :: a in r <==> a in rows && a.status == Confirmed
                                    && now + 1440 <= a.dateTime <= now + 2880
    ensures IsSubsequence(r, rows)
  {
    FilterIsSubsequence(rows, WindowOf(now));
    Filter(rows, WindowOf(now))
  }

  /** A reminder call that is made and throws. */
  predicate Throws(a: Appointment, now: int, failing: set<nat>)
  {
    a.dateTime > now && a.id in failing
  }

  /** The position of the first selected appointment whose reminder call throws,
      or |sel| when none does. */
  function FirstFailure(sel: seq<Appointment>, now: int, failing: set<nat>): (k: nat)
    ensures k <= |sel|
    ensures k < |sel| ==> Throws(sel[k], now, failing)
    ensures forall j :: 0 <= j < k ==> !Throws(sel[j], now, failing)
  {
    if sel == [] then 0
    else if Throws(sel[0], now, failing) then 0
    else 1 + FirstFailure(sel[1..], now, failing)
  }

  /** The reference definition of one run: a failed query logs the error and calls
      nothing; otherwise the selected appointments are visited in order, each one
      still in the future is reminded, and the first call that throws ends the
      loop and is logged. */
  function ReminderRun(rows: seq<Appointment>, now: int, queryFails: bool,
                       failing: set<nat>): Run
  {
    if queryFails then Run([], [Started, Failed])
    else
      var sel := Selected(rows, now);
      if sel == [] then Run([], [Started, NoneFound])
      else
        var k := FirstFailure(sel, now, failing);
        var reached := if k < |sel| then sel[..k + 1] else sel;
        Run(Filter(reached, FutureOf(now)),
            [Started, Found(|sel|)] + (if k < |sel| then [Failed] else []))
  }

  /** The `for` loop: each appointment still in the future is reminded in order,
      and the first reminder call that throws leaves the loop. */
  method RemindInOrder(upcoming: seq<Appointment>, now: int, failing: set<nat>)
    returns (reminders: seq<Appointment>, threw: bool)
    ensures threw <==> FirstFailure(upcoming, now, failing) < |upcoming|
    ensures reminders == Filter(upcoming[..if threw then FirstFailure(upcoming, now, failing) + 1
                                            else |upcoming|], FutureOf(now))
  {
    reminders := [];
    threw := false;
    ghost var k := FirstFailure(upcoming, now, failing);
    var i := 0;
    while i < |upcoming| && !threw
      invariant 0 <= i <= |upcoming|
      invariant if threw then k < |upcoming| && i == k + 1 else i <= k
      invariant reminders == Filter(upcoming[..i], FutureOf(now))
      decreases |upcoming| - i
    {
      var appointment := upcoming[i];
      assert upcoming[..i + 1] == upcoming[..i] + [appointment];
      FilterSnoc(upcoming[..i], appointment, FutureOf(now));
      assert Throws(appointment, now, failing) <==> i == k;
      if appointment.dateTime > now {
        reminders := reminders + [appointment];
        if appointment.id in failing {
          threw := true;
        }
      }
      i := i + 1;
    }
  }

  /** `handleAppointmentReminders`, with `Between` in scope: the query, then the
      reminder loop; an exception from either ends the run in the `catch`, which
      only logs. */
  method HandleAppointmentReminders(rows: seq<Appointment>, now: int, queryFails: bool,
                                    failing: set<nat>)
    returns (run: Run)
    ensures run == ReminderRun(rows, now, queryFails, failing)
  {
    if queryFails {
      return Run([], [Started, Failed]);
    }
    var upcoming := Filter(rows, WindowOf(now));
    if |upcoming| > 0 {
      var reminders, threw := RemindInOrder(upcoming, now, failing);
      if threw {
        run := Run(reminders, [Started, Found(|upcoming|), Failed]);
      } else {
        assert upcoming[..|upcoming|] == upcoming;
        run := Run(reminders, [Started, Found(|upcoming|)]);
      }
    } else {
      run := Run([], [Started, NoneFound]);
    }
  }

  /** Every reminder goes to a Confirmed appointment of the table inside the
      window, and no run ever reminds anything when the query fails. */
  lemma RemindersAreConfirmedInWindow(rows: seq<Appointment>, now: int, queryFails: bool,
                                      failing: set<nat>)
    ensures forall a :: a in ReminderRun(rows, now, queryFails, failing).reminders ==>
              a in rows && a.status == Confirmed && now + 1440 <= a.dateTime <= now + 2880
    ensures queryFails ==> ReminderRun(rows, now, queryFails, failing).reminders == []
  {
    var sel := Selected(rows, now);
    if !queryFails && sel != [] {
      var k := FirstFailure(sel, now, failing);
      var reached := if k < |sel| then sel[..k + 1] else sel;
      forall a | a in Filter(reached, FutureOf(now)) ensures a in sel {
        assert a in reached;
      }
    }
  }

  /** Filtering keeps everything when everything passes. */
  lemma {:induction false} FilterKeepsAll<T(!new)>(s: seq<T>, p: T -> bool)
    requires forall x :: x in s ==> p(x)
    ensures Filter(s, p) == s
  {
    if s != [] {
      assert s[0] in s;
      FilterKeepsAll(s[1..], p);
      assert s == [s[0]] + s[1..];
    }
  }

  /** The `isFuture` double check never skips anything: the window lies a day ahead. */
  lemma FutureCheckRedundant(rows: seq<Appointment>, now: int)
    ensures Filter(Selected(rows, now), FutureOf(now)) == Selected(rows, now)
  {
    FilterKeepsAll(Selected(rows, now), FutureOf(now));
  }

  /** When no call throws, every selected appointment is reminded exactly once, in
      query order; and with nothing selected no call is made. */
  lemma AllSelectedRemindedOnce(rows: seq<Appointment>, now: int, failing: set<nat>)
    requires forall a :: a in Selected(rows, now) ==> a.id !in failing
    ensures ReminderRun(rows, now, false, failing).reminders == Selected(rows, now)
    ensures Selected(rows, now) == [] ==>
              ReminderRun(rows, now, false, failing) == Run([], [Started, NoneFound])
  {
    var sel := Selected(rows, now);
    if sel != [] {
      forall j | 0 <= j < |sel| ensures !Throws(sel[j], now, failing) {
        assert sel[j] in sel;
      }
      FutureCheckRedundant(rows, now);
    }
  }

  /** A call that throws ends the run: the reminders are exactly the selected
      appointments up to and including the failing one, the rest are skipped, and
      the error is logged instead of thrown. */
  lemma FailureSkipsTheRest(rows: seq<Appointment>, now: int, failing: set<nat>, k: nat)
    requires k < |Selected(rows, now)| && Selected(rows, now)[k].id in failing
    requires forall j :: 0 <= j < k ==> Selected(rows, now)[j].id !in failing
    ensures ReminderRun(rows, now, false, failing).reminders == Selected(rows, now)[..k + 1]
    ensures ReminderRun(rows, now, false, failing).log == [Started, Found(|Selected(rows, now)|), Failed]
  {
    var sel := Selected(rows, now);
    forall j | 0 <= j < k ensures !Throws(sel[j], now, failing) {
      assert sel[j] in sel;
    }
    assert sel[k] in sel;
    assert FirstFailure(sel, now, failing) == k;
    var reached := sel[..k + 1];
    forall x | x in reached ensures x.dateTime > now {
      var i :| 0 <= i <= k && reached[i] == x;
      assert sel[i] in sel;
    }
    FilterKeepsAll(reached, FutureOf(now));
  }

  /** The method as the file is written: `Between` is used at line 41 but never
      imported, so evaluating the query's `where` throws, the `catch` logs it,
      and the run behaves as a failed query whatever the table holds. */
  function ReminderRunAsWritten(rows: seq<Appointment>, now: int, failing: set<nat>): Run
  {
    ReminderRun(rows, now, true, failing)
  }

  /** As written, a Confirmed appointment a day and a half ahead gets no reminder,
      though the intended run reminds it. */
  lemma AsWrittenNeverReminds(a: Appointment, now: int)
    requires a.status == Confirmed && a.dateTime == now + 36 * MinutesPerHour
    ensures ReminderRunAsWritten([a], now, {}).reminders == []
    ensures ReminderRun([a], now, false, {}).reminders == [a]
  {
    AllSelectedRemindedOnce([a], now, {});
    assert a in Selected([a], now);
    assert Selected([a], now) == [a];
  }
}
