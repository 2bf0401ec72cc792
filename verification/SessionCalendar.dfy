/**
 The US-equity session schedule and the freshness of a manual mark against it
 (market/us_equity_session_calendar.py). Dates are proleptic Gregorian ordinals; the evaluation
 time is an Eastern wall-clock time, which the time-zone database gives.
 */
module SessionCalendar {
  import opened Outcomes

  /** 2026-01-01 and 2026-12-31. */
  const COVERAGE_START: nat := 739_617
  const COVERAGE_END: nat := 739_981

  datatype Close = EarlyClose | RegularClose

  const MICROSECONDS_PER_HOUR: nat := 3_600_000_000

  /** 13:00 or 16:00, in microseconds of the day. */
  function CloseOfDay(c: Close): nat {
    if c.EarlyClose? then 13 * MICROSECONDS_PER_HOUR else 16 * MICROSECONDS_PER_HOUR
  }

  datatype Session = Session(date: nat, close: Close)

  datatype Wall = Wall(date: nat, ofDay: nat)

  /** Monday is 0. */
  function Weekday(date: nat): nat {
    (date + 6) % 7
  }

  // ----- validating the schedule -----

  /** A row of the schedule, its date and close as far as they can be read. */
  datatype Row = Row(date: Option<nat>, close: Option<Close>) | Malformed

  datatype ScheduleError = SessionsInvalid | RowInvalid | DateInvalid | CloseTimeInvalid | SessionInvalid | OrderInvalid

  function ReadRow(row: Row): Result<Session, ScheduleError> {
    if row.Malformed? then Err(RowInvalid)
    else if row.date.None? then Err(DateInvalid)
    else if row.close.None? then Err(CloseTimeInvalid)
    else if row.date.value < COVERAGE_START || row.date.value > COVERAGE_END || Weekday(row.date.value) > 4
    then Err(SessionInvalid)
    else Ok(Session(row.date.value, row.close.value))
  }

  function SessionsFrom(rows: seq<Row>, k: nat, prior: Option<nat>,
                        sessions: seq<Session>): Result<seq<Session>, ScheduleError>
    requires k <= |rows|
    decreases |rows| - k
  {
    if k == |rows| then Ok(sessions)
    else
      var session :- ReadRow(rows[k]);
      if prior.Some? && session.date <= prior.value then Err(OrderInvalid)
      else SessionsFrom(rows, k + 1, Some(session.date), sessions + [session])
  }

  function ValidatedSessions(rows: seq<Row>): Result<seq<Session>, ScheduleError> {
    if rows == [] then Err(SessionsInvalid) else SessionsFrom(rows, 0, None, [])
  }

  method ParseSessions(rows: seq<Row>) returns (r: Result<seq<Session>, ScheduleError>)
    ensures r == ValidatedSessions(rows)
  {
    if rows == [] {
      return Err(SessionsInvalid);
    }
    var sessions: seq<Session> := [];
    var prior: Option<nat> := None;
    for k := 0 to |rows|
      invariant SessionsFrom(rows, 0, None, []) == SessionsFrom(rows, k, prior, sessions)
    {
      var session := ReadRow(rows[k]);
      if session.Err? {
        return Err(session.error);
      }
      if prior.Some? && session.value.date <= prior.value {
        return Err(OrderInvalid);
      }
      sessions := sessions + [session.value];
      prior := Some(session.value.date);
    }
    return Ok(sessions);
  }

  /** Sessions in strictly increasing date order, on weekdays, within coverage. */
  predicate ValidSessions(sessions: seq<Session>) {
    && (forall i :: 0 <= i < |sessions| ==>
          COVERAGE_START <= sessions[i].date <= COVERAGE_END && Weekday(sessions[i].date) <= 4)
    && (forall i, j :: 0 <= i < j < |sessions| ==> sessions[i].date < sessions[j].date)
  }

  predicate Follows(sessions: seq<Session>, prior: Option<nat>) {
    if sessions == [] then prior == None else prior == Some(sessions[|sessions| - 1].date)
  }

  lemma {:induction false} SessionsFromValid(rows: seq<Row>, k: nat, prior: Option<nat>, sessions: seq<Session>)
    requires k <= |rows| && ValidSessions(sessions) && Follows(sessions, prior)
    requires SessionsFrom(rows, k, prior, sessions).Ok?
    ensures ValidSessions(SessionsFrom(rows, k, prior, sessions).value)
    ensures |SessionsFrom(rows, k, prior, sessions).value| == |sessions| + |rows| - k
    ensures forall i :: k <= i < |rows| ==>
              ReadRow(rows[i]) == Ok(SessionsFrom(rows, k, prior, sessions).value[|sessions| + i - k])
    ensures sessions <= SessionsFrom(rows, k, prior, sessions).value
    decreases |rows| - k
  {
    if k < |rows| {
      var session := ReadRow(rows[k]).value;
      var more := sessions + [session];
      assert ValidSessions(more);
      SessionsFromValid(rows, k + 1, Some(session.date), more);
      assert more[|sessions|] == session;
    }
  }

  lemma {:induction false} SessionsFromAccepts(rows: seq<Row>, k: nat, prior: Option<nat>, sessions: seq<Session>)
    requires k <= |rows|
    requires forall i :: k <= i < |rows| ==> ReadRow(rows[i]).Ok?
    requires forall i, j :: k <= i < j < |rows| ==> ReadRow(rows[i]).value.date < ReadRow(rows[j]).value.date
    requires prior.Some? && k < |rows| ==> prior.value < ReadRow(rows[k]).value.date
    ensures SessionsFrom(rows, k, prior, sessions).Ok?
    decreases |rows| - k
  {
    if k < |rows| {
      var session := ReadRow(rows[k]).value;
      SessionsFromAccepts(rows, k + 1, Some(session.date), sessions + [session]);
    }
  }

  /** A schedule validates exactly when it has rows, all readable and in strictly increasing date order. */
  lemma ScheduleValidExactly(rows: seq<Row>)
    ensures ValidatedSessions(rows).Ok? <==>
              && rows != [] && (forall i :: 0 <= i < |rows| ==> ReadRow(rows[i]).Ok?)
              && (forall i, j :: 0 <= i < j < |rows| ==> ReadRow(rows[i]).value.date < ReadRow(rows[j]).value.date)
    ensures ValidatedSessions(rows).Ok? ==>
              ValidSessions(ValidatedSessions(rows).value) && |ValidatedSessions(rows).value| == |rows|
  {
    if ValidatedSessions(rows).Ok? {
      var none: seq<Session> := [];
      SessionsFromValid(rows, 0, None, none);
      var r := ValidatedSessions(rows).value;
      forall i | 0 <= i < |rows| ensures ReadRow(rows[i]) == Ok(r[i]) {
        assert r[|none| + i - 0] == r[i];
      }
    } else if rows != [] && (forall i :: 0 <= i < |rows| ==> ReadRow(rows[i]).Ok?)
       && (forall i, j :: 0 <= i < j < |rows| ==> ReadRow(rows[i]).value.date < ReadRow(rows[j]).value.date) {
      SessionsFromAccepts(rows, 0, None, []);
    }
  }

  // ----- the latest completed session -----

  /** The session's close is not after the wall-clock time. */
  predicate Completed(s: Session, now: Wall) {
    s.date < now.date || (s.date == now.date && CloseOfDay(s.close) <= now.ofDay)
  }

  function Scan(sessions: seq<Session>, now: Wall, k: nat, latest: Option<Session>): Option<Session>
    requires k <= |sessions|
    decreases |sessions| - k
  {
    if k == |sessions| || !Completed(sessions[k], now) then latest
    else Scan(sessions, now, k + 1, Some(sessions[k]))
  }

  predicate Covered(now: Wall) {
    COVERAGE_START <= now.date <= COVERAGE_END
  }

  function LatestCompleted(sessions: seq<Session>, now: Wall): Option<Session> {
    if Covered(now) then Scan(sessions, now, 0, None) else None
  }

  /** Stops at the first session not yet completed. */
  method ResolveLatestCompletedSession(sessions: seq<Session>, now: Wall) returns (latest: Option<Session>)
    ensures latest == LatestCompleted(sessions, now)
  {
    latest := None;
    if !Covered(now) {
      return;
    }
    for k := 0 to |sessions|
      invariant Scan(sessions, now, 0, None) == Scan(sessions, now, k, latest)
    {
      if Completed(sessions[k], now) {
        latest := Some(sessions[k]);
      } else {
        break;
      }
    }
  }

  /** The maximum of the completed sessions: itself completed, and no completed one is later. */
  predicate IsLatest(sessions: seq<Session>, now: Wall, latest: Option<Session>) {
    match latest
    case None => forall i :: 0 <= i < |sessions| ==> !Completed(sessions[i], now)
    case Some(s) =>
      && s in sessions && Completed(s, now)
      && forall i :: 0 <= i < |sessions| && Completed(sessions[i], now) ==> sessions[i].date <= s.date
  }

  lemma {:induction false} ScanFindsLatest(sessions: seq<Session>, now: Wall, k: nat, latest: Option<Session>)
    requires ValidSessions(sessions) && k <= |sessions|
    requires forall i :: 0 <= i < k ==> Completed(sessions[i], now)
    requires latest == if k == 0 then None else Some(sessions[k - 1])
    ensures IsLatest(sessions, now, Scan(sessions, now, k, latest))
    decreases |sessions| - k
  {
    if k < |sessions| && Completed(sessions[k], now) {
      ScanFindsLatest(sessions, now, k + 1, Some(sessions[k]));
    } else {
      forall i | k <= i < |sessions| ensures !Completed(sessions[i], now) {
      }
    }
  }

  /** The early exit loses nothing: over a validated schedule the scan returns the true maximum. */
  lemma LatestIsMaximum(sessions: seq<Session>, now: Wall)
    requires ValidSessions(sessions) && Covered(now)
    ensures IsLatest(sessions, now, LatestCompleted(sessions, now))
  {
    ScanFindsLatest(sessions, now, 0, None);
  }

  predicate NotAfter(a: Wall, b: Wall) {
    a.date < b.date || (a.date == b.date && a.ofDay <= b.ofDay)
  }

  /** As the clock moves on, the latest session never moves back. */
  lemma LatestMonotone(sessions: seq<Session>, a: Wall, b: Wall)
    requires ValidSessions(sessions) && Covered(a) && Covered(b) && NotAfter(a, b)
    ensures LatestCompleted(sessions, a).Some? ==>
              LatestCompleted(sessions, b).Some?
              && LatestCompleted(sessions, a).value.date <= LatestCompleted(sessions, b).value.date
  {
    LatestIsMaximum(sessions, a);
    LatestIsMaximum(sessions, b);
    if LatestCompleted(sessions, a).Some? {
      var s := LatestCompleted(sessions, a).value;
      var i :| 0 <= i < |sessions| && sessions[i] == s;
      assert Completed(s, b);
    }
  }

  lemma SameDateSameSession(sessions: seq<Session>, s: Session, t: Session)
    requires ValidSessions(sessions) && s in sessions && t in sessions && s.date == t.date
    ensures s == t
  {
    var i :| 0 <= i < |sessions| && sessions[i] == s;
    var j :| 0 <= j < |sessions| && sessions[j] == t;
  }

  /** An hour the clock repeats changes nothing, as long as it ends before the first close of the day. */
  lemma RepeatedHour(sessions: seq<Session>, a: Wall, b: Wall)
    requires ValidSessions(sessions) && a.date == b.date
    requires a.ofDay < 13 * MICROSECONDS_PER_HOUR && b.ofDay < 13 * MICROSECONDS_PER_HOUR
    ensures LatestCompleted(sessions, a) == LatestCompleted(sessions, b)
  {
    if Covered(a) {
      LatestIsMaximum(sessions, a);
      LatestIsMaximum(sessions, b);
      var la, lb := LatestCompleted(sessions, a), LatestCompleted(sessions, b);
      assert forall s: Session :: Completed(s, a) <==> Completed(s, b);
      assert la.Some? <==> lb.Some?;
      if la.Some? {
        SameDateSameSession(sessions, la.value, lb.value);
      }
    }
  }

  // ----- freshness -----

  datatype Freshness =
    | CoverageInsufficient
    | MarkOutsideCoverage
    | MarkAfterEvaluation
    | MarkNonSession
    | MarkStale
    | MarkUncompleted
    | MarkFresh

  predicate HasSession(sessions: seq<Session>, date: nat) {
    exists i :: 0 <= i < |sessions| && sessions[i].date == date
  }

  function AssessMark(sessions: seq<Session>, mark: nat, now: Wall): Freshness {
    match LatestCompleted(sessions, now)
    case None => CoverageInsufficient
    case Some(latest) =>
      if mark < COVERAGE_START then MarkOutsideCoverage
      else if mark > now.date then MarkAfterEvaluation
      else if !HasSession(sessions, mark) then MarkNonSession
      else if mark < latest.date then MarkStale
      else if mark > latest.date then MarkUncompleted
      else MarkFresh
  }

  /** Some session of the schedule has been completed by now, the clock being within coverage. */
  predicate AnyCompleted(sessions: seq<Session>, now: Wall) {
    Covered(now) && exists i :: 0 <= i < |sessions| && Completed(sessions[i], now)
  }

  /** A mark is fresh exactly when it is the date of the latest completed session. */
  lemma FreshExactly(sessions: seq<Session>, mark: nat, now: Wall)
    requires ValidSessions(sessions)
    ensures AssessMark(sessions, mark, now) == MarkFresh <==>
              && Covered(now)
              && exists i :: 0 <= i < |sessions| && sessions[i].date == mark && Completed(sessions[i], now)
                   && forall j :: i < j < |sessions| ==> !Completed(sessions[j], now)
  {
    if Covered(now) {
      LatestIsMaximum(sessions, now);
      if exists i :: 0 <= i < |sessions| && sessions[i].date == mark && Completed(sessions[i], now)
                       && forall j :: i < j < |sessions| ==> !Completed(sessions[j], now) {
        var i :| 0 <= i < |sessions| && sessions[i].date == mark && Completed(sessions[i], now)
                 && forall j :: i < j < |sessions| ==> !Completed(sessions[j], now);
        var latest := LatestCompleted(sessions, now).value;
        var k :| 0 <= k < |sessions| && sessions[k] == latest;
        assert k == i;
      }
      if AssessMark(sessions, mark, now) == MarkFresh {
        var latest := LatestCompleted(sessions, now).value;
        var k :| 0 <= k < |sessions| && sessions[k] == latest;
        assert forall j :: k < j < |sessions| ==> !Completed(sessions[j], now);
      }
    }
  }

  /**
   Every other verdict, exactly: stale when a later session than the mark's is completed, uncompleted
   only on the evaluation day itself and before its close, outside coverage when before its start.
   */
  lemma OtherVerdicts(sessions: seq<Session>, mark: nat, now: Wall)
    requires ValidSessions(sessions) && AnyCompleted(sessions, now)
    ensures AssessMark(sessions, mark, now) == MarkUncompleted <==>
              && mark == now.date
              && exists i :: 0 <= i < |sessions| && sessions[i].date == mark && !Completed(sessions[i], now)
    ensures AssessMark(sessions, mark, now) == MarkStale <==>
              && HasSession(sessions, mark)
              && exists i :: 0 <= i < |sessions| && Completed(sessions[i], now) && mark < sessions[i].date
    ensures AssessMark(sessions, mark, now) == MarkNonSession <==>
              COVERAGE_START <= mark <= now.date && !HasSession(sessions, mark)
    ensures AssessMark(sessions, mark, now) == MarkAfterEvaluation <==> mark > now.date
    ensures AssessMark(sessions, mark, now) == MarkOutsideCoverage <==> mark < COVERAGE_START
    ensures AssessMark(sessions, mark, now) != CoverageInsufficient
  {
    LatestIsMaximum(sessions, now);
    var latest := LatestCompleted(sessions, now).value;
    if HasSession(sessions, mark) {
      var i :| 0 <= i < |sessions| && sessions[i].date == mark;
      if mark == now.date && !Completed(sessions[i], now) {
        var k :| 0 <= k < |sessions| && sessions[k] == latest;
      }
    }
  }

  /** No verdict is possible exactly when the clock is outside coverage or nothing is completed yet. */
  lemma NoVerdictExactly(sessions: seq<Session>, mark: nat, now: Wall)
    requires ValidSessions(sessions)
    ensures AssessMark(sessions, mark, now) == CoverageInsufficient <==> !AnyCompleted(sessions, now)
  {
    if Covered(now) {
      LatestIsMaximum(sessions, now);
    }
  }
}
