/**
 * One sign-in nonce (siwe-nonce-do.ts): a stored record with an expiry, and an alarm that
 * clears it. Requests run one at a time, and an issue's two writes are stored together.
 */
module SiweNonce {
  import opened Common

  type Instant = int

  /** record: the expiry of the stored record, if there is one; alarm: when it is armed to ring. */
  datatype State = State(record: Option<Instant>, alarm: Option<Instant>)

  datatype Event =
    | Issue(expiresAt: Instant)
    | Consume(now: Instant)
    | Ring(now: Instant)

  function OnIssue(expiresAt: Instant): State {
    State(Some(expiresAt), Some(expiresAt))
  }

  /** There is a record and it has not expired. */
  predicate Live(s: State, now: Instant) {
    s.record.Some? && s.record.value > now
  }

  /** Whatever the answer, a consume leaves nothing behind. */
  const Cleared := State(None, None)

  /** A ringing alarm clears an expired record and is armed again for one that has not expired. */
  function OnRing(s: State, now: Instant): State {
    if Live(s, now) then s.(alarm := s.record) else Cleared
  }

  function Next(s: State, e: Event): State {
    match e
    case Issue(expiresAt) => OnIssue(expiresAt)
    case Consume(_) => Cleared
    case Ring(now) => OnRing(s, now)
  }

  function After(es: seq<Event>): State
    decreases |es|
  {
    if es == [] then Cleared else Next(After(es[..|es| - 1]), es[|es| - 1])
  }

  class SiweNonceDO {
    var record: Option<Instant>
    var alarmAt: Option<Instant>

    ghost function Contents(): State
      reads this
    {
      State(record, alarmAt)
    }

    constructor ()
      ensures Contents() == Cleared
    {
      record, alarmAt := None, None;
    }

    method Issue(expiresAt: Instant)
      modifies this
      ensures Contents() == OnIssue(expiresAt)
    {
      record := Some(expiresAt);
      alarmAt := Some(expiresAt);
    }

    method Consume(now: Instant) returns (consumed: bool)
      modifies this
      ensures consumed == Live(old(Contents()), now)
      ensures Contents() == Cleared
    {
      if record.None? || record.value <= now {
        if record.Some? {
          record := None;
        }
        alarmAt := None;
        return false;
      }
      record := None;
      alarmAt := None;
      consumed := true;
    }

    /** The platform disarms an alarm as it rings. */
    method Alarm(now: Instant)
      modifies this
      ensures Contents() == OnRing(old(Contents()), now)
    {
      alarmAt := None;
      if record.None? || record.value <= now {
        record := None;
        alarmAt := None;
        return;
      }
      alarmAt := record;
    }
  }

  // ─── Runs ─────────────────────────────────────────────────────────────────

  predicate Succeeds(es: seq<Event>, i: nat)
    requires i < |es|
  {
    es[i].Consume? && Live(After(es[..i]), es[i].now)
  }

  function Issues(es: seq<Event>): nat
    decreases |es|
  {
    if es == [] then 0 else Issues(es[..|es| - 1]) + if es[|es| - 1].Issue? then 1 else 0
  }

  function Successes(es: seq<Event>): nat
    decreases |es|
  {
    if es == [] then 0
    else
      assert es[..|es|] == es;
      Successes(es[..|es| - 1]) + if Succeeds(es, |es| - 1) then 1 else 0
  }

  /** A stored record always has its alarm armed at its expiry, and an alarm always has a record. */
  lemma {:induction false} AlarmGuardsRecord(es: seq<Event>)
    ensures After(es).alarm == After(es).record
  {
    if es != [] {
      AlarmGuardsRecord(es[..|es| - 1]);
    }
  }

  /** An unconsumed issue pays for the record still stored, so successes never exceed issues. */
  lemma {:induction false} OneConsumePerIssue(es: seq<Event>)
    ensures Successes(es) + (if After(es).record.Some? then 1 else 0) <= Issues(es)
  {
    if es != [] {
      OneConsumePerIssue(es[..|es| - 1]);
    }
  }

  /** A ringing alarm keeps a record exactly while it has time left, and then its alarm. */
  lemma {:induction false} RingKeepsIff(es: seq<Event>, now: Instant)
    ensures var (before, after) := (After(es), After(es + [Ring(now)]));
            && (after.record.Some? <==> before.record.Some? && now < before.record.value)
            && (after.record.Some? ==> after == before)
            && (after.record.None? ==> after.alarm.None?)
  {
    assert (es + [Ring(now)])[..|es|] == es;
    AlarmGuardsRecord(es);
  }

  /** A consume leaves neither record nor alarm; an issue replaces both. */
  lemma ConsumeAndIssue(es: seq<Event>, at: Instant)
    ensures After(es + [Consume(at)]).record.None? && After(es + [Consume(at)]).alarm.None?
    ensures After(es + [Issue(at)]).record == Some(at) && After(es + [Issue(at)]).alarm == Some(at)
  {}

  // ─── The answer without expiry, alarms or storage ─────────────────────────

  /** The clock never runs backwards. */
  ghost predicate ClockRuns(es: seq<Event>) {
    forall i, j :: 0 <= i < j < |es| && !es[i].Issue? && !es[j].Issue? ==> es[i].now <= es[j].now
  }

  /** Issue `i` is the latest, and no consume between it and the end succeeded. */
  ghost predicate Open(es: seq<Event>, i: nat) {
    && i < |es| && es[i].Issue?
    && forall j :: i < j < |es| ==> !es[j].Issue? && !Succeeds(es, j)
  }

  lemma StepsBefore(es: seq<Event>, j: nat)
    requires j < |es| - 1
    ensures Succeeds(es, j) == Succeeds(es[..|es| - 1], j)
  {
    assert es[..|es| - 1][..j] == es[..j];
  }

  /** Every stored record comes from the open issue. */
  lemma {:induction false} RecordHasIssue(es: seq<Event>) returns (i: nat)
    requires After(es).record.Some?
    ensures Open(es, i) && es[i].expiresAt == After(es).record.value
  {
    var n := |es| - 1;
    if es[n].Issue? {
      i := n;
    } else {
      i := RecordHasIssue(es[..n]);
      forall j | i < j < |es| ensures !es[j].Issue? && !Succeeds(es, j) {
        if j < n {
          StepsBefore(es, j);
        }
      }
    }
  }

  /** An open issue is stored, or has expired by the clock of some request since. */
  lemma {:induction false} OpenIsStoredOrExpired(es: seq<Event>, i: nat)
    requires Open(es, i)
    ensures || After(es).record == Some(es[i].expiresAt)
            || exists j :: i < j < |es| && !es[j].Issue? && es[i].expiresAt <= es[j].now
  {
    var n := |es| - 1;
    if i < n {
      var before := es[..n];
      forall j | i < j < n ensures !before[j].Issue? && !Succeeds(before, j) {
        StepsBefore(es, j);
      }
      OpenIsStoredOrExpired(before, i);
      assert !Succeeds(es, n);
      if After(before).record == Some(es[i].expiresAt) {
        if After(es).record.None? {
          assert es[i].expiresAt <= es[n].now;
        }
      } else {
        var j :| i < j < |before| && !before[j].Issue? && before[i].expiresAt <= before[j].now;
        assert es[j] == before[j];
      }
    }
  }

  /**
   * A consume succeeds exactly when the latest issue has not expired and no consume has
   * succeeded since: alarms, failed consumes and clean-ups never decide.
   */
  lemma ConsumeSucceedsIff(es: seq<Event>, now: Instant)
    requires ClockRuns(es + [Consume(now)])
    ensures Succeeds(es + [Consume(now)], |es|) <==> exists i: nat :: Open(es, i) && now < es[i].expiresAt
  {
    var all := es + [Consume(now)];
    assert all[..|es|] == es;
    if Succeeds(all, |es|) {
      var i := RecordHasIssue(es);
      assert Open(es, i) && now < es[i].expiresAt;
    }
    if i: nat :| Open(es, i) && now < es[i].expiresAt {
      OpenIsStoredOrExpired(es, i);
      forall j | i < j < |es| && !es[j].Issue? ensures es[j].now <= now {
        assert all[j] == es[j] && all[|es|] == Consume(now);
      }
    }
  }
}
