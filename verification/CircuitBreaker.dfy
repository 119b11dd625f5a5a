/**
 * The circuit breaker over a key-value store whose records expire. Requests run one after
 * another; each has a start, a finish, a failure weight and a verdict. Times are in
 * milliseconds.
 */
module CircuitBreaker {
  import opened Common
  import opened SafetyConfig

  datatype Config = Config(failureThreshold: int, cooldownSeconds: int)

  ghost predicate ValidConfig(cfg: Config) {
    cfg.failureThreshold > 0 && cfg.cooldownSeconds > 0
  }

  datatype Status = Open | HalfOpen

  datatype StateRecord = StateRecord(status: Status, openedAt: int, expiresAt: int)

  datatype FailureRecord = FailureRecord(count: int, expiresAt: int)

  datatype Store = Store(failures: Option<FailureRecord>, state: Option<StateRecord>)

  const EmptyStore: Store := Store(None, None)

  function LiveState(s: Store, now: int): Option<StateRecord> {
    if s.state.Some? && now < s.state.value.expiresAt then s.state else None
  }

  function LiveCount(s: Store, now: int): Option<int> {
    if s.failures.Some? && now < s.failures.value.expiresAt then Some(s.failures.value.count) else None
  }

  function Cooldown(cfg: Config): int {
    cfg.cooldownSeconds * 1000
  }

  function StateWritten(cfg: Config, status: Status, openedAt: int, now: int): StateRecord {
    StateRecord(status, openedAt, now + KvTtlSeconds(Max(cfg.cooldownSeconds * 3, 60)) * 1000)
  }

  datatype Request = Request(start: int, finish: int, weight: nat, failed: bool)

  datatype Served = Rejected(retryAfter: int) | Handled(trial: bool)

  /** The failure count a closed-circuit failure arrives at. */
  function NextCount(s: Store, weight: nat, now: int): int {
    match LiveCount(s, now) case None => weight case Some(n) => n + weight
  }

  function AfterFailure(cfg: Config, s: Store, weight: nat, trial: bool, now: int): Store {
    if trial then s.(state := Some(StateWritten(cfg, Open, now, now)))
    else
      var count := NextCount(s, weight, now);
      var failures := Some(FailureRecord(count, now + KvTtlSeconds(cfg.cooldownSeconds * 2) * 1000));
      Store(failures, if count >= cfg.failureThreshold then Some(StateWritten(cfg, Open, now, now)) else s.state)
  }

  /** Whether a request gets past the breaker, and whether as a half-open trial. */
  function Admission(cfg: Config, s: Store, start: int): Served {
    match LiveState(s, start)
    case None => Handled(false)
    case Some(record) =>
      var elapsed := start - record.openedAt;
      if elapsed < Cooldown(cfg) then Rejected(Max(1, (Cooldown(cfg) - elapsed + 999) / 1000)) else Handled(true)
  }

  /** The store while the handler runs: a trial marks the circuit half open, opened when it was. */
  function During(cfg: Config, s: Store, start: int): Store {
    if Admission(cfg, s, start) == Handled(true)
    then s.(state := Some(StateWritten(cfg, HalfOpen, s.state.value.openedAt, start))) else s
  }

  function AfterRequest(cfg: Config, s: Store, r: Request): Store {
    match Admission(cfg, s, r.start)
    case Rejected(_) => s
    case Handled(trial) =>
      var probing := During(cfg, s, r.start);
      if r.failed then AfterFailure(cfg, probing, r.weight, trial, r.finish)
      else if trial then EmptyStore
      else probing
  }

  class Breaker {
    const cfg: Config
    var store: Store

    constructor (cfg: Config)
      ensures this.cfg == cfg && store == EmptyStore
    {
      this.cfg, store := cfg, EmptyStore;
    }

    method WriteState(status: Status, openedAt: int, now: int)
      modifies this`store
      ensures store == old(store).(state := Some(StateWritten(cfg, status, openedAt, now)))
    {
      store := store.(state := Some(StateWritten(cfg, status, openedAt, now)));
    }

    method RecordFailure(weight: nat, trial: bool, now: int)
      modifies this`store
      ensures store == AfterFailure(cfg, old(store), weight, trial, now)
    {
      if trial {
        WriteState(Open, now, now);
        return;
      }
      var count: int := weight;
      var previous := LiveCount(store, now);
      if previous.Some? {
        count := previous.value + weight;
      }
      store := store.(failures := Some(FailureRecord(count, now + KvTtlSeconds(cfg.cooldownSeconds * 2) * 1000)));
      if count >= cfg.failureThreshold {
        WriteState(Open, now, now);
      }
    }

    method CloseCircuit()
      modifies this`store
      ensures store == EmptyStore
    {
      store := EmptyStore;
    }

    /** One request through the middleware: rejected fast, or handled and its verdict recorded. */
    method Handle(r: Request) returns (served: Served)
      modifies this`store
      ensures served == Admission(cfg, old(store), r.start)
      ensures store == AfterRequest(cfg, old(store), r)
    {
      var state := LiveState(store, r.start);
      var trial := false;
      if state.Some? {
        var elapsed := r.start - state.value.openedAt;
        if elapsed < Cooldown(cfg) {
          return Rejected(Max(1, (Cooldown(cfg) - elapsed + 999) / 1000));
        }
        trial := true;
        WriteState(HalfOpen, state.value.openedAt, r.start);
      }
      if r.failed {
        RecordFailure(r.weight, trial, r.finish);
      } else if trial {
        CloseCircuit();
      }
      served := Handled(trial);
    }
  }

  // ─── Sequential runs ──────────────────────────────────────────────────────

  ghost predicate InSequence(run: seq<Request>) {
    && (forall i :: 0 <= i < |run| ==> run[i].start <= run[i].finish)
    && (forall i, j :: 0 <= i < j < |run| ==> run[i].finish <= run[j].start)
  }

  function After(cfg: Config, run: seq<Request>): Store {
    if run == [] then EmptyStore else AfterRequest(cfg, After(cfg, run[..|run| - 1]), run[|run| - 1])
  }

  function ServedAt(cfg: Config, run: seq<Request>, i: nat): Served
    requires i < |run|
  {
    Admission(cfg, After(cfg, run[..i]), run[i].start)
  }

  /** An over-threshold count never outlives the state record that it opened. */
  ghost predicate Guarded(cfg: Config, s: Store, clock: int) {
    && (s.failures.Some? ==> s.failures.value.expiresAt <= clock + KvTtlSeconds(cfg.cooldownSeconds * 2) * 1000)
    && (s.failures.Some? && s.failures.value.count >= cfg.failureThreshold ==>
          s.state.Some? && s.failures.value.expiresAt <= s.state.value.expiresAt)
  }

  lemma RequestKeepsGuarded(cfg: Config, s: Store, clock: int, r: Request)
    requires ValidConfig(cfg) && Guarded(cfg, s, clock) && clock <= r.start <= r.finish
    ensures Guarded(cfg, AfterRequest(cfg, s, r), r.finish)
  {}

  lemma SequenceFront(run: seq<Request>)
    requires InSequence(run) && run != []
    ensures InSequence(run[..|run| - 1])
    ensures |run| > 1 ==> run[..|run| - 1][|run| - 2].finish <= run[|run| - 1].start
  {}

  lemma {:induction false} RunKeepsGuarded(cfg: Config, run: seq<Request>, clock: int)
    requires ValidConfig(cfg) && InSequence(run)
    requires run != [] ==> run[|run| - 1].finish <= clock
    ensures Guarded(cfg, After(cfg, run), clock)
  {
    if run != [] {
      SequenceFront(run);
      var front, r := run[..|run| - 1], run[|run| - 1];
      RunKeepsGuarded(cfg, front, r.start);
      RequestKeepsGuarded(cfg, After(cfg, front), r.start, r);
    }
  }

  /**
   * Once a run has finished, whenever the breaker looks closed, because no state record is
   * live, the live failure count is below the threshold: expiry never loses an opening.
   */
  lemma ClosedMeansBelowThreshold(cfg: Config, run: seq<Request>, now: int)
    requires ValidConfig(cfg) && InSequence(run) && (run != [] ==> run[|run| - 1].finish <= now)
    requires LiveState(After(cfg, run), now).None?
    ensures LiveCount(After(cfg, run), now).Some? ==> LiveCount(After(cfg, run), now).value < cfg.failureThreshold
  {
    RunKeepsGuarded(cfg, run, now);
  }

  // ─── Cooldown ─────────────────────────────────────────────────────────────

  /** Request `i` ran, failed, and left the circuit open. */
  predicate Opens(cfg: Config, run: seq<Request>, i: nat)
    requires i < |run|
  {
    && ServedAt(cfg, run, i).Handled?
    && run[i].failed
    && (ServedAt(cfg, run, i).trial ||
        NextCount(After(cfg, run[..i]), run[i].weight, run[i].finish) >= cfg.failureThreshold)
  }

  lemma AfterPrefix(cfg: Config, run: seq<Request>, i: nat)
    requires i < |run|
    ensures After(cfg, run[..i + 1]) == AfterRequest(cfg, After(cfg, run[..i]), run[i])
  {
    assert run[..i + 1][..i] == run[..i];
  }

  lemma OpeningIsRecorded(cfg: Config, run: seq<Request>, i: nat)
    requires i < |run| && Opens(cfg, run, i)
    ensures After(cfg, run[..i + 1]).state == Some(StateWritten(cfg, Open, run[i].finish, run[i].finish))
  {
    AfterPrefix(cfg, run, i);
  }

  /** Until the cooldown of opening `i` is over, its record stands and nothing is handled. */
  lemma {:induction false} RecordStands(cfg: Config, run: seq<Request>, i: nat, n: nat)
    requires ValidConfig(cfg) && InSequence(run) && i < n <= |run| && Opens(cfg, run, i)
    ensures After(cfg, run[..n]).state == Some(StateWritten(cfg, Open, run[i].finish, run[i].finish))
            || (n > i + 1 && run[n - 1].finish >= run[i].finish + Cooldown(cfg))
    decreases n
  {
    if n == i + 1 {
      OpeningIsRecorded(cfg, run, i);
    } else {
      RecordStands(cfg, run, i, n - 1);
      AfterPrefix(cfg, run, n - 1);
      var r := run[n - 1];
      assert run[i].finish <= r.start && run[n - 2].finish <= r.start <= r.finish;
      if r.start < run[i].finish + Cooldown(cfg) {
        RecordOutlastsCooldown(cfg, After(cfg, run[..n - 1]), r, run[i].finish);
      }
    }
  }

  /** During the cooldown a standing record turns requests away, and so stands on. */
  lemma RecordOutlastsCooldown(cfg: Config, s: Store, r: Request, openedAt: int)
    requires ValidConfig(cfg) && openedAt <= r.start < openedAt + Cooldown(cfg)
    requires s.state == Some(StateWritten(cfg, Open, openedAt, openedAt))
    ensures AfterRequest(cfg, s, r) == s
  {}

  /** No handler runs within a cooldown of an opening. */
  lemma QuietForACooldown(cfg: Config, run: seq<Request>, i: nat, j: nat)
    requires ValidConfig(cfg) && InSequence(run) && i < j < |run| && Opens(cfg, run, i)
    requires ServedAt(cfg, run, j).Handled?
    ensures run[j].start >= run[i].finish + Cooldown(cfg)
  {
    RecordStands(cfg, run, i, j);
    assert run[j - 1].finish <= run[j].start;
  }

  /** Calls listed in `calls` are in order and each but the last leaves the circuit open. */
  ghost predicate FailingStreak(cfg: Config, run: seq<Request>, calls: seq<nat>) {
    && (forall k :: 0 <= k < |calls| ==> calls[k] < |run| && ServedAt(cfg, run, calls[k]).Handled?)
    && (forall k :: 0 <= k < |calls| - 1 ==> calls[k] < calls[k + 1] && Opens(cfg, run, calls[k]))
  }

  lemma OneMoreCooldown(n: int, c: int)
    ensures n * c == (n - 1) * c + c
  {}

  /** n handler calls of which each but the last leaves the circuit open span n-1 cooldowns. */
  lemma {:induction false} StreakSpansCooldowns(cfg: Config, run: seq<Request>, calls: seq<nat>)
    requires ValidConfig(cfg) && InSequence(run) && calls != [] && FailingStreak(cfg, run, calls)
    ensures run[calls[|calls| - 1]].start >= run[calls[0]].start + (|calls| - 1) * Cooldown(cfg)
  {
    var n := |calls| - 1;
    if n > 0 {
      var front := calls[..n];
      assert forall k :: 0 <= k < n ==> front[k] == calls[k];
      StreakSpansCooldowns(cfg, run, front);
      assert calls[n - 1] < calls[n - 1 + 1] && Opens(cfg, run, calls[n - 1]);
      QuietForACooldown(cfg, run, calls[n - 1], calls[n]);
      assert run[calls[n - 1]].start <= run[calls[n - 1]].finish;
      OneMoreCooldown(n, Cooldown(cfg));
    }
  }

  /** While the record of an opening is live, every call is a trial, and a failed trial opens again. */
  lemma FailedTrialReopens(cfg: Config, run: seq<Request>, i: nat)
    requires i < |run| && ServedAt(cfg, run, i) == Handled(true) && run[i].failed
    ensures Opens(cfg, run, i)
  {}

  /** Between two calls every request was turned away. */
  ghost predicate OnlyRejected(cfg: Config, run: seq<Request>, i: nat, j: nat) {
    forall n :: i < n < j && n < |run| ==> ServedAt(cfg, run, n).Rejected?
  }

  lemma {:induction false} RejectionsKeepStore(cfg: Config, run: seq<Request>, i: nat, j: nat)
    requires i < j <= |run| && OnlyRejected(cfg, run, i, j)
    ensures After(cfg, run[..j]) == After(cfg, run[..i + 1])
  {
    if j > i + 1 {
      assert ServedAt(cfg, run, j - 1).Rejected?;
      RejectionsKeepStore(cfg, run, i, j - 1);
      AfterPrefix(cfg, run, j - 1);
    }
  }

  /** When the record that an opening at `finish` writes runs out. */
  function RecordEnds(cfg: Config, finish: int): int {
    StateWritten(cfg, Open, finish, finish).expiresAt
  }

  /** The next call after an opening is a trial exactly when it starts before the record runs out. */
  lemma NextIsTrialIff(cfg: Config, run: seq<Request>, i: nat, j: nat)
    requires i < j < |run| && Opens(cfg, run, i) && OnlyRejected(cfg, run, i, j)
    requires ServedAt(cfg, run, j).Handled?
    ensures ServedAt(cfg, run, j).trial <==> run[j].start < RecordEnds(cfg, run[i].finish)
  {
    RejectionsKeepStore(cfg, run, i, j);
    OpeningIsRecorded(cfg, run, i);
  }

  /** Failing calls in a row, each started while the previous one's record is live. */
  ghost predicate LiveStreak(cfg: Config, run: seq<Request>, calls: seq<nat>) {
    && (forall k :: 0 <= k < |calls| ==> calls[k] < |run| && ServedAt(cfg, run, calls[k]).Handled? && run[calls[k]].failed)
    && (forall k :: 0 <= k < |calls| - 1 ==>
          && calls[k] < calls[k + 1] && OnlyRejected(cfg, run, calls[k], calls[k + 1])
          && run[calls[k + 1]].start < RecordEnds(cfg, run[calls[k]].finish))
  }

  /** After an opening each call of such a streak opens again. */
  lemma {:induction false} LiveStreakReopens(cfg: Config, run: seq<Request>, calls: seq<nat>, k: nat)
    requires LiveStreak(cfg, run, calls) && k < |calls| && Opens(cfg, run, calls[0])
    ensures Opens(cfg, run, calls[k])
  {
    if k > 0 {
      LiveStreakReopens(cfg, run, calls, k - 1);
      assert calls[k - 1] < calls[k - 1 + 1];
      NextIsTrialIff(cfg, run, calls[k - 1], calls[k]);
    }
  }

  /**
   * What a caller sees: failing calls that follow an opening, each begun while the previous
   * record is live, span a cooldown apiece.
   */
  lemma {:induction false} LiveStreakSpansCooldowns(cfg: Config, run: seq<Request>, calls: seq<nat>)
    requires ValidConfig(cfg) && InSequence(run)
    requires calls != [] && LiveStreak(cfg, run, calls) && Opens(cfg, run, calls[0])
    ensures run[calls[|calls| - 1]].start >= run[calls[0]].start + (|calls| - 1) * Cooldown(cfg)
  {
    forall k | 0 <= k < |calls| - 1 ensures calls[k] < calls[k + 1] && Opens(cfg, run, calls[k]) {
      LiveStreakReopens(cfg, run, calls, k);
    }
    StreakSpansCooldowns(cfg, run, calls);
  }

  /**
   * Exactly when a call is followed by quiet: a request arriving the moment call `i` finishes
   * is turned away if and only if `i` left the circuit open.
   */
  lemma NextIsRejectedIff(cfg: Config, run: seq<Request>, i: nat)
    requires ValidConfig(cfg) && InSequence(run) && i < |run| && ServedAt(cfg, run, i).Handled?
    ensures Admission(cfg, After(cfg, run[..i + 1]), run[i].finish).Rejected? <==> Opens(cfg, run, i)
  {
    AfterPrefix(cfg, run, i);
  }

  /**
   * Spacing does need a live record. An opening forgotten after its minute is over lets the
   * next failing calls follow each other at once.
   */
  lemma ForgottenOpeningIsNotSpaced()
    ensures var cfg := Config(2, 20);
            var run := [Request(0, 0, 2, true), Request(60_000, 60_000, 1, true), Request(60_000, 60_000, 1, true)];
            && ValidConfig(cfg) && InSequence(run) && Opens(cfg, run, 0)
            && ServedAt(cfg, run, 1).Handled? && ServedAt(cfg, run, 2).Handled?
            && run[2].start < run[1].start + Cooldown(cfg)
  {
    var cfg := Config(2, 20);
    var run := [Request(0, 0, 2, true), Request(60_000, 60_000, 1, true), Request(60_000, 60_000, 1, true)];
    AfterPrefix(cfg, run, 0);
    AfterPrefix(cfg, run, 1);
    assert run[..0] == [];
  }

  // ─── Failures add up ──────────────────────────────────────────────────────

  /** How long a failure count stays: two cooldowns, but no less than a minute. */
  function FailureLife(cfg: Config): int {
    if cfg.cooldownSeconds <= 30 then 60_000 else cfg.cooldownSeconds * 2_000
  }

  /** How long a state record stays: three cooldowns, but no less than a minute. */
  lemma RecordLife(cfg: Config, finish: int)
    ensures RecordEnds(cfg, finish) == finish + if cfg.cooldownSeconds <= 20 then 60_000 else cfg.cooldownSeconds * 3_000
  {}

  function Weights(run: seq<Request>, calls: seq<nat>): nat
    requires forall k :: 0 <= k < |calls| ==> calls[k] < |run|
  {
    if calls == [] then 0 else Weights(run, calls[..|calls| - 1]) + run[calls[|calls| - 1]].weight
  }

  /** Request `n` neither failed nor closed the circuit: it was turned away, or succeeded while closed. */
  predicate Harmless(cfg: Config, run: seq<Request>, n: nat)
    requires n < |run|
  {
    ServedAt(cfg, run, n).Rejected? || (ServedAt(cfg, run, n) == Handled(false) && !run[n].failed)
  }

  /**
   * Failing calls with the circuit closed, nothing but harmless requests in between, and each
   * over while the previous failure's record is live.
   */
  ghost predicate Streak(cfg: Config, run: seq<Request>, calls: seq<nat>) {
    && (forall k :: 0 <= k < |calls| ==>
          calls[k] < |run| && ServedAt(cfg, run, calls[k]) == Handled(false) && run[calls[k]].failed)
    && (forall k :: 0 < k < |calls| ==>
          && calls[k - 1] < calls[k]
          && (forall n :: calls[k - 1] < n < calls[k] ==> Harmless(cfg, run, n))
          && run[calls[k]].finish < run[calls[k - 1]].finish + FailureLife(cfg))
  }

  /** The streak starts afresh: no earlier failure count is live when its first call ends. */
  ghost predicate StartsAfresh(cfg: Config, run: seq<Request>, first: nat)
    requires first < |run|
  {
    LiveCount(After(cfg, run[..first]), run[first].finish).None?
  }

  lemma {:induction false} HarmlessKeepsFailures(cfg: Config, run: seq<Request>, i: nat, j: nat)
    requires i < j <= |run| && forall n :: i < n < j ==> Harmless(cfg, run, n)
    ensures After(cfg, run[..j]).failures == After(cfg, run[..i + 1]).failures
  {
    if j > i + 1 {
      assert Harmless(cfg, run, j - 1);
      HarmlessKeepsFailures(cfg, run, i, j - 1);
      AfterPrefix(cfg, run, j - 1);
    }
  }

  /** What one failing call with the circuit closed does to the count. */
  lemma FailureCounted(cfg: Config, run: seq<Request>, i: nat)
    requires i < |run| && ServedAt(cfg, run, i) == Handled(false) && run[i].failed
    ensures var (r, before) := (run[i], LiveCount(After(cfg, run[..i]), run[i].finish));
            After(cfg, run[..i + 1]).failures
            == Some(FailureRecord((if before.Some? then before.value else 0) + r.weight, r.finish + FailureLife(cfg)))
  {
    AfterPrefix(cfg, run, i);
  }

  lemma StreakPrefix(cfg: Config, run: seq<Request>, calls: seq<nat>, k: nat)
    requires 0 < k <= |calls| && Streak(cfg, run, calls)
    ensures Streak(cfg, run, calls[..k]) && calls[..k][0] == calls[0] && calls[..k][k - 1] == calls[k - 1]
  {
    assert forall i :: 0 <= i < k ==> calls[..k][i] == calls[i];
  }

  /** One more call of the streak meets the count its predecessor stored. */
  lemma {:induction false} CountStillLive(cfg: Config, run: seq<Request>, calls: seq<nat>, count: int)
    requires |calls| > 1 && Streak(cfg, run, calls)
    requires var before := calls[|calls| - 2];
             After(cfg, run[..before + 1]).failures == Some(FailureRecord(count, run[before].finish + FailureLife(cfg)))
    ensures var last := calls[|calls| - 1];
            && LiveCount(After(cfg, run[..last]), run[last].finish) == Some(count)
            && After(cfg, run[..last + 1]).failures == Some(FailureRecord(count + run[last].weight, run[last].finish + FailureLife(cfg)))
  {
    var n := |calls| - 1;
    assert calls[n - 1] < calls[n] && run[calls[n]].finish < run[calls[n - 1]].finish + FailureLife(cfg);
    HarmlessKeepsFailures(cfg, run, calls[n - 1], calls[n]);
    FailureCounted(cfg, run, calls[n]);
  }

  /** The stored count is the sum of the streak's weights, live for one failure life. */
  lemma {:induction false} StreakAddsUp(cfg: Config, run: seq<Request>, calls: seq<nat>)
    requires calls != [] && Streak(cfg, run, calls) && StartsAfresh(cfg, run, calls[0])
    ensures var last := calls[|calls| - 1];
            After(cfg, run[..last + 1]).failures == Some(FailureRecord(Weights(run, calls), run[last].finish + FailureLife(cfg)))
  {
    var n := |calls| - 1;
    if n == 0 {
      FailureCounted(cfg, run, calls[n]);
      assert calls[..0] == [];
    } else {
      StreakPrefix(cfg, run, calls, n);
      StreakAddsUp(cfg, run, calls[..n]);
      CountStillLive(cfg, run, calls, Weights(run, calls[..n]));
    }
  }

  /** The last call of a streak opens the circuit exactly when the weights reach the threshold. */
  lemma {:induction false} OpensIffReached(cfg: Config, run: seq<Request>, calls: seq<nat>)
    requires calls != [] && Streak(cfg, run, calls) && StartsAfresh(cfg, run, calls[0])
    ensures Opens(cfg, run, calls[|calls| - 1]) <==> Weights(run, calls) >= cfg.failureThreshold
  {
    var last := calls[|calls| - 1];
    StreakAddsUp(cfg, run, calls);
    FailureCounted(cfg, run, last);
  }

  /**
   * The circuit opens at exactly the first call whose sum reaches the threshold: a request
   * arriving the moment the last call ends is turned away if and only if the streak's weights
   * add up to the threshold, and no shorter sum did.
   */
  lemma {:induction false} OpensAtThreshold(cfg: Config, run: seq<Request>, calls: seq<nat>)
    requires ValidConfig(cfg) && InSequence(run)
    requires calls != [] && Streak(cfg, run, calls) && StartsAfresh(cfg, run, calls[0])
    ensures var last := calls[|calls| - 1];
            Admission(cfg, After(cfg, run[..last + 1]), run[last].finish).Rejected? <==> Weights(run, calls) >= cfg.failureThreshold
    ensures forall k :: 0 < k < |calls| ==> Weights(run, calls[..k]) < cfg.failureThreshold
  {
    OpensIffReached(cfg, run, calls);
    NextIsRejectedIff(cfg, run, calls[|calls| - 1]);
    forall k | 0 < k < |calls| ensures Weights(run, calls[..k]) < cfg.failureThreshold {
      EarlierSumFallsShort(cfg, run, calls, k);
    }
  }

  lemma {:induction false} EarlierSumFallsShort(cfg: Config, run: seq<Request>, calls: seq<nat>, k: nat)
    requires ValidConfig(cfg) && InSequence(run) && 0 < k < |calls|
    requires Streak(cfg, run, calls) && StartsAfresh(cfg, run, calls[0])
    ensures Weights(run, calls[..k]) < cfg.failureThreshold
  {
    StreakPrefix(cfg, run, calls, k);
    StreakPrefix(cfg, run, calls, k + 1);
    assert calls[..k + 1][k - 1] == calls[k - 1];
    OpensIffReached(cfg, run, calls[..k]);
    StillClosed(cfg, run, calls[..k + 1]);
  }

  /** Had the earlier calls reached the threshold, the last one would have met an open circuit. */
  lemma {:induction false} StillClosed(cfg: Config, run: seq<Request>, calls: seq<nat>)
    requires ValidConfig(cfg) && InSequence(run)
    requires |calls| > 1 && Streak(cfg, run, calls)
    ensures !Opens(cfg, run, calls[|calls| - 2])
  {
    var n := |calls| - 1;
    var (i, j) := (calls[n - 1], calls[n]);
    assert i < j && ServedAt(cfg, run, j) == Handled(false) && run[j].finish < run[i].finish + FailureLife(cfg);
    if Opens(cfg, run, i) {
      RecordStandsToNext(cfg, run, i, j);
    }
  }

  /** Over harmless requests an opening's record stays put until it runs out. */
  lemma {:induction false} RecordStandsToNext(cfg: Config, run: seq<Request>, i: nat, j: nat)
    requires ValidConfig(cfg) && InSequence(run) && i < j < |run| && Opens(cfg, run, i)
    requires forall n :: i < n < j ==> Harmless(cfg, run, n)
    requires run[j].finish < run[i].finish + FailureLife(cfg)
    ensures ServedAt(cfg, run, j) != Handled(false)
    decreases j
  {
    HarmlessIsRejected(cfg, run, i, j);
    OpeningIsRecorded(cfg, run, i);
    RejectionsKeepStore(cfg, run, i, j);
    assert run[j].start <= run[j].finish;
  }

  /** While the opening's record is live a harmless request can only be one that was turned away. */
  lemma {:induction false} HarmlessIsRejected(cfg: Config, run: seq<Request>, i: nat, j: nat)
    requires ValidConfig(cfg) && InSequence(run) && i < j < |run| && Opens(cfg, run, i)
    requires forall n :: i < n < j ==> Harmless(cfg, run, n)
    requires run[j].start < run[i].finish + FailureLife(cfg)
    ensures OnlyRejected(cfg, run, i, j)
  {
    if j > i + 1 {
      assert run[j - 1].start <= run[j - 1].finish <= run[j].start;
      HarmlessIsRejected(cfg, run, i, j - 1);
      RejectionsKeepStore(cfg, run, i, j - 1);
      OpeningIsRecorded(cfg, run, i);
      assert Harmless(cfg, run, j - 1);
    }
  }

  // ─── The answers to a caller ──────────────────────────────────────────────

  /** A request is turned away exactly while a live record's cooldown runs; the hint is the seconds left, rounded up. */
  lemma TurnedAwayIff(cfg: Config, s: Store, now: int)
    ensures var a := Admission(cfg, s, now);
            && (a.Rejected? <==> s.state.Some? && now < s.state.value.expiresAt
                                 && now < s.state.value.openedAt + cfg.cooldownSeconds * 1000)
            && (a.Rejected? ==>
                  var left := s.state.value.openedAt + cfg.cooldownSeconds * 1000 - now;
                  (a.retryAfter - 1) * 1000 < left <= a.retryAfter * 1000)
            && (a == Handled(true) <==> s.state.Some? && s.state.value.openedAt + cfg.cooldownSeconds * 1000 <= now < s.state.value.expiresAt)
  {}

  /**
   * While a trial runs, nothing keeps a second probe out: as long as the half-open record
   * lives, three cooldowns or a minute from the trial's start, any other request is let
   * through as a trial too.
   */
  lemma SecondProbeGetsThrough(cfg: Config, s: Store, start: int, now: int)
    requires ValidConfig(cfg) && Admission(cfg, s, start) == Handled(true)
    requires start <= now < start + if cfg.cooldownSeconds <= 20 then 60_000 else cfg.cooldownSeconds * 3_000
    ensures Admission(cfg, During(cfg, s, start), now) == Handled(true)
  {}

  /** A failed trial opens the circuit anew and leaves the failure count as it was. */
  lemma FailedTrialOutcome(cfg: Config, run: seq<Request>, i: nat)
    requires i < |run| && ServedAt(cfg, run, i) == Handled(true) && run[i].failed
    ensures var (before, after) := (After(cfg, run[..i]), After(cfg, run[..i + 1]));
            && after.failures == before.failures
            && after.state == Some(StateRecord(Open, run[i].finish, RecordEnds(cfg, run[i].finish)))
  {
    AfterPrefix(cfg, run, i);
  }

  /** A successful trial forgets everything; a success with the circuit closed, or a rejection, changes nothing. */
  lemma SuccessOutcome(cfg: Config, run: seq<Request>, i: nat)
    requires i < |run| && !(ServedAt(cfg, run, i).Handled? && run[i].failed)
    ensures var (before, after) := (After(cfg, run[..i]), After(cfg, run[..i + 1]));
            if ServedAt(cfg, run, i) == Handled(true) then after.failures.None? && after.state.None? else after == before
  {
    AfterPrefix(cfg, run, i);
  }
}
