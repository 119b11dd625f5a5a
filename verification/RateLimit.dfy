/**
 * The fixed-window rate limiter over a key-value store that forgets records after their
 * time to live. A store may also keep an expired record for a while: each read says whether
 * one lingers. Times are in milliseconds.
 */
module RateLimit {
  import opened Common
  import opened SafetyConfig

  type Key = nat

  datatype Config = Config(max: nat, windowSeconds: int)

  datatype Window = Window(count: nat, resetAt: int)

  datatype Entry = Entry(window: Window, expiresAt: int)

  datatype Outcome = Outcome(allowed: bool, limit: nat, remaining: nat, resetAt: int)

  /** A record counts only while its window is open. */
  function ReadWindow(stored: Option<Window>, now: int): Option<Window> {
    if stored.Some? && stored.value.resetAt > now then stored else None
  }

  function NextWindow(cfg: Config, stored: Option<Window>, now: int): Window {
    match ReadWindow(stored, now)
    case Some(w) => Window(w.count + 1, w.resetAt)
    case None => Window(1, now + cfg.windowSeconds * 1000)
  }

  function OutcomeOf(cfg: Config, w: Window): Outcome {
    Outcome(w.count <= cfg.max, cfg.max, if w.count <= cfg.max then cfg.max - w.count else 0, w.resetAt)
  }

  type Store = map<Key, Entry>

  function Visible(kv: Store, key: Key, now: int, lingers: bool): Option<Window> {
    if key in kv && (now < kv[key].expiresAt || lingers) then Some(kv[key].window) else None
  }

  class RateLimiter {
    var kv: Store

    constructor ()
      ensures kv == map[]
    {
      kv := map[];
    }

    /** Counts one request against the caller's window. */
    method ConsumeRateLimit(key: Key, cfg: Config, now: int, lingers: bool) returns (r: Outcome)
      modifies this
      ensures r == OutcomeOf(cfg, NextWindow(cfg, Visible(old(kv), key, now, lingers), now))
      ensures kv == old(kv)[key := Entry(NextWindow(cfg, Visible(old(kv), key, now, lingers), now),
                                         now + KvTtlSeconds(cfg.windowSeconds + 1) * 1000)]
    {
      var existing := ReadWindow(Visible(kv, key, now, lingers), now);
      var resetAt := if existing.Some? then existing.value.resetAt else now + cfg.windowSeconds * 1000;
      var count := (if existing.Some? then existing.value.count else 0) + 1;
      var allowed := count <= cfg.max;
      kv := kv[key := Entry(Window(count, resetAt), now + KvTtlSeconds(cfg.windowSeconds + 1) * 1000)];
      r := Outcome(allowed, cfg.max, Max(0, cfg.max - count), resetAt);
    }
  }

  // ─── Traces ───────────────────────────────────────────────────────────────

  datatype Request = Request(key: Key, now: int, lingers: bool)

  ghost predicate InTime(trace: seq<Request>) {
    forall i, j :: 0 <= i < j < |trace| ==> trace[i].now <= trace[j].now
  }

  /** The store after a trace. */
  function KvAfter(cfg: Config, trace: seq<Request>): Store {
    if trace == [] then map[]
    else
      var kv, r := KvAfter(cfg, trace[..|trace| - 1]), trace[|trace| - 1];
      kv[r.key := Entry(NextWindow(cfg, Visible(kv, r.key, r.now, r.lingers), r.now),
                        r.now + KvTtlSeconds(cfg.windowSeconds + 1) * 1000)]
  }

  /** A counter that never forgets. */
  function CountersAfter(cfg: Config, trace: seq<Request>): map<Key, Window> {
    if trace == [] then map[]
    else
      var m, r := CountersAfter(cfg, trace[..|trace| - 1]), trace[|trace| - 1];
      m[r.key := NextWindow(cfg, Lookup(m, r.key), r.now)]
  }

  function OutcomeAt(cfg: Config, trace: seq<Request>, r: Request): Outcome {
    OutcomeOf(cfg, NextWindow(cfg, Visible(KvAfter(cfg, trace), r.key, r.now, r.lingers), r.now))
  }

  function IdealOutcomeAt(cfg: Config, trace: seq<Request>, r: Request): Outcome {
    OutcomeOf(cfg, NextWindow(cfg, Lookup(CountersAfter(cfg, trace), r.key), r.now))
  }

  /** A record outlives its window, so what expired had stopped mattering. */
  ghost predicate Agree(cfg: Config, kv: Store, m: map<Key, Window>, clock: int) {
    && kv.Keys == m.Keys
    && forall k :: k in kv ==>
         && kv[k].window == m[k]
         && kv[k].window.resetAt < kv[k].expiresAt
         && kv[k].window.resetAt <= clock + Max(0, cfg.windowSeconds * 1000)
  }

  lemma SameNextWindow(cfg: Config, kv: Store, m: map<Key, Window>, clock: int, r: Request)
    requires Agree(cfg, kv, m, clock) && clock <= r.now
    ensures NextWindow(cfg, Visible(kv, r.key, r.now, r.lingers), r.now) == NextWindow(cfg, Lookup(m, r.key), r.now)
  {}

  lemma {:induction false} StoreAgrees(cfg: Config, trace: seq<Request>)
    requires InTime(trace)
    ensures trace != [] ==> Agree(cfg, KvAfter(cfg, trace), CountersAfter(cfg, trace), trace[|trace| - 1].now)
  {
    if trace != [] {
      var front, r := trace[..|trace| - 1], trace[|trace| - 1];
      StoreAgrees(cfg, front);
      var kv, m := KvAfter(cfg, front), CountersAfter(cfg, front);
      if front != [] {
        assert front[|front| - 1].now <= r.now;
        SameNextWindow(cfg, kv, m, front[|front| - 1].now, r);
      }
    }
  }

  /** Expiry is invisible: every request of every trace gets the never-forgetting counter's outcome. */
  lemma ExpiryIsInvisible(cfg: Config, trace: seq<Request>, i: nat)
    requires InTime(trace) && i < |trace|
    ensures OutcomeAt(cfg, trace[..i], trace[i]) == IdealOutcomeAt(cfg, trace[..i], trace[i])
  {
    StoreAgrees(cfg, trace[..i]);
    if i > 0 {
      assert trace[..i][i - 1].now <= trace[i].now;
      SameNextWindow(cfg, KvAfter(cfg, trace[..i]), CountersAfter(cfg, trace[..i]), trace[..i][i - 1].now, trace[i]);
    }
  }

  // ─── How many get through ─────────────────────────────────────────────────

  /** Admitted requests of `key` whose time lies in lo..hi. */
  function AdmittedBetween(cfg: Config, trace: seq<Request>, key: Key, lo: int, hi: int): nat {
    if trace == [] then 0
    else
      var front, r := trace[..|trace| - 1], trace[|trace| - 1];
      AdmittedBetween(cfg, front, key, lo, hi) +
      (if r.key == key && lo <= r.now <= hi && OutcomeAt(cfg, front, r).allowed then 1 else 0)
  }

  /** Admitted requests of `key` whose window resets in (lo, hi]. */
  function AdmittedResetting(cfg: Config, trace: seq<Request>, key: Key, lo: int, hi: int): nat {
    if trace == [] then 0
    else
      var front, r := trace[..|trace| - 1], trace[|trace| - 1];
      AdmittedResetting(cfg, front, key, lo, hi) +
      (if r.key == key && lo < OutcomeAt(cfg, front, r).resetAt <= hi && OutcomeAt(cfg, front, r).allowed then 1 else 0)
  }

  // ─── Who gets through, exactly ────────────────────────────────────────────

  /** Requests of `key`, admitted or not, in the window that resets at `resetAt`. */
  function InWindow(cfg: Config, trace: seq<Request>, key: Key, resetAt: int): nat {
    if trace == [] then 0
    else
      var front, r := trace[..|trace| - 1], trace[|trace| - 1];
      InWindow(cfg, front, key, resetAt) + (if r.key == key && OutcomeAt(cfg, front, r).resetAt == resetAt then 1 else 0)
  }

  /** The counter counts its window's requests, and no request is in a later window. */
  lemma {:induction false} CounterCounts(cfg: Config, trace: seq<Request>, key: Key)
    requires InTime(trace) && cfg.windowSeconds > 0
    ensures var m := CountersAfter(cfg, trace);
            && (key in m ==> m[key].count == InWindow(cfg, trace, key, m[key].resetAt))
            && (forall at :: key !in m || at > m[key].resetAt ==> InWindow(cfg, trace, key, at) == 0)
  {
    if trace != [] {
      var n := |trace| - 1;
      InTimeFront(trace);
      CounterCounts(cfg, trace[..n], key);
      ExpiryIsInvisible(cfg, trace, n);
    }
  }

  /** The k-th request of a window is admitted exactly when k is at most the limit. */
  lemma FirstMaxAreAdmitted(cfg: Config, trace: seq<Request>, i: nat)
    requires InTime(trace) && cfg.windowSeconds > 0 && i < |trace|
    ensures var o := OutcomeAt(cfg, trace[..i], trace[i]);
            var k := InWindow(cfg, trace[..i], trace[i].key, o.resetAt) + 1;
            && (o.allowed <==> k <= cfg.max)
            && o.remaining == (if k <= cfg.max then cfg.max - k else 0)
            && o.limit == cfg.max
  {
    ExpiryIsInvisible(cfg, trace, i);
    InTimePrefix(trace, i);
    CounterCounts(cfg, trace[..i], trace[i].key);
  }

  lemma InTimePrefix(trace: seq<Request>, i: nat)
    requires InTime(trace) && i <= |trace|
    ensures InTime(trace[..i])
  {}

  /** A counter's window is that of some request of its key. */
  lemma {:induction false} CounterHasRequest(cfg: Config, trace: seq<Request>, key: Key) returns (j: nat)
    requires InTime(trace) && key in CountersAfter(cfg, trace)
    ensures j < |trace| && trace[j].key == key && ResetOf(cfg, trace, j) == CountersAfter(cfg, trace)[key].resetAt
  {
    var n := |trace| - 1;
    LastReset(cfg, trace);
    if trace[n].key == key {
      j := n;
    } else {
      InTimeFront(trace);
      j := CounterHasRequest(cfg, trace[..n], key);
      assert trace[..n][..j] == trace[..j];
    }
  }

  /** When the window of request `j` resets. */
  function ResetOf(cfg: Config, trace: seq<Request>, j: nat): int
    requires j < |trace|
  {
    OutcomeAt(cfg, trace[..j], trace[j]).resetAt
  }

  /**
   * A request joins the window of an earlier request of its key that has not reset yet; when
   * there is none it opens one of full length.
   */
  lemma WindowOfRequest(cfg: Config, trace: seq<Request>, i: nat)
    requires InTime(trace) && cfg.windowSeconds > 0 && i < |trace|
    ensures forall j :: 0 <= j < i && trace[j].key == trace[i].key && ResetOf(cfg, trace, j) > trace[i].now
              ==> ResetOf(cfg, trace, i) == ResetOf(cfg, trace, j)
    ensures (forall j :: 0 <= j < i && trace[j].key == trace[i].key ==> ResetOf(cfg, trace, j) <= trace[i].now)
              ==> ResetOf(cfg, trace, i) == trace[i].now + cfg.windowSeconds * 1000
  {
    var front, key := trace[..i], trace[i].key;
    ExpiryIsInvisible(cfg, trace, i);
    InTimePrefix(trace, i);
    OneOpenWindow(cfg, front, key, trace[i].now);
    forall j | 0 <= j < i && trace[j].key == key && ResetOf(cfg, trace, j) > trace[i].now
      ensures ResetOf(cfg, trace, i) == ResetOf(cfg, trace, j)
    {
      assert front[..j] == trace[..j] && trace[j] == front[j];
      assert ResetOf(cfg, front, j) > trace[i].now;
    }
    if key in CountersAfter(cfg, front) {
      var j := CounterHasRequest(cfg, front, key);
      assert front[..j] == trace[..j] && trace[j].key == key;
    }
  }

  /** Of all windows of a key only the latest can still be open. */
  lemma {:induction false} OneOpenWindow(cfg: Config, trace: seq<Request>, key: Key, now: int)
    requires InTime(trace) && cfg.windowSeconds > 0
    requires trace != [] ==> trace[|trace| - 1].now <= now
    ensures forall j :: 0 <= j < |trace| && trace[j].key == key && ResetOf(cfg, trace, j) > now ==>
              key in CountersAfter(cfg, trace) && ResetOf(cfg, trace, j) == CountersAfter(cfg, trace)[key].resetAt
  {
    if trace != [] {
      var n := |trace| - 1;
      var front := trace[..n];
      InTimeFront(trace);
      if n > 0 {
        assert trace[n - 1].now <= trace[n].now;
      }
      OneOpenWindow(cfg, front, key, trace[n].now);
      LastReset(cfg, trace);
      forall j | 0 <= j < n && trace[j].key == key && ResetOf(cfg, trace, j) > now
        ensures key in CountersAfter(cfg, trace) && ResetOf(cfg, trace, j) == CountersAfter(cfg, trace)[key].resetAt
      {
        assert front[..j] == trace[..j] && trace[j] == front[j];
        assert ResetOf(cfg, front, j) > trace[n].now;
      }
    }
  }

  /** The counter moves only for the request's own key, and to the window the request is in. */
  lemma LastReset(cfg: Config, trace: seq<Request>)
    requires InTime(trace) && trace != []
    ensures var (n, m) := (|trace| - 1, CountersAfter(cfg, trace[..|trace| - 1]));
            var r := trace[n];
            && CountersAfter(cfg, trace) == m[r.key := NextWindow(cfg, Lookup(m, r.key), r.now)]
            && ResetOf(cfg, trace, n) == CountersAfter(cfg, trace)[r.key].resetAt
            && (r.key in m && m[r.key].resetAt > r.now ==> ResetOf(cfg, trace, n) == m[r.key].resetAt)
  {
    ExpiryIsInvisible(cfg, trace, |trace| - 1);
  }

  lemma InTimeFront(trace: seq<Request>)
    requires InTime(trace) && trace != []
    ensures InTime(trace[..|trace| - 1])
  {}

  /** Windows are at least one length apart, so a stretch of that length holds one window's requests. */
  lemma {:induction false} OneWindowAtATime(cfg: Config, trace: seq<Request>, key: Key, a: int)
    requires InTime(trace) && cfg.windowSeconds > 0
    ensures var n := AdmittedResetting(cfg, trace, key, a, a + cfg.windowSeconds * 1000);
            var m := CountersAfter(cfg, trace);
            && n <= cfg.max
            && (key !in m || m[key].resetAt <= a ==> n == 0)
            && (key in m && a < m[key].resetAt <= a + cfg.windowSeconds * 1000 ==> n <= m[key].count)
  {
    if trace != [] {
      var n := |trace| - 1;
      InTimeFront(trace);
      OneWindowAtATime(cfg, trace[..n], key, a);
      ExpiryIsInvisible(cfg, trace, n);
    }
  }

  /** At most `max` requests are admitted in one window. */
  lemma AtMostMaxPerWindow(cfg: Config, trace: seq<Request>, key: Key, resetAt: int)
    requires InTime(trace) && cfg.windowSeconds > 0
    ensures AdmittedResetting(cfg, trace, key, resetAt - 1, resetAt) <= cfg.max
  {
    OneWindowAtATime(cfg, trace, key, resetAt - 1);
    WiderResets(cfg, trace, key, resetAt - 1, resetAt, resetAt - 1 + cfg.windowSeconds * 1000);
  }

  lemma {:induction false} WiderResets(cfg: Config, trace: seq<Request>, key: Key, lo: int, hi: int, wider: int)
    requires hi <= wider
    ensures AdmittedResetting(cfg, trace, key, lo, hi) <= AdmittedResetting(cfg, trace, key, lo, wider)
  {
    if trace != [] {
      WiderResets(cfg, trace[..|trace| - 1], key, lo, hi, wider);
    }
  }

  /** A window is open when it is used: it resets after the request and at most one length later. */
  lemma ResetIsNear(cfg: Config, trace: seq<Request>, r: Request)
    requires InTime(trace + [r]) && cfg.windowSeconds > 0
    ensures r.now < IdealOutcomeAt(cfg, trace, r).resetAt <= r.now + cfg.windowSeconds * 1000
  {
    assert (trace + [r])[..|trace|] == trace;
    InTimeFront(trace + [r]);
    CountersNear(cfg, trace);
    if trace != [] {
      assert (trace + [r])[|trace| - 1].now <= (trace + [r])[|trace|].now;
    }
  }

  lemma {:induction false} CountersNear(cfg: Config, trace: seq<Request>)
    requires InTime(trace) && cfg.windowSeconds > 0
    ensures trace == [] ==> CountersAfter(cfg, trace) == map[]
    ensures trace != [] ==>
              forall k :: k in CountersAfter(cfg, trace) ==>
                CountersAfter(cfg, trace)[k].resetAt <= trace[|trace| - 1].now + cfg.windowSeconds * 1000
  {
    if trace != [] {
      InTimeFront(trace);
      CountersNear(cfg, trace[..|trace| - 1]);
    }
  }

  lemma {:induction false} SplitByReset(cfg: Config, trace: seq<Request>, key: Key, lo: int)
    requires InTime(trace) && cfg.windowSeconds > 0
    ensures var w := cfg.windowSeconds * 1000;
            AdmittedBetween(cfg, trace, key, lo, lo + w)
            <= AdmittedResetting(cfg, trace, key, lo, lo + w) + AdmittedResetting(cfg, trace, key, lo + w, lo + w + w)
  {
    if trace != [] {
      var n := |trace| - 1;
      InTimeFront(trace);
      SplitByReset(cfg, trace[..n], key, lo);
      ExpiryIsInvisible(cfg, trace, n);
      assert trace[..n] + [trace[n]] == trace;
      ResetIsNear(cfg, trace[..n], trace[n]);
    }
  }

  /** In any interval as long as a window, ends included, at most twice the limit is admitted. */
  lemma AtMostTwiceMaxInAnyInterval(cfg: Config, trace: seq<Request>, key: Key, lo: int)
    requires InTime(trace) && cfg.windowSeconds > 0
    ensures AdmittedBetween(cfg, trace, key, lo, lo + cfg.windowSeconds * 1000) <= 2 * cfg.max
  {
    SplitByReset(cfg, trace, key, lo);
    OneWindowAtATime(cfg, trace, key, lo);
    OneWindowAtATime(cfg, trace, key, lo + cfg.windowSeconds * 1000);
  }
}
