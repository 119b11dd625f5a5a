/**
 * Whole runs of the indexers: any number of live ticks, backfills and ticks of the second
 * indexer interleave on one event table, and each may crash between any two writes. The
 * chain is immutable and only grows. `starts` is a history variable: the block from which
 * the coverage of a cursor is counted.
 */
module IndexerRuns {
  import opened Common
  import opened Sorting
  import opened LiquidityEvents
  import opened PositionReducer
  import opened EventTable
  import opened BatchIndexer

  datatype World = World(chain: seq<RawLog>, cfg: Config, blockTime: nat -> nat)

  /** Logs are listed in chain order and a transaction lies in one block. */
  ghost predicate ValidWorld(w: World) {
    && InOrder(w.chain)
    && (forall a, b :: a in w.chain && b in w.chain && a.txHash == b.txHash ==> a.blockNumber == b.blockNumber)
  }

  /** The row a log has in the table when `ix` indexes it. */
  function RowFor(w: World, ix: Indexer, log: RawLog): Option<EventRow> {
    if log.address !in SourceAddresses(w.cfg, ix) then None
    else match ParseForSource(w.cfg, ix, log)
      case Some(EventItem(protocol, event)) => Some(EventRow(protocol, event, w.blockTime(event.blockNumber)))
      case _ => None
  }

  function InWindow(cfg: Config, ix: Indexer, head: nat, from: nat, to: nat): RawLog -> bool {
    (log: RawLog) =>
      log.address in SourceAddresses(cfg, ix) && from <= log.blockNumber <= to && log.blockNumber <= head
  }

  /** What `getLogs` answers at chain height `head`. */
  function WindowLogs(w: World, ix: Indexer, head: nat, from: nat, to: nat): seq<RawLog> {
    Filter(InWindow(w.cfg, ix, head, from, to), w.chain)
  }

  function WindowRows(w: World, ix: Indexer, head: nat, from: nat, to: nat): seq<EventRow> {
    RowsOf(ParseAll(w.cfg, ix, WindowLogs(w, ix, head, from, to)), w.blockTime)
  }

  datatype Task =
    | Started(ix: Indexer, observed: nat)
    | Ready(ix: Indexer, from: nat, to: nat, live: bool, start: nat)
    | Persisting(ix: Indexer, from: nat, to: nat, live: bool, start: nat, pending: seq<EventRow>, done: nat)

  datatype State = State(
    rows: seq<EventRow>, cursors: map<Indexer, nat>, starts: map<Indexer, nat>, head: nat, tasks: map<nat, Task>)

  datatype Action =
    | Mine(blocks: nat)
    | BeginTick(task: nat, ix: Indexer)
    | ReadCursor(task: nat)
    | BeginBackfill(task: nat, ix: Indexer, from: nat, to: nat)
    | Fetch(task: nat)
    | InsertNext(task: nat)
    | Commit(task: nat)
    | Crash(task: nat)

  function BeginTickStep(s: State, t: nat, ix: Indexer): State {
    if t in s.tasks then s else s.(tasks := s.tasks[t := Started(ix, s.head)])
  }

  function ReadCursorStep(cfg: Config, s: State, t: nat): State {
    if t !in s.tasks || !s.tasks[t].Started? then s else
      var ix := s.tasks[t].ix;
      match TickRange(cfg, ix, Lookup(s.cursors, ix), s.tasks[t].observed)
      case None => s.(tasks := s.tasks - {t})
      case Some((from, to)) => s.(tasks := s.tasks[t := Ready(ix, from, to, true, CoverageStart(s, ix, from))])
  }

  /** A first window starts a coverage; later windows extend the recorded one. */
  function CoverageStart(s: State, ix: Indexer, from: nat): nat {
    if ix in s.cursors && ix in s.starts then s.starts[ix] else from
  }

  function BeginBackfillStep(s: State, t: nat, ix: Indexer, from: nat, to: nat): State {
    if t in s.tasks || ix == V3Liquidity || to < from then s
    else s.(tasks := s.tasks[t := Ready(ix, from, to, false, from)])
  }

  function FetchStep(w: World, s: State, t: nat): State {
    if t !in s.tasks || !s.tasks[t].Ready? then s else
      var task := s.tasks[t];
      var pending := WindowRows(w, task.ix, s.head, task.from, task.to);
      s.(tasks := s.tasks[t := Persisting(task.ix, task.from, task.to, task.live, task.start, pending, 0)])
  }

  function InsertNextStep(s: State, t: nat): State {
    if t !in s.tasks || !s.tasks[t].Persisting? || s.tasks[t].done >= |s.tasks[t].pending| then s else
      var task := s.tasks[t];
      s.(rows := InsertIgnore(s.rows, task.pending[task.done]), tasks := s.tasks[t := task.(done := task.done + 1)])
  }

  function CommitStep(s: State, t: nat): State {
    if t !in s.tasks || !s.tasks[t].Persisting? || s.tasks[t].done < |s.tasks[t].pending| then s else
      var task := s.tasks[t];
      if !task.live then s.(tasks := s.tasks - {t})
      else s.(cursors := s.cursors[task.ix := task.to + 1], starts := s.starts[task.ix := task.start],
              tasks := s.tasks - {t})
  }

  /** A step whose task is not at that point changes nothing. */
  function Step(w: World, s: State, a: Action): State {
    match a
    case Mine(n) => s.(head := s.head + n)
    case BeginTick(t, ix) => BeginTickStep(s, t, ix)
    case ReadCursor(t) => ReadCursorStep(w.cfg, s, t)
    case BeginBackfill(t, ix, from, to) => BeginBackfillStep(s, t, ix, from, to)
    case Fetch(t) => FetchStep(w, s, t)
    case InsertNext(t) => InsertNextStep(s, t)
    case Commit(t) => CommitStep(s, t)
    case Crash(t) => s.(tasks := s.tasks - {t})
  }

  const Empty: State := State([], map[], map[], 0, map[])

  function Run(w: World, s: State, actions: seq<Action>): State {
    if actions == [] then s else Step(w, Run(w, s, actions[..|actions| - 1]), actions[|actions| - 1])
  }

  lemma RunOne(w: World, s: State, actions: seq<Action>, a: Action)
    ensures Run(w, s, actions + [a]) == Step(w, Run(w, s, actions), a)
  {
    assert (actions + [a])[..|actions + [a]| - 1] == actions;
  }

  // ─── Rows are determined by their key ─────────────────────────────────────

  /** `r` is the row of a mined log of the chain. */
  ghost predicate Real(w: World, head: nat, r: EventRow) {
    exists log, ix :: log in w.chain && log.blockNumber <= head && RowFor(w, ix, log) == Some(r)
  }

  lemma RowForIsUnique(w: World, ix: Indexer, jx: Indexer, log: RawLog)
    requires RowFor(w, ix, log).Some? && RowFor(w, jx, log).Some?
    ensures RowFor(w, ix, log) == RowFor(w, jx, log)
  {}

  lemma RowForPosition(w: World, ix: Indexer, log: RawLog)
    requires RowFor(w, ix, log).Some?
    ensures var e := RowFor(w, ix, log).value.event;
            e.txHash == log.txHash && e.logIndex == log.logIndex && e.blockNumber == log.blockNumber
  {}

  lemma SamePlaceSameLog(w: World, a: RawLog, b: RawLog)
    requires ValidWorld(w) && a in w.chain && b in w.chain
    requires a.logIndex == b.logIndex && (a.txHash == b.txHash || a.blockNumber == b.blockNumber)
    ensures a == b
  {
    var i :| 0 <= i < |w.chain| && w.chain[i] == a;
    var j :| 0 <= j < |w.chain| && w.chain[j] == b;
    assert a.blockNumber == b.blockNumber;
    assert i < j ==> LogBefore(a, b);
    assert j < i ==> LogBefore(b, a);
  }

  /** Two real rows with the same key, or the same chain position, are the same row. */
  lemma RealRowsAgree(w: World, head: nat, q: EventRow, r: EventRow)
    requires ValidWorld(w) && Real(w, head, q) && Real(w, head, r)
    requires SameKey(q, r) ||
             (q.event.blockNumber == r.event.blockNumber && q.event.logIndex == r.event.logIndex)
    ensures q == r
  {
    var a, ix :| a in w.chain && a.blockNumber <= head && RowFor(w, ix, a) == Some(q);
    var b, jx :| b in w.chain && b.blockNumber <= head && RowFor(w, jx, b) == Some(r);
    RowForPosition(w, ix, a);
    RowForPosition(w, jx, b);
    SamePlaceSameLog(w, a, b);
    RowForIsUnique(w, ix, jx, a);
  }

  lemma {:induction false} RowsOfMembers(w: World, ix: Indexer, logs: seq<RawLog>, r: EventRow)
    requires forall log :: log in logs ==> log.address in SourceAddresses(w.cfg, ix)
    ensures r in RowsOf(ParseAll(w.cfg, ix, logs), w.blockTime)
        <==> exists log :: log in logs && RowFor(w, ix, log) == Some(r)
  {
    if logs != [] {
      var front, log := logs[..|logs| - 1], logs[|logs| - 1];
      assert logs == front + [log];
      assert log in logs;
      RowsOfMembers(w, ix, front, r);
      var items := ParseAll(w.cfg, ix, front);
      var item := ParseForSource(w.cfg, ix, log);
      if item.Some? {
        assert (items + [item.value])[..|items + [item.value]| - 1] == items;
      }
      assert r in RowsOf(ParseAll(w.cfg, ix, logs), w.blockTime)
          <==> r in RowsOf(items, w.blockTime) || RowFor(w, ix, log) == Some(r);
    }
  }

  /** A window's rows are the rows of the relevant mined logs inside it, no more and no fewer. */
  lemma WindowRowsExact(w: World, ix: Indexer, head: nat, from: nat, to: nat, r: EventRow)
    ensures r in WindowRows(w, ix, head, from, to)
        <==> exists log :: log in w.chain && from <= log.blockNumber <= to && log.blockNumber <= head
                           && RowFor(w, ix, log) == Some(r)
  {
    var p := InWindow(w.cfg, ix, head, from, to);
    forall log ensures log in Filter(p, w.chain) <==> log in w.chain && p(log) {
      FilterMembers(p, w.chain, log);
    }
    RowsOfMembers(w, ix, Filter(p, w.chain), r);
  }

  // ─── The invariant ────────────────────────────────────────────────────────

  /** Every log of `ix` in blocks lo..hi-1 has its row in the table. */
  ghost predicate Covered(w: World, rows: seq<EventRow>, ix: Indexer, lo: nat, hi: nat) {
    forall log :: log in w.chain && lo <= log.blockNumber < hi && RowFor(w, ix, log).Some?
      ==> RowFor(w, ix, log).value in rows
  }

  ghost predicate TaskOk(w: World, s: State, task: Task) {
    match task
    case Started(ix, observed) => observed <= s.head
    case Ready(ix, from, to, live, start) =>
      live ==> start <= from <= to <= s.head && Covered(w, s.rows, ix, start, from)
    case Persisting(ix, from, to, live, start, pending, done) =>
      && done <= |pending|
      && (forall r :: r in pending ==> Real(w, s.head, r))
      && (forall k :: 0 <= k < done ==> pending[k] in s.rows)
      && (live ==>
            && start <= from <= to <= s.head
            && Covered(w, s.rows, ix, start, from)
            && (forall log :: log in w.chain && from <= log.blockNumber <= to && RowFor(w, ix, log).Some?
                  ==> RowFor(w, ix, log).value in pending))
  }

  ghost predicate CursorsOk(w: World, s: State) {
    && s.cursors.Keys == s.starts.Keys
    && forall ix :: ix in s.cursors ==>
         s.starts[ix] <= s.cursors[ix] <= s.head + 1 && Covered(w, s.rows, ix, s.starts[ix], s.cursors[ix])
  }

  ghost predicate RowsOk(w: World, s: State) {
    && (forall r :: r in s.rows ==> Real(w, s.head, r))
    && (forall i, j :: 0 <= i < j < |s.rows| ==> !SameKey(s.rows[i], s.rows[j]))
  }

  ghost predicate Inv(w: World, s: State) {
    && RowsOk(w, s)
    && CursorsOk(w, s)
    && forall t :: t in s.tasks ==> TaskOk(w, s, s.tasks[t])
  }

  /** More rows and more blocks preserve everything said about tasks and cursors. */
  lemma Monotone(w: World, s: State, s': State)
    requires forall r :: r in s.rows ==> r in s'.rows
    requires s.head <= s'.head && s'.cursors == s.cursors && s'.starts == s.starts
    ensures CursorsOk(w, s) ==> CursorsOk(w, s')
    ensures forall task :: TaskOk(w, s, task) ==> TaskOk(w, s', task)
    ensures forall r :: Real(w, s.head, r) ==> Real(w, s'.head, r)
  {
    forall r | Real(w, s.head, r) ensures Real(w, s'.head, r) {
      var log, ix :| log in w.chain && log.blockNumber <= s.head && RowFor(w, ix, log) == Some(r);
      assert log.blockNumber <= s'.head;
    }
  }

  lemma InsertKeepsRows(w: World, s: State, r: EventRow)
    requires ValidWorld(w) && RowsOk(w, s) && Real(w, s.head, r)
    ensures var s' := s.(rows := InsertIgnore(s.rows, r));
            RowsOk(w, s') && r in s'.rows && forall q :: q in s.rows ==> q in s'.rows
  {
    if exists q :: q in s.rows && SameKey(q, r) {
      var q :| q in s.rows && SameKey(q, r);
      RealRowsAgree(w, s.head, q, r);
    }
  }

  /** A task may be replaced by any other that is in order. */
  lemma ReplaceTask(w: World, s: State, t: nat, task: Task)
    requires Inv(w, s) && TaskOk(w, s, task)
    ensures Inv(w, s.(tasks := s.tasks[t := task]))
  {
    var s' := s.(tasks := s.tasks[t := task]);
    Monotone(w, s, s');
    forall u | u in s'.tasks ensures TaskOk(w, s', s'.tasks[u]) {
      if u != t { assert TaskOk(w, s, s.tasks[u]); }
    }
  }

  lemma DropTask(w: World, s: State, t: nat)
    requires Inv(w, s)
    ensures Inv(w, s.(tasks := s.tasks - {t}))
  {
    var s' := s.(tasks := s.tasks - {t});
    Monotone(w, s, s');
    forall u | u in s'.tasks ensures TaskOk(w, s', s'.tasks[u]) {
      assert TaskOk(w, s, s.tasks[u]);
    }
  }

  lemma GrowOk(w: World, s: State, s': State)
    requires Inv(w, s) && RowsOk(w, s')
    requires forall r :: r in s.rows ==> r in s'.rows
    requires s.head <= s'.head && s'.cursors == s.cursors && s'.starts == s.starts && s'.tasks == s.tasks
    ensures Inv(w, s')
  {
    Monotone(w, s, s');
    forall u | u in s'.tasks ensures TaskOk(w, s', s'.tasks[u]) {
      assert TaskOk(w, s, s.tasks[u]);
    }
  }

  lemma ReadCursorOk(w: World, s: State, t: nat)
    requires Inv(w, s)
    ensures Inv(w, ReadCursorStep(w.cfg, s, t))
  {
    if t in s.tasks && s.tasks[t].Started? {
      var ix, observed := s.tasks[t].ix, s.tasks[t].observed;
      assert TaskOk(w, s, s.tasks[t]);
      var range := TickRange(w.cfg, ix, Lookup(s.cursors, ix), observed);
      if range.None? {
        DropTask(w, s, t);
      } else {
        TickRangeIsSeen(w.cfg, ix, Lookup(s.cursors, ix), observed);
        var (from, to) := range.value;
        ReplaceTask(w, s, t, Ready(ix, from, to, true, CoverageStart(s, ix, from)));
      }
    }
  }

  lemma FetchedOk(w: World, s: State, task: Task)
    requires task.Ready? && TaskOk(w, s, task)
    ensures TaskOk(w, s, Persisting(task.ix, task.from, task.to, task.live, task.start,
                                    WindowRows(w, task.ix, s.head, task.from, task.to), 0))
  {
    var pending := WindowRows(w, task.ix, s.head, task.from, task.to);
    forall r | r in pending ensures Real(w, s.head, r) {
      WindowRowsExact(w, task.ix, s.head, task.from, task.to, r);
    }
    if task.live {
      forall log | log in w.chain && task.from <= log.blockNumber <= task.to && RowFor(w, task.ix, log).Some?
        ensures RowFor(w, task.ix, log).value in pending
      {
        WindowRowsExact(w, task.ix, s.head, task.from, task.to, RowFor(w, task.ix, log).value);
      }
    }
  }

  lemma FetchOk(w: World, s: State, t: nat)
    requires Inv(w, s)
    ensures Inv(w, FetchStep(w, s, t))
  {
    if t in s.tasks && s.tasks[t].Ready? {
      var task := s.tasks[t];
      FetchedOk(w, s, task);
      ReplaceTask(w, s, t, Persisting(task.ix, task.from, task.to, task.live, task.start,
                                      WindowRows(w, task.ix, s.head, task.from, task.to), 0));
    }
  }

  lemma {:induction false} InsertNextOk(w: World, s: State, t: nat)
    requires ValidWorld(w) && Inv(w, s)
    ensures Inv(w, InsertNextStep(s, t))
  {
    if t in s.tasks && s.tasks[t].Persisting? && s.tasks[t].done < |s.tasks[t].pending| {
      var task := s.tasks[t];
      var r := task.pending[task.done];
      assert TaskOk(w, s, task) && r in task.pending;
      InsertKeepsRows(w, s, r);
      var s' := s.(rows := InsertIgnore(s.rows, r));
      GrowOk(w, s, s');
      assert TaskOk(w, s', task);
      assert TaskOk(w, s', task.(done := task.done + 1));
      ReplaceTask(w, s', t, task.(done := task.done + 1));
      assert InsertNextStep(s, t) == s'.(tasks := s.tasks[t := task.(done := task.done + 1)]);
    }
  }

  lemma CommitCovers(w: World, s: State, task: Task)
    requires task.Persisting? && task.live && task.done == |task.pending| && TaskOk(w, s, task)
    ensures Covered(w, s.rows, task.ix, task.start, task.to + 1)
  {
    forall log | log in w.chain && task.start <= log.blockNumber < task.to + 1 && RowFor(w, task.ix, log).Some?
      ensures RowFor(w, task.ix, log).value in s.rows
    {
      if log.blockNumber >= task.from {
        assert RowFor(w, task.ix, log).value in task.pending;
      }
    }
  }

  lemma CommitOk(w: World, s: State, t: nat)
    requires Inv(w, s)
    ensures Inv(w, CommitStep(s, t))
  {
    if t in s.tasks && s.tasks[t].Persisting? && s.tasks[t].done >= |s.tasks[t].pending| {
      var task := s.tasks[t];
      assert TaskOk(w, s, task);
      DropTask(w, s, t);
      if task.live {
        CommitCovers(w, s, task);
        var dropped := s.(tasks := s.tasks - {t});
        var s' := CommitStep(s, t);
        assert CursorsOk(w, s');
        forall u | u in s'.tasks ensures TaskOk(w, s', s'.tasks[u]) {
          assert TaskOk(w, dropped, dropped.tasks[u]);
        }
      }
    }
  }

  lemma StepKeepsInv(w: World, s: State, a: Action)
    requires ValidWorld(w) && Inv(w, s)
    ensures Inv(w, Step(w, s, a))
  {
    match a {
      case Mine(n) =>
        Monotone(w, s, s.(head := s.head + n));
        GrowOk(w, s, s.(head := s.head + n));
      case BeginTick(t, ix) => ReplaceTask(w, s, t, Started(ix, s.head));
      case ReadCursor(t) => ReadCursorOk(w, s, t);
      case BeginBackfill(t, ix, from, to) => ReplaceTask(w, s, t, Ready(ix, from, to, false, from));
      case Fetch(t) => FetchOk(w, s, t);
      case InsertNext(t) => InsertNextOk(w, s, t);
      case Commit(t) => CommitOk(w, s, t);
      case Crash(t) => DropTask(w, s, t);
    }
  }

  lemma {:induction false} RunKeepsInv(w: World, s: State, actions: seq<Action>)
    requires ValidWorld(w) && Inv(w, s)
    ensures Inv(w, Run(w, s, actions))
  {
    if actions != [] {
      RunKeepsInv(w, s, actions[..|actions| - 1]);
      StepKeepsInv(w, Run(w, s, actions[..|actions| - 1]), actions[|actions| - 1]);
    }
  }

  /**
   * No gap, ever: in every reachable state each cursor's blocks are fully in the table, every
   * row is the row of a mined log, and no key occurs twice.
   */
  lemma Coverage(w: World, actions: seq<Action>)
    requires ValidWorld(w)
    ensures var s := Run(w, Empty, actions);
            && (forall ix :: ix in s.cursors ==>
                  ix in s.starts && s.cursors[ix] <= s.head + 1 && Covered(w, s.rows, ix, s.starts[ix], s.cursors[ix]))
            && (forall r :: r in s.rows ==> Real(w, s.head, r))
            && (forall i, j :: 0 <= i < j < |s.rows| ==> !SameKey(s.rows[i], s.rows[j]))
  {
    RunKeepsInv(w, Empty, actions);
  }

  // ─── Where coverage starts ────────────────────────────────────────────────

  /** The configured first block of an indexer, when it does not depend on the head. */
  function FixedStart(cfg: Config, ix: Indexer): Option<nat> {
    if ix == V3Liquidity then Some(cfg.deploymentBlock) else cfg.genesisBlock
  }

  ghost predicate StartsFixed(w: World, s: State) {
    && s.cursors.Keys == s.starts.Keys
    && (forall ix :: ix in s.starts && FixedStart(w.cfg, ix).Some? ==> Some(s.starts[ix]) == FixedStart(w.cfg, ix))
    && (forall t :: t in s.tasks && !s.tasks[t].Started? && s.tasks[t].live && FixedStart(w.cfg, s.tasks[t].ix).Some?
          ==> Some(s.tasks[t].start) == FixedStart(w.cfg, s.tasks[t].ix))
  }

  lemma StepKeepsStarts(w: World, s: State, a: Action)
    requires StartsFixed(w, s)
    ensures StartsFixed(w, Step(w, s, a))
  {}

  lemma {:induction false} FixedStartsStay(w: World, actions: seq<Action>)
    ensures StartsFixed(w, Run(w, Empty, actions))
  {
    if actions != [] {
      FixedStartsStay(w, actions[..|actions| - 1]);
      StepKeepsStarts(w, Run(w, Empty, actions[..|actions| - 1]), actions[|actions| - 1]);
    }
  }

  /** A tick starts, a block is mined, another tick starts, and both read the cursor. */
  function TwoTicks(): seq<Action> {
    [BeginTick(1, V3Pool)] + [Mine(1)] + [BeginTick(2, V3Pool)] + [ReadCursor(1)] + [ReadCursor(2)]
  }

  lemma TwoTicksSteps(w: World)
    requires w.cfg.genesisBlock == Some(0) && w.cfg.batchSize > 0
    ensures Step(w, Empty, BeginTick(1, V3Pool)) == OneStarted(0)
    ensures Step(w, OneStarted(0), Mine(1)) == OneStarted(1)
    ensures Step(w, OneStarted(1), BeginTick(2, V3Pool)) == Pair(Started(V3Pool, 0), Started(V3Pool, 1))
    ensures Step(w, Pair(Started(V3Pool, 0), Started(V3Pool, 1)), ReadCursor(1))
         == Pair(Ready(V3Pool, 0, 0, true, 0), Started(V3Pool, 1))
    ensures Step(w, Pair(Ready(V3Pool, 0, 0, true, 0), Started(V3Pool, 1)), ReadCursor(2))
         == Pair(Ready(V3Pool, 0, 0, true, 0), Ready(V3Pool, 0, 1, true, 0))
  {}

  function OneStarted(head: nat): State {
    State([], map[], map[], head, map[1 := Started(V3Pool, 0)])
  }

  function Pair(one: Task, two: Task): State {
    State([], map[], map[], 1, map[1 := one, 2 := two])
  }

  lemma {:induction false} TwoTicksReady(w: World)
    requires w.cfg.genesisBlock == Some(0) && w.cfg.batchSize > 0
    ensures Run(w, Empty, TwoTicks()) == Pair(Ready(V3Pool, 0, 0, true, 0), Ready(V3Pool, 0, 1, true, 0))
  {
    TwoTicksSteps(w);
    var a1: seq<Action> := [BeginTick(1, V3Pool)];
    RunOne(w, Empty, [], BeginTick(1, V3Pool));
    assert [] + a1 == a1;
    RunOne(w, Empty, a1, Mine(1));
    RunOne(w, Empty, a1 + [Mine(1)], BeginTick(2, V3Pool));
    RunOne(w, Empty, a1 + [Mine(1)] + [BeginTick(2, V3Pool)], ReadCursor(1));
    RunOne(w, Empty, a1 + [Mine(1)] + [BeginTick(2, V3Pool)] + [ReadCursor(1)], ReadCursor(2));
  }

  /** Overlapping ticks can move a cursor backwards; coverage above is what survives. */
  lemma {:induction false} CursorIsNotMonotone(w: World)
    requires w.cfg.genesisBlock == Some(0) && w.cfg.batchSize > 0 && w.chain == []
    ensures exists actions: seq<Action>, a ::
              var s := Run(w, Empty, actions);
              V3Pool in s.cursors && V3Pool in Step(w, s, a).cursors && Step(w, s, a).cursors[V3Pool] < s.cursors[V3Pool]
  {
    assert forall h, from, to :: WindowRows(w, V3Pool, h, from, to) == [];
    var a5 := TwoTicks();
    TwoTicksReady(w);
    var a6 := a5 + [Fetch(1)];
    RunOne(w, Empty, a5, Fetch(1));
    var a7 := a6 + [Fetch(2)];
    RunOne(w, Empty, a6, Fetch(2));
    assert Run(w, Empty, a7)
        == State([], map[], map[], 1, map[1 := Persisting(V3Pool, 0, 0, true, 0, [], 0), 2 := Persisting(V3Pool, 0, 1, true, 0, [], 0)]);
    var a8 := a7 + [Commit(2)];
    RunOne(w, Empty, a7, Commit(2));
    var s := Run(w, Empty, a8);
    assert s.cursors[V3Pool] == 2 && s.tasks[1] == Persisting(V3Pool, 0, 0, true, 0, [], 0);
    assert Step(w, s, Commit(1)).cursors[V3Pool] == 1;
  }

  // ─── Exactly when a cursor falls ──────────────────────────────────────────

  /** A live tick of `ix` that has read the cursor and neither written it nor died. */
  predicate Holds(task: Task, ix: Indexer) {
    !task.Started? && task.live && task.ix == ix
  }

  /** `a` is a due cursor write of `ix` by a tick that the cursor has already overtaken. */
  predicate LateCommit(s: State, a: Action, ix: Indexer) {
    && a.Commit? && a.task in s.tasks
    && var task := s.tasks[a.task];
       && Holds(task, ix) && task.Persisting? && task.done >= |task.pending|
       && ix in s.cursors && task.to + 1 < s.cursors[ix]
  }

  /** One step lowers a cursor exactly when it is a late cursor write. */
  lemma CursorFallsIff(w: World, s: State, a: Action, ix: Indexer)
    requires ix in s.cursors
    ensures var s' := Step(w, s, a);
            ix in s'.cursors && (s'.cursors[ix] < s.cursors[ix] <==> LateCommit(s, a, ix))
  {}

  /** No other tick of the same indexer is between its own cursor read and its end. */
  predicate ReadsAlone(s: State, t: nat) {
    t in s.tasks && s.tasks[t].Started? ==>
      forall u :: u in s.tasks && u != t ==> !Holds(s.tasks[u], s.tasks[t].ix)
  }

  /** Checked at each cursor read of the run: ticks of one indexer do not overlap. */
  ghost predicate TicksDoNotOverlap(w: World, actions: seq<Action>) {
    forall k :: 0 <= k < |actions| && actions[k].ReadCursor? ==> ReadsAlone(Run(w, Empty, actions[..k]), actions[k].task)
  }

  /** Ticks that have read have different indexers, and find the cursor as they read it. */
  ghost predicate AtCursor(s: State) {
    && (forall t, u, ix :: t in s.tasks && u in s.tasks && Holds(s.tasks[t], ix) && Holds(s.tasks[u], ix) ==> t == u)
    && (forall t :: t in s.tasks && Holds(s.tasks[t], s.tasks[t].ix) ==>
          && s.tasks[t].from <= s.tasks[t].to
          && (s.tasks[t].ix in s.cursors ==> s.tasks[t].from == s.cursors[s.tasks[t].ix]))
  }

  lemma StepKeepsAtCursor(w: World, s: State, a: Action)
    requires AtCursor(s) && (a.ReadCursor? ==> ReadsAlone(s, a.task))
    ensures AtCursor(Step(w, s, a))
    ensures forall ix :: ix in s.cursors ==> ix in Step(w, s, a).cursors && s.cursors[ix] <= Step(w, s, a).cursors[ix]
  {
    forall ix | ix in s.cursors
      ensures ix in Step(w, s, a).cursors && s.cursors[ix] <= Step(w, s, a).cursors[ix]
    {
      CursorFallsIff(w, s, a, ix);
    }
    match a {
      case ReadCursor(t) =>
        if t in s.tasks && s.tasks[t].Started? {
          var ix := s.tasks[t].ix;
          var range := TickRange(w.cfg, ix, Lookup(s.cursors, ix), s.tasks[t].observed);
          if range.Some? { TickRangeIsSeen(w.cfg, ix, Lookup(s.cursors, ix), s.tasks[t].observed); }
        }
      case _ =>
    }
  }

  lemma {:induction false} RunKeepsAtCursor(w: World, actions: seq<Action>)
    requires TicksDoNotOverlap(w, actions)
    ensures AtCursor(Run(w, Empty, actions))
  {
    if actions != [] {
      var n := |actions| - 1;
      PrefixDoesNotOverlap(w, actions, n);
      RunKeepsAtCursor(w, actions[..n]);
      StepKeepsAtCursor(w, Run(w, Empty, actions[..n]), actions[n]);
    }
  }

  lemma PrefixDoesNotOverlap(w: World, actions: seq<Action>, n: nat)
    requires TicksDoNotOverlap(w, actions) && n <= |actions|
    ensures TicksDoNotOverlap(w, actions[..n])
  {
    forall k | 0 <= k < n && actions[..n][k].ReadCursor?
      ensures ReadsAlone(Run(w, Empty, actions[..n][..k]), actions[..n][k].task)
    {
      assert actions[..n][..k] == actions[..k];
    }
  }

  /** In every run whose ticks do not overlap, no cursor ever falls. */
  lemma {:induction false} CursorsGrow(w: World, actions: seq<Action>, k: nat, ix: Indexer)
    requires TicksDoNotOverlap(w, actions) && k <= |actions|
    requires ix in Run(w, Empty, actions[..k]).cursors
    ensures ix in Run(w, Empty, actions).cursors
         && Run(w, Empty, actions[..k]).cursors[ix] <= Run(w, Empty, actions).cursors[ix]
  {
    if k == |actions| {
      assert actions[..k] == actions;
    } else {
      var n := |actions| - 1;
      PrefixDoesNotOverlap(w, actions, n);
      assert actions[..n][..k] == actions[..k];
      CursorsGrow(w, actions[..n], k, ix);
      RunKeepsAtCursor(w, actions[..n]);
      StepKeepsAtCursor(w, Run(w, Empty, actions[..n]), actions[n]);
    }
  }

  /** No cursor is read along the way: only the ticks that have read it are at work. */
  ghost predicate NoReads(actions: seq<Action>) {
    forall a :: a in actions ==> !a.ReadCursor?
  }

  /** Some step of the continuation lowers the cursor. */
  ghost predicate Falls(w: World, s: State, actions: seq<Action>, ix: Indexer) {
    exists k | 0 <= k < |actions| :: FallsAt(w, Run(w, s, actions[..k]), actions[k], ix)
  }

  predicate FallsAt(w: World, s: State, a: Action, ix: Indexer) {
    ix in s.cursors && ix in Step(w, s, a).cursors && Step(w, s, a).cursors[ix] < s.cursors[ix]
  }

  /** A tick that has read the cursor ends short of it, or short of another such tick. */
  ghost predicate Overtakable(s: State, ix: Indexer) {
    exists t | t in s.tasks && Holds(s.tasks[t], ix) ::
      || (ix in s.cursors && s.tasks[t].to + 1 < s.cursors[ix])
      || (exists u | u in s.tasks && Holds(s.tasks[u], ix) :: s.tasks[t].to < s.tasks[u].to)
  }

  /** Without reads, ticks only end, and a cursor moves only to where one of them ends. */
  ghost predicate SameHolders(s: State, s': State, ix: Indexer) {
    && (forall t :: t in s'.tasks && Holds(s'.tasks[t], ix) ==>
          t in s.tasks && Holds(s.tasks[t], ix) && s.tasks[t].to == s'.tasks[t].to)
    && (ix in s'.cursors ==>
          || (ix in s.cursors && s'.cursors[ix] == s.cursors[ix])
          || exists u :: u in s.tasks && Holds(s.tasks[u], ix) && s'.cursors[ix] == s.tasks[u].to + 1)
  }

  lemma StepKeepsHolders(w: World, s: State, m: State, a: Action, ix: Indexer)
    requires SameHolders(s, m, ix) && !a.ReadCursor?
    ensures SameHolders(s, Step(w, m, a), ix)
  {}

  lemma {:induction false} RunKeepsHolders(w: World, s: State, actions: seq<Action>, ix: Indexer)
    requires NoReads(actions)
    ensures SameHolders(s, Run(w, s, actions), ix)
  {
    if actions != [] {
      var n := |actions| - 1;
      RunKeepsHolders(w, s, actions[..n], ix);
      StepKeepsHolders(w, s, Run(w, s, actions[..n]), actions[n], ix);
    }
  }

  /** `s'` is `s` with task `t` fetched and fully inserted. */
  ghost predicate Due(s: State, s': State, t: nat)
    requires t in s.tasks && !s.tasks[t].Started?
  {
    && s'.cursors == s.cursors && t in s'.tasks
    && s'.tasks[t].Persisting? && s'.tasks[t].done >= |s'.tasks[t].pending|
    && s'.tasks[t].ix == s.tasks[t].ix && s'.tasks[t].live == s.tasks[t].live && s'.tasks[t].to == s.tasks[t].to
    && s'.tasks - {t} == s.tasks - {t}
  }

  /** A task that has its window can be driven to its last step without touching anything else. */
  lemma {:induction false} DriveToCommit(w: World, s: State, t: nat) returns (actions: seq<Action>)
    requires t in s.tasks && !s.tasks[t].Started?
    ensures NoReads(actions) && Due(s, Run(w, s, actions), t)
    decreases if s.tasks[t].Ready? then 1 else 0,
              if s.tasks[t].Persisting? then |s.tasks[t].pending| - s.tasks[t].done else 0
  {
    if s.tasks[t].Persisting? && s.tasks[t].done >= |s.tasks[t].pending| {
      actions := [];
    } else {
      var first := if s.tasks[t].Ready? then Fetch(t) else InsertNext(t);
      var next := Step(w, s, first);
      DriveStep(w, s, t, first);
      var rest := DriveToCommit(w, next, t);
      actions := [first] + rest;
      RunCons(w, s, first, rest);
      StillDue(s, next, Run(w, next, rest), t);
    }
  }

  lemma RunCons(w: World, s: State, a: Action, rest: seq<Action>)
    ensures Run(w, s, [a] + rest) == Run(w, Step(w, s, a), rest)
  {
    RunConcat(w, s, [a], rest);
    RunOne(w, s, [], a);
    assert [] + [a] == [a];
  }

  /** A step of one task's own window keeps its terms, the cursors and the other tasks. */
  ghost predicate OwnStep(s: State, s': State, t: nat)
    requires t in s.tasks && !s.tasks[t].Started?
  {
    && s'.cursors == s.cursors && t in s'.tasks && s'.tasks[t].Persisting?
    && s'.tasks[t].ix == s.tasks[t].ix && s'.tasks[t].live == s.tasks[t].live && s'.tasks[t].to == s.tasks[t].to
    && s'.tasks - {t} == s.tasks - {t}
  }

  lemma DriveStep(w: World, s: State, t: nat, a: Action)
    requires t in s.tasks && !s.tasks[t].Started?
    requires s.tasks[t].Persisting? ==> s.tasks[t].done < |s.tasks[t].pending|
    requires a == if s.tasks[t].Ready? then Fetch(t) else InsertNext(t)
    ensures var s' := Step(w, s, a);
            && OwnStep(s, s', t)
            && (s.tasks[t].Persisting? ==>
                  s'.tasks[t].pending == s.tasks[t].pending && s'.tasks[t].done == s.tasks[t].done + 1)
  {
    assert Step(w, s, a).tasks - {t} == s.tasks - {t};
  }

  lemma StillDue(s: State, m: State, s': State, t: nat)
    requires t in s.tasks && !s.tasks[t].Started? && OwnStep(s, m, t) && Due(m, s', t)
    ensures Due(s, s', t)
  {}

  lemma {:induction false} FallsAfter(w: World, s: State, before: seq<Action>, a: Action, ix: Indexer)
    requires FallsAt(w, Run(w, s, before), a, ix)
    ensures Falls(w, s, before + [a], ix)
  {
    assert (before + [a])[..|before|] == before && (before + [a])[|before|] == a;
  }

  lemma {:induction false} OvertakenTickFalls(w: World, s: State, t: nat, ix: Indexer) returns (actions: seq<Action>)
    requires t in s.tasks && Holds(s.tasks[t], ix) && ix in s.cursors && s.tasks[t].to + 1 < s.cursors[ix]
    ensures NoReads(actions) && Falls(w, s, actions, ix)
  {
    var driven := DriveToCommit(w, s, t);
    CursorFallsIff(w, Run(w, s, driven), Commit(t), ix);
    FallsAfter(w, s, driven, Commit(t), ix);
    actions := driven + [Commit(t)];
  }

  lemma {:induction false} ShorterTickFalls(w: World, s: State, t: nat, u: nat, ix: Indexer) returns (actions: seq<Action>)
    requires t in s.tasks && Holds(s.tasks[t], ix) && u in s.tasks && Holds(s.tasks[u], ix)
    requires s.tasks[t].to < s.tasks[u].to
    ensures NoReads(actions) && Falls(w, s, actions, ix)
  {
    var driven := DriveToCommit(w, s, u);
    var first := driven + [Commit(u)];
    RunOne(w, s, driven, Commit(u));
    var m := Run(w, s, driven);
    var s' := Run(w, s, first);
    assert t in m.tasks - {u} && (m.tasks - {u})[t] == (s.tasks - {u})[t];
    assert t in s'.tasks && s'.tasks[t] == s.tasks[t];
    assert s'.cursors[ix] == s.tasks[u].to + 1;
    var rest := OvertakenTickFalls(w, s', t, ix);
    actions := first + rest;
    FallsLater(w, s, first, rest, ix);
  }

  lemma {:induction false} FallsLater(w: World, s: State, first: seq<Action>, rest: seq<Action>, ix: Indexer)
    requires Falls(w, Run(w, s, first), rest, ix)
    ensures Falls(w, s, first + rest, ix)
  {
    var k :| 0 <= k < |rest| && FallsAt(w, Run(w, Run(w, s, first), rest[..k]), rest[k], ix);
    RunConcat(w, s, first, rest[..k]);
    assert (first + rest)[..|first| + k] == first + rest[..k] && (first + rest)[|first| + k] == rest[k];
  }

  /**
   * The ticks that have read the cursor can bring it down, in some order of finishing, exactly
   * when one of them ends short of the cursor or of another.
   */
  lemma {:induction false} FallIsPossibleIff(w: World, s: State, ix: Indexer)
    ensures (exists actions :: NoReads(actions) && Falls(w, s, actions, ix)) <==> Overtakable(s, ix)
  {
    if actions :| NoReads(actions) && Falls(w, s, actions, ix) {
      FallNeedsOvertaking(w, s, actions, ix);
    }
    if Overtakable(s, ix) {
      var t :| t in s.tasks && Holds(s.tasks[t], ix) &&
               ((ix in s.cursors && s.tasks[t].to + 1 < s.cursors[ix])
                || exists u | u in s.tasks && Holds(s.tasks[u], ix) :: s.tasks[t].to < s.tasks[u].to);
      if ix in s.cursors && s.tasks[t].to + 1 < s.cursors[ix] {
        var found := OvertakenTickFalls(w, s, t, ix);
      } else {
        var u :| u in s.tasks && Holds(s.tasks[u], ix) && s.tasks[t].to < s.tasks[u].to;
        var found := ShorterTickFalls(w, s, t, u, ix);
      }
    }
  }

  lemma {:induction false} FallNeedsOvertaking(w: World, s: State, actions: seq<Action>, ix: Indexer)
    requires NoReads(actions) && Falls(w, s, actions, ix)
    ensures Overtakable(s, ix)
  {
    var k :| 0 <= k < |actions| && FallsAt(w, Run(w, s, actions[..k]), actions[k], ix);
    RunKeepsHolders(w, s, actions[..k], ix);
    var m := Run(w, s, actions[..k]);
    CursorFallsIff(w, m, actions[k], ix);
    var t := actions[k].task;
    assert Holds(m.tasks[t], ix) && m.tasks[t].to == s.tasks[t].to;
  }

  // ─── End to end: the table reduces to the chain ───────────────────────────

  /** A position-manager log about token `t`. */
  predicate IsTokenLog(w: World, log: RawLog, t: TokenId) {
    w.cfg.positionManager == Some(log.address) && AboutToken(log.body, t)
  }

  function MinedTokenLog(w: World, head: nat, t: TokenId): RawLog -> bool {
    (log: RawLog) => IsTokenLog(w, log, t) && log.blockNumber <= head
  }

  /** The token's events in chain order, as mined so far. */
  function ChainEvents(w: World, head: nat, t: TokenId): seq<LiquidityEvent> {
    var logs := Filter(MinedTokenLog(w, head, t), w.chain);
    seq(|logs|, i requires 0 <= i < |logs| =>
      if ParsePositionManagerLog(logs[i]).Some? then ParsePositionManagerLog(logs[i]).value else BareEvent(logs[i], Mint))
  }

  /** Every mined log of the token lies in a block one of the two indexers has fully covered. */
  ghost predicate FullyIndexed(w: World, s: State, t: TokenId) {
    forall log :: log in w.chain && log.blockNumber <= s.head && IsTokenLog(w, log, t) ==>
      (exists ix :: ix in {V3PositionManager, V3Liquidity} && ix in s.cursors && ix in s.starts
                    && s.starts[ix] <= log.blockNumber < s.cursors[ix])
  }

  ghost predicate InOrder(logs: seq<RawLog>) {
    forall i, j :: 0 <= i < j < |logs| ==> LogBefore(logs[i], logs[j])
  }

  lemma {:induction false} FilterKeepsOrder(p: RawLog -> bool, logs: seq<RawLog>)
    requires InOrder(logs)
    ensures InOrder(Filter(p, logs))
  {
    if logs != [] {
      var rest := Filter(p, logs[1..]);
      FilterKeepsOrder(p, logs[1..]);
      forall i | 0 <= i < |rest| ensures LogBefore(logs[0], rest[i]) {
        FilterMembers(p, logs[1..], rest[i]);
        var k :| 0 <= k < |logs| - 1 && logs[1..][k] == rest[i];
        assert logs[k + 1] == rest[i];
      }
      if p(logs[0]) {
        assert Filter(p, logs) == [logs[0]] + rest;
      }
    }
  }

  lemma ChainEventsInOrder(w: World, head: nat, t: TokenId)
    requires ValidWorld(w)
    ensures Sorted(ChainLeq, ChainEvents(w, head, t)) && DistinctKeys(ChainEvents(w, head, t))
  {
    var p := MinedTokenLog(w, head, t);
    FilterKeepsOrder(p, w.chain);
    var logs := Filter(p, w.chain);
    var events := ChainEvents(w, head, t);
    assert |events| == |logs|;
    forall i | 0 <= i < |logs|
      ensures events[i].blockNumber == logs[i].blockNumber && events[i].logIndex == logs[i].logIndex
    {
      assert logs[i] in logs;
      FilterMembers(p, w.chain, logs[i]);
    }
    forall i, j | 0 <= i < j < |events| ensures ChainLeq(events[i], events[j]) && !ChainLeq(events[j], events[i]) {
      assert LogBefore(logs[i], logs[j]);
    }
  }

  lemma ChainEventMembers(w: World, head: nat, t: TokenId, e: LiquidityEvent)
    ensures e in ChainEvents(w, head, t)
        <==> exists log :: log in w.chain && log.blockNumber <= head && IsTokenLog(w, log, t)
                           && ParsePositionManagerLog(log) == Some(e)
  {
    var p := MinedTokenLog(w, head, t);
    var logs := Filter(p, w.chain);
    var events := ChainEvents(w, head, t);
    forall log ensures log in logs <==> log in w.chain && p(log) {
      FilterMembers(p, w.chain, log);
    }
    forall i | 0 <= i < |logs| ensures ParsePositionManagerLog(logs[i]) == Some(events[i]) {
      assert logs[i] in logs;
    }
    if exists log :: log in w.chain && log.blockNumber <= head && IsTokenLog(w, log, t)
                     && ParsePositionManagerLog(log) == Some(e) {
      var log :| log in w.chain && log.blockNumber <= head && IsTokenLog(w, log, t)
                 && ParsePositionManagerLog(log) == Some(e);
      assert log in logs;
      var i :| 0 <= i < |logs| && logs[i] == log;
      assert events[i] == e;
    }
    if e in events {
      var i :| 0 <= i < |events| && events[i] == e;
      assert logs[i] in logs;
    }
  }

  lemma SelectedMembers(rows: seq<EventRow>, t: TokenId, e: LiquidityEvent)
    ensures e in EventsOf(SelectEvents(rows, V3, t))
        <==> exists r :: r in rows && r.protocol == V3 && r.event == e && e.tokenId == Some(t)
  {
    var sel := SelectEvents(rows, V3, t);
    SelectionExact(rows, V3, t);
    if e in EventsOf(sel) {
      var i :| 0 <= i < |sel| && EventsOf(sel)[i] == e;
      assert sel[i] in sel;
    }
    if exists r :: r in rows && r.protocol == V3 && r.event == e && e.tokenId == Some(t) {
      var r :| r in rows && r.protocol == V3 && r.event == e && e.tokenId == Some(t);
      assert r in sel;
      var i :| 0 <= i < |sel| && sel[i] == r;
      assert EventsOf(sel)[i] == e;
    }
  }

  lemma {:induction false} FilterNoTies(p: EventRow -> bool, rows: seq<EventRow>)
    requires NoTies(RowLeq, rows)
    ensures NoTies(RowLeq, Filter(p, rows))
  {
    if rows != [] {
      FilterNoTies(p, rows[1..]);
      forall r | r in Filter(p, rows[1..]) ensures !(RowLeq(rows[0], r) && RowLeq(r, rows[0])) {
        FilterMembers(p, rows[1..], r);
        var k :| 0 <= k < |rows| - 1 && rows[1..][k] == r;
        assert rows[k + 1] == r;
      }
    }
  }

  lemma SelectedDistinct(w: World, s: State, t: TokenId)
    requires ValidWorld(w) && RowsOk(w, s)
    ensures DistinctKeys(EventsOf(SelectEvents(s.rows, V3, t)))
  {
    forall i, j | 0 <= i < j < |s.rows| ensures !(RowLeq(s.rows[i], s.rows[j]) && RowLeq(s.rows[j], s.rows[i])) {
      if RowLeq(s.rows[i], s.rows[j]) && RowLeq(s.rows[j], s.rows[i]) {
        RealRowsAgree(w, s.head, s.rows[i], s.rows[j]);
        assert false;
      }
    }
    FilterNoTies(Matches(V3, t), s.rows);
    SortNoTies(RowLeq, Filter(Matches(V3, t), s.rows));
  }

  lemma RealRowHasTokenLog(w: World, head: nat, t: TokenId, r: EventRow)
    requires Real(w, head, r) && r.protocol == V3 && r.event.tokenId == Some(t)
    ensures exists log :: log in w.chain && log.blockNumber <= head && IsTokenLog(w, log, t)
                          && ParsePositionManagerLog(log) == Some(r.event)
  {
    var log, ix :| log in w.chain && log.blockNumber <= head && RowFor(w, ix, log) == Some(r);
    assert IsTokenLog(w, log, t) && ParsePositionManagerLog(log) == Some(r.event);
  }

  lemma {:induction false} RowsComeFromTheChain(w: World, s: State, t: TokenId, e: LiquidityEvent)
    requires RowsOk(w, s) && e in EventsOf(SelectEvents(s.rows, V3, t))
    ensures e in ChainEvents(w, s.head, t)
  {
    SelectedMembers(s.rows, t, e);
    ChainEventMembers(w, s.head, t, e);
    var r :| r in s.rows && r.protocol == V3 && r.event == e && e.tokenId == Some(t);
    assert Real(w, s.head, r);
    RealRowHasTokenLog(w, s.head, t, r);
  }

  lemma IndexedLogHasItsRow(w: World, s: State, t: TokenId, log: RawLog)
    requires CursorsOk(w, s) && FullyIndexed(w, s, t)
    requires log in w.chain && log.blockNumber <= s.head && IsTokenLog(w, log, t)
    ensures EventRow(V3, ParsePositionManagerLog(log).value, w.blockTime(log.blockNumber)) in s.rows
  {
    var ix :| ix in {V3PositionManager, V3Liquidity} && ix in s.cursors && ix in s.starts
              && s.starts[ix] <= log.blockNumber < s.cursors[ix];
    assert Covered(w, s.rows, ix, s.starts[ix], s.cursors[ix]);
    assert RowFor(w, ix, log).Some?;
  }

  lemma ChainIsInTheRows(w: World, s: State, t: TokenId, e: LiquidityEvent)
    requires CursorsOk(w, s) && FullyIndexed(w, s, t) && e in ChainEvents(w, s.head, t)
    ensures e in EventsOf(SelectEvents(s.rows, V3, t))
  {
    ChainEventMembers(w, s.head, t, e);
    var log :| log in w.chain && log.blockNumber <= s.head && IsTokenLog(w, log, t)
               && ParsePositionManagerLog(log) == Some(e);
    IndexedLogHasItsRow(w, s, t, log);
    SelectedMembers(s.rows, t, e);
  }

  /**
   * Whatever the delivery history, a fully indexed token reduces from the table to exactly
   * the state its chain-ordered log gives.
   */
  lemma TableReducesToChain(w: World, actions: seq<Action>, t: TokenId)
    requires ValidWorld(w) && FullyIndexed(w, Run(w, Empty, actions), t)
    ensures var s := Run(w, Empty, actions);
            Reduce(EventsOf(SelectEvents(s.rows, V3, t))) == Fold(map[], ChainEvents(w, s.head, t))
  {
    var s := Run(w, Empty, actions);
    RunKeepsInv(w, Empty, actions);
    var a, b := EventsOf(SelectEvents(s.rows, V3, t)), ChainEvents(w, s.head, t);
    forall e ensures e in a <==> e in b {
      if e in a { RowsComeFromTheChain(w, s, t, e); }
      if e in b { ChainIsInTheRows(w, s, t, e); }
    }
    SelectedDistinct(w, s, t);
    ChainEventsInOrder(w, s.head, t);
    OrderIndependent(a, b);
    SortOfSorted(ChainLeq, b);
  }

  // ─── The sequential service is one such run ───────────────────────────────

  function Inserts(t: nat, n: nat): seq<Action> {
    if n == 0 then [] else Inserts(t, n - 1) + [InsertNext(t)]
  }

  lemma {:induction false} RunConcat(w: World, s: State, a: seq<Action>, b: seq<Action>)
    ensures Run(w, s, a + b) == Run(w, Run(w, s, a), b)
    decreases |b|
  {
    if b == [] {
      assert a + b == a;
    } else {
      RunConcat(w, s, a, b[..|b| - 1]);
      assert (a + b)[..|a + b| - 1] == a + b[..|b| - 1];
    }
  }

  lemma {:induction false} RunInserts(w: World, s: State, t: nat, task: Task, n: nat)
    requires task.Persisting? && task.done == 0 && n <= |task.pending|
    requires t in s.tasks && s.tasks[t] == task
    ensures Run(w, s, Inserts(t, n))
         == s.(rows := InsertAll(s.rows, task.pending[..n]), tasks := s.tasks[t := task.(done := n)])
  {
    if n == 0 {
      assert s.tasks[t := task.(done := 0)] == s.tasks;
      assert task.pending[..0] == [];
    } else {
      RunInserts(w, s, t, task, n - 1);
      RunOne(w, s, Inserts(t, n - 1), InsertNext(t));
      OneMoreInsert(s, t, task, n);
    }
  }

  lemma OneMoreInsert(s: State, t: nat, task: Task, n: nat)
    requires task.Persisting? && 0 < n <= |task.pending|
    ensures InsertNextStep(s.(rows := InsertAll(s.rows, task.pending[..n - 1]), tasks := s.tasks[t := task.(done := n - 1)]), t)
         == s.(rows := InsertAll(s.rows, task.pending[..n]), tasks := s.tasks[t := task.(done := n)])
  {
    assert task.pending[..n][..n - 1] == task.pending[..n - 1];
    assert s.tasks[t := task.(done := n - 1)][t := task.(done := n)] == s.tasks[t := task.(done := n)];
  }

  function TickActions(t: nat, ix: Indexer, n: nat): seq<Action> {
    [BeginTick(t, ix)] + [ReadCursor(t)] + [Fetch(t)] + Inserts(t, n)
  }

  lemma StartedThenReady(cfg: Config, s: State, t: nat, ix: Indexer, from: nat, to: nat)
    requires TickRange(cfg, ix, Lookup(s.cursors, ix), s.head) == Some((from, to))
    ensures ReadCursorStep(cfg, s.(tasks := s.tasks[t := Started(ix, s.head)]), t)
         == s.(tasks := s.tasks[t := Ready(ix, from, to, true, CoverageStart(s, ix, from))])
  {
    var ready := Ready(ix, from, to, true, CoverageStart(s, ix, from));
    assert s.tasks[t := Started(ix, s.head)][t := ready] == s.tasks[t := ready];
  }

  lemma ReadyThenPersisting(w: World, s: State, t: nat, ix: Indexer, from: nat, to: nat, start: nat)
    ensures FetchStep(w, s.(tasks := s.tasks[t := Ready(ix, from, to, true, start)]), t)
         == s.(tasks := s.tasks[t := Persisting(ix, from, to, true, start, WindowRows(w, ix, s.head, from, to), 0)])
  {
    var persisting := Persisting(ix, from, to, true, start, WindowRows(w, ix, s.head, from, to), 0);
    assert s.tasks[t := Ready(ix, from, to, true, start)][t := persisting] == s.tasks[t := persisting];
  }

  lemma TickPrologue(w: World, s: State, t: nat, ix: Indexer, from: nat, to: nat)
    requires t !in s.tasks && TickRange(w.cfg, ix, Lookup(s.cursors, ix), s.head) == Some((from, to))
    ensures Run(w, s, [BeginTick(t, ix)] + [ReadCursor(t)] + [Fetch(t)])
         == s.(tasks := s.tasks[t := Persisting(ix, from, to, true, CoverageStart(s, ix, from),
                                                WindowRows(w, ix, s.head, from, to), 0)])
  {
    var first := [BeginTick(t, ix)];
    RunOne(w, s, [], BeginTick(t, ix));
    assert [] + first == first;
    RunOne(w, s, first, ReadCursor(t));
    StartedThenReady(w.cfg, s, t, ix, from, to);
    RunOne(w, s, first + [ReadCursor(t)], Fetch(t));
    ReadyThenPersisting(w, s, t, ix, from, to, CoverageStart(s, ix, from));
  }

  lemma {:induction false} RunThenInserts(w: World, s: State, first: seq<Action>, s0: State, t: nat, task: Task, n: nat)
    requires Run(w, s, first) == s0 && t in s0.tasks && s0.tasks[t] == task
    requires task.Persisting? && task.done == 0 && n <= |task.pending|
    ensures Run(w, s, first + Inserts(t, n))
         == s0.(rows := InsertAll(s0.rows, task.pending[..n]), tasks := s0.tasks[t := task.(done := n)])
  {
    RunConcat(w, s, first, Inserts(t, n));
    RunInserts(w, s0, t, task, n);
  }

  lemma {:induction false} TickAfterInserts(w: World, s: State, t: nat, ix: Indexer, from: nat, to: nat, n: nat)
    requires t !in s.tasks && TickRange(w.cfg, ix, Lookup(s.cursors, ix), s.head) == Some((from, to))
    requires n <= |WindowRows(w, ix, s.head, from, to)|
    ensures var pending := WindowRows(w, ix, s.head, from, to);
            Run(w, s, TickActions(t, ix, n))
            == s.(rows := InsertAll(s.rows, pending[..n]),
                  tasks := s.tasks[t := Persisting(ix, from, to, true, CoverageStart(s, ix, from), pending, n)])
  {
    TickPrologue(w, s, t, ix, from, to);
    var prologue := [BeginTick(t, ix)] + [ReadCursor(t)] + [Fetch(t)];
    var task := Persisting(ix, from, to, true, CoverageStart(s, ix, from), WindowRows(w, ix, s.head, from, to), 0);
    var s0 := s.(tasks := s.tasks[t := task]);
    RunThenInserts(w, s, prologue, s0, t, task, n);
    assert s0.tasks[t := task.(done := n)] == s.tasks[t := task.(done := n)];
  }

  /**
   * An uninterrupted live tick that crashes after `n` rows is a run of the machine: it leaves
   * the first `n` rows of its window and the cursor alone, as the service's methods promise.
   */
  lemma CrashedTickIsRun(w: World, s: State, t: nat, ix: Indexer, from: nat, to: nat, n: nat)
    requires t !in s.tasks && TickRange(w.cfg, ix, Lookup(s.cursors, ix), s.head) == Some((from, to))
    requires n <= |WindowRows(w, ix, s.head, from, to)|
    ensures Run(w, s, TickActions(t, ix, n) + [Crash(t)])
         == s.(rows := InsertAll(s.rows, WindowRows(w, ix, s.head, from, to)[..n]))
  {
    TickAfterInserts(w, s, t, ix, from, to, n);
    RunOne(w, s, TickActions(t, ix, n), Crash(t));
    var task := Persisting(ix, from, to, true, CoverageStart(s, ix, from), WindowRows(w, ix, s.head, from, to), n);
    assert s.tasks[t := task] - {t} == s.tasks;
  }

  lemma CommitTask(s: State, t: nat, task: Task)
    requires t !in s.tasks && task.Persisting? && task.live && task.done == |task.pending|
    ensures CommitStep(s.(rows := InsertAll(s.rows, task.pending), tasks := s.tasks[t := task]), t)
         == s.(rows := InsertAll(s.rows, task.pending), cursors := s.cursors[task.ix := task.to + 1],
               starts := s.starts[task.ix := task.start])
  {
    assert s.tasks[t := task] - {t} == s.tasks;
  }

  /** A live tick that runs to its end persists its window and moves its own cursor past it. */
  lemma {:induction false} CommittedTickIsRun(w: World, s: State, t: nat, ix: Indexer, from: nat, to: nat)
    requires t !in s.tasks && TickRange(w.cfg, ix, Lookup(s.cursors, ix), s.head) == Some((from, to))
    ensures var rows := WindowRows(w, ix, s.head, from, to);
            Run(w, s, TickActions(t, ix, |rows|) + [Commit(t)])
            == s.(rows := InsertAll(s.rows, rows), cursors := s.cursors[ix := to + 1],
                  starts := s.starts[ix := CoverageStart(s, ix, from)])
  {
    var rows := WindowRows(w, ix, s.head, from, to);
    TickAfterInserts(w, s, t, ix, from, to, |rows|);
    assert rows[..|rows|] == rows;
    var task := Persisting(ix, from, to, true, CoverageStart(s, ix, from), rows, |rows|);
    RunOne(w, s, TickActions(t, ix, |rows|), Commit(t));
    CommitTask(s, t, task);
  }

  /** The RPC told the truth about the window: its logs and the blocks' timestamps. */
  ghost predicate Faithful(w: World, ix: Indexer, head: nat, from: nat, to: nat, answers: Answers) {
    && (answers.logs(from, to).Some? ==> answers.logs(from, to) == Some(WindowLogs(w, ix, head, from, to)))
    && forall b :: b in answers.blockTimes ==> answers.blockTimes[b] == w.blockTime(b)
  }

  lemma {:induction false} SameTimesSameRows(items: seq<ParsedEvent>, f: nat -> nat, g: nat -> nat)
    requires forall i :: 0 <= i < |items| ==> f(items[i].Block()) == g(items[i].Block())
    ensures RowsOf(items, f) == RowsOf(items, g)
  {
    if items != [] {
      SameTimesSameRows(items[..|items| - 1], f, g);
    }
  }

  lemma {:induction false} RowsOfIsPrefix(items: seq<ParsedEvent>, k: nat, time: nat -> nat)
    requires k <= |items|
    ensures RowsOf(items[..k], time) <= RowsOf(items, time)
  {
    if k == |items| {
      assert items[..k] == items;
    } else {
      RowsOfIsPrefix(items[..|items| - 1], k, time);
      assert items[..|items| - 1][..k] == items[..k];
    }
  }

  /** `after` is `before` plus the first `n` rows of the window. */
  ghost predicate FirstRows(
    w: World, before: seq<EventRow>, after: seq<EventRow>, ix: Indexer, head: nat, from: nat, to: nat, n: nat)
  {
    n <= |WindowRows(w, ix, head, from, to)| && after == InsertAll(before, WindowRows(w, ix, head, from, to)[..n])
  }

  lemma {:induction false} PersistedRows(
    w: World, before: seq<EventRow>, after: seq<EventRow>, ix: Indexer, head: nat, from: nat, to: nat, answers: Answers)
    requires Faithful(w, ix, head, from, to, answers)
    requires WindowPersisted(before, after, w.cfg, ix, from, to, answers)
    ensures after == InsertAll(before, WindowRows(w, ix, head, from, to))
  {
    WindowNeedsAddresses(w, ix, head, from, to);
    SameTimesSameRows(ParseAll(w.cfg, ix, WindowLogs(w, ix, head, from, to)), answers.Time(), w.blockTime);
  }

  lemma {:induction false} InterruptedRows(
    w: World, before: seq<EventRow>, after: seq<EventRow>, ix: Indexer, head: nat, from: nat, to: nat, answers: Answers)
    returns (n: nat)
    requires Faithful(w, ix, head, from, to, answers)
    requires WindowInterrupted(before, after, w.cfg, ix, from, to, answers)
    ensures FirstRows(w, before, after, ix, head, from, to, n)
  {
    WindowNeedsAddresses(w, ix, head, from, to);
    n := 0;
    assert WindowRows(w, ix, head, from, to)[..0] == [];
    if Fetched(w.cfg, ix, from, to, answers).Some? {
      var items := ParseAll(w.cfg, ix, WindowLogs(w, ix, head, from, to));
      var k :| 0 <= k <= |items| && (Unstamped(items, answers.blockTimes) ==> k == 0)
               && after == InsertAll(before, RowsOf(items[..k], answers.Time()));
      if k > 0 {
        SameTimesSameRows(items, answers.Time(), w.blockTime);
        RowsOfIsPrefix(items, k, answers.Time());
        n := |RowsOf(items[..k], answers.Time())|;
        assert WindowRows(w, ix, head, from, to)[..n] == RowsOf(items[..k], answers.Time());
      }
    }
  }

  /** The state the service sees and leaves: the machine's, with the given tables. */
  function WithTables(s: State, rows: seq<EventRow>, cursors: map<Indexer, nat>, starts: map<Indexer, nat>): State {
    s.(rows := rows, cursors := cursors, starts := starts)
  }

  /**
   * Given true answers, every outcome `IndexBatch` promises, failures included, is what some
   * run of the machine leaves: same rows, same cursors, nothing else touched.
   */
  lemma {:induction false} TickMatchesMachine(
    w: World, s: State, t: nat, ix: Indexer, answers: Answers,
    rows: seq<EventRow>, cursors: map<Indexer, nat>, r: Result<IndexResult, IndexerError>)
    returns (actions: seq<Action>)
    requires t !in s.tasks && (answers.head.Some? ==> answers.head.value == s.head)
    requires forall from, to :: Faithful(w, ix, s.head, from, to, answers)
    requires TickOutcome(w.cfg, ix, answers, s.rows, s.cursors, rows, cursors, r)
    ensures exists starts :: Run(w, s, actions) == WithTables(s, rows, cursors, starts)
  {
    actions := [];
    assert s == WithTables(s, s.rows, s.cursors, s.starts);
    if answers.head.Some? && answers.cursorRead {
      var range := TickRange(w.cfg, ix, Lookup(s.cursors, ix), s.head);
      if range.Some? {
        var (from, to) := range.value;
        if WindowFails(w.cfg, ix, from, to, answers) {
          var n := InterruptedRows(w, s.rows, rows, ix, s.head, from, to, answers);
          actions := TickActions(t, ix, n) + [Crash(t)];
          CrashedTickIsRun(w, s, t, ix, from, to, n);
          assert Run(w, s, actions) == WithTables(s, rows, cursors, s.starts);
        } else {
          PersistedRows(w, s.rows, rows, ix, s.head, from, to, answers);
          var n := |WindowRows(w, ix, s.head, from, to)|;
          assert WindowRows(w, ix, s.head, from, to)[..n] == WindowRows(w, ix, s.head, from, to);
          if answers.cursorWritten {
            actions := TickActions(t, ix, n) + [Commit(t)];
            CommittedTickIsRun(w, s, t, ix, from, to);
            assert Run(w, s, actions) == WithTables(s, rows, cursors, s.starts[ix := CoverageStart(s, ix, from)]);
          } else {
            actions := TickActions(t, ix, n) + [Crash(t)];
            CrashedTickIsRun(w, s, t, ix, from, to, n);
            assert Run(w, s, actions) == WithTables(s, rows, cursors, s.starts);
          }
        }
      }
    }
  }

  function BackfillActions(t: nat, ix: Indexer, from: nat, to: nat, n: nat): seq<Action> {
    [BeginBackfill(t, ix, from, to)] + [Fetch(t)] + Inserts(t, n)
  }

  /** A backfill with its ends inverted, or of the older indexer, never starts. */
  lemma BackfillRefused(w: World, s: State, t: nat, ix: Indexer, from: nat, to: nat)
    requires to < from || ix == V3Liquidity
    ensures Step(w, s, BeginBackfill(t, ix, from, to)) == s
  {}

  /** The machine's backfill leaves the first rows of its window and every cursor alone. */
  lemma {:induction false} BackfillIsRun(w: World, s: State, t: nat, ix: Indexer, from: nat, to: nat, n: nat)
    requires t !in s.tasks && ix != V3Liquidity && from <= to
    requires n <= |WindowRows(w, ix, s.head, from, to)|
    ensures Run(w, s, BackfillActions(t, ix, from, to, n) + [Crash(t)])
         == s.(rows := InsertAll(s.rows, WindowRows(w, ix, s.head, from, to)[..n]))
  {
    var first := [BeginBackfill(t, ix, from, to)];
    RunOne(w, s, [], BeginBackfill(t, ix, from, to));
    assert [] + first == first;
    var ready := Ready(ix, from, to, false, from);
    var task := Persisting(ix, from, to, false, from, WindowRows(w, ix, s.head, from, to), 0);
    RunOne(w, s, first, Fetch(t));
    assert s.tasks[t := ready][t := task] == s.tasks[t := task];
    RunThenInserts(w, s, first + [Fetch(t)], s.(tasks := s.tasks[t := task]), t, task, n);
    RunOne(w, s, BackfillActions(t, ix, from, to, n), Crash(t));
    assert s.tasks[t := task][t := task.(done := n)] - {t} == s.tasks;
  }

  /** What `IndexRange` promises about the table is likewise what some backfill of the machine does. */
  lemma {:induction false} BackfillMatchesMachine(
    w: World, s: State, t: nat, ix: Indexer, from: nat, to: nat, answers: Answers, rows: seq<EventRow>)
    returns (actions: seq<Action>)
    requires t !in s.tasks && ix != V3Liquidity && from <= to
    requires Faithful(w, ix, s.head, from, to, answers)
    requires || WindowPersisted(s.rows, rows, w.cfg, ix, from, to, answers)
             || WindowInterrupted(s.rows, rows, w.cfg, ix, from, to, answers)
    ensures Run(w, s, actions) == s.(rows := rows)
  {
    var all := WindowRows(w, ix, s.head, from, to);
    var n := |all|;
    if WindowPersisted(s.rows, rows, w.cfg, ix, from, to, answers) {
      PersistedRows(w, s.rows, rows, ix, s.head, from, to, answers);
      assert all[..n] == all;
    } else {
      n := InterruptedRows(w, s.rows, rows, ix, s.head, from, to, answers);
    }
    actions := BackfillActions(t, ix, from, to, n) + [Crash(t)];
    BackfillIsRun(w, s, t, ix, from, to, n);
  }

  lemma WindowNeedsAddresses(w: World, ix: Indexer, head: nat, from: nat, to: nat)
    ensures SourceAddresses(w.cfg, ix) == [] ==> WindowLogs(w, ix, head, from, to) == []
  {
    var logs := WindowLogs(w, ix, head, from, to);
    if logs != [] {
      FilterMembers(InWindow(w.cfg, ix, head, from, to), w.chain, logs[0]);
    }
  }
}
