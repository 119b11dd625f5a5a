/**
 * The batch indexer and the cursor arithmetic of both indexers. RPC answers, clock-free
 * block timestamps and the point at which a database write fails are inputs.
 */
module BatchIndexer {
  import opened Common
  import opened LiquidityEvents
  import opened EventTable

  datatype Config = Config(
    positionManager: Option<Address>,
    v3Pools: seq<Address>,
    v4PoolManager: Option<Address>,
    genesisBlock: Option<nat>,
    batchSize: nat,
    deploymentBlock: nat)

  const DEFAULT_LOOKBACK: nat := 10_000
  const V3_INDEXER_MAX_RANGE: nat := 2_000
  const V3_INDEXER_CONFIRMATIONS: nat := 12

  function OneOrNone(a: Option<Address>): seq<Address> {
    match a case None => [] case Some(x) => [x]
  }

  function SourceAddresses(cfg: Config, ix: Indexer): seq<Address> {
    match ix
    case V3PositionManager => OneOrNone(cfg.positionManager)
    case V3Liquidity => OneOrNone(cfg.positionManager)
    case V3Pool => cfg.v3Pools
    case V4PoolManager => OneOrNone(cfg.v4PoolManager)
  }

  /** A decoded log: one that becomes an event row, or one that only touches pools and swaps. */
  datatype ParsedEvent =
    | EventItem(protocol: Protocol, event: LiquidityEvent)
    | StateItem(block: nat)
  {
    function Block(): nat {
      if EventItem? then event.blockNumber else block
    }
  }

  function V3Item(e: Option<LiquidityEvent>): Option<ParsedEvent> {
    match e case None => None case Some(event) => Some(EventItem(V3, event))
  }

  function ParseForSource(cfg: Config, ix: Indexer, log: RawLog): Option<ParsedEvent> {
    match ix
    case V3PositionManager =>
      if cfg.positionManager == Some(log.address) then V3Item(ParsePositionManagerLog(log)) else None
    case V3Liquidity =>
      if cfg.positionManager == Some(log.address) then V3Item(ParsePositionManagerLog(log)) else None
    case V3Pool => V3Item(ParsePoolLog(log, log.address))
    case V4PoolManager =>
      match log.body
      case V4Initialize(_) => Some(StateItem(log.blockNumber))
      case V4Swap(_, _) => Some(StateItem(log.blockNumber))
      case V4ModifyLiquidity(_, _, _, _, _) => Some(EventItem(V4, V4ModifyEvent(log)))
      case _ => None
  }

  function ParseAll(cfg: Config, ix: Indexer, logs: seq<RawLog>): (items: seq<ParsedEvent>) {
    if logs == [] then []
    else
      var front := ParseAll(cfg, ix, logs[..|logs| - 1]);
      match ParseForSource(cfg, ix, logs[|logs| - 1])
      case None => front
      case Some(item) => front + [item]
  }

  /** The event rows of a parsed batch, timestamps filled in. */
  function RowsOf(items: seq<ParsedEvent>, time: nat -> nat): seq<EventRow> {
    if items == [] then []
    else
      var front, item := RowsOf(items[..|items| - 1], time), items[|items| - 1];
      if item.EventItem?
      then front + [EventRow(item.protocol, item.event, time(item.event.blockNumber))]
      else front
  }

  // ─── Cursor arithmetic ────────────────────────────────────────────────────

  function StartBlock(cfg: Config, head: nat): nat {
    match cfg.genesisBlock
    case Some(g) => g
    case None => if head > DEFAULT_LOOKBACK then head - DEFAULT_LOOKBACK else 0
  }

  function FinalizedV3Head(latest: nat): nat {
    if latest > V3_INDEXER_CONFIRMATIONS then latest - V3_INDEXER_CONFIRMATIONS else 0
  }

  function NextV3IndexerRange(cursor: Option<nat>, latest: nat, deployment: nat): Option<(nat, nat)> {
    var from := if cursor.Some? then cursor.value else deployment;
    if from > latest then None
    else Some((from, if from + V3_INDEXER_MAX_RANGE - 1 < latest then from + V3_INDEXER_MAX_RANGE - 1 else latest))
  }

  /** The inclusive window a live tick works on, given its cursor and the head it observed. */
  function TickRange(cfg: Config, ix: Indexer, cursor: Option<nat>, head: nat): Option<(nat, nat)> {
    if ix == V3Liquidity then NextV3IndexerRange(cursor, FinalizedV3Head(head), cfg.deploymentBlock)
    else
      var from := if cursor.Some? then cursor.value else StartBlock(cfg, head);
      if from > head then None else Some((from, if from + cfg.batchSize > head then head else from + cfg.batchSize))
  }

  /** Where an indexer without a cursor begins. */
  function FirstBlock(cfg: Config, ix: Indexer, head: nat): nat {
    if ix == V3Liquidity then cfg.deploymentBlock else StartBlock(cfg, head)
  }

  /** Every window starts exactly at the cursor (or first block) and ends at a block already seen. */
  lemma TickRangeIsSeen(cfg: Config, ix: Indexer, cursor: Option<nat>, head: nat)
    requires TickRange(cfg, ix, cursor, head).Some?
    ensures var (from, to) := TickRange(cfg, ix, cursor, head).value;
            && from <= to <= head
            && from == (if cursor.Some? then cursor.value else FirstBlock(cfg, ix, head))
  {}

  /** A new indexer of the batch service starts at the configured block, else 10000 blocks back. */
  lemma FirstWindow(cfg: Config, ix: Indexer, head: nat)
    requires ix != V3Liquidity && TickRange(cfg, ix, None, head).Some?
    ensures var (from, _) := TickRange(cfg, ix, None, head).value;
            && (cfg.genesisBlock.Some? ==> from == cfg.genesisBlock.value)
            && (cfg.genesisBlock.None? && head > 10_000 ==> from + 10_000 == head)
            && (cfg.genesisBlock.None? && head <= 10_000 ==> from == 0)
  {}

  /**
   * The batch service's window is as long as the batch size allows and the head lets it be;
   * there is none exactly when the cursor is past the head.
   */
  lemma BatchWindow(cfg: Config, ix: Indexer, cursor: nat, head: nat)
    requires ix != V3Liquidity
    ensures var range := TickRange(cfg, ix, Some(cursor), head);
            && (range.None? <==> cursor > head)
            && (range.Some? ==>
                  && range.value.0 == cursor
                  && range.value.1 - range.value.0 <= cfg.batchSize
                  && (range.value.1 == head || range.value.1 - range.value.0 == cfg.batchSize))
  {}

  /**
   * The older indexer's window holds at most 2000 blocks and stops twelve short of the head;
   * it is as long as both allow, and starts at the deployment block without a cursor.
   */
  lemma V3Window(cfg: Config, cursor: Option<nat>, head: nat)
    ensures var range, safe := TickRange(cfg, V3Liquidity, cursor, head), if head > 12 then head - 12 else 0;
            var first := if cursor.Some? then cursor.value else cfg.deploymentBlock;
            && (range.None? <==> first > safe)
            && (range.Some? ==>
                  && range.value.0 == first && first <= range.value.1 <= safe
                  && range.value.1 - first + 1 <= 2_000
                  && (range.value.1 == safe || range.value.1 - first + 1 == 2_000))
  {}

  // ─── The service ──────────────────────────────────────────────────────────

  datatype IndexResult = IndexResult(fromBlock: nat, toBlock: nat, eventsProcessed: nat, cursorAdvanced: bool)

  datatype IndexerError = RpcFailed | CursorFailed | PersistFailed | InvalidRange

  /** A timestamp map as the writer reads it: a missing block counts as time zero. */
  function TimeIn(times: map<nat, nat>): nat -> nat {
    (b: nat) => if b in times then times[b] else 0
  }

  /**
   * The environment of one call: what the node answers, by block range for logs, and which
   * database requests fail. `None` or a missing block is a failed request.
   */
  datatype Answers = Answers(
    head: Option<nat>,
    cursorRead: bool,
    logs: (nat, nat) -> Option<seq<RawLog>>,
    blockTimes: map<nat, nat>,
    insertsBeforeFailure: Option<nat>,
    cursorWritten: bool)
  {
    function Time(): nat -> nat {
      TimeIn(blockTimes)
    }
  }

  /** The logs a window gets: none are requested when the source has no contract. */
  function Fetched(cfg: Config, ix: Indexer, from: nat, to: nat, answers: Answers): Option<seq<RawLog>> {
    if SourceAddresses(cfg, ix) == [] then Some([]) else answers.logs(from, to)
  }

  /** `after` is `before` plus the rows of all items, every one of them stamped. */
  ghost predicate Persisted(before: seq<EventRow>, after: seq<EventRow>, items: seq<ParsedEvent>, answers: Answers) {
    !Unstamped(items, answers.blockTimes) && after == InsertAll(before, RowsOf(items, answers.Time()))
  }

  /** `after` is `before` plus the rows of the first few items; none without all timestamps. */
  ghost predicate Interrupted(before: seq<EventRow>, after: seq<EventRow>, items: seq<ParsedEvent>, answers: Answers) {
    exists k | 0 <= k <= |items| ::
      && (Unstamped(items, answers.blockTimes) ==> k == 0)
      && after == InsertAll(before, RowsOf(items[..k], answers.Time()))
  }

  lemma UntouchedIsInterrupted(before: seq<EventRow>, items: seq<ParsedEvent>, answers: Answers)
    ensures Interrupted(before, before, items, answers)
  {
    assert items[..0] == [];
    assert before == InsertAll(before, RowsOf(items[..0], answers.Time()));
  }

  lemma {:induction false} SameTimes(items: seq<ParsedEvent>, times: map<nat, nat>, answers: Answers)
    requires forall i :: 0 <= i < |items| ==>
               && items[i].Block() in times && items[i].Block() in answers.blockTimes
               && times[items[i].Block()] == answers.blockTimes[items[i].Block()]
    ensures RowsOf(items, TimeIn(times)) == RowsOf(items, answers.Time())
  {
    if items != [] {
      SameTimes(items[..|items| - 1], times, answers);
    }
  }

  lemma StoppedIsInterrupted(before: seq<EventRow>, items: seq<ParsedEvent>, k: nat, answers: Answers)
    requires k <= |items| && !Unstamped(items, answers.blockTimes)
    ensures Interrupted(before, InsertAll(before, RowsOf(items[..k], answers.Time())), items, answers)
  {}

  /** The window was fetched, decoded and persisted whole. */
  ghost predicate WindowPersisted(
    before: seq<EventRow>, after: seq<EventRow>, cfg: Config, ix: Indexer, from: nat, to: nat, answers: Answers)
  {
    var logs := Fetched(cfg, ix, from, to, answers);
    logs.Some? && Persisted(before, after, ParseAll(cfg, ix, logs.value), answers)
  }

  /** The window was not fetched and nothing written, or only its first rows were. */
  ghost predicate WindowInterrupted(
    before: seq<EventRow>, after: seq<EventRow>, cfg: Config, ix: Indexer, from: nat, to: nat, answers: Answers)
  {
    var logs := Fetched(cfg, ix, from, to, answers);
    if logs.None? then after == before else Interrupted(before, after, ParseAll(cfg, ix, logs.value), answers)
  }

  lemma UntouchedIsWindowInterrupted(
    before: seq<EventRow>, cfg: Config, ix: Indexer, from: nat, to: nat, answers: Answers)
    ensures WindowInterrupted(before, before, cfg, ix, from, to, answers)
  {
    var logs := Fetched(cfg, ix, from, to, answers);
    if logs.Some? {
      UntouchedIsInterrupted(before, ParseAll(cfg, ix, logs.value), answers);
    }
  }

  /** The window needs fetching, timestamps and inserts; this is when one of them fails. */
  ghost predicate WindowFails(cfg: Config, ix: Indexer, from: nat, to: nat, answers: Answers) {
    var logs := Fetched(cfg, ix, from, to, answers);
    logs.None? || PersistFails(ParseAll(cfg, ix, logs.value), answers)
  }

  ghost predicate PersistFails(items: seq<ParsedEvent>, answers: Answers) {
    || Unstamped(items, answers.blockTimes)
    || (answers.insertsBeforeFailure.Some? && answers.insertsBeforeFailure.value < |items|)
  }

  /**
   * What a live tick may leave behind. The cursor moves only when it could be read and
   * written, and then the whole window is in the table; any failure leaves it alone.
   */
  ghost predicate TickOutcome(
    cfg: Config, ix: Indexer, answers: Answers,
    events: seq<EventRow>, cursors: map<Indexer, nat>, events': seq<EventRow>, cursors': map<Indexer, nat>,
    r: Result<IndexResult, IndexerError>)
  {
    if answers.head.None? || !answers.cursorRead then
      r.Err? && events' == events && cursors' == cursors
    else
      match TickRange(cfg, ix, Lookup(cursors, ix), answers.head.value)
      case None =>
        r.Ok? && !r.value.cursorAdvanced && events' == events && cursors' == cursors
      case Some((from, to)) =>
        if WindowFails(cfg, ix, from, to, answers) then
          r.Err? && cursors' == cursors && WindowInterrupted(events, events', cfg, ix, from, to, answers)
        else
          && WindowPersisted(events, events', cfg, ix, from, to, answers)
          && if answers.cursorWritten
             then r.Ok? && r.value == IndexResult(from, to, r.value.eventsProcessed, true) && cursors' == cursors[ix := to + 1]
             else r == Err(CursorFailed) && cursors' == cursors
  }

  ghost predicate Unstamped(items: seq<ParsedEvent>, times: map<nat, nat>) {
    exists i :: 0 <= i < |items| && items[i].Block() !in times
  }

  lemma {:induction false} RowsOfPrefix(items: seq<ParsedEvent>, k: nat, time: nat -> nat)
    requires k < |items|
    ensures RowsOf(items[..k + 1], time)
         == if items[k].EventItem?
            then RowsOf(items[..k], time) + [EventRow(items[k].protocol, items[k].event, time(items[k].event.blockNumber))]
            else RowsOf(items[..k], time)
  {
    assert items[..k + 1][..k] == items[..k];
  }

  lemma InsertAllSnoc(rows: seq<EventRow>, more: seq<EventRow>, r: EventRow)
    ensures InsertAll(rows, more + [r]) == InsertIgnore(InsertAll(rows, more), r)
  {
    assert (more + [r])[..|more + [r]| - 1] == more;
  }

  lemma SameLookupsSameMap(a: map<Indexer, nat>, b: map<Indexer, nat>)
    requires forall ix :: Lookup(a, ix) == Lookup(b, ix)
    ensures a == b
  {
    forall ix ensures ix in a <==> ix in b {
      assert Lookup(a, ix) == Lookup(b, ix);
    }
    forall ix | ix in a ensures a[ix] == b[ix] {
      assert Lookup(a, ix) == Lookup(b, ix);
    }
  }

  class IndexerService {
    const cfg: Config
    const db: Database

    constructor (cfg: Config, db: Database)
      ensures this.cfg == cfg && this.db == db
    {
      this.cfg, this.db := cfg, db;
    }

    /** Block timestamps for a batch; fails on the first block the RPC cannot give. */
    method LoadTimestamps(items: seq<ParsedEvent>, answers: Answers) returns (times: Option<map<nat, nat>>)
      ensures times.None? <==> Unstamped(items, answers.blockTimes)
      ensures times.Some? ==>
                forall i :: 0 <= i < |items| ==>
                  items[i].Block() in times.value && times.value[items[i].Block()] == answers.blockTimes[items[i].Block()]
    {
      var byBlock: map<nat, nat> := map[];
      for i := 0 to |items|
        invariant forall b :: b in byBlock ==> b in answers.blockTimes && byBlock[b] == answers.blockTimes[b]
        invariant forall j :: 0 <= j < i ==> items[j].Block() in byBlock
      {
        var b := items[i].Block();
        if b in byBlock { continue; }
        if b !in answers.blockTimes {
          return None;
        }
        byBlock := byBlock[b := answers.blockTimes[b]];
      }
      times := Some(byBlock);
    }

    method Decode(ix: Indexer, logs: seq<RawLog>) returns (parsed: seq<ParsedEvent>)
      ensures parsed == ParseAll(cfg, ix, logs)
    {
      parsed := [];
      for i := 0 to |logs|
        invariant parsed == ParseAll(cfg, ix, logs[..i])
      {
        assert logs[..i + 1][..i] == logs[..i];
        var item := ParseForSource(cfg, ix, logs[i]);
        if item.Some? {
          parsed := parsed + [item.value];
        }
      }
      assert logs[..|logs|] == logs;
    }

    /** Writes the event rows one by one until an insert fails; `written` items are dealt with. */
    method WriteRows(parsed: seq<ParsedEvent>, times: map<nat, nat>, failAt: Option<nat>) returns (written: nat)
      requires forall i :: 0 <= i < |parsed| ==> parsed[i].Block() in times
      modifies db`events
      ensures written == if failAt.Some? then Min(failAt.value, |parsed|) else |parsed|
      ensures db.events == InsertAll(old(db.events), RowsOf(parsed[..written], TimeIn(times)))
    {
      written := 0;
      while written < |parsed| && failAt != Some(written)
        invariant written <= |parsed| && (failAt.Some? ==> written <= failAt.value)
        invariant db.events == InsertAll(old(db.events), RowsOf(parsed[..written], TimeIn(times)))
      {
        RowsOfPrefix(parsed, written, TimeIn(times));
        var item := parsed[written];
        if item.EventItem? {
          var row := EventRow(item.protocol, item.event, times[item.Block()]);
          InsertAllSnoc(old(db.events), RowsOf(parsed[..written], TimeIn(times)), row);
          db.InsertLiquidityEvent(row);
        }
        written := written + 1;
      }
    }

    /**
     * Decodes the logs and writes their rows. A failure leaves the rows of a prefix behind
     * and nothing else.
     */
    method PersistBatch(ix: Indexer, logs: seq<RawLog>, answers: Answers) returns (r: Result<nat, IndexerError>)
      modifies db`events
      ensures r.Ok? ==> r.value == |ParseAll(cfg, ix, logs)| && Persisted(old(db.events), db.events, ParseAll(cfg, ix, logs), answers)
      ensures r.Err? ==> Interrupted(old(db.events), db.events, ParseAll(cfg, ix, logs), answers)
      ensures r.Err? <==> PersistFails(ParseAll(cfg, ix, logs), answers)
    {
      var parsed := Decode(ix, logs);
      if |parsed| == 0 {
        return Ok(0);
      }
      var times := LoadTimestamps(parsed, answers);
      if times.None? {
        UntouchedIsInterrupted(db.events, parsed, answers);
        return Err(PersistFailed);
      }
      var written := WriteRows(parsed, times.value, answers.insertsBeforeFailure);
      SameTimes(parsed[..written], times.value, answers);
      StoppedIsInterrupted(old(db.events), parsed, written, answers);
      if written < |parsed| {
        return Err(PersistFailed);
      }
      assert parsed[..|parsed|] == parsed;
      r := Ok(|parsed|);
    }

    /** Fetches, decodes and persists one block range; never touches a cursor. */
    method IndexWindow(ix: Indexer, from: nat, to: nat, answers: Answers) returns (r: Result<nat, IndexerError>)
      modifies db`events
      ensures r.Ok? ==> WindowPersisted(old(db.events), db.events, cfg, ix, from, to, answers)
      ensures r.Err? ==> WindowInterrupted(old(db.events), db.events, cfg, ix, from, to, answers)
      ensures r.Err? <==> WindowFails(cfg, ix, from, to, answers)
    {
      var fetched: seq<RawLog> := [];
      if SourceAddresses(cfg, ix) != [] {
        var logs := answers.logs(from, to);
        if logs.None? {
          return Err(RpcFailed);
        }
        fetched := logs.value;
      }
      r := PersistBatch(ix, fetched, answers);
    }

    /**
     * One live tick. Rows are persisted before the cursor moves, so the cursor moves exactly
     * when the whole window is in the table, and only to the block after it.
     */
    method IndexBatch(ix: Indexer, answers: Answers) returns (r: Result<IndexResult, IndexerError>)
      requires ix != V3Liquidity
      modifies db`events, db`cursors
      ensures TickOutcome(cfg, ix, answers, old(db.events), old(db.cursors), db.events, db.cursors, r)
    {
      if answers.head.None? {
        return Err(RpcFailed);
      }
      var head := answers.head.value;
      if !answers.cursorRead {
        return Err(CursorFailed);
      }
      var cursor := db.GetIndexerCursor(ix);
      assert cursor == Lookup(db.cursors, ix);
      var fromBlock := if cursor.Some? then cursor.value else StartBlock(cfg, head);
      var toBlock := if fromBlock + cfg.batchSize > head then head else fromBlock + cfg.batchSize;
      if fromBlock > head {
        return Ok(IndexResult(fromBlock, head, 0, false));
      }
      var processed := IndexWindow(ix, fromBlock, toBlock, answers);
      if processed.Err? {
        return Err(processed.error);
      }
      if !answers.cursorWritten {
        return Err(CursorFailed);
      }
      db.SetIndexerCursor(ix, toBlock + 1);
      SameLookupsSameMap(db.cursors, old(db.cursors)[ix := toBlock + 1]);
      r := Ok(IndexResult(fromBlock, toBlock, processed.value, true));
    }

    /** Backfills a fixed range; the cursor stays where the live tick left it. */
    method IndexRange(ix: Indexer, fromBlock: nat, toBlock: nat, answers: Answers)
      returns (r: Result<IndexResult, IndexerError>)
      modifies db`events
      ensures toBlock < fromBlock ==> r == Err(InvalidRange) && db.events == old(db.events)
      ensures toBlock >= fromBlock ==> (r.Err? <==> WindowFails(cfg, ix, fromBlock, toBlock, answers))
      ensures r.Err? ==> WindowInterrupted(old(db.events), db.events, cfg, ix, fromBlock, toBlock, answers)
      ensures r.Ok? ==> r.value == IndexResult(fromBlock, toBlock, r.value.eventsProcessed, false)
                        && WindowPersisted(old(db.events), db.events, cfg, ix, fromBlock, toBlock, answers)
    {
      if toBlock < fromBlock {
        UntouchedIsWindowInterrupted(db.events, cfg, ix, fromBlock, toBlock, answers);
        return Err(InvalidRange);
      }
      var processed := IndexWindow(ix, fromBlock, toBlock, answers);
      if processed.Err? {
        return Err(processed.error);
      }
      r := Ok(IndexResult(fromBlock, toBlock, processed.value, false));
    }
  }
}
