/**
 * The tables the indexers and the position service share: liquidity events keyed by
 * (transaction, log index), one cursor row per indexer, and the recorded positions.
 */
module EventTable {
  import opened Common
  import opened Sorting
  import opened LiquidityEvents
  import opened PositionReducer

  datatype Protocol = V3 | V4

  datatype EventRow = EventRow(protocol: Protocol, event: LiquidityEvent, blockTimestamp: nat)

  /** Names of the cursor rows: three sources of the batch indexer and the older v3 indexer. */
  datatype Indexer = V3PositionManager | V3Pool | V4PoolManager | V3Liquidity

  datatype PositionRow = PositionRow(
    userAddress: Address, liquidity: int, amount0: int, amount1: int, fees0: int, fees1: int,
    costBasis0: int, costBasis1: int, isActive: bool)

  predicate SameKey(a: EventRow, b: EventRow) {
    a.event.txHash == b.event.txHash && a.event.logIndex == b.event.logIndex
  }

  predicate RowLeq(a: EventRow, b: EventRow) {
    ChainLeq(a.event, b.event)
  }

  /** INSERT ... ON CONFLICT(tx_hash, log_index) DO NOTHING. */
  function InsertIgnore(rows: seq<EventRow>, r: EventRow): seq<EventRow> {
    if exists q :: q in rows && SameKey(q, r) then rows else rows + [r]
  }

  function InsertAll(rows: seq<EventRow>, more: seq<EventRow>): seq<EventRow> {
    if more == [] then rows else InsertIgnore(InsertAll(rows, more[..|more| - 1]), more[|more| - 1])
  }

  function Matches(protocol: Protocol, t: TokenId): EventRow -> bool {
    (r: EventRow) => r.protocol == protocol && r.event.tokenId == Some(t)
  }

  /** SELECT ... WHERE protocol, token ORDER BY block_number, log_index. */
  function SelectEvents(rows: seq<EventRow>, protocol: Protocol, t: TokenId): seq<EventRow> {
    Sort(RowLeq, Filter(Matches(protocol, t), rows))
  }

  lemma {:induction false} FilterMultiplicity(p: EventRow -> bool, rows: seq<EventRow>, r: EventRow)
    requires p(r)
    ensures multiset(Filter(p, rows))[r] == multiset(rows)[r]
  {
    if rows != [] {
      FilterMultiplicity(p, rows[1..], r);
      assert rows == [rows[0]] + rows[1..];
    }
  }

  lemma {:induction false} SelectionExact(rows: seq<EventRow>, protocol: Protocol, t: TokenId)
    ensures var picked := SelectEvents(rows, protocol, t);
            && Sorted(RowLeq, picked)
            && (forall r :: r in picked <==> r in rows && r.protocol == protocol && r.event.tokenId == Some(t))
            && (forall r :: r in picked ==> multiset(picked)[r] == multiset(rows)[r])
  {
    var p := Matches(protocol, t);
    var found := Filter(p, rows);
    SortSorts(RowLeq, found);
    SortPermutes(RowLeq, found);
    forall r ensures r in Sort(RowLeq, found) <==> r in rows && p(r) {
      SortMembers(RowLeq, found, r);
      FilterMembers(p, rows, r);
    }
    forall r | r in Sort(RowLeq, found) ensures multiset(Sort(RowLeq, found))[r] == multiset(rows)[r] {
      FilterMultiplicity(p, rows, r);
    }
  }

  function EventsOf(rows: seq<EventRow>): (events: seq<LiquidityEvent>)
    ensures |events| == |rows|
    ensures forall i :: 0 <= i < |rows| ==> events[i] == rows[i].event
  {
    seq(|rows|, i requires 0 <= i < |rows| => rows[i].event)
  }

  function PositionRowOf(user: Address, s: PositionState): PositionRow {
    PositionRow(user, s.liquidity, s.amount0, s.amount1, s.fees0, s.fees1, s.costBasis0, s.costBasis1, s.isActive)
  }

  class Database {
    var events: seq<EventRow>
    var cursors: map<Indexer, nat>
    var positions: map<TokenId, PositionRow>

    constructor ()
      ensures events == [] && cursors == map[] && positions == map[]
    {
      events, cursors, positions := [], map[], map[];
    }

    /** A row with a known key changes nothing, any other is appended; its key is known afterwards. */
    method InsertLiquidityEvent(row: EventRow)
      modifies this`events
      ensures var known := exists q :: q in old(events) && q.event.txHash == row.event.txHash
                                       && q.event.logIndex == row.event.logIndex;
              events == if known then old(events) else old(events) + [row]
    {
      events := InsertIgnore(events, row);
      assert (exists q :: q in old(events) && q.event.txHash == row.event.txHash && q.event.logIndex == row.event.logIndex)
        <==> (exists q :: q in old(events) && SameKey(q, row));
    }

    method GetIndexerCursor(indexer: Indexer) returns (next: Option<nat>)
      ensures next.Some? <==> indexer in cursors
      ensures next.Some? ==> next.value == cursors[indexer]
    {
      next := Lookup(cursors, indexer);
    }

    method SetIndexerCursor(indexer: Indexer, next: nat)
      modifies this`cursors
      ensures indexer in cursors && cursors[indexer] == next
      ensures forall other :: other != indexer ==> Lookup(cursors, other) == Lookup(old(cursors), other)
    {
      cursors := cursors[indexer := next];
    }

    /** The token's rows of the protocol, each as often as it is in the table, in chain order. */
    method ListLiquidityEvents(protocol: Protocol, t: TokenId) returns (rows: seq<EventRow>)
      ensures rows == SelectEvents(events, protocol, t)
      ensures Sorted(RowLeq, rows)
      ensures forall r :: r in rows <==> r in events && r.protocol == protocol && r.event.tokenId == Some(t)
      ensures forall r :: r in rows ==> multiset(rows)[r] == multiset(events)[r]
      ensures forall i, j :: 0 <= i < j < |rows| ==>
                || rows[i].event.blockNumber < rows[j].event.blockNumber
                || (rows[i].event.blockNumber == rows[j].event.blockNumber && rows[i].event.logIndex <= rows[j].event.logIndex)
    {
      rows := SelectEvents(events, protocol, t);
      SelectionExact(events, protocol, t);
    }

    /** Updates the position row of a token; reports whether there was one. */
    method UpdateLiquidityPosition(t: TokenId, row: PositionRow) returns (found: bool)
      modifies this`positions
      ensures found == (t in old(positions))
      ensures positions == if found then old(positions)[t := row] else old(positions)
    {
      found := t in positions;
      if found {
        positions := positions[t := row];
      }
    }

    /**
     * Rebuilds one position from its event rows. Nothing is written unless the reduced
     * owner is the caller and a position row exists.
     */
    method ReconcileV3Position(user: Address, t: TokenId) returns (r: Option<PositionRow>)
      modifies this`positions
      ensures var state := Lookup(Reduce(EventsOf(SelectEvents(events, V3, t))), t);
              if state.Some? && state.value.ownerAddress == Some(user) && t in old(positions)
              then r == Some(PositionRowOf(user, state.value)) && positions == old(positions)[t := r.value]
              else r == None && positions == old(positions)
      ensures r.Some? ==>
                var s := Reduce(EventsOf(SelectEvents(events, V3, t)))[t];
                && r.value.userAddress == user
                && r.value.liquidity == s.liquidity && r.value.amount0 == s.amount0 && r.value.amount1 == s.amount1
                && r.value.fees0 == s.fees0 && r.value.fees1 == s.fees1
                && r.value.costBasis0 == s.costBasis0 && r.value.costBasis1 == s.costBasis1 && r.value.isActive == s.isActive
    {
      var rows := ListLiquidityEvents(V3, t);
      var states := ReduceV3PositionEvents(EventsOf(rows));
      if t !in states || states[t].ownerAddress != Some(user) {
        return None;
      }
      var row := PositionRowOf(user, states[t]);
      var found := UpdateLiquidityPosition(t, row);
      r := if found then Some(row) else None;
    }
  }
}
