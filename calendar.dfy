/** The availability view shared by `get_availability`
    (infra/src/domains/room/mod.rs) and the older `availability` handler
    (api/src/v1/rooms/routes.rs): each loaded block classified by what
    occupies it, and the query period widened to the blocks it touches. */
module Calendar {
  import opened Intervals
  import opened Wrappers
  import Models

  /** What occupies a block; a booking takes precedence over maintenance. */
  datatype BlockKind = Booking | Maintenance | Unknown

  /** A block as the calendar shows it (`label` is reserved in Dafny). */
  datatype CalendarBlock = CalendarBlock(id: Models.Uuid, period: Interval, kind: BlockKind, labelText: Option<string>)

  /** One row of `blocks LEFT JOIN bookings LEFT JOIN maintenance`. */
  datatype Row = Row(block: Models.Block, booking: Option<Models.Booking>, maintenance: Option<Models.Maintenance>)

  /** The two left joins on `block_id`, the primary key of both joined tables. */
  function JoinAll(blocks: seq<Models.Block>, bookings: map<Models.Uuid, Models.Booking>, maintenance: map<Models.Uuid, Models.Maintenance>): (rows: seq<Row>)
    ensures |rows| == |blocks|
    ensures forall i :: 0 <= i < |rows| ==>
      && rows[i].block == blocks[i]
      && (rows[i].booking.Some? <==> blocks[i].id in bookings)
      && (rows[i].booking.Some? ==> rows[i].booking.value == bookings[blocks[i].id])
      && (rows[i].maintenance.Some? <==> blocks[i].id in maintenance)
      && (rows[i].maintenance.Some? ==> rows[i].maintenance.value == maintenance[blocks[i].id])
  {
    seq(|blocks|, i requires 0 <= i < |blocks| =>
      var id := blocks[i].id;
      Row(blocks[i],
          if id in bookings then Some(bookings[id]) else None,
          if id in maintenance then Some(maintenance[id]) else None))
  }

  /** A booking makes a Booking block labelled with its status; otherwise
      maintenance makes a Maintenance block labelled with its kind; otherwise
      the block is Unknown and has no label. */
  function Classify(row: Row): (c: CalendarBlock)
    ensures c.id == row.block.id && c.period == row.block.interval
    ensures c.kind == Booking <==> row.booking.Some?
    ensures c.kind == Maintenance <==> row.booking.None? && row.maintenance.Some?
    ensures c.labelText.None? <==> c.kind == Unknown
    ensures c.kind == Booking ==> c.labelText == Some(row.booking.value.status.Name())
    ensures c.kind == Maintenance ==> c.labelText == Some(row.maintenance.value.kind.Name())
  {
    match (row.booking, row.maintenance)
    case (Some(booking), _) => CalendarBlock(row.block.id, row.block.interval, Booking, Some(booking.status.Name()))
    case (None, Some(m)) => CalendarBlock(row.block.id, row.block.interval, Maintenance, Some(m.kind.Name()))
    case (None, None) => CalendarBlock(row.block.id, row.block.interval, Unknown, None)
  }

  /** `into_iter().map(...).collect()`: one calendar block per row, in row order. */
  function ClassifyAll(rows: seq<Row>): (r: seq<CalendarBlock>)
    ensures |r| == |rows|
    ensures forall i :: 0 <= i < |r| ==> r[i] == Classify(rows[i])
  {
    if rows == [] then [] else [Classify(rows[0])] + ClassifyAll(rows[1..])
  }

  /** The period returned: the query period when no block was loaded, else
      its lower bound lowered to the first block's and its upper bound raised
      to the last block's. */
  function Widen(query: Interval, blocks: seq<CalendarBlock>): (p: Interval)
    ensures blocks == [] ==> p == query
    ensures LowerCmp(p.lo, query.lo) != Greater && UpperCmp(p.hi, query.hi) != Less
    ensures blocks != [] ==>
      && LowerCmp(p.lo, blocks[0].period.lo) != Greater
      && UpperCmp(p.hi, blocks[|blocks| - 1].period.hi) != Less
    ensures p.lo == query.lo || (blocks != [] && p.lo == blocks[0].period.lo)
    ensures p.hi == query.hi || (blocks != [] && p.hi == blocks[|blocks| - 1].period.hi)
  {
    if blocks == [] then query
    else Interval(LowerMin(query.lo, blocks[0].period.lo), UpperMax(query.hi, blocks[|blocks| - 1].period.hi))
  }

  /** Blocks that ascend by both bounds (what the overlap query returns from
      a table that keeps its exclusion constraint). */
  predicate Ascending(blocks: seq<CalendarBlock>) {
    forall i, j :: 0 <= i <= j < |blocks| ==>
      LowerCmp(blocks[i].period.lo, blocks[j].period.lo) != Greater
      && UpperCmp(blocks[i].period.hi, blocks[j].period.hi) != Greater
  }

  /** Why first-and-last is enough: on ascending blocks the widened period
      holds every point of the query and of every block. */
  lemma WidenCoversEveryBlock(query: Interval, blocks: seq<CalendarBlock>, k: int)
    requires Ascending(blocks)
    ensures Contains(query, k) ==> Contains(Widen(query, blocks), k)
    ensures forall i :: 0 <= i < |blocks| && Contains(blocks[i].period, k) ==> Contains(Widen(query, blocks), k)
  {
    var p := Widen(query, blocks);
    if Contains(query, k) {
      WiderBoundsContain(query, p, k);
    }
    forall i | 0 <= i < |blocks| && Contains(blocks[i].period, k)
      ensures Contains(p, k)
    {
      var first, last, b := blocks[0].period, blocks[|blocks| - 1].period, blocks[i].period;
      LowerCmpIsTotalOrder(p.lo, first.lo, b.lo);
      UpperCmpIsTotalOrder(b.hi, last.hi, p.hi);
      UpperCmpIsTotalOrder(p.hi, last.hi, b.hi);
      UpperCmpIsTotalOrder(last.hi, p.hi, p.hi);
      WiderBoundsContain(b, p, k);
    }
  }
}
