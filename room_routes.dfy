/** The older `availability` handler of api/src/v1/rooms/routes.rs: the same
    classification and widening as `get_availability`, but over an arbitrary
    query period whose bounds may be of any kind. */
module RoomRoutes {
  import opened Intervals
  import opened Wrappers
  import opened Models
  import opened Store
  import opened Calendar
  import RoomDomain

  datatype RoomError = Unauthorized | InternalError | NotFound
  datatype RoomAvailability = RoomAvailability(roomId: Uuid, period: Interval, blocks: seq<CalendarBlock>)

  function Availability(user: SessionUser, poolOk: bool, roomId: Uuid, query: Interval, blocks: seq<Block>, bookings: map<Uuid, Booking>, maintenance: map<Uuid, Maintenance>): (res: Result<RoomAvailability, RoomError>)
    ensures res == Err(Unauthorized) <==> user.staffId.None?
    ensures res == Err(InternalError) <==> user.staffId.Some? && !poolOk
    ensures res == Err(NotFound) <==> user.staffId.Some? && poolOk && Reversed(query)
    ensures res.Ok? ==>
      && res.value.roomId == roomId
      && (forall c :: c in res.value.blocks ==>
            exists b :: b in blocks && Matches(b, roomId, query) && c.id == b.id && c.period == b.interval)
      && (forall b :: b in blocks && Matches(b, roomId, query) ==>
            exists c :: c in res.value.blocks && c.id == b.id && c.period == b.interval)
      && (res.value.blocks == [] ==> res.value.period == query)
      && LowerCmp(res.value.period.lo, query.lo) != Greater
      && UpperCmp(res.value.period.hi, query.hi) != Less
    ensures res.Ok? ==>
      && res.value.blocks == RoomDomain.CalendarOf(blocks, bookings, maintenance, roomId, query)
      && res.value.period == Widen(query, res.value.blocks)
  {
    if user.staffId.None? then Err(Unauthorized)
    else if !poolOk then Err(InternalError)
    else if Reversed(query) then Err(NotFound)
    else
      var calendar := RoomDomain.CalendarOf(blocks, bookings, maintenance, roomId, query);
      Ok(RoomAvailability(roomId, Widen(query, calendar), calendar))
  }

  /** On a half-open period the older handler answers exactly as
      `get_availability` does. */
  lemma AvailabilityAgreesWithGetAvailability(user: SessionUser, poolOk: bool, options: RoomDomain.GetAvailabilityOptions, blocks: seq<Block>, bookings: map<Uuid, Booking>, maintenance: map<Uuid, Maintenance>)
    ensures var old_ := Availability(user, poolOk, options.roomId, HalfOpen(options.start, options.end), blocks, bookings, maintenance);
      var new_ := RoomDomain.GetAvailability(user, poolOk, options, blocks, bookings, maintenance);
      && (old_.Ok? <==> new_.Ok?)
      && (old_.Ok? ==> old_.value.period == new_.value.period && old_.value.blocks == new_.value.blocks)
  {
  }

  /** On a table that keeps its exclusion constraint, the returned period
      holds the whole query period and the whole of every returned block. */
  lemma AvailabilityCoversBlocks(user: SessionUser, roomId: Uuid, query: Interval, blocks: seq<Block>, bookings: map<Uuid, Booking>, maintenance: map<Uuid, Maintenance>, k: int)
    requires NoOverlap(blocks)
    requires Availability(user, true, roomId, query, blocks, bookings, maintenance).Ok?
    ensures var res := Availability(user, true, roomId, query, blocks, bookings, maintenance).value;
      && (Contains(query, k) ==> Contains(res.period, k))
      && (forall c :: c in res.blocks && Contains(c.period, k) ==> Contains(res.period, k))
  {
    var calendar := RoomDomain.CalendarOf(blocks, bookings, maintenance, roomId, query);
    var r := OverlappingBlocks(blocks, roomId, query);
    assert Availability(user, true, roomId, query, blocks, bookings, maintenance).value
      == RoomAvailability(roomId, Widen(query, calendar), calendar);
    forall i, j | 0 <= i <= j < |calendar|
      ensures LowerCmp(calendar[i].period.lo, calendar[j].period.lo) != Greater
        && UpperCmp(calendar[i].period.hi, calendar[j].period.hi) != Greater
    {
      assert calendar[i].period == r[i].interval && calendar[j].period == r[j].interval;
      OverlappingBlocksOrdered(blocks, roomId, query, i, j);
    }
    WidenCoversEveryBlock(query, calendar, k);
  }
}
